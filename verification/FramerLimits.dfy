/** How large events may be: the exact bounds for losing nothing and for writing only whole events, each shown by
    streams of back-to-back events. */
module FramerLimits {
  import opened Basics
  import opened Readout
  import opened Framer
  import opened FramerProofs
  import opened FramerRefinement
  import opened FramerResults

  // ---------------------------------------------------------------- back-to-back events

  function Zeros(m: nat): seq<Item> {
    if m == 0 then [] else Zeros(m - 1) + [Data(0)]
  }

  predicate EventSizes(sizes: seq<nat>) {
    forall k :: 0 <= k < |sizes| ==> sizes[k] >= 2
  }

  /** Events of the given numbers of words, back to back. */
  function Convoy(sizes: seq<nat>): seq<Item>
    requires EventSizes(sizes)
  {
    if sizes == [] then []
    else Convoy(sizes[..|sizes| - 1]) + [Data(EVENT_START)] + Zeros(sizes[|sizes| - 1] - 2) + [Data(EVENT_END)]
  }

  function Sum(sizes: seq<nat>): nat {
    if sizes == [] then 0 else Sum(sizes[..|sizes| - 1]) + sizes[|sizes| - 1]
  }

  function EndsIn(s: seq<Item>): nat {
    if s == [] then 0 else EndsIn(s[..|s| - 1]) + if IsEnd(s[|s| - 1]) then 1 else 0
  }

  lemma {:induction false} ZerosAreZero(m: nat)
    ensures |Zeros(m)| == m && forall j :: 0 <= j < m ==> Zeros(m)[j] == Data(0)
  {
    if m > 0 { ZerosAreZero(m - 1); }
  }

  lemma {:induction false} ZerosKeepOpen(t: seq<Item>, m: nat)
    requires ParseStream(t).open.Some?
    ensures |t + Zeros(m)| == |t| + m
    ensures ParseStream(t + Zeros(m)) == ParseStream(t) && EndsIn(t + Zeros(m)) == EndsIn(t)
  {
    if m == 0 {
      assert t + Zeros(0) == t;
    } else {
      ZerosKeepOpen(t, m - 1);
      assert t + Zeros(m) == (t + Zeros(m - 1)) + [Data(0)];
      Snoc(t + Zeros(m - 1), Data(0));
    }
  }

  /** One more event at the end of a stream. */
  lemma OneMoreEvent(t: seq<Item>, size: nat, s: seq<Item>)
    requires size >= 2 && s == t + [Data(EVENT_START)] + Zeros(size - 2) + [Data(EVENT_END)]
    ensures |s| == |t| + size && EndsIn(s) == EndsIn(t) + 1
    ensures ParseStream(s) == Parse(ParseStream(t).found + [Span(|t|, |s| - 1)], None)
  {
    var u := t + [Data(EVENT_START)];
    Snoc(t, Data(EVENT_START));
    ZerosKeepOpen(u, size - 2);
    Snoc(u + Zeros(size - 2), Data(EVENT_END));
  }

  lemma {:induction false} ConvoyParses(s: seq<Item>, sizes: seq<nat>)
    requires EventSizes(sizes) && s == Convoy(sizes)
    ensures |s| == Sum(sizes) && EndsIn(s) == |sizes|
    ensures var p := ParseStream(s); p.open == None && Tiles(p.found, sizes) && Within(s, p.found)
    decreases |sizes|
  {
    if sizes != [] {
      var front, size := sizes[..|sizes| - 1], sizes[|sizes| - 1];
      var t := Convoy(front);
      ConvoyParses(t, front);
      OneMoreEvent(t, size, s);
      TilesMore(ParseStream(t).found, front, Span(|t|, |s| - 1), size, sizes);
    }
  }

  lemma TilesMore(es: seq<Span>, front: seq<nat>, e: Span, size: nat, sizes: seq<nat>)
    requires Tiles(es, front) && e.Length() == size && sizes != []
    requires front == sizes[..|sizes| - 1] && size == sizes[|sizes| - 1]
    ensures Tiles(es + [e], sizes)
  {
  }

  /** The spans have the given sizes. */
  ghost predicate Tiles(es: seq<Span>, sizes: seq<nat>) {
    |es| == |sizes| && forall j :: 0 <= j < |sizes| ==> es[j].Length() == sizes[j]
  }

  lemma {:induction false} TilesAddUp(es: seq<Span>, sizes: seq<nat>)
    requires Tiles(es, sizes)
    ensures Used(es) == Sum(sizes)
  {
    if es != [] { TilesAddUp(es[..|es| - 1], sizes[..|sizes| - 1]); }
  }

  /** The words of a convoy are markers and zeros, and a start marker is closed within the largest size. */
  lemma {:induction false} ConvoyWords(s: seq<Item>, sizes: seq<nat>, size: nat, p: nat) returns (e: nat)
    requires EventSizes(sizes) && s == Convoy(sizes) && p < |s|
    requires forall k :: 0 <= k < |sizes| ==> sizes[k] <= size
    ensures s[p] in [Data(EVENT_START), Data(0), Data(EVENT_END)]
    ensures IsStart(s[p]) ==> p < e < p + size && e < |s| && IsEnd(s[e])
    decreases |sizes|
  {
    var n := |sizes| - 1;
    var t := Convoy(sizes[..n]);
    ZerosAreZero(sizes[n] - 2);
    assert s == t + ([Data(EVENT_START)] + Zeros(sizes[n] - 2) + [Data(EVENT_END)]);
    if p < |t| {
      e := ConvoyWords(t, sizes[..n], size, p);
      assert s[p] == t[p];
      assert e < |t| ==> s[e] == t[e];
    } else {
      e := |s| - 1;
    }
  }

  lemma ConvoyFits(s: seq<Item>, sizes: seq<nat>, size: nat)
    requires EventSizes(sizes) && s == Convoy(sizes)
    requires forall k :: 0 <= k < |sizes| ==> sizes[k] <= size
    ensures Fits(s, size)
  {
    forall i: nat, j: nat | Attempt(s, i, j) ensures j - i + 1 <= size {
      var e := ConvoyWords(s, sizes, size, i);
    }
  }

  function Repeat(n: nat, x: nat): (r: seq<nat>)
    ensures |r| == n && forall k :: 0 <= k < n ==> r[k] == x
  {
    if n == 0 then [] else Repeat(n - 1, x) + [x]
  }

  lemma SumSnoc(sizes: seq<nat>, x: nat)
    ensures Sum(sizes + [x]) == Sum(sizes) + x
  {
    assert (sizes + [x])[..|sizes|] == sizes;
  }

  lemma OneMoreTime(n: nat, x: nat)
    requires n > 0
    ensures n * x == (n - 1) * x + x
  {
  }

  lemma {:induction false} SumRepeat(n: nat, x: nat)
    ensures Sum(Repeat(n, x)) == n * x
  {
    if n > 0 {
      SumRepeat(n - 1, x);
      SumSnoc(Repeat(n - 1, x), x);
      OneMoreTime(n, x);
    }
  }

  // ---------------------------------------------------------------- losing nothing

  lemma {:induction false} WritesAreBounded(mem: seq<Word>, s: seq<Item>)
    requires mem != []
    ensures var f := Run(mem, s);
      && f.eventCount <= EndsIn(s)
      && forall k :: 0 <= k < |f.writes| ==> |f.writes[k].words| <= |mem|
  {
    if s != [] { WritesAreBounded(mem, s[..|s| - 1]); }
  }

  /** A stream with at most ten end markers fills at most one buffer's worth of output. */
  lemma TenEndsFillOneBuffer(mem: seq<Word>, s: seq<Item>)
    requires mem != [] && EndsIn(s) <= EVENTCHUNK
    ensures |Output(Run(mem, s))| <= |mem|
  {
    var f := Run(mem, s);
    assert s[..|s|] == s;
    RunRefinesShelf(mem, s, |s|);
    WritesAreBounded(mem, s);
    assert |f.writes| <= 1;
    if |f.writes| == 1 {
      assert Joined(f.writes) == Joined(f.writes[..0]) + f.writes[0].words;
      assert |f.writes[0].words| <= |mem|;
    }
  }

  /** Up to ten back-to-back events that together exceed the buffer cannot all reach the file. */
  lemma OversizedConvoyLosesWords(mem: seq<Word>, sizes: seq<nat>)
    requires EventSizes(sizes) && |sizes| <= EVENTCHUNK && mem != [] && Sum(sizes) > |mem|
    ensures !Lossless(mem, Convoy(sizes))
  {
    var s := Convoy(sizes);
    ConvoyParses(s, sizes);
    TilesAddUp(ParseStream(s).found, sizes);
    CatLength(s, ParseStream(s).found);
    TenEndsFillOneBuffer(mem, s);
  }

  ghost predicate Lossless(mem: seq<Word>, s: seq<Item>)
    requires mem != []
  {
    var es := ParseStream(s).found;
    Within(s, es) && Output(Run(mem, s)) == Cat(s, es)
  }

  /** With a buffer of ten times `bound` words, every stream whose attempts have at most `size` words is
      written without loss if and only if `size` is at most `bound`. */
  lemma LosslessIffEventsFit(bound: nat, size: nat)
    requires bound > 0
    ensures (forall mem: seq<Word>, s: seq<Item> ::
               |mem| == EVENTCHUNK * bound && Fits(s, size) ==> mem != [] && Lossless(mem, s))
            <==> size <= bound
  {
    if size <= bound {
      forall mem: seq<Word>, s: seq<Item> | |mem| == EVENTCHUNK * bound && Fits(s, size) ensures Lossless(mem, s) {
        assert Fits(s, bound);
        FittingStreamIsLossless(mem, s, bound);
      }
    } else {
      var mem: seq<Word>, sizes := seq(EVENTCHUNK * bound, _ => 0), Repeat(EVENTCHUNK, size);
      SumRepeat(EVENTCHUNK, size);
      OversizedConvoyLosesWords(mem, sizes);
      ConvoyFits(Convoy(sizes), sizes, size);
      assert !Lossless(mem, Convoy(sizes));
    }
  }

  // ---------------------------------------------------------------- writing only whole events

  lemma ShortStep(cap: nat, sh: Shelf, x: Item, n: nat)
    requires Held(sh, n) <= n < cap && (sh.open.Some? ==> sh.open.value < n)
    ensures var z := ShelfStep(cap, sh, x, n);
      && z == (if x.Gap? then Abandon(sh) else Place(sh, x, n))
      && z.undone == sh.undone && Held(z, n + 1) <= n + 1 && (z.open.Some? ==> z.open.value < n + 1)
  {
    if IsEnd(x) && sh.open.Some? {
      var e := Span(sh.open.value, n);
      assert (sh.cur + [e])[..|sh.cur|] == sh.cur;
    }
  }

  /** As long as the stream is no longer than the buffer, the overflow test is never true. */
  lemma {:induction false} ShortStreamIsKept(cap: nat, s: seq<Item>, n: nat)
    requires n <= |s| && n <= cap
    ensures var sh, p := Shelve(cap, s[..n]), ParseStream(s[..n]);
      && Kept(sh) == p.found && sh.open == p.open && sh.undone == 0 && Held(sh, n) <= n
      && (sh.open.Some? ==> sh.open.value < n)
  {
    if n > 0 {
      ShortStreamIsKept(cap, s, n - 1);
      assert s[..n][..n - 1] == s[..n - 1];
      var sh := Shelve(cap, s[..n - 1]);
      ShortStep(cap, sh, s[n - 1], n - 1);
      if IsEnd(s[n - 1]) && sh.open.Some? { KeptComplete(sh, Span(sh.open.value, n - 1)); }
    }
  }

  /** Fewer than ten events that fill the buffer exactly leave it full and closed, with the last one at its end. */
  lemma ConvoyFillsTheBuffer(mem: seq<Word>, t: seq<Item>, sizes: seq<nat>)
    requires EventSizes(sizes) && t == Convoy(sizes) && 0 < |sizes| < EVENTCHUNK && Sum(sizes) == |mem| > 0
    ensures var f := Run(mem, t);
      f.numWords == f.eventWords == |mem| && !f.eventStart && f.eventBegin + 1 < |mem|
  {
    assert t[..|t|] == t;
    ConvoyParses(t, sizes);
    ShortStreamIsKept(|mem|, t, |t|);
    RunRefinesShelf(mem, t, |t|);
    TilesAddUp(ParseStream(t).found, sizes);
    assert Shelve(|mem|, t).groups == [] && Kept(Shelve(|mem|, t)) == Shelve(|mem|, t).cur;
    FullBufferIsClosed(t, |t|, Run(mem, t), Shelve(|mem|, t), sizes);
  }

  lemma FullBufferIsClosed(t: seq<Item>, n: nat, f: State, sh: Shelf, sizes: seq<nat>)
    requires Live(t, n, f, sh) && sh.open.None? && sh.undone == 0 && sh.cur != []
    requires Tiles(sh.cur, sizes) && EventSizes(sizes) && Used(sh.cur) == |f.mem|
    ensures f.numWords == f.eventWords == |f.mem| && !f.eventStart && f.eventBegin + 1 < |f.mem|
  {
    HeldIsNumWords(t, n, f, sh);
    CatLength(t, sh.cur);
    var es := sh.cur[..|sh.cur| - 1];
    assert Within(t, es);
    CatLength(t, es);
    assert sh.cur[|sh.cur| - 1].Length() == sizes[|sizes| - 1];
  }

  /** A start marker and one more word on a full, closed buffer: the last event is taken back, the word lands
      inside its old place, and the flush still has the length of the buffer. */
  lemma TwoWordsOnAFullBuffer(f: State, w: Word)
    requires f.WellFormed() && f.numWords == f.eventWords == |f.mem| && !f.eventStart && f.eventBegin + 1 < |f.mem|
    requires w != EVENT_START && w != EVENT_END
    ensures w in Output(Step(Step(f, Data(EVENT_START)), Data(w)))
  {
    var g := BeginEvent(Rollback(f), EVENT_START);
    assert Step(f, Data(EVENT_START)) == g;
    var r := Store(g, w);
    assert Step(g, Data(w)) == r;
    assert Flush(r)[f.eventBegin + 1] == w;
    assert Output(r)[|Joined(r.writes)| + f.eventBegin + 1] == w;
  }

  lemma {:induction false} WordsLack(s: seq<Item>, i: nat, j: nat, w: Word)
    requires i <= j <= |s| && forall k :: i <= k < j ==> WordAt(s[k]) != w
    ensures w !in Words(s, i, j)
  {
    if i < j { WordsLack(s, i, j - 1, w); }
  }

  /** A word that only ends the stream is in no event. */
  lemma {:induction false} EventsLackLastWord(s: seq<Item>, es: seq<Span>, w: Word)
    requires s != [] && s[|s| - 1] == Data(w) && w != EVENT_END
    requires forall k :: 0 <= k < |s| - 1 ==> WordAt(s[k]) != w
    requires Within(s, es) && forall k :: 0 <= k < |es| ==> IsEvent(s, es[k])
    ensures w !in Cat(s, es)
  {
    if es != [] {
      var e := es[|es| - 1];
      EventsLackLastWord(s, es[..|es| - 1], w);
      assert IsEnd(s[e.last]);
      WordsLack(s, e.first, e.last + 1, w);
    }
  }

  /** The torn stream: events that fill the buffer, then a start marker and a word. */
  function Torn(sizes: seq<nat>): seq<Item>
    requires EventSizes(sizes)
  {
    Convoy(sizes) + [Data(EVENT_START)] + [Data(7)]
  }

  lemma TornFits(sizes: seq<nat>, size: nat)
    requires EventSizes(sizes) && size >= 2 && forall k :: 0 <= k < |sizes| ==> sizes[k] <= size
    ensures Fits(Torn(sizes), size)
  {
    var t, s := Convoy(sizes), Torn(sizes);
    forall i: nat, j: nat | Attempt(s, i, j) ensures j - i + 1 <= size {
      if i < |t| {
        var e := ConvoyWords(t, sizes, size, i);
        assert s[i] == t[i] && s[e] == t[e];
      }
    }
  }

  /** A complete event that ends in the last slot of the buffer is taken back by the very next word, and two more
      words are enough for the final flush to glue the head of one event to the tail of another. */
  lemma ExactFillTearsTheFlush(mem: seq<Word>, sizes: seq<nat>)
    requires EventSizes(sizes) && 0 < |sizes| < EVENTCHUNK && Sum(sizes) == |mem| > 0
    ensures !IsWholeEvents(Torn(sizes), Output(Run(mem, Torn(sizes))))
  {
    var t, s := Convoy(sizes), Torn(sizes);
    ConvoyFillsTheBuffer(mem, t, sizes);
    TornRun(mem, t, s);
    TornLacksSeven(sizes);
    forall es: seq<Span> | Ordered(es) && Within(s, es) && (forall k :: 0 <= k < |es| ==> IsEvent(s, es[k]))
      ensures Cat(s, es) != Output(Run(mem, s))
    {
      EventsLackLastWord(s, es, 7);
    }
  }

  lemma TornRun(mem: seq<Word>, t: seq<Item>, s: seq<Item>)
    requires mem != [] && s == t + [Data(EVENT_START)] + [Data(7)]
    requires var f := Run(mem, t);
      f.numWords == f.eventWords == |mem| && !f.eventStart && f.eventBegin + 1 < |mem|
    ensures 7 in Output(Run(mem, s))
  {
    Snoc(t, Data(EVENT_START));
    Snoc(t + [Data(EVENT_START)], Data(7));
    TwoWordsOnAFullBuffer(Run(mem, t), 7);
  }

  lemma TornLacksSeven(sizes: seq<nat>)
    requires EventSizes(sizes)
    ensures var s := Torn(sizes);
      s[|s| - 1] == Data(7) && forall k :: 0 <= k < |s| - 1 ==> WordAt(s[k]) != 7
  {
    var t, s := Convoy(sizes), Torn(sizes);
    forall k | 0 <= k < |s| - 1 ensures WordAt(s[k]) != 7 {
      if k < |t| {
        SizesAtMostSum(sizes);
        var e := ConvoyWords(t, sizes, Sum(sizes), k);
        assert s[k] == t[k];
      }
    }
  }

  lemma {:induction false} SizesAtMostSum(sizes: seq<nat>)
    ensures forall k :: 0 <= k < |sizes| ==> sizes[k] <= Sum(sizes)
  {
    if sizes != [] { SizesAtMostSum(sizes[..|sizes| - 1]); }
  }

  /** At most nine sizes from 2 to `size` that sum to `total`. */
  lemma ChooseSizes(total: nat, size: nat) returns (sizes: seq<nat>)
    requires 2 <= size && 2 <= total <= (EVENTCHUNK - 1) * size && total % 2 == 0
    ensures forall k :: 0 <= k < |sizes| ==> 2 <= sizes[k] <= size
    ensures 0 < |sizes| < EVENTCHUNK && Sum(sizes) == total
  {
    var q, r := total / size, total % size;
    assert total == q * size + r;
    FewFit(q, r, size);
    SumRepeat(q, size);
    if r == 0 {
      sizes := Repeat(q, size);
    } else if r >= 2 {
      sizes := Repeat(q, size) + [r];
      SumSnoc(Repeat(q, size), r);
    } else {
      OneLeft(q, size, total);
      sizes := SplitLast(q, size);
    }
  }

  lemma SplitLast(q: nat, size: nat) returns (sizes: seq<nat>)
    requires q >= 1 && size >= 3
    ensures forall k :: 0 <= k < |sizes| ==> 2 <= sizes[k] <= size
    ensures |sizes| == q + 1 && Sum(sizes) == q * size + 1
  {
    var front := Repeat(q - 1, size);
    SumRepeat(q - 1, size);
    SumSnoc(front, size - 1);
    SumSnoc(front + [size - 1], 2);
    sizes := front + [size - 1] + [2];
    OneMoreTime(q, size);
  }

  lemma FewFit(q: nat, r: nat, size: nat)
    requires 0 < q * size + r <= (EVENTCHUNK - 1) * size && r < size
    ensures q + (if r == 0 then 0 else 1) <= EVENTCHUNK - 1
    ensures q > 0 || r > 0
  {
    if q >= EVENTCHUNK - 1 {
      MulMono(EVENTCHUNK - 1, q, size);
      if q >= EVENTCHUNK { MulMono(EVENTCHUNK, q, size); }
    }
  }

  /** One word over means the size is odd, so at least three, and fits at least once. */
  lemma OneLeft(q: nat, size: nat, total: nat)
    requires total == q * size + 1 && total % 2 == 0 && total >= 2 && size >= 2
    ensures size >= 3 && q >= 1
  {
  }

  lemma TornWitness(cap: nat, size: nat) returns (mem: seq<Word>, s: seq<Item>)
    requires 2 <= size && 2 <= cap <= (EVENTCHUNK - 1) * size && cap % 2 == 0
    ensures |mem| == cap && mem != [] && Fits(s, size) && !IsWholeEvents(s, Output(Run(mem, s)))
  {
    mem := seq(cap, _ => 0);
    var sizes := ChooseSizes(cap, size);
    s := Torn(sizes);
    ExactFillTearsTheFlush(mem, sizes);
    TornFits(sizes, size);
  }

  /** For every stream whose attempts have at most `size` words, everything written, the final flush included, is
      whole events of the stream. */
  ghost predicate AllWhole(cap: nat, size: nat) {
    forall mem: seq<Word>, s: seq<Item> ::
      |mem| == cap && Fits(s, size) ==> mem != [] && IsWholeEvents(s, Output(Run(mem, s)))
  }

  lemma RoomMeansAllWhole(cap: nat, size: nat)
    requires (EVENTCHUNK - 1) * size < cap
    ensures AllWhole(cap, size)
  {
    forall mem: seq<Word>, s: seq<Item> | |mem| == cap && Fits(s, size)
      ensures mem != [] && IsWholeEvents(s, Output(Run(mem, s)))
    {
      OutputIsWholeEvents(mem, s, size);
    }
  }

  lemma NoRoomMeansTorn(cap: nat, size: nat)
    requires 2 <= size && 2 <= cap <= (EVENTCHUNK - 1) * size && cap % 2 == 0
    ensures !AllWhole(cap, size)
  {
    var mem, s := TornWitness(cap, size);
    assert !IsWholeEvents(s, Output(Run(mem, s)));
  }

  /** With a buffer of ten times `bound` words, everything written for streams of that attempt size is whole events
      if and only if nine events of that size leave room in the buffer. */
  lemma OutputIsWholeEventsIff(bound: nat, size: nat)
    requires bound > 0
    ensures AllWhole(EVENTCHUNK * bound, size) <==> (EVENTCHUNK - 1) * size < EVENTCHUNK * bound
  {
    if (EVENTCHUNK - 1) * size < EVENTCHUNK * bound {
      RoomMeansAllWhole(EVENTCHUNK * bound, size);
    } else {
      NoRoomMeansTorn(EVENTCHUNK * bound, size);
    }
  }
}

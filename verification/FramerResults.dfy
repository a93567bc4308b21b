/** The framer's promises, for all streams: what a chunk write and the final flush can contain, when nothing is
    lost, and what the counters add up to. */
module FramerResults {
  import opened Basics
  import opened Readout
  import opened Framer
  import opened FramerProofs
  import opened FramerRefinement

  /** For any stream, even with oversized events: chunk k is the words of complete events of the stream, in
      stream order and without repeats across chunks, and is written at the event count 10(k+1). */
  lemma EveryChunkIsWholeEvents(mem: seq<Word>, s: seq<Item>)
    requires mem != []
    ensures var f, sh := Run(mem, s), Shelve(|mem|, s);
      && Ordered(Kept(sh))
      && (forall k :: 0 <= k < |Kept(sh)| ==> IsEvent(s, Kept(sh)[k]))
      && Written(s, f.writes, sh.groups)
      && f.eventCount == EVENTCHUNK * |f.writes| + f.eventChunk
  {
    assert s[..|s|] == s;
    RunRefinesShelf(mem, s, |s|);
    ShelfIsGenuine(|mem|, s, |s|);
  }

  // ---------------------------------------------------------------- nothing lost when events fit

  lemma {:induction false} UsedBound(es: seq<Span>, bound: nat)
    requires forall k :: 0 <= k < |es| ==> es[k].Length() <= bound
    ensures Used(es) <= |es| * bound
  {
    if es != [] {
      UsedBound(es[..|es| - 1], bound);
      assert |es| * bound == (|es| - 1) * bound + bound;
    }
  }

  /** Fewer than ten waiting events that fit leave room for one more attempt. */
  lemma WaitingEventsFit(s: seq<Item>, n: nat, sh: Shelf, bound: nat)
    requires Fits(s, bound) && Genuine(s, n, Kept(sh), sh.open) && |sh.cur| < EVENTCHUNK
    ensures Used(sh.cur) <= (EVENTCHUNK - 1) * bound
  {
    var kept, at := Kept(sh), |Flatten(sh.groups)|;
    forall k | 0 <= k < |sh.cur| ensures sh.cur[k].Length() <= bound {
      assert sh.cur[k] == kept[at + k];
      EventFits(s, kept[at + k], bound);
    }
    UsedBound(sh.cur, bound);
    MulMono(|sh.cur|, EVENTCHUNK - 1, bound);
  }

  lemma EventFits(s: seq<Item>, e: Span, bound: nat)
    requires Fits(s, bound) && IsEvent(s, e)
    ensures e.Length() <= bound
  {
    assert Attempt(s, e.first, e.last);
  }

  lemma MulMono(a: nat, b: nat, c: nat)
    requires a <= b
    ensures a * c <= b * c
  {
  }

  /** When every attempt fits, the overflow test changes nothing: the only time it can be true is on a start
      marker right after an unfinished attempt of the full size, which drops the same words anyway. */
  lemma OverflowChangesNothing(s: seq<Item>, n: nat, sh: Shelf, bound: nat)
    requires n < |s| && bound > 0 && Fits(s, bound) && s[n].Data?
    requires Genuine(s, n, Kept(sh), sh.open) && |sh.cur| < EVENTCHUNK
    ensures ShelfStep(EVENTCHUNK * bound, sh, s[n], n) == Place(sh, s[n], n)
  {
    WaitingEventsFit(s, n, sh, bound);
    if sh.open.Some? {
      var i := sh.open.value;
      assert Attempt(s, i, n - 1);
      assert !IsStart(s[n]) ==> Attempt(s, i, n);
    }
  }

  lemma {:induction false} FittingStreamIsKept(s: seq<Item>, n: nat, bound: nat)
    requires n <= |s| && bound > 0 && Fits(s, bound)
    ensures var sh, p := Shelve(EVENTCHUNK * bound, s[..n]), ParseStream(s[..n]);
      && Kept(sh) == p.found && sh.open == p.open && sh.undone == 0
      && (forall k :: 0 <= k < |sh.groups| ==> |sh.groups[k]| == EVENTCHUNK)
      && |sh.cur| == sh.tally
  {
    if n > 0 {
      var cap := EVENTCHUNK * bound;
      FittingStreamIsKept(s, n - 1, bound);
      ShelfIsGenuine(cap, s, n - 1);
      assert s[..n][..n - 1] == s[..n - 1];
      var sh := Shelve(cap, s[..n - 1]);
      if s[n - 1].Data? {
        OverflowChangesNothing(s, n - 1, sh, bound);
        if IsEnd(s[n - 1]) && sh.open.Some? { KeptComplete(sh, Span(sh.open.value, n - 1)); }
      }
    }
  }

  lemma {:induction false} JoinedIsCat(s: seq<Item>, writes: seq<Chunk>, groups: seq<seq<Span>>)
    requires Written(s, writes, groups)
    ensures Within(s, Flatten(groups)) && Joined(writes) == Cat(s, Flatten(groups))
  {
    if groups != [] {
      var gs, g := groups[..|groups| - 1], groups[|groups| - 1];
      JoinedIsCat(s, writes[..|writes| - 1], gs);
      assert Within(s, g);
      CatAppend(s, Flatten(gs), g);
    }
  }

  /** The final flush is the waiting events exactly when `event_words` agrees with the end of the complete
      words in the buffer; after the overflow test took a complete event back it need not. */
  lemma FlushIsWaitingEventsIff(mem: seq<Word>, s: seq<Item>)
    requires mem != []
    ensures var f, sh := Run(mem, s), Shelve(|mem|, s);
      && Within(s, sh.cur)
      && (Flush(f) == Cat(s, sh.cur) <==> f.eventWords == (if f.eventStart then f.eventBegin else f.numWords))
      && (sh.undone == 0 ==> Flush(f) == Cat(s, sh.cur))
  {
    assert s[..|s|] == s;
    RunRefinesShelf(mem, s, |s|);
    var f, sh := Run(mem, s), Shelve(|mem|, s);
    assert |f.mem[..f.numWords]| == f.numWords;
    if f.eventWords == |Cat(s, sh.cur)| {
      assert Flush(f) == f.mem[..f.numWords][..f.eventWords];
    }
  }

  /** When every attempt has at most DATABUFFSIZE words, the file receives exactly the complete events of the
      stream, in order. */
  lemma FittingStreamIsLossless(mem: seq<Word>, s: seq<Item>, bound: nat)
    requires bound > 0 && |mem| == EVENTCHUNK * bound && Fits(s, bound)
    ensures Within(s, ParseStream(s).found)
    ensures Output(Run(mem, s)) == Cat(s, ParseStream(s).found)
    ensures Run(mem, s).eventCount == |ParseStream(s).found|
  {
    assert s[..|s|] == s;
    var f, sh := Run(mem, s), Shelve(|mem|, s);
    RunRefinesShelf(mem, s, |s|);
    FittingStreamIsKept(s, |s|, bound);
    FlushIsWaitingEventsIff(mem, s);
    JoinedIsCat(s, f.writes, sh.groups);
    CatAppend(s, Flatten(sh.groups), sh.cur);
  }

  // ---------------------------------------------------------------- whole events

  /** `out` is the words of some complete events of the stream, in order. */
  ghost predicate IsWholeEvents(s: seq<Item>, out: seq<Word>) {
    exists es: seq<Span> ::
      Ordered(es) && Within(s, es) && (forall k :: 0 <= k < |es| ==> IsEvent(s, es[k])) && Cat(s, es) == out
  }

  lemma RoomMeansNoUndo(cap: nat, sh: Shelf, x: Item, n: nat)
    requires Used(sh.cur) < cap
    ensures ShelfStep(cap, sh, x, n).undone == sh.undone
  {
  }

  /** Nine events of `size` words leave room in the buffer, so no complete event is ever taken back. */
  lemma {:induction false} NothingTakenBack(cap: nat, s: seq<Item>, n: nat, size: nat)
    requires n <= |s| && Fits(s, size) && (EVENTCHUNK - 1) * size < cap
    ensures Shelve(cap, s[..n]).undone == 0
  {
    if n > 0 {
      var sh := Shelve(cap, s[..n - 1]);
      NothingTakenBack(cap, s, n - 1, size);
      ShelfIsGenuine(cap, s, n - 1);
      assert s[..n][..n - 1] == s[..n - 1];
      WaitingEventsFit(s, n - 1, sh, size);
      RoomMeansNoUndo(cap, sh, s[n - 1], n - 1);
    }
  }

  /** While nine attempts of the largest size leave room in the buffer, everything written is whole events of the
      stream, the final flush included, even when single events are dropped for their size. */
  lemma OutputIsWholeEvents(mem: seq<Word>, s: seq<Item>, size: nat)
    requires Fits(s, size) && (EVENTCHUNK - 1) * size < |mem|
    ensures Shelve(|mem|, s).undone == 0
    ensures IsWholeEvents(s, Output(Run(mem, s)))
  {
    assert s[..|s|] == s;
    var f, sh := Run(mem, s), Shelve(|mem|, s);
    NothingTakenBack(|mem|, s, |s|, size);
    EveryChunkIsWholeEvents(mem, s);
    FlushIsWaitingEventsIff(mem, s);
    JoinedIsCat(s, f.writes, sh.groups);
    CatAppend(s, Flatten(sh.groups), sh.cur);
    assert Cat(s, Kept(sh)) == Output(f);
  }

  // ---------------------------------------------------------------- counters

  function StartsIn(s: seq<Item>): nat {
    if s == [] then 0 else StartsIn(s[..|s| - 1]) + if IsStart(s[|s| - 1]) then 1 else 0
  }

  /** Every start marker of the stream is accounted for: an event ended and was counted, or its partial words
      were dropped, or it is still open. Events the overflow test took back are counted twice, and the kept
      events are the counted ones less those. */
  lemma MarkersBalance(mem: seq<Word>, s: seq<Item>)
    requires mem != []
    ensures var f, sh := Run(mem, s), Shelve(|mem|, s);
      && f.startCount == StartsIn(s)
      && f.startCount + sh.undone == f.eventCount + f.droppedPartial + (if f.eventStart then 1 else 0)
      && |Kept(sh)| + sh.undone == f.eventCount
  {
    assert s[..|s|] == s;
    RunRefinesShelf(mem, s, |s|);
    StartsAreCounted(mem, s);
  }

  lemma {:induction false} StartsAreCounted(mem: seq<Word>, s: seq<Item>)
    requires mem != []
    ensures Run(mem, s).startCount == StartsIn(s)
  {
    if s != [] { StartsAreCounted(mem, s[..|s| - 1]); }
  }

  /** The correction term grows on exactly one guard: a word arrives while the buffer is full and no event is open. */
  lemma UndoneGrowsIff(mem: seq<Word>, s: seq<Item>, x: Item)
    requires mem != []
    ensures var f := Run(mem, s);
      Shelve(|mem|, s + [x]).undone ==
        Shelve(|mem|, s).undone + if x.Data? && f.numWords == |mem| && !f.eventStart then 1 else 0
  {
    assert s[..|s|] == s;
    RunRefinesShelf(mem, s, |s|);
    HeldIsNumWords(s, |s|, Run(mem, s), Shelve(|mem|, s));
    Snoc(s, x);
  }
}

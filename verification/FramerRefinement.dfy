/** The buffer arithmetic of the framer refines the list form: whatever the stream, the live words are the
    waiting events followed by the open one, and every chunk write is the words of its group of events. */
module FramerRefinement {
  import opened Basics
  import opened Readout
  import opened Framer
  import opened FramerProofs

  function Tail(s: seq<Item>, open: Option<nat>, n: nat): seq<Word>
    requires n <= |s| && (open.Some? ==> open.value <= n)
  {
    if open.Some? then Words(s, open.value, n) else []
  }

  /** The live part of the buffer. A closed full buffer still remembers where its last event began;
      `eventWords` is stale only after the overflow test took a complete event back. */
  ghost predicate Live(s: seq<Item>, n: nat, f: State, sh: Shelf) {
    && n <= |s|
    && f.WellFormed()
    && Within(s, sh.cur)
    && (sh.open.Some? ==> sh.open.value <= n)
    && f.mem[..f.numWords] == Cat(s, sh.cur) + Tail(s, sh.open, n)
    && f.eventStart == sh.open.Some?
    && (f.eventStart ==> f.eventBegin == |Cat(s, sh.cur)|)
    && (!f.eventStart && f.numWords == |f.mem| ==>
          sh.cur != [] && f.eventBegin == |Cat(s, sh.cur[..|sh.cur| - 1])|)
    && f.eventChunk == sh.tally
    && (sh.tally == 0 ==> sh.cur == [])
    && (f.eventWords == |Cat(s, sh.cur)| || (sh.undone > 0 && f.eventWords == |f.mem|))
    && (sh.tally == 0 ==> f.eventWords == 0)
  }

  ghost predicate Written(s: seq<Item>, writes: seq<Chunk>, groups: seq<seq<Span>>) {
    && |writes| == |groups|
    && forall k :: 0 <= k < |groups| ==>
        Within(s, groups[k]) && writes[k].words == Cat(s, groups[k]) && writes[k].count == EVENTCHUNK * (k + 1)
  }

  /** Every started event was counted, dropped, or is still open; an event the overflow test took back
      was both counted and dropped. */
  ghost predicate Balanced(f: State, sh: Shelf) {
    && f.droppedPartial == sh.dropped
    && f.eventCount == EVENTCHUNK * |sh.groups| + sh.tally
    && f.startCount + sh.undone == f.eventCount + f.droppedPartial + (if f.eventStart then 1 else 0)
    && |Kept(sh)| + sh.undone == f.eventCount
  }

  ghost predicate Rep(s: seq<Item>, n: nat, f: State, sh: Shelf) {
    Live(s, n, f, sh) && Written(s, f.writes, sh.groups) && Balanced(f, sh)
  }

  lemma {:induction false} CatLength(s: seq<Item>, es: seq<Span>)
    requires Within(s, es)
    ensures |Cat(s, es)| == Used(es)
  {
    if es != [] {
      CatLength(s, es[..|es| - 1]);
    }
  }

  lemma HeldIsNumWords(s: seq<Item>, n: nat, f: State, sh: Shelf)
    requires Live(s, n, f, sh)
    ensures f.numWords == Held(sh, n)
  {
    CatLength(s, sh.cur);
    assert |f.mem[..f.numWords]| == f.numWords;
  }

  /** Abandoning the open event, on a resync or an inner start marker. */
  lemma RollbackRep(s: seq<Item>, n: nat, f: State, sh: Shelf)
    requires Rep(s, n, f, sh) && f.eventStart
    ensures Rep(s, n, Rollback(f), Abandon(sh))
    ensures Rollback(f).numWords < |f.mem|
  {
    assert f.mem[..f.eventBegin] == f.mem[..f.numWords][..f.eventBegin];
    assert Kept(Abandon(sh)) == Kept(sh);
  }

  /** The overflow test with no event open takes the last complete event back. */
  lemma UndoRep(s: seq<Item>, n: nat, f: State, sh: Shelf)
    requires Rep(s, n, f, sh) && !f.eventStart && f.numWords == |f.mem|
    ensures Rep(s, n, Rollback(f), Overflow(sh))
    ensures Rollback(f).numWords < |f.mem|
    ensures Overflow(sh).undone == sh.undone + 1 && Rollback(f).eventWords == |f.mem|
  {
    UndoneWords(s, sh.cur, f.mem[..f.numWords], f.eventBegin);
    assert f.mem[..f.eventBegin] == f.mem[..f.numWords][..f.eventBegin];
    UndoLive(s, n, f, sh);
    UndoBalanced(f, sh);
  }

  lemma UndoBalanced(f: State, sh: Shelf)
    requires Balanced(f, sh) && !f.eventStart && sh.open.None? && sh.cur != []
    ensures Balanced(Rollback(f), Overflow(sh))
  {
    assert Kept(Overflow(sh)) == Kept(sh)[..|Kept(sh)| - 1];
  }

  lemma UndoLive(s: seq<Item>, n: nat, f: State, sh: Shelf)
    requires Live(s, n, f, sh) && !f.eventStart && f.numWords == |f.mem|
    requires f.eventBegin < |f.mem| && f.mem[..f.eventBegin] == Cat(s, sh.cur[..|sh.cur| - 1])
    ensures Live(s, n, Rollback(f), Overflow(sh))
    ensures Rollback(f).eventWords == |f.mem|
  {
    assert |f.mem[..f.numWords]| == |f.mem|;
    assert Cat(s, sh.cur[..|sh.cur| - 1]) + [] == Cat(s, sh.cur[..|sh.cur| - 1]);
  }

  /** What is left of the waiting words once the last event is taken back. */
  lemma UndoneWords(s: seq<Item>, cur: seq<Span>, live: seq<Word>, begin: nat)
    requires cur != [] && Within(s, cur) && live == Cat(s, cur)
    requires Within(s, cur[..|cur| - 1]) && begin == |Cat(s, cur[..|cur| - 1])|
    ensures begin < |live| && live[..begin] == Cat(s, cur[..|cur| - 1])
  {
    var es, e := cur[..|cur| - 1], cur[|cur| - 1];
    assert cur == es + [e];
    CatSnoc(s, es, e);
  }

  lemma OpenRep(s: seq<Item>, n: nat, f: State, sh: Shelf)
    requires n < |s| && Rep(s, n, f, sh) && !f.eventStart && f.numWords < |f.mem| && IsStart(s[n])
    ensures Rep(s, n + 1, BeginEvent(f, s[n].word), sh.(open := Some(n)))
  {
    var m := f.mem[f.numWords := s[n].word];
    assert Words(s, n, n + 1) == [s[n].word];
    assert m[..f.numWords + 1] == f.mem[..f.numWords] + [s[n].word];
    assert Kept(sh.(open := Some(n))) == Kept(sh);
  }

  lemma BodyRep(s: seq<Item>, n: nat, f: State, sh: Shelf)
    requires n < |s| && Rep(s, n, f, sh) && f.eventStart && f.numWords < |f.mem| && IsBody(s[n])
    ensures Rep(s, n + 1, WriteIfFull(Store(f, s[n].word)), sh)
  {
    var w := s[n].word;
    assert f.mem[f.numWords := w][..f.numWords + 1] == f.mem[..f.numWords] + [w];
    assert Words(s, sh.open.value, n + 1) == Words(s, sh.open.value, n) + [w];
    Assoc(Cat(s, sh.cur), Words(s, sh.open.value, n), [w]);
  }

  lemma EndRep(s: seq<Item>, n: nat, f: State, sh: Shelf)
    requires n < |s| && Rep(s, n, f, sh) && f.eventStart && f.numWords < |f.mem| && IsEnd(s[n])
    ensures Rep(s, n + 1, EndEvent(f, s[n].word), Complete(sh, Span(sh.open.value, n)))
  {
    var w, e := s[n].word, Span(sh.open.value, n);
    var m := f.mem[f.numWords := w];
    assert m[..f.numWords + 1] == f.mem[..f.numWords] + [w];
    CompleteWords(s, n, sh.cur, sh.open.value, f.mem[..f.numWords]);
    EndLive(s, n, f, sh, m, e);
    EndWritten(s, f, sh, m, e);
    KeptComplete(sh, e);
  }

  lemma EndLive(s: seq<Item>, n: nat, f: State, sh: Shelf, m: seq<Word>, e: Span)
    requires n < |s| && Live(s, n, f, sh) && f.eventStart && f.numWords < |f.mem| && IsEnd(s[n])
    requires m == f.mem[f.numWords := s[n].word] && e == Span(sh.open.value, n)
    requires Within(s, sh.cur + [e]) && m[..f.numWords + 1] == Cat(s, sh.cur + [e])
    ensures Live(s, n + 1, EndEvent(f, s[n].word), Complete(sh, e))
  {
    assert (sh.cur + [e])[..|sh.cur|] == sh.cur;
    assert |m[..f.numWords + 1]| == f.numWords + 1;
  }

  lemma EndWritten(s: seq<Item>, f: State, sh: Shelf, m: seq<Word>, e: Span)
    requires f.numWords < |f.mem| && f.eventChunk == sh.tally < EVENTCHUNK && e.last < |s| && IsEnd(s[e.last])
    requires Written(s, f.writes, sh.groups) && f.eventCount == EVENTCHUNK * |sh.groups| + sh.tally
    requires m == f.mem[f.numWords := s[e.last].word]
    requires Within(s, sh.cur + [e]) && m[..f.numWords + 1] == Cat(s, sh.cur + [e])
    ensures Written(s, EndEvent(f, s[e.last].word).writes, Complete(sh, e).groups)
  {
  }

  /** The end marker completes the words of the open event. */
  lemma CompleteWords(s: seq<Item>, n: nat, cur: seq<Span>, i: nat, live: seq<Word>)
    requires i <= n < |s| && s[n].Data? && Within(s, cur) && live == Cat(s, cur) + Words(s, i, n)
    ensures Within(s, cur + [Span(i, n)])
    ensures live + [s[n].word] == Cat(s, cur + [Span(i, n)])
  {
    CatSnoc(s, cur, Span(i, n));
    Assoc(Cat(s, cur), Words(s, i, n), [s[n].word]);
  }

  lemma StepRep(s: seq<Item>, n: nat, f: State, sh: Shelf)
    requires n < |s| && Rep(s, n, f, sh)
    ensures Rep(s, n + 1, Step(f, s[n]), ShelfStep(|f.mem|, sh, s[n], n))
  {
    if s[n].Gap? {
      if f.eventStart { RollbackRep(s, n, f, sh); SkipRep(s, n, Rollback(f), Abandon(sh)); }
      else { SkipRep(s, n, f, sh); }
    } else {
      HeldIsNumWords(s, n, f, sh);
      if f.numWords >= |f.mem| {
        if f.eventStart { RollbackRep(s, n, f, sh); } else { UndoRep(s, n, f, sh); }
        PlaceRep(s, n, Rollback(f), Overflow(sh));
      } else {
        PlaceRep(s, n, f, sh);
      }
    }
  }

  lemma SkipRep(s: seq<Item>, n: nat, f: State, sh: Shelf)
    requires n < |s| && Rep(s, n, f, sh) && !f.eventStart
    ensures Rep(s, n + 1, f, sh)
  {
  }

  lemma PlaceRep(s: seq<Item>, n: nat, g: State, gh: Shelf)
    requires n < |s| && Rep(s, n, g, gh) && g.numWords < |g.mem| && s[n].Data?
    ensures Rep(s, n + 1, PlaceWord(g, s[n].word), Place(gh, s[n], n))
  {
    if IsStart(s[n]) {
      StartRep(s, n, g, gh);
    } else if !g.eventStart {
      SkipRep(s, n, g, gh);
    } else if IsEnd(s[n]) {
      EndRep(s, n, g, gh);
    } else {
      BodyRep(s, n, g, gh);
    }
  }

  lemma StartRep(s: seq<Item>, n: nat, g: State, gh: Shelf)
    requires n < |s| && Rep(s, n, g, gh) && g.numWords < |g.mem| && IsStart(s[n])
    ensures Rep(s, n + 1, BeginEvent(if g.eventStart then Rollback(g) else g, s[n].word),
                Abandon(gh).(open := Some(n)))
  {
    if g.eventStart {
      RollbackRep(s, n, g, gh);
      OpenRep(s, n, Rollback(g), Abandon(gh));
    } else {
      OpenRep(s, n, g, gh);
    }
  }

  /** The refinement, for every stream and every buffer. */
  lemma {:induction false} RunRefinesShelf(mem: seq<Word>, s: seq<Item>, n: nat)
    requires mem != [] && n <= |s|
    ensures Rep(s, n, Run(mem, s[..n]), Shelve(|mem|, s[..n]))
  {
    if n > 0 {
      RunRefinesShelf(mem, s, n - 1);
      assert s[..n][..n - 1] == s[..n - 1];
      StepRep(s, n - 1, Run(mem, s[..n - 1]), Shelve(|mem|, s[..n - 1]));
    }
  }
}

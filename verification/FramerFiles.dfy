/** Which events each readout file holds (src/data/data_handler.cpp:528-556). */
module FramerFiles {
  import opened Basics
  import opened Readout
  import opened Framer
  import opened FramerRefinement
  import opened FramerResults

  /** Chunks go to the open file; a new file is opened after a chunk written at a multiple of 5000 counted
      events (:540). Writes and switches are taken to succeed. */
  function Files(writes: seq<Chunk>): (r: seq<seq<Word>>)
    ensures r != []
  {
    if writes == [] then [[]]
    else
      var c := writes[|writes| - 1];
      OneMoreWrite(Files(writes[..|writes| - 1]), c.words, c.count % EVENTS_PER_FILE == 0)
  }

  /** What the files become when words are written to the last one, with or without a switch after it. */
  function OneMoreWrite(fs: seq<seq<Word>>, words: seq<Word>, switch: bool): (r: seq<seq<Word>>)
    requires fs != []
    ensures r != []
  {
    var gs := fs[|fs| - 1 := fs[|fs| - 1] + words];
    if switch then gs + [[]] else gs
  }

  /** The files after the final flush. */
  function FinalFiles(f: State): seq<seq<Word>>
    requires f.WellFormed()
  {
    var fs := Files(f.writes);
    fs[|fs| - 1 := fs[|fs| - 1] + Flush(f)]
  }

  /** The contents of the files, one after the other. */
  function Concat(fs: seq<seq<Word>>): seq<Word> {
    if fs == [] then [] else Concat(fs[..|fs| - 1]) + fs[|fs| - 1]
  }

  lemma FilesSnoc(writes: seq<Chunk>, c: Chunk)
    ensures (writes + [c])[..|writes|] == writes
    ensures Files(writes + [c]) == OneMoreWrite(Files(writes), c.words, c.count % EVENTS_PER_FILE == 0)
  {
    assert (writes + [c])[..|writes|] == writes;
  }

  lemma ConcatLast(fs: seq<seq<Word>>, w: seq<Word>)
    requires fs != []
    ensures Concat(fs[|fs| - 1 := fs[|fs| - 1] + w]) == Concat(fs) + w
  {
    var gs := fs[|fs| - 1 := fs[|fs| - 1] + w];
    assert gs[..|gs| - 1] == fs[..|fs| - 1];
    Assoc(Concat(fs[..|fs| - 1]), fs[|fs| - 1], w);
  }

  lemma ConcatEmpty(fs: seq<seq<Word>>)
    ensures Concat(fs + [[]]) == Concat(fs)
  {
    assert (fs + [[]])[..|fs|] == fs;
  }

  lemma {:induction false} FilesHoldWrites(writes: seq<Chunk>)
    ensures Concat(Files(writes)) == Joined(writes)
  {
    if writes == [] {
      assert Files(writes)[..0] == [];
    } else {
      var ws, c := writes[..|writes| - 1], writes[|writes| - 1];
      var fs := Files(ws);
      FilesHoldWrites(ws);
      ConcatLast(fs, c.words);
      ConcatEmpty(fs[|fs| - 1 := fs[|fs| - 1] + c.words]);
    }
  }

  /** Whatever the stream, the files together hold what was written, in order. */
  lemma FilesHoldOutput(f: State)
    requires f.WellFormed()
    ensures Concat(FinalFiles(f)) == Output(f)
  {
    FilesHoldWrites(f.writes);
    ConcatLast(Files(f.writes), Flush(f));
  }

  /** The events of file `i` when events are dealt out 5000 to a file. */
  function Share(es: seq<Span>, i: nat): seq<Span>
    requires EVENTS_PER_FILE * i <= |es|
  {
    es[EVENTS_PER_FILE * i .. if EVENTS_PER_FILE * (i + 1) <= |es| then EVENTS_PER_FILE * (i + 1) else |es|]
  }

  ghost predicate Dealt(s: seq<Item>, es: seq<Span>, fs: seq<seq<Word>>) {
    && Within(s, es)
    && fs != []
    && EVENTS_PER_FILE * (|fs| - 1) <= |es| < EVENTS_PER_FILE * |fs|
    && forall i :: 0 <= i < |fs| ==> fs[i] == Cat(s, Share(es, i))
  }

  /** Ten divides 5000: a group of events never straddles two files. */
  lemma RoomForGroup(n: nat, files: nat)
    requires n % EVENTCHUNK == 0 && EVENTS_PER_FILE * files <= n < EVENTS_PER_FILE * (files + 1)
    ensures n + EVENTCHUNK <= EVENTS_PER_FILE * (files + 1)
    ensures (n + EVENTCHUNK) % EVENTS_PER_FILE == 0 <==> n + EVENTCHUNK == EVENTS_PER_FILE * (files + 1)
  {
    var r := n + EVENTCHUNK - EVENTS_PER_FILE * files;
    assert n == EVENTCHUNK * (n / EVENTCHUNK);
    assert r == EVENTCHUNK * (n / EVENTCHUNK + 1 - 500 * files);
    if r < EVENTS_PER_FILE {
      DivModIs(n + EVENTCHUNK, EVENTS_PER_FILE, files, r);
    } else {
      DivModIs(n + EVENTCHUNK, EVENTS_PER_FILE, files + 1, 0);
    }
  }

  lemma ShareAppend(es: seq<Span>, g: seq<Span>, files: nat, i: nat)
    requires EVENTS_PER_FILE * files <= |es| && |es| + |g| <= EVENTS_PER_FILE * (files + 1) && i <= files
    ensures Share(es + g, i) == if i == files then Share(es, i) + g else Share(es, i)
  {
  }

  /** One more group of events goes to the last file. */
  lemma DealMore(s: seq<Item>, es: seq<Span>, g: seq<Span>, fs: seq<seq<Word>>)
    requires Dealt(s, es, fs) && |es| + |g| <= EVENTS_PER_FILE * |fs| && Within(s, g)
    ensures Within(s, es + g)
    ensures var gs := fs[|fs| - 1 := fs[|fs| - 1] + Cat(s, g)];
      forall i :: 0 <= i < |gs| ==> gs[i] == Cat(s, Share(es + g, i))
  {
    var last := |fs| - 1;
    CatAppend(s, es, g);
    CatAppend(s, Share(es, last), g);
    forall i | 0 <= i < |fs| ensures Share(es + g, i) == if i == last then Share(es, i) + g else Share(es, i) {
      ShareAppend(es, g, last, i);
    }
  }

  /** When the last file is full, the next one starts empty. */
  lemma NoShareLeft(s: seq<Item>, es: seq<Span>, fs: seq<seq<Word>>)
    requires Within(s, es) && fs != [] && EVENTS_PER_FILE * (|fs| - 1) <= |es| <= EVENTS_PER_FILE * |fs|
    requires forall i :: 0 <= i < |fs| ==> fs[i] == Cat(s, Share(es, i))
    ensures Dealt(s, es, if |es| == EVENTS_PER_FILE * |fs| then fs + [[]] else fs)
  {
    if |es| == EVENTS_PER_FILE * |fs| {
      assert Share(es, |fs|) == [];
    }
  }

  lemma DealGroup(s: seq<Item>, es: seq<Span>, g: seq<Span>, fs: seq<seq<Word>>)
    requires Dealt(s, es, fs) && |es| + |g| <= EVENTS_PER_FILE * |fs| && Within(s, g)
    ensures Within(s, es + g)
    ensures Dealt(s, es + g, OneMoreWrite(fs, Cat(s, g), |es| + |g| == EVENTS_PER_FILE * |fs|))
  {
    DealMore(s, es, g, fs);
    NoShareLeft(s, es + g, fs[|fs| - 1 := fs[|fs| - 1] + Cat(s, g)]);
  }

  lemma DealChunk(s: seq<Item>, es: seq<Span>, g: seq<Span>, fs: seq<seq<Word>>, count: nat)
    requires Dealt(s, es, fs) && |es| % EVENTCHUNK == 0 && |g| == EVENTCHUNK && Within(s, g)
    requires count == |es| + EVENTCHUNK
    ensures Within(s, es + g)
    ensures Dealt(s, es + g, OneMoreWrite(fs, Cat(s, g), count % EVENTS_PER_FILE == 0))
  {
    RoomForGroup(|es|, |fs| - 1);
    DealGroup(s, es, g, fs);
  }

  lemma LastWritten(s: seq<Item>, writes: seq<Chunk>, groups: seq<seq<Span>>)
    requires Written(s, writes, groups) && groups != []
    ensures var n := |groups| - 1;
      && Written(s, writes[..n], groups[..n])
      && Within(s, groups[n]) && writes[n] == Chunk(Cat(s, groups[n]), EVENTCHUNK * n + EVENTCHUNK)
  {
  }

  lemma {:induction false} ChunksAreDealt(s: seq<Item>, writes: seq<Chunk>, groups: seq<seq<Span>>)
    requires Written(s, writes, groups)
    requires forall k :: 0 <= k < |groups| ==> |groups[k]| == EVENTCHUNK
    ensures |Flatten(groups)| == EVENTCHUNK * |groups|
    ensures Dealt(s, Flatten(groups), Files(writes))
  {
    if groups != [] {
      var n := |groups| - 1;
      var gs, g, ws, c := groups[..n], groups[n], writes[..n], writes[n];
      LastWritten(s, writes, groups);
      ChunksAreDealt(s, ws, gs);
      Tens(n);
      DealChunk(s, Flatten(gs), g, Files(ws), c.count);
      assert Files(writes) == OneMoreWrite(Files(ws), c.words, c.count % EVENTS_PER_FILE == 0);
    }
  }

  /** When events fit, file `i` holds exactly the events 5000 i + 1 to 5000 (i + 1) of the stream. */
  lemma FilesPartitionEvents(mem: seq<Word>, s: seq<Item>, bound: nat)
    requires bound > 0 && |mem| == EVENTCHUNK * bound && Fits(s, bound)
    ensures Dealt(s, ParseStream(s).found, FinalFiles(Run(mem, s)))
  {
    assert s[..|s|] == s;
    var f, sh := Run(mem, s), Shelve(|mem|, s);
    RunRefinesShelf(mem, s, |s|);
    FittingStreamIsKept(s, |s|, bound);
    FlushIsWaitingEventsIff(mem, s);
    FilesOfKept(s, f, sh);
  }

  lemma FilesOfKept(s: seq<Item>, f: State, sh: Shelf)
    requires f.WellFormed() && Written(s, f.writes, sh.groups)
    requires forall k :: 0 <= k < |sh.groups| ==> |sh.groups[k]| == EVENTCHUNK
    requires |sh.cur| < EVENTCHUNK && Within(s, sh.cur) && Flush(f) == Cat(s, sh.cur)
    ensures Dealt(s, Kept(sh), FinalFiles(f))
  {
    ChunksAreDealt(s, f.writes, sh.groups);
    var es, fs := Flatten(sh.groups), Files(f.writes);
    Tens(|sh.groups|);
    RoomForGroup(|es|, |fs| - 1);
    DealMore(s, es, sh.cur, fs);
    assert |FinalFiles(f)| == |fs|;
  }

  lemma Tens(n: nat)
    ensures (EVENTCHUNK * n) % EVENTCHUNK == 0
  {
  }
}

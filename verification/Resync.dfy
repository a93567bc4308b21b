/** The read thread and the write thread around the ring: the read thread marks lost words by posting a block
    index in one shared slot (src/data/data_handler.cpp:666-715), the write thread compares it with the number
    of blocks it has read (:477-490). Every shared access is one step; steps interleave in any order. */
module Resync {
  import opened Basics
  import opened Readout
  import opened EventWriter
  import opened Framer
  import opened FramerResults
  import Ring

  datatype Reader = Running | Refused

  /** The write thread: inside data_queue_.read, holding a block before it loads the slot, or between the load
      that fires and the store of kNoResync. */
  datatype Writer = Reading | Fetched(words: seq<Word>) | Firing(words: seq<Word>)

  /** `slot` is resync_at_block_, `None` for kNoResync. blocks_enqueued is the number of blocks pushed and
      blocks_read the number delivered. `cuts` records every index posted so far. `delivered` is what the framer
      gets. */
  datatype System = System(
    ring: Ring.Machine<seq<Word>>, slot: Option<nat>, reader: Reader, writer: Writer,
    cuts: set<nat>, delivered: seq<Block>)

  datatype Action = Timeout | PostLoss | LoadSlot | ClearSlot | Queue(a: Ring.Action<seq<Word>>)

  function Start(records: seq<seq<Word>>): System {
    System(Ring.Init(records), None, Running, Reading, {}, [])
  }

  ghost predicate Enabled(y: System, a: Action) {
    match a
    case Timeout => y.reader.Running? && y.ring.producer.Idle?
    case PostLoss => y.reader.Refused?
    case LoadSlot => y.writer.Fetched?
    case ClearSlot => y.writer.Firing?
    case Queue(q) =>
      && Ring.Enabled(y.ring, q)
      && (q.StartWrite? ==> y.reader.Running?)
      && (q.StartRead? ==> y.writer.Reading?)
      && !q.ProducerGuess? && !q.DropProducerGuess? && !q.ConsumerGuess? && !q.DropConsumerGuess?
  }

  /** resync_at_block_.store(blocks_enqueued) (:690, :713). */
  function Post(y: System): System {
    var k := |y.ring.pushed|;
    y.(slot := Some(k), cuts := y.cuts + {k})
  }

  function Step(y: System, a: Action): (r: System)
    requires y.ring.Indexed() && Enabled(y, a)
    ensures r.ring.Indexed()
  {
    match a
    case Timeout => Post(y)
    case PostLoss => Post(y).(reader := Running)
    case LoadSlot =>
      if y.slot.Some? && |y.delivered| >= y.slot.value then y.(writer := Firing(y.writer.words))
      else y.(writer := Reading, delivered := y.delivered + [Block(y.writer.words, false)])
    case ClearSlot =>
      y.(slot := None, writer := Reading, delivered := y.delivered + [Block(y.writer.words, true)])
    case Queue(q) =>
      var ring := Ring.Step(y.ring, q);
      y.(ring := ring,
      reader := if ring.refused > y.ring.refused then Refused else y.reader,
      writer := if q.StoreRead? then Fetched(y.ring.consumer.value) else y.writer)
  }

  predicate IsPost(a: Action) {
    a.Timeout? || a.PostLoss?
  }

  /** At most one undelivered gap: the slot is free, or already says the same. */
  predicate SlotFree(y: System) {
    y.slot == None || y.slot == Some(|y.ring.pushed|)
  }

  /** The two threads agree on which block is which. */
  ghost predicate Consistent(y: System) {
    && Ring.Safe(y.ring)
    && |y.ring.popped| == |y.delivered| + (if y.writer.Reading? then 0 else 1)
    && (forall k :: 0 <= k < |y.delivered| ==> y.delivered[k].words == y.ring.popped[k])
    && (!y.writer.Reading? ==> y.writer.words == y.ring.popped[|y.delivered|] && y.ring.consumer.Resting?)
    && (y.reader.Refused? ==> y.ring.producer.Idle?)
    && (forall k :: k in y.cuts ==> k <= |y.ring.pushed|)
    && (y.slot.Some? ==> y.slot.value <= |y.ring.pushed|)
  }

  /** Every decision so far was right, and the slot says exactly what is still to be delivered. */
  ghost predicate Exact(y: System) {
    var d := |y.delivered|;
    && (forall k :: 0 <= k < d ==> (y.delivered[k].resync <==> k in y.cuts))
    && (y.slot.Some? ==> y.slot.value >= d)
    && if y.writer.Firing? then y.slot == Some(d) && d in y.cuts && (forall k :: k in y.cuts ==> k <= d)
       else forall k {:trigger k in y.cuts} :: d <= k ==> (k in y.cuts <==> y.slot == Some(k))
  }

  lemma StepIsConsistent(y: System, a: Action)
    requires Consistent(y) && Enabled(y, a)
    ensures Consistent(Step(y, a))
    ensures |y.ring.pushed| <= |Step(y, a).ring.pushed| && y.ring.pushed <= Step(y, a).ring.pushed
  {
    if a.Queue? {
      Ring.StepIsSafe(y.ring, a.a);
    }
  }

  /** A post keeps the protocol exact if and only if the slot is free; every other step always does. */
  lemma StepIsExactIff(y: System, a: Action)
    requires Consistent(y) && Exact(y) && Enabled(y, a)
    ensures Exact(Step(y, a)) <==> (IsPost(a) ==> SlotFree(y))
  {
    var z, p, d := Step(y, a), |y.ring.pushed|, |y.delivered|;
    if IsPost(a) {
      assert p in z.cuts;
      if !SlotFree(y) {
        assert y.slot.value in z.cuts && d <= y.slot.value && z.slot != y.slot;
      }
    }
  }

  ghost predicate Allowed(y: System, run: seq<Action>)
    requires y.ring.Indexed()
    decreases |run|
  {
    run == [] || (Enabled(y, run[0]) && Allowed(Step(y, run[0]), run[1..]))
  }

  function RunFrom(y: System, run: seq<Action>): (r: System)
    requires y.ring.Indexed() && Allowed(y, run)
    ensures r.ring.Indexed()
    decreases |run|
  {
    if run == [] then y else RunFrom(Step(y, run[0]), run[1..])
  }

  /** Every post of the run finds the slot free. */
  ghost predicate Guarded(y: System, run: seq<Action>)
    requires y.ring.Indexed() && Allowed(y, run)
    decreases |run|
  {
    run == [] || ((IsPost(run[0]) ==> SlotFree(y)) && Guarded(Step(y, run[0]), run[1..]))
  }

  lemma {:induction false} RunIsConsistent(y: System, run: seq<Action>)
    requires Consistent(y) && Allowed(y, run)
    ensures Consistent(RunFrom(y, run))
    decreases |run|
  {
    if run != [] {
      StepIsConsistent(y, run[0]);
      RunIsConsistent(Step(y, run[0]), run[1..]);
    }
  }

  lemma {:induction false} GuardedRunIsExact(y: System, run: seq<Action>)
    requires Consistent(y) && Exact(y) && Allowed(y, run) && Guarded(y, run)
    ensures Exact(RunFrom(y, run))
    decreases |run|
  {
    if run != [] {
      StepIsConsistent(y, run[0]);
      StepIsExactIff(y, run[0]);
      GuardedRunIsExact(Step(y, run[0]), run[1..]);
    }
  }

  /** The first `n` blocks that were pushed, each marked by whether words were lost just before it. */
  function TrueBlocks(pushed: seq<seq<Word>>, cuts: set<nat>, n: nat): (r: seq<Block>)
    requires n <= |pushed|
    ensures |r| == n
    ensures forall k :: 0 <= k < n ==> r[k] == Block(pushed[k], k in cuts)
  {
    if n == 0 then [] else TrueBlocks(pushed, cuts, n - 1) + [Block(pushed[n - 1], n - 1 in cuts)]
  }

  // ---------------------------------------------------------------- where words are really lost

  /** Words are lost just before the next block to be pushed: the DMA timed out, or the queue refuses a block. */
  predicate Loses(y: System, a: Action)
    requires y.ring.Indexed() && Enabled(y, a)
  {
    a.Timeout? || (a.Queue? && Ring.Step(y.ring, a.a).refused > y.ring.refused)
  }

  /** The blocks of a run that have lost words just before them, read off what happens and not off the posts. */
  function Losses(y: System, run: seq<Action>): set<nat>
    requires y.ring.Indexed() && Allowed(y, run)
    decreases |run|
  {
    if run == [] then {}
    else (if Loses(y, run[0]) then {|y.ring.pushed|} else {}) + Losses(Step(y, run[0]), run[1..])
  }

  /** A refused block is posted before the next one is pushed. */
  function Owed(y: System): set<nat> {
    if y.reader.Refused? then {|y.ring.pushed|} else {}
  }

  lemma StepRecordsLosses(y: System, a: Action)
    requires Consistent(y) && Enabled(y, a)
    ensures var z := Step(y, a);
      z.cuts + Owed(z) == y.cuts + Owed(y) + if Loses(y, a) then {|y.ring.pushed|} else {}
  {
  }

  /** Every loss is recorded, and nothing else is: once the posts still owed are made, `cuts` has the losses. */
  lemma {:induction false} CutsAreLosses(y: System, run: seq<Action>)
    requires Consistent(y) && Allowed(y, run)
    ensures var z := RunFrom(y, run);
      z.cuts + Owed(z) == y.cuts + Owed(y) + Losses(y, run)
    decreases |run|
  {
    if run != [] {
      StepIsConsistent(y, run[0]);
      StepRecordsLosses(y, run[0]);
      CutsAreLosses(Step(y, run[0]), run[1..]);
    }
  }

  /** Under every interleaving in which each post finds the slot free, resync fires at the first block after
      every loss and nowhere else, so the framer is fed the true stream. */
  lemma GapSafety(records: seq<seq<Word>>, run: seq<Action>)
    requires |records| >= 2 && Allowed(Start(records), run) && Guarded(Start(records), run)
    ensures var y := RunFrom(Start(records), run);
      && |y.delivered| <= |y.ring.pushed|
      && y.delivered == TrueBlocks(y.ring.pushed, Losses(Start(records), run), |y.delivered|)
  {
    var y, losses := RunFrom(Start(records), run), Losses(Start(records), run);
    RunIsConsistent(Start(records), run);
    GuardedRunIsExact(Start(records), run);
    CutsAreLosses(Start(records), run);
    assert y.cuts + Owed(y) == losses;
    var t := TrueBlocks(y.ring.pushed, losses, |y.delivered|);
    forall k | 0 <= k < |t| ensures t[k] == y.delivered[k] {
      assert y.ring.pushed[k] == y.ring.popped[k];
      assert k in losses <==> k in y.cuts;
    }
  }

  // ---------------------------------------------------------------- a second undelivered gap

  /** The loss before block `m` can no longer be delivered: the slot says something later, or nothing, or is
      about to be cleared for an earlier block. */
  ghost predicate Doomed(y: System, m: nat) {
    && m in y.cuts
    && m < |y.ring.pushed|
    && (|y.delivered| <= m ==>
          if y.writer.Firing? then |y.delivered| < m else y.slot.Some? ==> y.slot.value > m)
    && (m < |y.delivered| ==> !y.delivered[m].resync)
  }

  /** Overwriting a pending post loses it for good, whatever happens next: block `m` is delivered unmarked. */
  lemma {:induction false} DoomedForever(y: System, m: nat, run: seq<Action>)
    requires Consistent(y) && Doomed(y, m) && Allowed(y, run)
    ensures Doomed(RunFrom(y, run), m)
    decreases |run|
  {
    if run != [] {
      StepIsConsistent(y, run[0]);
      DoomedForever(Step(y, run[0]), m, run[1..]);
    }
  }

  lemma OverwritingPostLosesGap(y: System, a: Action, run: seq<Action>)
    requires Consistent(y) && Exact(y) && Enabled(y, a) && IsPost(a)
    requires !SlotFree(y) && !y.writer.Firing?
    requires Allowed(Step(y, a), run)
    ensures var m, z := y.slot.value, RunFrom(Step(y, a), run);
      m in z.cuts && (m < |z.delivered| ==> !z.delivered[m].resync)
  {
    StepIsConsistent(y, a);
    DoomedForever(Step(y, a), y.slot.value, run);
  }

  // ---------------------------------------------------------------- a post inside the load-store window

  /** Outside the window, the reader posts `p` again before it pushes block `p`. */
  ghost predicate PostedAgain(y: System, run: seq<Action>, p: nat)
    requires y.ring.Indexed() && Allowed(y, run)
    decreases |run|
  {
    run != [] &&
    ((IsPost(run[0]) && |y.ring.pushed| == p && !y.writer.Firing?) || PostedAgain(Step(y, run[0]), run[1..], p))
  }

  /** Block `p` is the next to be pushed, and the slot does not say so or is about to be cleared. */
  ghost predicate Overlooked(y: System, p: nat) {
    p in y.cuts && |y.ring.pushed| == p && (!y.writer.Firing? ==> y.slot == None)
  }

  lemma {:induction false} OverlookedIsLost(y: System, p: nat, run: seq<Action>)
    requires Consistent(y) && (Overlooked(y, p) || Doomed(y, p)) && Allowed(y, run) && !PostedAgain(y, run, p)
    ensures Overlooked(RunFrom(y, run), p) || Doomed(RunFrom(y, run), p)
    decreases |run|
  {
    if run != [] {
      StepIsConsistent(y, run[0]);
      OverlookedIsLost(Step(y, run[0]), p, run[1..]);
    }
  }

  /** A post between the write thread's load and its store of kNoResync is wiped out by that store: unless the same
      index is posted again afterwards, block `p` is never delivered with a mark, whatever else happens. */
  lemma WindowPostIsWipedOut(y: System, a: Action, run: seq<Action>)
    requires Consistent(y) && Enabled(y, a) && IsPost(a) && y.writer.Firing?
    requires Allowed(Step(y, a), run) && !PostedAgain(Step(y, a), run, |y.ring.pushed|)
    ensures var p, z := |y.ring.pushed|, RunFrom(Step(y, a), run);
      p in z.cuts && (p < |z.delivered| ==> !z.delivered[p].resync)
  {
    StepIsConsistent(y, a);
    RunIsConsistent(Step(y, a), run);
    OverlookedIsLost(Step(y, a), |y.ring.pushed|, run);
  }

  /** The protocol as if the loss before block `p` had not happened. */
  function Unsaid(y: System, p: nat): System {
    y.(cuts := y.cuts - {p})
  }

  /** Exact but for block `p`, whose post is wiped out, or will be when the window closes. */
  ghost predicate ExactBut(y: System, p: nat) {
    && p in y.cuts
    && p <= |y.ring.pushed|
    && if y.writer.Firing? && y.slot == Some(p)
       then |y.delivered| < p && Exact(Unsaid(y, p).(slot := Some(|y.delivered|)))
       else Exact(Unsaid(y, p)) && (|y.ring.pushed| == p ==> y.slot == None && !y.writer.Firing?)
  }

  lemma StepIsExactBut(y: System, a: Action, p: nat)
    requires Consistent(y) && ExactBut(y, p) && Enabled(y, a) && (IsPost(a) ==> SlotFree(y))
    ensures if IsPost(a) && |y.ring.pushed| == p && !y.writer.Firing?
            then Exact(Step(y, a)) else ExactBut(Step(y, a), p)
  {
    if IsPost(a) && |y.ring.pushed| == p {
      PostAtBlock(y, a, p);
    } else if y.writer.Firing? && y.slot == Some(p) {
      WindowCloses(y, a, p);
    } else {
      OtherStep(y, a, p);
    }
  }

  lemma PostAtBlock(y: System, a: Action, p: nat)
    requires Consistent(y) && ExactBut(y, p) && Enabled(y, a) && IsPost(a) && |y.ring.pushed| == p
    ensures if y.writer.Firing? then ExactBut(Step(y, a), p) else Exact(Step(y, a))
  {
    forall k ensures k in Unsaid(y, p).cuts <==> k in y.cuts && k != p {}
    assert Step(y, a).cuts == y.cuts;
  }

  lemma WindowCloses(y: System, a: Action, p: nat)
    requires Consistent(y) && ExactBut(y, p) && Enabled(y, a) && !IsPost(a)
    requires y.writer.Firing? && y.slot == Some(p)
    ensures ExactBut(Step(y, a), p)
  {
  }

  lemma OtherStep(y: System, a: Action, p: nat)
    requires Consistent(y) && ExactBut(y, p) && Enabled(y, a) && (IsPost(a) ==> SlotFree(y) && |y.ring.pushed| != p)
    requires !(y.writer.Firing? && y.slot == Some(p))
    ensures ExactBut(Step(y, a), p)
  {
    var u, z := Unsaid(y, p), Step(y, a);
    assert Consistent(u);
    StepIsExactIff(u, a);
    assert Step(u, a) == Unsaid(z, p);
  }

  lemma {:induction false} RunIsExactBut(y: System, p: nat, run: seq<Action>)
    requires Consistent(y) && ExactBut(y, p) && Allowed(y, run) && Guarded(y, run)
    ensures if PostedAgain(y, run, p) then Exact(RunFrom(y, run)) else ExactBut(RunFrom(y, run), p)
    decreases |run|
  {
    if run != [] {
      var z := Step(y, run[0]);
      StepIsConsistent(y, run[0]);
      StepIsExactBut(y, run[0], p);
      if IsPost(run[0]) && |y.ring.pushed| == p && !y.writer.Firing? {
        GuardedRunIsExact(z, run[1..]);
      } else {
        RunIsExactBut(z, p, run[1..]);
      }
    }
  }

  /** After a post inside the window and guarded posts from then on, every block is delivered with the right
      mark, except that block `p` is marked if and only if `p` is posted again. */
  lemma WindowPostIsMarkedIff(y: System, a: Action, run: seq<Action>)
    requires Consistent(y) && Exact(y) && Enabled(y, a) && IsPost(a) && y.writer.Firing?
    requires Allowed(Step(y, a), run) && Guarded(Step(y, a), run)
    ensures var p, z := |y.ring.pushed|, RunFrom(Step(y, a), run);
      forall k :: 0 <= k < |z.delivered| ==>
        (z.delivered[k].resync <==> k in z.cuts && (k == p ==> PostedAgain(Step(y, a), run, p)))
  {
    var p := |y.ring.pushed|;
    StepIsConsistent(y, a);
    assert p !in y.cuts;
    assert Unsaid(Step(y, a), p).cuts == y.cuts;
    RunIsExactBut(Step(y, a), p, run);
  }

  // ---------------------------------------------------------------- from words to files

  /** Reader, ring and framer together: with guarded posts, every chunk written is whole events of the true
      stream, where a `Gap` stands at every loss, so no written event has words from both sides of one. So is all
      that is written, final flush included, while nine events of the largest size leave room in the buffer; and
      when ten fit, it is all the complete events of the blocks delivered. */
  lemma NoEventSpansAGap(records: seq<seq<Word>>, run: seq<Action>, mem: seq<Word>, bound: nat)
    requires |records| >= 2 && Allowed(Start(records), run) && Guarded(Start(records), run)
    requires bound > 0 && |mem| == EVENTCHUNK * bound
    ensures var y := RunFrom(Start(records), run);
      && |y.delivered| <= |y.ring.pushed|
      && var s := Stream(TrueBlocks(y.ring.pushed, Losses(Start(records), run), |y.delivered|));
      var f, sh := Run(mem, Stream(y.delivered)), Shelve(|mem|, s);
      && Ordered(Kept(sh))
      && (forall k :: 0 <= k < |Kept(sh)| ==> IsEvent(s, Kept(sh)[k]))
      && (forall k :: 0 <= k < |f.writes| ==>
            k < |sh.groups| && Within(s, sh.groups[k]) && f.writes[k].words == Cat(s, sh.groups[k]))
      && (Fits(s, bound) ==> Within(s, ParseStream(s).found) && Output(f) == Cat(s, ParseStream(s).found))
      && (forall size: nat :: Fits(s, size) && (EVENTCHUNK - 1) * size < |mem| ==> IsWholeEvents(s, Output(f)))
  {
    GapSafety(records, run);
    var y := RunFrom(Start(records), run);
    var s := Stream(y.delivered);
    EveryChunkIsWholeEvents(mem, s);
    if Fits(s, bound) {
      FittingStreamIsLossless(mem, s, bound);
    }
    forall size: nat | Fits(s, size) && (EVENTCHUNK - 1) * size < |mem| ensures IsWholeEvents(s, Output(Run(mem, s))) {
      OutputIsWholeEvents(mem, s, size);
    }
  }

  // ---------------------------------------------------------------- a run that breaks it

  lemma {:induction false} RunConcat(y: System, a: seq<Action>, b: seq<Action>)
    requires y.ring.Indexed() && Allowed(y, a) && Allowed(RunFrom(y, a), b)
    ensures Allowed(y, a + b) && RunFrom(y, a + b) == RunFrom(RunFrom(y, a), b)
    decreases |a|
  {
    if a == [] {
      assert a + b == b;
    } else {
      assert (a + b)[0] == a[0] && (a + b)[1..] == a[1..] + b;
      RunConcat(Step(y, a[0]), a[1..], b);
    }
  }

  function PushRun(w: seq<Word>): seq<Action> {
    [Queue(Ring.StartWrite(w)), Queue(Ring.LoadRead), Queue(Ring.FillSlot), Queue(Ring.StoreWrite)]
  }

  function FetchRun(): seq<Action> {
    [Queue(Ring.StartRead), Queue(Ring.LoadWrite), Queue(Ring.TakeSlot), Queue(Ring.StoreRead)]
  }

  /** The state after the read thread has pushed `w`. */
  function AfterPush(y: System, w: seq<Word>): System
    requires y.ring.Indexed()
  {
    y.(ring := y.ring.(
      records := y.ring.records[y.ring.writeIndex := w],
      writeIndex := Ring.Next(y.ring.writeIndex, |y.ring.records|),
      pushed := y.ring.pushed + [w]))
  }

  /** The state after the write thread has read the oldest block. */
  function AfterFetch(y: System): System
    requires y.ring.Indexed()
  {
    var w := y.ring.records[y.ring.readIndex];
    y.(writer := Fetched(w), ring := y.ring.(
      readIndex := Ring.Next(y.ring.readIndex, |y.ring.records|), popped := y.ring.popped + [w]))
  }

  lemma PushRuns(y: System, w: seq<Word>)
    requires y.ring.Indexed() && y.reader.Running? && y.ring.producer.Idle?
    requires Ring.Next(y.ring.writeIndex, |y.ring.records|) != y.ring.readIndex
    ensures Allowed(y, PushRun(w)) && RunFrom(y, PushRun(w)) == AfterPush(y, w)
  {
    var r := PushRun(w);
    FourSteps(y, r[0], r[1], r[2], r[3]);
  }

  lemma FetchRuns(y: System)
    requires y.ring.Indexed() && y.writer.Reading? && y.ring.consumer.Resting?
    requires y.ring.readIndex != y.ring.writeIndex
    ensures Allowed(y, FetchRun()) && RunFrom(y, FetchRun()) == AfterFetch(y)
  {
    var r := FetchRun();
    FourSteps(y, r[0], r[1], r[2], r[3]);
  }

  /** A block is pushed, then a timeout is posted. */
  lemma PushThenPost(y: System, w: seq<Word>)
    requires y.ring.Indexed() && y.reader.Running? && y.ring.producer.Idle?
    requires Ring.Next(y.ring.writeIndex, |y.ring.records|) != y.ring.readIndex
    ensures var run := PushRun(w) + [Timeout];
      Allowed(y, run) && RunFrom(y, run) == Post(AfterPush(y, w))
  {
    PushRuns(y, w);
    OneStep(AfterPush(y, w), Timeout);
    RunConcat(y, PushRun(w), [Timeout]);
  }

  /** A block is fetched, and the slot says nothing about it. */
  lemma FetchThenLoad(y: System)
    requires y.ring.Indexed() && y.writer.Reading? && y.ring.consumer.Resting?
    requires y.ring.readIndex != y.ring.writeIndex && (y.slot.Some? ==> |y.delivered| < y.slot.value)
    ensures var run, w := FetchRun() + [LoadSlot], y.ring.records[y.ring.readIndex];
      Allowed(y, run) &&
      RunFrom(y, run) == AfterFetch(y).(writer := Reading, delivered := y.delivered + [Block(w, false)])
  {
    FetchRuns(y);
    OneStep(AfterFetch(y), LoadSlot);
    RunConcat(y, FetchRun(), [LoadSlot]);
  }

  lemma FourSteps(y: System, a: Action, b: Action, c: Action, d: Action)
    requires y.ring.Indexed() && Enabled(y, a) && Enabled(Step(y, a), b)
    requires Enabled(Step(Step(y, a), b), c) && Enabled(Step(Step(Step(y, a), b), c), d)
    ensures Allowed(y, [a, b, c, d])
    ensures RunFrom(y, [a, b, c, d]) == Step(Step(Step(Step(y, a), b), c), d)
  {
    OneStep(y, a);
    OneStep(Step(y, a), b);
    OneStep(Step(Step(y, a), b), c);
    OneStep(Step(Step(Step(y, a), b), c), d);
    RunConcat(y, [a], [b]);
    RunConcat(y, [a] + [b], [c]);
    RunConcat(y, [a] + [b] + [c], [d]);
    assert [a] + [b] + [c] + [d] == [a, b, c, d];
  }

  lemma OneStep(y: System, a: Action)
    requires y.ring.Indexed() && Enabled(y, a)
    ensures Allowed(y, [a]) && RunFrom(y, [a]) == Step(y, a)
  {
    assert [a][1..] == [];
  }

  /** Push, post, push, post, then deliver both blocks. */
  function GluingRun(head: seq<Word>, tail: seq<Word>): seq<Action> {
    (PushRun(head) + [Timeout]) + (PushRun(tail) + [Timeout]) + (FetchRun() + [LoadSlot]) + (FetchRun() + [LoadSlot])
  }

  lemma GluingRunDelivers(records: seq<seq<Word>>, head: seq<Word>, tail: seq<Word>)
    requires |records| >= 3
    ensures var y0, run := Start(records), GluingRun(head, tail);
      && Allowed(y0, run)
      && var z := RunFrom(y0, run);
      && z.ring.pushed == [head, tail] && z.delivered == [Block(head, false), Block(tail, false)]
      && z.cuts == {1, 2} && z.reader.Running?
  {
    var y0 := Start(records);
    var a, b, c := PushRun(head) + [Timeout], PushRun(tail) + [Timeout], FetchRun() + [LoadSlot];
    PushThenPost(y0, head);
    var y1 := RunFrom(y0, a);
    PushThenPost(y1, tail);
    var y2 := RunFrom(y1, b);
    FetchThenLoad(y2);
    var y3 := RunFrom(y2, c);
    FetchThenLoad(y3);
    RunConcat(y0, a, b);
    RunConcat(y0, a + b, c);
    RunConcat(y0, a + b + c, c);
  }

  /** Two losses before either is delivered: the first words of one event and the last words of another come out
      as one event of two words, although the true stream has no complete event. */
  lemma TwoUndeliveredGapsGlueEvents(records: seq<seq<Word>>) returns (run: seq<Action>)
    requires |records| >= 3
    ensures Allowed(Start(records), run) && !Guarded(Start(records), run)
    ensures var y := RunFrom(Start(records), run);
      && |y.delivered| == 2 == |y.ring.pushed|
      && IsEvent(Stream(y.delivered), Span(0, 1))
      && forall e :: !IsEvent(Stream(TrueBlocks(y.ring.pushed, Losses(Start(records), run), 2)), e)
  {
    var head, tail := [EVENT_START], [EVENT_END];
    run := GluingRun(head, tail);
    GluingRunDelivers(records, head, tail);
    CutsAreLosses(Start(records), run);
    assert Losses(Start(records), run) == {1, 2};
    GluedStream(head, tail);
    assert TrueBlocks([head, tail], {1, 2}, 2)[1].resync;
    if Guarded(Start(records), run) {
      GapSafety(records, run);
    }
  }

  lemma GluedStream(head: seq<Word>, tail: seq<Word>)
    requires head == [EVENT_START] && tail == [EVENT_END]
    ensures IsEvent(Stream([Block(head, false), Block(tail, false)]), Span(0, 1))
    ensures forall e :: !IsEvent(Stream([Block(head, false), Block(tail, true)]), e)
    ensures TrueBlocks([head, tail], {1, 2}, 2) == [Block(head, false), Block(tail, true)]
  {
    StreamOfTwo(EVENT_START, EVENT_END, false);
    StreamOfTwo(EVENT_START, EVENT_END, true);
    assert !IsBody(Stream([Block(head, false), Block(tail, true)])[1]);
  }

  lemma StreamOfTwo(a: Word, b: Word, cut: bool)
    ensures Stream([Block([a], false), Block([b], cut)]) == if cut then [Data(a), Gap, Data(b)] else [Data(a), Data(b)]
  {
    var x, y := Block([a], false), Block([b], cut);
    assert [x, y][..1] == [x];
    StreamOfOne(x);
    assert [a][..0] == [] && [b][..0] == [];
    assert Items([a]) == [Data(a)] && Items([b]) == [Data(b)];
  }
}

/** What the mirror scheduler promises over whole runs: consistent queues, a fair byte split, and a drain that
    handles every queued path once, in order. */
module MirrorResults {
  import opened Basics
  import opened Mirror

  // ---------------------------------------------------------------- whole runs

  datatype Action = Add(file: PendingFile) | Next | Done(copied: bool)

  predicate Enabled(d: Daemon, a: Action) {
    match a
    case Add(_) => true
    case Next => d.inFlight.None?
    case Done(_) => d.inFlight.Some?
  }

  ghost function Step(d: Daemon, a: Action): Daemon
    requires Enabled(d, a)
  {
    match a
    case Add(f) => Enqueue(d, f)
    case Next => Pop(d)
    case Done(copied) => Finish(d, copied)
  }

  ghost predicate Allowed(d: Daemon, run: seq<Action>)
    decreases |run|
  {
    run == [] || (Enabled(d, run[0]) && Allowed(Step(d, run[0]), run[1..]))
  }

  ghost function RunFrom(d: Daemon, run: seq<Action>): Daemon
    requires Allowed(d, run)
    decreases |run|
  {
    if run == [] then d else RunFrom(Step(d, run[0]), run[1..])
  }

  /** Every job has at most `most` bytes. */
  ghost predicate Sized(run: seq<Action>, most: nat) {
    forall a :: a in run && a.Add? ==> a.file.size <= most
  }

  /** The job in flight is on the side that is not ahead, and neither side is ahead by more than one job. */
  ghost predicate Fair(d: Daemon, most: nat) {
    && (forall r, i :: At(d.queues, r, i) ==> d.queues[r][i].size <= most)
    && d.tofBytes <= d.tpcBytes + most && d.tpcBytes <= d.tofBytes + most
    && (d.inFlight.Some? ==>
          && d.inFlight.value.size <= most
          && (if d.inFlight.value.meta.runId == TOF_RUN then d.tofBytes <= d.tpcBytes else d.tpcBytes <= d.tofBytes))
  }

  lemma PopIsFair(d: Daemon, most: nat)
    requires Coherent(d) && d.inFlight.None? && Fair(d, most)
    ensures Fair(Pop(d), most)
  {
    if Waiting(d.queues) != {} {
      var run := ChooseRun(d);
      var k := BestIndex(run, d.queues[run], |d.queues[run]|);
      assert At(d.queues, run, k);
      TakeKeepsFiles(d.queues, run, k);
      if BothPending(d.queues) && d.tofBytes > d.tpcBytes {
        assert run in Waiting(d.queues) - {TOF_RUN};
      }
    }
  }

  lemma StepKeepsInvariants(d: Daemon, a: Action, most: nat)
    requires Coherent(d) && Fair(d, most) && Enabled(d, a) && (a.Add? ==> a.file.size <= most)
    ensures Coherent(Step(d, a)) && Fair(Step(d, a), most)
  {
    match a {
      case Add(f) =>
        EnqueueIsCoherent(d, f);
        if f.path !in d.pending { EnqueueAppends(d.queues, f, Enqueue(d, f).queues); }
      case Next =>
        PopIsCoherent(d);
        PopIsFair(d, most);
      case Done(copied) =>
        FinishIsCoherent(d, copied);
    }
  }

  lemma {:induction false} RunKeepsInvariants(d: Daemon, run: seq<Action>, most: nat)
    requires Coherent(d) && Fair(d, most) && Allowed(d, run) && Sized(run, most)
    ensures Coherent(RunFrom(d, run)) && Fair(RunFrom(d, run), most)
    decreases |run|
  {
    if run != [] {
      StepKeepsInvariants(d, run[0], most);
      RunKeepsInvariants(Step(d, run[0]), run[1..], most);
    }
  }

  /** In every reachable state the queues are coherent, a pop finds nothing exactly when nothing is queued, and
      the copied bytes of the two sides differ by at most the largest job. */
  lemma EveryReachableStateIsFair(run: seq<Action>, most: nat)
    requires Allowed(FRESH_DAEMON, run) && Sized(run, most)
    ensures var d := RunFrom(FRESH_DAEMON, run);
      && Coherent(d)
      && d.tofBytes <= d.tpcBytes + most && d.tpcBytes <= d.tofBytes + most
      && (d.inFlight.None? ==> (Pop(d).inFlight.None? <==> forall r, i :: !At(d.queues, r, i)))
  {
    RunKeepsInvariants(FRESH_DAEMON, run, most);
    var d := RunFrom(FRESH_DAEMON, run);
    if d.inFlight.None? { PopIsCoherent(d); }
  }

  /** Every pop of the run finds both sides pending, so the counters are never reset. */
  ghost predicate Contended(d: Daemon, run: seq<Action>)
    requires Allowed(d, run)
    decreases |run|
  {
    run == [] || ((run[0].Next? ==> BothPending(d.queues)) && Contended(Step(d, run[0]), run[1..]))
  }

  /** Bytes copied for one side during the run. */
  ghost function Copied(d: Daemon, run: seq<Action>, tof: bool): nat
    requires Allowed(d, run)
    decreases |run|
  {
    if run == [] then 0
    else
      (if run[0] == Done(true) && (d.inFlight.value.meta.runId == TOF_RUN) == tof then d.inFlight.value.size else 0)
      + Copied(Step(d, run[0]), run[1..], tof)
  }

  lemma {:induction false} CountersAddUp(d: Daemon, run: seq<Action>)
    requires Allowed(d, run) && Contended(d, run)
    ensures RunFrom(d, run).tofBytes == d.tofBytes + Copied(d, run, true)
    ensures RunFrom(d, run).tpcBytes == d.tpcBytes + Copied(d, run, false)
    decreases |run|
  {
    if run != [] {
      CountersAddUp(Step(d, run[0]), run[1..]);
    }
  }

  /** While both sides stay pending, the bytes copied for them differ by at most two of the largest jobs. */
  lemma ContendedBytesAreSplitFairly(before: seq<Action>, run: seq<Action>, most: nat)
    requires Allowed(FRESH_DAEMON, before) && Sized(before, most)
    requires var d := RunFrom(FRESH_DAEMON, before); Allowed(d, run) && Contended(d, run)
    requires Sized(run, most)
    ensures var d := RunFrom(FRESH_DAEMON, before);
      -2 * most <= Copied(d, run, true) - Copied(d, run, false) <= 2 * most
  {
    var d := RunFrom(FRESH_DAEMON, before);
    RunKeepsInvariants(FRESH_DAEMON, before, most);
    RunKeepsInvariants(d, run, most);
    CountersAddUp(d, run);
  }

  // ---------------------------------------------------------------- order

  lemma {:induction false} BestIsFirst(run: nat, files: seq<PendingFile>, n: nat)
    requires 0 < n <= |files|
    requires forall i, j :: 0 <= i < j < n ==> files[i].path != files[j].path
    ensures forall k :: 0 <= k < n && k != BestIndex(run, files, n) ==>
      Better(run, files[BestIndex(run, files, n)], files[k])
  {
    if n > 1 {
      BestIsFirst(run, files, n - 1);
      var b, c := BestIndex(run, files, n - 1), BestIndex(run, files, n);
      forall k | 0 <= k < n && k != c ensures Better(run, files[c], files[k]) {
        BetterIsStrict(run, files[n - 1], files[b], files[k]);
        BetterIsStrict(run, files[b], files[n - 1], files[k]);
      }
    }
  }

  /** The order in which files leave when one side has them all: the run that is active at the start, then
      the others by ascending id, and within a run the comparator's order. */
  predicate Before(start: Option<nat>, a: PendingFile, b: PendingFile) {
    var p, q := a.meta.runId, b.meta.runId;
    if p == q then Better(p, a, b)
    else start == Some(p) || (start != Some(q) && p < q)
  }

  ghost predicate Sorted(start: Option<nat>, jobs: seq<PendingFile>) {
    forall i, j :: 0 <= i < j < |jobs| ==> Before(start, jobs[i], jobs[j])
  }

  /** The daemon still follows the order it started with. */
  ghost predicate Following(start: Option<nat>, d: Daemon) {
    var w := Waiting(d.queues);
    && (d.active.Some? && d.active.value in w ==> d.active.value == FirstRun(w, start))
    && (start.Some? && start.value in w ==> d.active == start)
  }

  lemma LeastIsUnique(m: nat, s: set<nat>)
    requires IsLeast(m, s)
    ensures s != {} && Least(s) == m
  {
  }

  /** A pop takes the first file of all that wait. */
  lemma PopTakesFirst(start: Option<nat>, d: Daemon)
    requires Coherent(d) && d.inFlight.None? && Following(start, d) && !BothPending(d.queues)
    requires Waiting(d.queues) != {}
    ensures Pop(d).inFlight.Some? && Following(start, Pop(d)) && !BothPending(Pop(d).queues)
    ensures forall r, i :: At(Pop(d).queues, r, i) ==> Before(start, Pop(d).inFlight.value, Pop(d).queues[r][i])
  {
    var e, run, w := Pop(d), ChooseRun(d), Waiting(d.queues);
    var files := d.queues[run];
    var k := BestIndex(run, files, |files|);
    assert At(d.queues, run, k);
    TakeKeepsFiles(d.queues, run, k);
    var v := Waiting(e.queues);
    assert v <= w;
    assert run == FirstRun(w, start);
    forall i, j | 0 <= i < j < |files| ensures files[i].path != files[j].path {
      assert At(d.queues, run, i) && At(d.queues, run, j);
    }
    BestIsFirst(run, files, |files|);
    if run in v && !(start.Some? && start.value in v) {
      LeastIsUnique(run, v);
    }
    forall r, i | At(e.queues, r, i) ensures Before(start, e.inFlight.value, e.queues[r][i]) {
      var f := e.queues[r][i];
      assert r in w && f == d.queues[r][Shifted(r, i, run, k)];
      assert f.meta.runId == r && files[k].meta.runId == run;
    }
  }

  /** What the worker handles, job by job, once nothing is added any more; `copied` holds the paths whose copy
      succeeds. */
  ghost function Drain(d: Daemon, copied: set<string>): seq<PendingFile>
    requires Coherent(d) && d.inFlight.None?
    decreases |d.pending|
  {
    PopIsCoherent(d);
    var e := Pop(d);
    if e.inFlight.None? then []
    else
      var job := e.inFlight.value;
      FinishIsCoherent(e, job.path in copied);
      [job] + Drain(Finish(e, job.path in copied), copied)
  }

  lemma NoneAt(queues: Queues)
    requires forall f :: !Queued(queues, f)
    ensures forall r, i :: !At(queues, r, i)
  {
    forall r, i ensures !At(queues, r, i) {
      assert At(queues, r, i) ==> Queued(queues, queues[r][i]);
    }
  }

  lemma PopSplitsQueues(d: Daemon)
    requires Coherent(d) && d.inFlight.None? && Pop(d).inFlight.Some?
    ensures var e := Pop(d);
      forall f :: Queued(d.queues, f) <==> f == e.inFlight.value || Queued(e.queues, f)
  {
    var e, run := Pop(d), ChooseRun(d);
    var k := BestIndex(run, d.queues[run], |d.queues[run]|);
    assert At(d.queues, run, k);
    TakeKeepsFiles(d.queues, run, k);
    forall f ensures Queued(d.queues, f) <==> f == e.inFlight.value || Queued(e.queues, f) {
      if Queued(d.queues, f) && f != e.inFlight.value {
        var r, i :| At(d.queues, r, i) && d.queues[r][i] == f;
        var j :| At(e.queues, r, j) && i == Shifted(r, j, run, k) && e.queues[r][j] == d.queues[r][i];
      }
      if Queued(e.queues, f) {
        var r, i :| At(e.queues, r, i) && e.queues[r][i] == f;
        assert At(d.queues, r, Shifted(r, i, run, k));
      }
    }
  }

  /** The daemon after its worker popped a job and finished it. */
  ghost function Served(d: Daemon, copied: set<string>): Daemon
    requires Pop(d).inFlight.Some?
  {
    Finish(Pop(d), Pop(d).inFlight.value.path in copied)
  }

  lemma ServedIsCoherent(d: Daemon, copied: set<string>)
    requires Coherent(d) && d.inFlight.None? && Pop(d).inFlight.Some?
    ensures var g, job := Served(d, copied), Pop(d).inFlight.value;
      && Coherent(g) && g.inFlight.None? && g.queues == Pop(d).queues && g.active == Pop(d).active
      && job.path in d.pending && g.pending == d.pending - {job.path}
  {
    PopIsCoherent(d);
    FinishIsCoherent(Pop(d), Pop(d).inFlight.value.path in copied);
  }

  lemma JobIsGone(d: Daemon, f: PendingFile)
    requires Coherent(d) && d.inFlight.Some? && Queued(d.queues, f)
    ensures f.path != d.inFlight.value.path && f.path in d.pending
  {
  }

  lemma NothingQueued(d: Daemon)
    requires Coherent(d) && d.inFlight.None? && Pop(d).inFlight.None?
    ensures d.pending == {} && forall f :: !Queued(d.queues, f)
  {
    PopIsCoherent(d);
    assert forall p :: p !in d.pending;
  }

  /** `jobs` are the files that wait, each path once. */
  ghost predicate Exhausts(queues: Queues, jobs: seq<PendingFile>) {
    && (forall f :: f in jobs <==> Queued(queues, f))
    && (forall i, j :: 0 <= i < j < |jobs| ==> jobs[i].path != jobs[j].path)
  }

  lemma ExhaustsMore(queues: Queues, job: PendingFile, rest: Queues, jobs: seq<PendingFile>)
    requires Exhausts(rest, jobs)
    requires forall f :: Queued(queues, f) <==> f == job || Queued(rest, f)
    requires forall f :: Queued(rest, f) ==> f.path != job.path
    ensures Exhausts(queues, [job] + jobs)
  {
    forall j | 0 <= j < |jobs| ensures jobs[j].path != job.path {
      assert jobs[j] in jobs;
    }
  }

  /** The drain ends, handles exactly the queued files, and no path twice. */
  lemma {:induction false} DrainHandlesEachPathOnce(d: Daemon, copied: set<string>)
    requires Coherent(d) && d.inFlight.None?
    ensures Exhausts(d.queues, Drain(d, copied)) && |Drain(d, copied)| == |d.pending|
    decreases |d.pending|
  {
    if Pop(d).inFlight.None? {
      NothingQueued(d);
    } else {
      var g, job := Served(d, copied), Pop(d).inFlight.value;
      ServedIsCoherent(d, copied);
      DrainHandlesEachPathOnce(g, copied);
      PopSplitsQueues(d);
      PopIsCoherent(d);
      forall f | Queued(g.queues, f) ensures f.path != job.path {
        JobIsGone(Pop(d), f);
      }
      ExhaustsMore(d.queues, job, g.queues, Drain(g, copied));
      assert Drain(d, copied) == [job] + Drain(g, copied);
    }
  }

  /** A job for the path is finished during the run. */
  ghost predicate Finishes(d: Daemon, run: seq<Action>, path: string)
    requires Allowed(d, run)
    decreases |run|
  {
    run != [] &&
    ((run[0].Done? && d.inFlight.value.path == path) || Finishes(Step(d, run[0]), run[1..], path))
  }

  lemma {:induction false} PendingUntilFinished(d: Daemon, run: seq<Action>, path: string)
    requires Coherent(d) && Allowed(d, run) && path in d.pending
    ensures path in RunFrom(d, run).pending || Finishes(d, run, path)
    decreases |run|
  {
    if run != [] && !(run[0].Done? && d.inFlight.value.path == path) {
      match run[0] {
        case Add(f) =>
          EnqueueIsCoherent(d, f);
          EnqueueAdds(d, f);
        case Next => PopIsCoherent(d);
        case Done(copied) => FinishIsCoherent(d, copied);
      }
      PendingUntilFinished(Step(d, run[0]), run[1..], path);
    }
  }

  lemma {:induction false} RunIsCoherent(d: Daemon, run: seq<Action>)
    requires Coherent(d) && Allowed(d, run)
    ensures Coherent(RunFrom(d, run))
    decreases |run|
  {
    if run != [] {
      match run[0] {
        case Add(f) => EnqueueIsCoherent(d, f);
        case Next => PopIsCoherent(d);
        case Done(copied) => FinishIsCoherent(d, copied);
      }
      RunIsCoherent(Step(d, run[0]), run[1..]);
    }
  }

  /** Every file that is added, at any point of any run, is worked on: a job for its path is finished later in the
      run, or is among those the worker handles in the end. */
  lemma EveryAddedFileIsHandled(before: seq<Action>, f: PendingFile, after: seq<Action>, copied: set<string>)
    requires Allowed(FRESH_DAEMON, before) && Allowed(Enqueue(RunFrom(FRESH_DAEMON, before), f), after)
    requires RunFrom(Enqueue(RunFrom(FRESH_DAEMON, before), f), after).inFlight.None?
    ensures var e := Enqueue(RunFrom(FRESH_DAEMON, before), f);
      var z := RunFrom(e, after);
      Coherent(z) && (Finishes(e, after, f.path) || exists job :: job in Drain(z, copied) && job.path == f.path)
  {
    var d := RunFrom(FRESH_DAEMON, before);
    RunIsCoherent(FRESH_DAEMON, before);
    EnqueueIsCoherent(d, f);
    EnqueueAdds(d, f);
    var e := Enqueue(d, f);
    RunIsCoherent(e, after);
    PendingUntilFinished(e, after, f.path);
    var z := RunFrom(e, after);
    if f.path in z.pending {
      DrainHandlesEachPathOnce(z, copied);
      var r, i :| At(z.queues, r, i) && z.queues[r][i].path == f.path;
      assert Queued(z.queues, z.queues[r][i]);
    }
  }

  /** While both sides wait, a pop takes a TOF file exactly when TOF is not ahead in bytes, and otherwise a file of
      the active run if that is a run with files, else of the first run. */
  lemma PopUnderContention(d: Daemon)
    requires Coherent(d) && d.inFlight.None? && BothPending(d.queues)
    ensures Pop(d).inFlight.Some?
    ensures var run := Pop(d).inFlight.value.meta.runId;
      && (run == TOF_RUN <==> d.tofBytes <= d.tpcBytes)
      && (run != TOF_RUN ==> forall r: nat, i :: At(d.queues, r, i) && r != TOF_RUN && r != run ==>
            d.active == Some(run) || (d.active != Some(r) && run < r))
  {
    var run := ChooseRun(d);
    var k := BestIndex(run, d.queues[run], |d.queues[run]|);
    assert At(d.queues, run, k);
    var runs := Waiting(d.queues) - {TOF_RUN};
    if run != TOF_RUN {
      assert run == FirstRun(runs, d.active);
      forall r: nat, i | At(d.queues, r, i) && r != TOF_RUN && r != run
        ensures d.active == Some(run) || (d.active != Some(r) && run < r)
      {
        assert r in runs;
      }
    }
  }

  lemma SortedMore(start: Option<nat>, job: PendingFile, queues: Queues, jobs: seq<PendingFile>)
    requires Exhausts(queues, jobs) && Sorted(start, jobs)
    requires forall r, i :: At(queues, r, i) ==> Before(start, job, queues[r][i])
    ensures Sorted(start, [job] + jobs)
  {
    forall j | 0 <= j < |jobs| ensures Before(start, job, jobs[j]) {
      assert jobs[j] in jobs;
      assert Queued(queues, jobs[j]);
    }
  }

  lemma {:induction false} DrainFollows(start: Option<nat>, d: Daemon, copied: set<string>)
    requires Coherent(d) && d.inFlight.None? && Following(start, d) && !BothPending(d.queues)
    ensures Sorted(start, Drain(d, copied))
    decreases |d.pending|
  {
    if Pop(d).inFlight.Some? {
      var g, job := Served(d, copied), Pop(d).inFlight.value;
      ServedIsCoherent(d, copied);
      PopTakesFirst(start, d);
      DrainFollows(start, g, copied);
      DrainHandlesEachPathOnce(g, copied);
      SortedMore(start, job, g.queues, Drain(g, copied));
      assert Drain(d, copied) == [job] + Drain(g, copied);
    }
  }

  /** With files of one side only (all TOF, or none), the drain is in order: the active run first, then runs by
      ascending id, each by (priority, segment, disk, path), or by (mtime, path) for TOF. */
  lemma OneSidedDrainIsSorted(d: Daemon, copied: set<string>)
    requires Coherent(d) && d.inFlight.None? && !BothPending(d.queues)
    ensures Sorted(d.active, Drain(d, copied))
  {
    DrainFollows(d.active, d, copied);
  }

  /** Whatever else is queued, a pop takes the best file of its run. */
  lemma PopTakesBestOfRun(d: Daemon)
    requires Coherent(d) && d.inFlight.None? && Pop(d).inFlight.Some?
    ensures var e := Pop(d);
      var job := e.inFlight.value;
      forall f :: Queued(e.queues, f) && f.meta.runId == job.meta.runId ==> Better(job.meta.runId, job, f)
  {
    var e, run := Pop(d), ChooseRun(d);
    var files := d.queues[run];
    var k := BestIndex(run, files, |files|);
    assert At(d.queues, run, k);
    TakeKeepsFiles(d.queues, run, k);
    forall i, j | 0 <= i < j < |files| ensures files[i].path != files[j].path {
      assert At(d.queues, run, i) && At(d.queues, run, j);
    }
    BestIsFirst(run, files, |files|);
    forall f | Queued(e.queues, f) && f.meta.runId == run ensures Better(run, files[k], f) {
      var r, i :| At(e.queues, r, i) && e.queues[r][i] == f;
      assert At(d.queues, r, Shifted(r, i, run, k));
    }
  }

  ghost predicate SortedInRuns(jobs: seq<PendingFile>) {
    forall i, j :: 0 <= i < j < |jobs| && jobs[i].meta.runId == jobs[j].meta.runId ==>
      Better(jobs[i].meta.runId, jobs[i], jobs[j])
  }

  lemma BestGoesFirst(job: PendingFile, rest: seq<PendingFile>)
    requires SortedInRuns(rest)
    requires forall f :: f in rest && f.meta.runId == job.meta.runId ==> Better(job.meta.runId, job, f)
    ensures SortedInRuns([job] + rest)
  {
    var all := [job] + rest;
    assert forall k :: 0 < k < |all| ==> all[k] == rest[k - 1] && all[k] in rest;
  }

  /** Also when both sides compete for the worker, the files of one run, or of TOF, leave in the comparator's
      order. */
  lemma {:induction false} EveryDrainIsSortedInRuns(d: Daemon, copied: set<string>)
    requires Coherent(d) && d.inFlight.None?
    ensures SortedInRuns(Drain(d, copied))
    decreases |d.pending|
  {
    if Pop(d).inFlight.Some? {
      var g, job := Served(d, copied), Pop(d).inFlight.value;
      ServedIsCoherent(d, copied);
      PopTakesBestOfRun(d);
      EveryDrainIsSortedInRuns(g, copied);
      DrainHandlesEachPathOnce(g, copied);
      var rest := Drain(g, copied);
      assert Drain(d, copied) == [job] + rest;
      forall f | f in rest ensures Queued(g.queues, f) {}
      BestGoesFirst(job, rest);
    }
  }
}

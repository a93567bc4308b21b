/** The mirror daemon's scheduler (daemon/mirror_engine.cpp:418-752): one mutex guards the run queues, the set of
    pending paths, the active run and the two byte counters, so each locked section is one step. */
module Mirror {
  import opened Basics
  import opened Names

  /** kTofRunId; files that no marker names also get it (:62-63). */
  const TOF_RUN: nat := UINT32_MAX

  datatype PendingFile = PendingFile(path: string, dstPath: string, meta: FileMeta, size: nat, mtime: int)

  type Queues = map<nat, seq<PendingFile>>

  /** operator< on paths. */
  predicate PathLess(a: string, b: string) {
    b != [] && (a == [] || a[0] < b[0] || (a[0] == b[0] && PathLess(a[1..], b[1..])))
  }

  /** The comparator of pick_from_run (:666-681). */
  predicate Better(run: nat, a: PendingFile, b: PendingFile) {
    if run == TOF_RUN then
      a.mtime < b.mtime || (a.mtime == b.mtime && PathLess(a.path, b.path))
    else
      || a.meta.priority < b.meta.priority
      || (a.meta.priority == b.meta.priority && a.meta.segment < b.meta.segment)
      || (a.meta.priority == b.meta.priority && a.meta.segment == b.meta.segment
          && a.meta.nvmeIndex < b.meta.nvmeIndex)
      || (a.meta.priority == b.meta.priority && a.meta.segment == b.meta.segment
          && a.meta.nvmeIndex == b.meta.nvmeIndex && PathLess(a.path, b.path))
  }

  lemma {:induction false} PathLessIsStrict(a: string, b: string, c: string)
    ensures PathLess(a, b) && PathLess(b, c) ==> PathLess(a, c)
    ensures !PathLess(a, a)
    ensures a != b ==> PathLess(a, b) || PathLess(b, a)
  {
    if a != [] {
      PathLessIsStrict(a[1..], if b == [] then [] else b[1..], if c == [] then [] else c[1..]);
      if b != [] && a[0] == b[0] && a[1..] == b[1..] {
        assert a == [a[0]] + a[1..] && b == [b[0]] + b[1..];
      }
    }
  }

  lemma BetterIsStrict(run: nat, a: PendingFile, b: PendingFile, c: PendingFile)
    ensures Better(run, a, b) && Better(run, b, c) ==> Better(run, a, c)
    ensures a.path != b.path ==> Better(run, a, b) || Better(run, b, a)
  {
    PathLessIsStrict(a.path, b.path, c.path);
  }

  /** PathLess is the lexicographic order: the paths agree up to a place where the first ends or is smaller. */
  ghost predicate FirstDifference(a: string, b: string, k: int) {
    0 <= k <= |a| && k < |b| && a[..k] == b[..k] && (k == |a| || a[k] < b[k])
  }

  lemma {:induction false} PathLessIff(a: string, b: string)
    ensures PathLess(a, b) <==> exists k :: FirstDifference(a, b, k)
  {
    if b != [] && a == [] {
      assert FirstDifference(a, b, 0);
    } else if b != [] && a[0] < b[0] {
      assert FirstDifference(a, b, 0);
    } else if b != [] && a[0] == b[0] {
      PathLessIff(a[1..], b[1..]);
      forall k ensures k > 0 && FirstDifference(a, b, k) <==> FirstDifference(a[1..], b[1..], k - 1) {
        if 0 < k <= |a| && k < |b| {
          assert a[..k] == [a[0]] + a[1..][..k - 1] && b[..k] == [b[0]] + b[1..][..k - 1];
          assert a[1..][..k - 1] == a[..k][1..] && b[1..][..k - 1] == b[..k][1..];
        }
      }
      if PathLess(a, b) {
        var k :| FirstDifference(a[1..], b[1..], k);
        assert FirstDifference(a, b, k + 1);
      }
    }
  }

  /** What ranks a file within its run, before the path decides. */
  function Rank(f: PendingFile): seq<int> {
    if f.meta.runId == TOF_RUN then [f.mtime] else [f.meta.priority, f.meta.segment, f.meta.nvmeIndex]
  }

  predicate RankLess(a: seq<int>, b: seq<int>) {
    a != [] && b != [] && (a[0] < b[0] || (a[0] == b[0] && RankLess(a[1..], b[1..])))
  }

  /** The comparator is the order by (priority, segment, disk), for TOF files by mtime, and then by path. */
  lemma BetterIsLexicographic(run: nat, a: PendingFile, b: PendingFile)
    requires a.meta.runId == b.meta.runId == run
    ensures Better(run, a, b) <==> RankLess(Rank(a), Rank(b)) || (Rank(a) == Rank(b) && PathLess(a.path, b.path))
  {
    var x, y := Rank(a), Rank(b);
    if run == TOF_RUN {
      assert x[1..] == [] && y[1..] == [];
    } else {
      assert x[1..] == [a.meta.segment, a.meta.nvmeIndex] && y[1..] == [b.meta.segment, b.meta.nvmeIndex];
      assert x[1..][1..] == [a.meta.nvmeIndex] && y[1..][1..] == [b.meta.nvmeIndex];
      assert x[1..][1..][1..] == [] && y[1..][1..][1..] == [];
      assert RankLess(x[1..][1..], y[1..][1..]) <==> a.meta.nvmeIndex < b.meta.nvmeIndex;
      assert RankLess(x[1..], y[1..]) <==> (a.meta.segment < b.meta.segment
        || (a.meta.segment == b.meta.segment && a.meta.nvmeIndex < b.meta.nvmeIndex));
    }
  }

  /** The daemon's fields; `inFlight` is the job its worker is copying. */
  datatype Daemon = Daemon(
    queues: Queues, active: Option<nat>, tpcBytes: nat, tofBytes: nat,
    pending: set<string>, inFlight: Option<PendingFile>, running: bool)

  const FRESH_DAEMON := Daemon(map[], None, 0, 0, {}, None, true)

  /** Runs with a file waiting. */
  function Waiting(queues: Queues): set<nat> {
    set r | r in queues && queues[r] != []
  }

  ghost predicate IsLeast(m: nat, s: set<nat>) {
    m in s && forall x :: x in s ==> m <= x
  }

  lemma {:induction false} LeastExists(s: set<nat>)
    requires s != {}
    ensures exists m :: IsLeast(m, s)
  {
    var x :| x in s;
    if s == {x} {
      assert IsLeast(x, s);
    } else {
      LeastExists(s - {x});
      var m :| IsLeast(m, s - {x});
      assert forall y :: y in s ==> y == x || y in s - {x};
      assert IsLeast(if x < m then x else m, s);
    }
  }

  /** The first run in the order of std::map. */
  ghost function Least(s: set<nat>): (m: nat)
    requires s != {}
    ensures IsLeast(m, s)
  {
    LeastExists(s);
    var m :| IsLeast(m, s);
    m
  }

  /** The active run while it has files, else the first run (:739-750, and pick_tpc at :709-721). */
  ghost function FirstRun(runs: set<nat>, active: Option<nat>): (r: nat)
    requires runs != {}
    ensures r in runs
  {
    if active.Some? && active.value in runs then active.value else Least(runs)
  }

  predicate BothPending(queues: Queues) {
    TOF_RUN in Waiting(queues) && Waiting(queues) != {TOF_RUN}
  }

  ghost function ChooseRun(d: Daemon): (r: nat)
    requires Waiting(d.queues) != {}
    ensures r in Waiting(d.queues)
  {
    if !BothPending(d.queues) then FirstRun(Waiting(d.queues), d.active)
    else if d.tofBytes <= d.tpcBytes then TOF_RUN
    else FirstRun(Waiting(d.queues) - {TOF_RUN}, d.active)
  }

  /** The scan for the best of the first `n` files (:682-687). */
  function BestIndex(run: nat, files: seq<PendingFile>, n: nat): (b: nat)
    requires 0 < n <= |files|
    ensures b < n
  {
    if n == 1 then 0
    else
      var b := BestIndex(run, files, n - 1);
      if Better(run, files[n - 1], files[b]) then n - 1 else b
  }

  function Without<T>(s: seq<T>, k: nat): seq<T>
    requires k < |s|
  {
    s[..k] + s[k + 1..]
  }

  /** Take the best file of a run out of its queue (:688-694). */
  function Take(queues: Queues, run: nat, k: nat): Queues
    requires run in queues && k < |queues[run]|
  {
    var rest := Without(queues[run], k);
    if rest == [] then queues - {run} else queues[run := rest]
  }

  /** PopNext under the lock; the popped job is then in flight. */
  ghost function Pop(d: Daemon): Daemon {
    var e := if BothPending(d.queues) then d else d.(tofBytes := 0, tpcBytes := 0);
    if Waiting(d.queues) == {} then e.(active := None)
    else
      var run := ChooseRun(d);
      var k := BestIndex(run, d.queues[run], |d.queues[run]|);
      e.(queues := Take(d.queues, run, k), active := Some(run), inFlight := Some(d.queues[run][k]))
  }

  /** Enqueue under the lock, for a file that passed the filters. */
  function Enqueue(d: Daemon, f: PendingFile): Daemon {
    if f.path in d.pending then d
    else
      var run := f.meta.runId;
      d.(pending := d.pending + {f.path},
      queues := d.queues[run := (if run in d.queues then d.queues[run] else []) + [f]])
  }

  /** The worker's second locked section (:539-549). */
  function Finish(d: Daemon, copied: bool): Daemon
    requires d.inFlight.Some?
  {
    var job := d.inFlight.value;
    d.(inFlight := None, pending := d.pending - {job.path},
    tofBytes := d.tofBytes + if copied && job.meta.runId == TOF_RUN then job.size else 0,
    tpcBytes := d.tpcBytes + if copied && job.meta.runId != TOF_RUN then job.size else 0)
  }

  ghost predicate At(queues: Queues, r: int, i: int) {
    r in queues && 0 <= i < |queues[r]|
  }

  /** No map entry is empty, every file is under its own run, its path is pending, and no path waits twice. */
  ghost predicate Filed(queues: Queues, pending: set<string>) {
    && (forall r :: r in queues ==> queues[r] != [])
    && (forall r, i :: At(queues, r, i) ==> queues[r][i].meta.runId == r && queues[r][i].path in pending)
    && (forall r, i, q, j :: At(queues, r, i) && At(queues, q, j) && queues[r][i].path == queues[q][j].path
          ==> r == q && i == j)
  }

  /** Every pending path waits or is in flight, and none does both. */
  ghost predicate Accounted(d: Daemon) {
    && (forall p :: p in d.pending ==>
          || (d.inFlight.Some? && d.inFlight.value.path == p)
          || exists r, i :: At(d.queues, r, i) && d.queues[r][i].path == p)
    && (d.inFlight.Some? ==>
          && d.inFlight.value.path in d.pending
          && forall r, i :: At(d.queues, r, i) ==> d.queues[r][i].path != d.inFlight.value.path)
  }

  /** The pending set is exactly the queued paths and the path in flight, each once. */
  ghost predicate Coherent(d: Daemon) {
    Filed(d.queues, d.pending) && Accounted(d)
  }

  lemma EnqueueAppends(queues: Queues, f: PendingFile, rest: Queues)
    requires rest == queues[f.meta.runId := (if f.meta.runId in queues then queues[f.meta.runId] else []) + [f]]
    ensures forall r, i :: At(queues, r, i) ==> At(rest, r, i) && rest[r][i] == queues[r][i]
    ensures forall r, i :: At(rest, r, i) ==>
      (At(queues, r, i) && rest[r][i] == queues[r][i])
      || (r == f.meta.runId && i == |rest[r]| - 1 && rest[r][i] == f)
    ensures At(rest, f.meta.runId, |rest[f.meta.runId]| - 1)
  {
  }

  /** `f` waits in some queue. */
  ghost predicate Queued(queues: Queues, f: PendingFile) {
    exists r, i :: At(queues, r, i) && queues[r][i] == f
  }

  /** Adding a file whose path is not pending adds that file and nothing else, and marks its path; a pending path is
      left alone. */
  lemma EnqueueAdds(d: Daemon, f: PendingFile)
    requires Coherent(d)
    ensures var e := Enqueue(d, f);
      && (forall g :: Queued(e.queues, g) <==> Queued(d.queues, g) || (g == f && f.path !in d.pending))
      && e.pending == d.pending + {f.path} && e.inFlight == d.inFlight
      && (f.path in d.pending ==> e == d)
  {
    var e := Enqueue(d, f);
    if f.path !in d.pending {
      EnqueueAppends(d.queues, f, e.queues);
      forall g ensures Queued(e.queues, g) <==> Queued(d.queues, g) || g == f {
        if Queued(d.queues, g) {
          var r, i :| At(d.queues, r, i) && d.queues[r][i] == g;
          assert At(e.queues, r, i);
        }
      }
    }
  }

  lemma EnqueueIsCoherent(d: Daemon, f: PendingFile)
    requires Coherent(d)
    ensures Coherent(Enqueue(d, f))
  {
    if f.path !in d.pending {
      var e := Enqueue(d, f);
      EnqueueAppends(d.queues, f, e.queues);
      EnqueuedIsFiled(d.queues, d.pending, f, e.queues);
      EnqueuedIsPending(d, e, f);
    }
  }

  lemma EnqueuedIsFiled(queues: Queues, pending: set<string>, f: PendingFile, rest: Queues)
    requires Filed(queues, pending) && f.path !in pending
    requires rest == queues[f.meta.runId := (if f.meta.runId in queues then queues[f.meta.runId] else []) + [f]]
    ensures Filed(rest, pending + {f.path})
  {
    EnqueueAppends(queues, f, rest);
  }

  lemma EnqueuedIsPending(d: Daemon, e: Daemon, f: PendingFile)
    requires Coherent(d) && f.path !in d.pending && e == Enqueue(d, f)
    requires forall r, i :: At(d.queues, r, i) ==> At(e.queues, r, i) && e.queues[r][i] == d.queues[r][i]
    requires At(e.queues, f.meta.runId, |e.queues[f.meta.runId]| - 1)
    ensures forall p :: p in e.pending ==>
      || (e.inFlight.Some? && e.inFlight.value.path == p)
      || exists r, i :: At(e.queues, r, i) && e.queues[r][i].path == p
  {
    forall p | p in e.pending ensures
        || (e.inFlight.Some? && e.inFlight.value.path == p)
        || exists r, i :: At(e.queues, r, i) && e.queues[r][i].path == p
    {
      if p != f.path && !(d.inFlight.Some? && d.inFlight.value.path == p) {
        var r, i :| At(d.queues, r, i) && d.queues[r][i].path == p;
        assert At(e.queues, r, i);
      }
    }
  }

  /** Where a file of the queues sits after `Take`. */
  function Shifted(r: int, i: int, run: int, k: int): int {
    if r == run && i >= k then i + 1 else i
  }

  lemma TakeKeepsFiles(queues: Queues, run: nat, k: nat)
    requires At(queues, run, k)
    ensures var rest := Take(queues, run, k);
      && (forall r, i :: At(rest, r, i) ==>
            At(queues, r, Shifted(r, i, run, k)) && rest[r][i] == queues[r][Shifted(r, i, run, k)])
      && (forall r, i :: At(queues, r, i) && !(r == run && i == k) ==>
            exists j :: At(rest, r, j) && i == Shifted(r, j, run, k) && rest[r][j] == queues[r][i])
      && (forall r :: r in rest && r in queues && queues[r] != [] ==> rest[r] != [])
  {
    var rest := Take(queues, run, k);
    forall r, i | At(queues, r, i) && !(r == run && i == k)
      ensures exists j :: At(rest, r, j) && i == Shifted(r, j, run, k) && rest[r][j] == queues[r][i]
    {
      var j := if r == run && i > k then i - 1 else i;
      assert At(rest, r, j);
    }
  }

  lemma PopIsCoherent(d: Daemon)
    requires Coherent(d) && d.inFlight.None?
    ensures Coherent(Pop(d)) && Pop(d).pending == d.pending
    ensures Pop(d).inFlight.Some? <==> exists r, i :: At(d.queues, r, i)
    ensures Pop(d).active == if Pop(d).inFlight.Some? then Some(Pop(d).inFlight.value.meta.runId) else None
  {
    if Waiting(d.queues) == {} {
      forall r, i ensures !At(d.queues, r, i) {
        assert At(d.queues, r, i) ==> r in Waiting(d.queues);
      }
    } else {
      var run := ChooseRun(d);
      var k := BestIndex(run, d.queues[run], |d.queues[run]|);
      assert At(d.queues, run, k);
      TakeKeepsFiles(d.queues, run, k);
      TakeIsCoherent(d, Pop(d), run, k);
    }
  }

  lemma TakeIsCoherent(d: Daemon, e: Daemon, run: nat, k: nat)
    requires Coherent(d) && d.inFlight.None? && At(d.queues, run, k)
    requires e.queues == Take(d.queues, run, k) && e.inFlight == Some(d.queues[run][k]) && e.pending == d.pending
    ensures Coherent(e)
  {
    TakeKeepsFiles(d.queues, run, k);
    forall p | p in e.pending
      ensures (e.inFlight.Some? && e.inFlight.value.path == p)
              || exists r, i :: At(e.queues, r, i) && e.queues[r][i].path == p
    {
      var r, i :| At(d.queues, r, i) && d.queues[r][i].path == p;
      if !(r == run && i == k) {
        var j :| At(e.queues, r, j) && i == Shifted(r, j, run, k) && e.queues[r][j] == d.queues[r][i];
      }
    }
  }

  lemma FinishIsCoherent(d: Daemon, copied: bool)
    requires Coherent(d) && d.inFlight.Some?
    ensures Coherent(Finish(d, copied))
  {
  }
}

/** The MirrorDaemon object. Each method is one locked section, run by the watcher or by the single worker. */
module MirrorDaemon {
  import opened Basics
  import opened Mirror
  import opened MirrorResults

  class MirrorDaemon {
    var runQueues: Queues
    var activeRunId: Option<nat>
    var tpcCopiedBytes: nat
    var tofCopiedBytes: nat
    var pending: set<string>
    var inFlight: Option<PendingFile>
    var running: bool

    ghost function View(): Daemon
      reads this
    {
      Daemon(runQueues, activeRunId, tpcCopiedBytes, tofCopiedBytes, pending, inFlight, running)
    }

    constructor ()
      ensures View() == FRESH_DAEMON && Coherent(View())
    {
      runQueues, activeRunId, tpcCopiedBytes, tofCopiedBytes := map[], None, 0, 0;
      pending, inFlight, running := {}, None, true;
    }

    method RequestStop()
      modifies this
      ensures View() == old(View()).(running := false)
    {
      running := false;
    }

    method Enqueue(f: PendingFile)
      requires Coherent(View())
      modifies this
      ensures Coherent(View()) && View() == Mirror.Enqueue(old(View()), f)
      ensures forall g :: Queued(runQueues, g) <==> Queued(old(runQueues), g) || (g == f && f.path !in old(pending))
      ensures pending == old(pending) + {f.path}
    {
      EnqueueIsCoherent(View(), f);
      EnqueueAdds(View(), f);
      if f.path in pending {
        return;
      }
      pending := pending + {f.path};
      var run := f.meta.runId;
      var files := if run in runQueues then runQueues[run] else [];
      runQueues := runQueues[run := files + [f]];
    }

    method HasPending() returns (r: bool)
      requires Coherent(View())
      ensures r <==> exists run, i :: At(runQueues, run, i)
    {
      r := exists run | run in runQueues :: runQueues[run] != [];
      if r {
        ghost var run :| run in runQueues && runQueues[run] != [];
        assert At(runQueues, run, 0);
      }
    }

    /** The smallest element, as the first key of std::map. */
    static method LeastKey(s: set<nat>) returns (m: nat)
      requires s != {}
      ensures m == Least(s)
    {
      m :| m in s;
      var rest := s - {m};
      while rest != {}
        invariant rest <= s && m in s
        invariant forall x :: x in s && x !in rest ==> m <= x
      {
        var x :| x in rest;
        rest := rest - {x};
        if x < m {
          m := x;
        }
      }
      LeastIsUnique(m, s);
    }

    /** The lambda pick_from_run: scan for the best file, take it out, remember the run. */
    method PickFromRun(run: nat) returns (job: PendingFile)
      requires Coherent(View()) && run in runQueues && runQueues[run] != []
      modifies this`runQueues, this`activeRunId
      ensures var files := old(runQueues)[run];
        var k := BestIndex(run, files, |files|);
        && job == files[k] && runQueues == Take(old(runQueues), run, k) && activeRunId == Some(run)
    {
      var files := runQueues[run];
      var best := 0;
      for i := 1 to |files|
        invariant best == BestIndex(run, files, i)
      {
        if Better(run, files[i], files[best]) {
          best := i;
        }
      }
      job := files[best];
      var rest := files[..best] + files[best + 1..];
      if rest == [] {
        runQueues := runQueues - {run};
      } else {
        runQueues := runQueues[run := rest];
      }
      activeRunId := Some(run);
    }

    method PopNext() returns (job: Option<PendingFile>)
      requires Coherent(View()) && inFlight.None?
      modifies this
      ensures View() == Pop(old(View())) && Coherent(View())
      ensures job == inFlight
      ensures job.None? <==> forall run, i :: !At(old(runQueues), run, i)
    {
      PopIsCoherent(View());
      var waiting := Waiting(runQueues);
      var tpc := waiting - {TOF_RUN};
      var tpcPending, tofPending := tpc != {}, TOF_RUN in waiting;
      assert tpcPending && tofPending <==> BothPending(runQueues);
      if !tpcPending || !tofPending {
        tofCopiedBytes, tpcCopiedBytes := 0, 0;
      }
      var run: nat;
      if tpcPending && tofPending {
        if tofCopiedBytes <= tpcCopiedBytes {
          run := TOF_RUN;
        } else if activeRunId.Some? && activeRunId.value in tpc {
          run := activeRunId.value;
        } else {
          run := LeastKey(tpc);
        }
      } else if activeRunId.Some? && activeRunId.value in waiting {
        run := activeRunId.value;
      } else if waiting != {} {
        run := LeastKey(waiting);
      } else {
        activeRunId := None;
        return None;
      }
      var picked := PickFromRun(run);
      inFlight := Some(picked);
      return Some(picked);
    }

    /** The second locked section of the worker loop, after the copy. */
    method Complete(copied: bool)
      requires Coherent(View()) && inFlight.Some?
      modifies this
      ensures Coherent(View()) && View() == Finish(old(View()), copied)
    {
      FinishIsCoherent(View(), copied);
      if copied {
        if inFlight.value.meta.runId == TOF_RUN {
          tofCopiedBytes := tofCopiedBytes + inFlight.value.size;
        } else {
          tpcCopiedBytes := tpcCopiedBytes + inFlight.value.size;
        }
      }
      pending := pending - {inFlight.value.path};
      inFlight := None;
    }

    /** One turn of the worker loop: pop a job and, if there is one, copy it and account for it. */
    method ServeNext(copied: set<string>) returns (job: Option<PendingFile>)
      requires Coherent(View()) && inFlight.None?
      modifies this
      ensures Coherent(View()) && inFlight.None? && running == old(running)
      ensures job.None? ==> pending == old(pending) && Drain(old(View()), copied) == []
                            && forall f :: !Queued(runQueues, f)
      ensures job.Some? ==> pending < old(pending)
                            && Drain(old(View()), copied) == [job.value] + Drain(View(), copied)
    {
      ghost var before := View();
      job := PopNext();
      if job.None? {
        NothingQueued(before);
      } else {
        ServedIsCoherent(before, copied);
        Complete(job.value.path in copied);
        assert View() == Served(before, copied);
      }
    }

    /** The worker after the stop request, with the watcher gone: it handles what is queued and ends. */
    method RunWorker(copied: set<string>) returns (handled: seq<PendingFile>)
      requires Coherent(View()) && inFlight.None? && !running
      modifies this
      ensures Coherent(View()) && inFlight.None?
      ensures handled == Drain(old(View()), copied)
      ensures pending == {} && forall f :: !Queued(runQueues, f)
    {
      handled := [];
      ghost var all := Drain(View(), copied);
      while true
        invariant Coherent(View()) && inFlight.None? && !running
        invariant handled + Drain(View(), copied) == all
        decreases pending
      {
        var job := ServeNext(copied);
        if job.None? {
          var more := HasPending();
          NoneAt(runQueues);
          if !running && !more {
            break;
          }
        } else {
          Assoc(handled, [job.value], Drain(View(), copied));
          handled := handled + [job.value];
        }
      }
      DrainHandlesEachPathOnce(View(), copied);
    }
  }
}

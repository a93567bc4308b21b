/** The run life cycle: the controller's commands and automatic stop (src/control/controller.cpp:123-155, 340-460,
    495-552, 590-636), the pending stop reason (src/control/run_stop_coordinator.h, .cpp) and DataHandler::Reset
    (src/data/data_handler.cpp:1250-1277). A command and an automatic stop are each one step. */
module RunControl {
  import opened Basics
  import opened Readout
  import opened Names

  const TWO_TO_32: nat := UINT32_MAX + 1

  datatype State = Idle | Configured | Running | Stopped

  /** How the run-id file answers: opens for reading, holds a number, opens for writing. */
  datatype Persist = Persist(canRead: bool, parses: bool, canWrite: bool)

  /** How the rest of Configure ends: refused before the data handler is reached (disk, arguments or devices);
      complete; or with an exception in DataHandler::Configure before the name prefix is built, when the run
      number may already be set. The controller goes on after such an exception (controller.cpp:456-460). */
  datatype Setup = Refused | Complete | Threw(runSet: bool)

  /** What write_file_name_ was built from. */
  datatype Prefix = Prefix(base: string, run: nat)

  /** A readout file: the prefix, `None` while write_file_name_ is empty, and the file count. */
  datatype Opened = Opened(prefix: Option<Prefix>, file: nat)

  /** The fields of DataHandler that live across commands. `queue` is what the ring still holds. */
  datatype Handler = Handler(
    runNumber: nat, base: string, prefix: Option<Prefix>, fileCount: nat, segment: nat, eventCount: nat,
    stopWrite: bool, diskStop: bool, queue: seq<seq<Word>>)

  /** The controller with its handler. `idFile` is the number in the run-id file and `files` the readout files
      opened so far, each with O_TRUNC; both outlive the process. `runs` counts the runs started by this process
      and `askedIn` is the one in which the last disk stop was requested. */
  datatype Control = Control(
    state: State, runId: nat, isConfigured: bool, stopPending: bool, handler: Handler,
    idFile: nat, files: seq<Opened>, runs: nat, askedIn: nat)

  datatype Command =
    | Configure(id: Persist, setup: Setup, base: string)
    | StartRun(threadStarts: bool)
    | StopRun
    | ResetRun(id: Persist)
    | Query

  function PowerOn(idFile: nat, files: seq<Opened>): Control {
    Control(Idle, 0, false, false, Handler(0, "", None, 0, 0, 0, false, false, []), idFile, files, 0, 0)
  }

  /** PersistRunId: the new run id and the new content of the file. */
  function PersistRunId(idFile: nat, p: Persist): (nat, nat) {
    if !p.canRead then (0, idFile)
    else
      var next := if p.parses then (idFile + 1) % TWO_TO_32 else 0;
      if p.canWrite then (next, next) else (0, idFile)
  }

  /** DataHandler::Configure (data_handler.cpp:146-187), as far as it gets. */
  function ConfigureHandler(h: Handler, setup: Setup, run: nat, base: string): Handler {
    match setup
    case Refused => h
    case Complete => h.(runNumber := run, base := base, fileCount := 0, prefix := Some(Prefix(base, run)))
    case Threw(runSet) => if runSet then h.(runNumber := run) else h
  }

  /** Configure, apart from the boards. */
  function DoConfigure(c: Control, p: Persist, setup: Setup, base: string): Control {
    var (id, file) := PersistRunId(c.idFile, p);
    c.(runId := id, idFile := file, isConfigured := !setup.Refused?,
    handler := ConfigureHandler(c.handler, setup, id, base))
  }

  /** DataHandler::Reset. */
  function ResetHandler(h: Handler, run: nat): Handler {
    h.(fileCount := 0, eventCount := 0, diskStop := false, segment := 0, stopWrite := false, queue := [],
    runNumber := run, prefix := Some(Prefix(h.base, run)))
  }

  /** HandleCommand: the new state and the answer. A thread that starts opens file `fileCount` (:436-438). */
  function Handle(c: Control, cmd: Command): (Control, bool) {
    if cmd.Configure? && c.state.Idle? then
      var d := if c.isConfigured then c else DoConfigure(c, cmd.id, cmd.setup, cmd.base);
      var ok := c.isConfigured || !cmd.setup.Refused?;
      (if ok then d.(state := Configured) else d, ok)
    else if cmd.StartRun? && c.state.Configured? then
      var h := c.handler;
      (c.(state := Running, runs := c.runs + 1,
       files := if cmd.threadStarts then c.files + [Opened(h.prefix, h.fileCount)] else c.files), true)
    else if cmd.StopRun? && c.state.Running? then (c.(state := Stopped), true)
    else if cmd.ResetRun? && c.state.Stopped? then
      var (id, file) := PersistRunId(c.idFile, cmd.id);
      (c.(state := Configured, runId := id, idFile := file, handler := ResetHandler(c.handler, id)), true)
    else (c, cmd.Query?)
  }

  /** ApplyPendingRunStop: poll, then stop as the command would, then clear the reason. */
  function AutoStop(c: Control): Control {
    if !c.state.Running? then c
    else
      var pending := c.stopPending || c.handler.diskStop;
      if !pending then c else c.(state := Stopped, stopPending := false)
  }

  /** What the threads of a run do to the handler, one step at a time. After an exception in Configure the
      handler knows no disks to fail over to, until Reset. */
  datatype Work =
    | Enqueue(block: seq<Word>)
    | Dequeue
    | NextFile(failover: Option<string>)
    | AskDiskStop
    | EndWrite
    | CountEvents(n: nat)

  function FailOver(h: Handler, base: string): Handler {
    h.(base := base, segment := h.fileCount + 1, prefix := Some(Prefix(base, h.runNumber)))
  }

  function DoWork(c: Control, w: Work): Control {
    var h := c.handler;
    match w
    case Enqueue(b) => c.(handler := h.(queue := h.queue + [b]))
    case Dequeue => c.(handler := h.(queue := if h.queue == [] then [] else h.queue[1..]))
    case NextFile(fo) =>
      var g := if fo.Some? && h.prefix.Some? then FailOver(h, fo.value) else h;
      c.(handler := g.(fileCount := h.fileCount + 1), files := c.files + [Opened(g.prefix, h.fileCount + 1)])
    case AskDiskStop => c.(handler := h.(diskStop := true, stopWrite := true), askedIn := c.runs)
    case EndWrite => c.(handler := h.(stopWrite := true))
    case CountEvents(n) => c.(handler := h.(eventCount := n))
  }

  /** `Restart` ends the process at any point, even inside a run, and starts a new one: only the run-id file and
      the readout files stay. */
  datatype Action = Do(cmd: Command) | Poll | Run(work: Work) | Restart

  function Step(c: Control, a: Action): Control {
    match a
    case Do(cmd) => Handle(c, cmd).0
    case Poll => AutoStop(c)
    case Run(w) => if c.state.Running? then DoWork(c, w) else c
    case Restart => PowerOn(c.idFile, c.files)
  }

  function RunFrom(c: Control, run: seq<Action>): Control {
    if run == [] then c else Step(RunFrom(c, run[..|run| - 1]), run[|run| - 1])
  }

  // ---------------------------------------------------------------- clean restart

  /** Nothing of an earlier run is left: the queue is empty, so the reader's and the writer's block counters,
      which both start at 0, number the same blocks. */
  ghost predicate Clean(c: Control) {
    var h := c.handler;
    h.queue == [] && !h.stopWrite && !h.diskStop && h.fileCount == 0 && h.segment == 0 && h.eventCount == 0
  }

  ghost predicate Tidy(c: Control) {
    && !c.stopPending
    && (c.state.Idle? ==> !c.isConfigured && c.runs == 0)
    && (c.state.Idle? || c.state.Configured? ==> Clean(c))
    && (c.state.Running? ==> c.runs > 0)
    && c.askedIn <= c.runs
    && (c.handler.diskStop ==> c.askedIn == c.runs)
    && (c.state.Running? && c.askedIn == c.runs ==> c.handler.diskStop)
  }

  lemma CommandKeepsTidy(c: Control, cmd: Command)
    requires Tidy(c)
    ensures Tidy(Handle(c, cmd).0)
  {
  }

  lemma WorkKeepsTidy(c: Control, w: Work)
    requires Tidy(c) && c.state.Running?
    ensures Tidy(DoWork(c, w))
  {
  }

  lemma StepKeepsTidy(c: Control, a: Action)
    requires Tidy(c)
    ensures Tidy(Step(c, a))
  {
    match a {
      case Do(cmd) => CommandKeepsTidy(c, cmd);
      case Run(w) => if c.state.Running? { WorkKeepsTidy(c, w); }
      case _ =>
    }
  }

  /** Over every sequence of commands, polls, thread steps and restarts: a Configured state is clean, and a
      running run is stopped automatically if and only if a stop was asked for during that very run. */
  lemma {:induction false} EveryRestartIsClean(idFile: nat, run: seq<Action>)
    ensures var c := RunFrom(PowerOn(idFile, []), run);
      && Tidy(c)
      && (c.state.Running? ==> (AutoStop(c).state.Stopped? <==> c.askedIn == c.runs))
  {
    if run != [] {
      EveryRestartIsClean(idFile, run[..|run| - 1]);
      StepKeepsTidy(RunFrom(PowerOn(idFile, []), run[..|run| - 1]), run[|run| - 1]);
    }
  }

  /** Every kind of work leaves something that only a reset clears. */
  lemma WorkIsNotClean(c: Control, w: Work)
    requires !w.Dequeue? && w != CountEvents(0)
    ensures !Clean(DoWork(c, w))
  {
  }

  /** Blocks leave the queue in the order they came. */
  lemma QueueIsFifo(c: Control, b: seq<Word>)
    ensures var q := c.handler.queue;
      && DoWork(c, Enqueue(b)).handler.queue == q + [b]
      && (if q == [] then DoWork(c, Dequeue) == c else [q[0]] + DoWork(c, Dequeue).handler.queue == q)
  {
  }

  /** After an exception in Configure the run stays without a prefix, and on no disk the handler knows. */
  lemma BareRunStaysBare(c: Control, w: Work)
    requires c.handler.prefix.None?
    ensures DoWork(c, w).handler.prefix.None? && DoWork(c, w).handler.base == c.handler.base
    ensures forall k :: |c.files| <= k < |DoWork(c, w).files| ==> DoWork(c, w).files[k].prefix.None?
  {
  }

  /** Writing stops when the write thread or a disk stop ends it, and nothing but a reset starts it again. */
  lemma WritingStopsIff(c: Control, a: Action)
    requires Tidy(c) && c.state.Running? && !a.Restart?
    ensures Step(c, a).handler.stopWrite <==>
            c.handler.stopWrite || (a.Run? && (a.work.EndWrite? || a.work.AskDiskStop?))
  {
    if a.Do? { CommandsFollowTheCycle(c, a.cmd); }
  }

  // ---------------------------------------------------------------- the state cycle

  /** Idle, Configured, Running, Stopped, and from there to Configured again. */
  function NextState(s: State): State {
    if s.Configured? then Running else if s.Running? then Stopped else Configured
  }

  /** The one state in which a command does something. */
  predicate Expected(s: State, cmd: Command) {
    match cmd
    case Configure(_, _, _) => s.Idle?
    case StartRun(_) => s.Configured?
    case StopRun => s.Running?
    case ResetRun(_) => s.Stopped?
    case Query => false
  }

  /** A command succeeds in its own state only, a configuration unless it is refused, and moves one step along the
      cycle; any other command leaves everything alone. */
  lemma CommandsFollowTheCycle(c: Control, cmd: Command)
    requires Tidy(c)
    ensures var (d, ok) := Handle(c, cmd);
      && (ok <==> cmd.Query? || (Expected(c.state, cmd) && (cmd.Configure? ==> !cmd.setup.Refused?)))
      && d.state == (if ok && !cmd.Query? then NextState(c.state) else c.state)
      && (!Expected(c.state, cmd) ==> d == c)
      && d.files == c.files + if ok && cmd.StartRun? && cmd.threadStarts
                              then [Opened(c.handler.prefix, c.handler.fileCount)] else []
  {
  }

  /** So the handler is reset, and a run started, only when no run is going on. */
  lemma StatesFollowTheCycle(c: Control, a: Action)
    requires Tidy(c)
    ensures Step(c, a).state in {c.state, NextState(c.state)} || a.Restart?
    ensures c.state.Running? && !a.Run? && !a.Restart? ==> Step(c, a).handler == c.handler
  {
    if a.Do? { CommandsFollowTheCycle(c, a.cmd); }
  }

  // ---------------------------------------------------------------- the objects

  /** The fields of DataHandler that a command sets or clears. */
  class RunHandler {
    var runNumber: nat
    var base: string
    var prefix: Option<Prefix>
    var fileCount: nat
    var segment: nat
    var eventCount: nat
    var stopWrite: bool
    var diskStop: bool
    var queue: seq<seq<Word>>

    ghost function View(): Handler
      reads this
    {
      Handler(runNumber, base, prefix, fileCount, segment, eventCount, stopWrite, diskStop, queue)
    }

    constructor ()
      ensures View() == PowerOn(0, []).handler
    {
      runNumber, base, prefix, fileCount, segment, eventCount := 0, "", None, 0, 0, 0;
      stopWrite, diskStop, queue := false, false, [];
    }

    /** Returns whether it got through; `setup` says where an exception strikes, if one does. */
    method Configure(run: nat, dir: string, setup: Setup) returns (ok: bool)
      requires !setup.Refused?
      modifies this
      ensures View() == ConfigureHandler(old(View()), setup, run, dir) && (ok <==> setup.Complete?)
    {
      if setup.Threw? && !setup.runSet {
        return false;
      }
      runNumber := run;
      if setup.Threw? {
        return false;
      }
      base, fileCount := dir, 0;
      prefix := Some(Prefix(base, runNumber));
      return true;
    }

    method Reset(run: nat)
      modifies this
      ensures View() == ResetHandler(old(View()), run)
    {
      fileCount := 0;
      eventCount := 0;
      diskStop := false;
      segment := 0;
      stopWrite := false;
      while queue != []
        invariant View() == old(View()).(fileCount := 0, eventCount := 0, diskStop := false, segment := 0,
                                         stopWrite := false, queue := queue)
        decreases |queue|
      {
        queue := queue[1..];
      }
      runNumber := run;
      prefix := Some(Prefix(base, runNumber));
    }
  }

  class Controller {
    const handler: RunHandler
    var state: State
    var runId: nat
    var isConfigured: bool
    var stopPending: bool
    var idFile: nat
    ghost var files: seq<Opened>
    ghost var runs: nat
    ghost var askedIn: nat

    ghost function View(): Control
      reads this, handler
    {
      Control(state, runId, isConfigured, stopPending, handler.View(), idFile, files, runs, askedIn)
    }

    constructor (stored: nat, ghost earlier: seq<Opened>)
      ensures View() == PowerOn(stored, earlier) && fresh(handler)
    {
      handler := new RunHandler();
      state, runId, isConfigured, stopPending, idFile := Idle, 0, false, false, stored;
      files, runs, askedIn := earlier, 0, 0;
    }

    method DoPersist(p: Persist) returns (ok: bool)
      modifies this
      ensures View() == old(View()).(runId := PersistRunId(old(idFile), p).0,
                                     idFile := PersistRunId(old(idFile), p).1)
      ensures ok <==> p.canRead && p.canWrite
    {
      ok := false;
      if p.canRead {
        runId := if p.parses then (idFile + 1) % TWO_TO_32 else 0;
        if p.canWrite {
          idFile := runId;
          ok := true;
        } else {
          runId := 0;
        }
      } else {
        runId := 0;
      }
    }

    method Stop()
      modifies this`state
      ensures View() == old(View()).(state := Stopped)
    {
      state := Stopped;
    }

    method HandleCommand(cmd: Command) returns (ok: bool)
      modifies this, handler
      ensures (View(), ok) == Handle(old(View()), cmd)
    {
      if cmd.Configure? && state.Idle? {
        ok := true;
        if !isConfigured {
          var _ := DoPersist(cmd.id);
          ok := !cmd.setup.Refused?;
          if ok {
            var _ := handler.Configure(runId, cmd.base, cmd.setup);
            isConfigured := true;
          }
        }
        if ok {
          state := Configured;
        }
      } else if cmd.StartRun? && state.Configured? {
        state := Running;
        runs := runs + 1;
        if cmd.threadStarts {
          files := files + [Opened(handler.prefix, handler.fileCount)];
        }
        ok := true;
      } else if cmd.StopRun? && state.Running? {
        Stop();
        ok := true;
      } else if cmd.ResetRun? && state.Stopped? {
        var _ := DoPersist(cmd.id);
        handler.Reset(runId);
        state := Configured;
        ok := true;
      } else {
        ok := cmd.Query?;
      }
    }

    method ApplyPendingRunStop()
      modifies this
      ensures View() == AutoStop(old(View()))
    {
      if state != Running {
        return;
      }
      if handler.diskStop {
        stopPending := true;
      }
      if !stopPending {
        return;
      }
      Stop();
      stopPending := false;
    }
  }
}

/** Which names the readout files of all runs have, over resets, failovers and restarts (src/data/data_handler.cpp:163,
    332-335, 436-438, src/control/controller.cpp:123-155): when O_TRUNC can hit an earlier file, and when never. */
module RunFiles {
  import opened Basics
  import opened Names
  import opened RunControl
  import Failover

  predicate GoodPersist(p: Persist) {
    p.canRead && p.parses && p.canWrite
  }

  /** A new run id is beyond every earlier one exactly when the file can be read, parsed and written and the
      number does not wrap. */
  lemma RunIdIsFreshIff(idFile: nat, p: Persist)
    requires idFile < TWO_TO_32
    ensures PersistRunId(idFile, p).0 > idFile <==> GoodPersist(p) && idFile + 1 < TWO_TO_32
  {
  }

  /** The file changes only when it can be read and written, and then holds the id the run gets; otherwise, and when
      it held no number, the id is 0. */
  lemma RunIdIsWhatTheFileHolds(idFile: nat, p: Persist)
    ensures var (id, file) := PersistRunId(idFile, p);
      && (if p.canRead && p.canWrite then file == id else file == idFile && id == 0)
      && (!p.parses ==> id == 0)
      && (GoodPersist(p) ==> (id - idFile - 1) % TWO_TO_32 == 0 && id < TWO_TO_32)
  {
    if GoodPersist(p) {
      var id, q := PersistRunId(idFile, p).0, (idFile + 1) / TWO_TO_32;
      DivModIs(id - idFile - 1, TWO_TO_32, -q, 0);
    }
  }

  predicate TouchesIdFile(a: Action) {
    a.Do? && (a.cmd.Configure? || a.cmd.ResetRun?)
  }

  /** The run-id file answers from `answers` each time, and configuration ends in one of `setups`. */
  predicate Meets(a: Action, answers: set<Persist>, setups: set<Setup>) {
    && (TouchesIdFile(a) ==> a.cmd.id in answers)
    && (a.Do? && a.cmd.Configure? ==> a.cmd.setup in setups)
  }

  ghost predicate AllMeet(run: seq<Action>, answers: set<Persist>, setups: set<Setup>) {
    forall k :: 0 <= k < |run| ==> Meets(run[k], answers, setups)
  }

  function Touches(run: seq<Action>): nat {
    if run == [] then 0 else Touches(run[..|run| - 1]) + if TouchesIdFile(run[|run| - 1]) then 1 else 0
  }

  // ---------------------------------------------------------------- names that differ

  /** How many steps of the 32-bit counter lie between `first` and `run`. */
  function Age(run: nat, first: nat): nat {
    (run - first) % TWO_TO_32
  }

  lemma AgeOfNext(run: nat, first: nat)
    requires Age(run, first) + 1 < TWO_TO_32
    ensures Age((run + 1) % TWO_TO_32, first) == Age(run, first) + 1
  {
    var m, q := TWO_TO_32, (run - first) / TWO_TO_32;
    var next, carry := (run + 1) % m, (run + 1) / m;
    assert next - first == (Age(run, first) + 1) + m * (q - carry);
    DivModIs(next - first, m, q - carry, Age(run, first) + 1);
  }

  /** Every prefix is built, and no two files have the same run and file number. */
  ghost predicate AllDifferent(files: seq<Opened>) {
    && (forall k :: 0 <= k < |files| ==> files[k].prefix.Some?)
    && (forall j, k :: 0 <= j < k < |files| ==>
          files[j].prefix.value.run != files[k].prefix.value.run || files[j].file != files[k].file)
  }

  /** The file comes before file `file` of the run of age `age`. */
  predicate Before(f: Opened, first: nat, age: nat, file: nat) {
    f.prefix.Some? && var a := Age(f.prefix.value.run, first); a < age || (a == age && f.file < file)
  }

  ghost predicate AllBefore(files: seq<Opened>, first: nat, age: nat, file: nat) {
    forall k :: 0 <= k < |files| ==> Before(files[k], first, age, file)
  }

  lemma AddFile(files: seq<Opened>, first: nat, f: Opened)
    requires f.prefix.Some?
    requires AllDifferent(files) && AllBefore(files, first, Age(f.prefix.value.run, first), f.file)
    ensures AllDifferent(files + [f]) && AllBefore(files + [f], first, Age(f.prefix.value.run, first), f.file + 1)
  {
    var all := files + [f];
    forall j, k | 0 <= j < k < |all| && k == |files|
      ensures all[j].prefix.value.run != all[k].prefix.value.run || all[j].file != all[k].file
    {
      assert Before(files[j], first, Age(f.prefix.value.run, first), f.file);
    }
  }

  /** Where the next file number of the run stands; before the run starts, nothing of it is open. */
  ghost predicate Numbered(c: Control, first: nat) {
    var h, age := c.handler, Age(c.idFile, first);
    && AllDifferent(c.files)
    && (!c.state.Idle? ==> h.prefix == Some(Prefix(h.base, c.idFile)) && h.runNumber == c.idFile)
    && match c.state
       case Idle => !c.isConfigured && AllBefore(c.files, first, age + 1, 0)
       case Configured => h.fileCount == 0 && AllBefore(c.files, first, age, 0)
       case _ => AllBefore(c.files, first, age, h.fileCount + 1)
  }

  /** The run-id file behaves, and configuration does not throw. */
  predicate GoodStep(a: Action) {
    && (TouchesIdFile(a) ==> GoodPersist(a.cmd.id))
    && (a.Do? && a.cmd.Configure? ==> !a.cmd.setup.Threw?)
  }

  lemma StepKeepsNumbered(c: Control, a: Action, first: nat)
    requires Numbered(c, first) && GoodStep(a)
    requires TouchesIdFile(a) ==> Age(c.idFile, first) + 1 < TWO_TO_32
    ensures var d := Step(c, a);
      && Numbered(d, first)
      && Age(d.idFile, first) <= Age(c.idFile, first) + if TouchesIdFile(a) then 1 else 0
  {
    if a.Do? {
      CommandKeepsNumbered(c, a.cmd, first);
    } else if a.Run? && c.state.Running? {
      WorkKeepsNumbered(c, a.work, first);
    }
  }

  lemma WorkKeepsNumbered(c: Control, w: Work, first: nat)
    requires Numbered(c, first) && c.state.Running?
    ensures Numbered(DoWork(c, w), first) && DoWork(c, w).idFile == c.idFile
  {
    var d := DoWork(c, w);
    if w.NextFile? {
      var f := Opened(d.handler.prefix, c.handler.fileCount + 1);
      AddFile(c.files, first, f);
      assert d.files == c.files + [f];
    } else {
      assert d.files == c.files;
    }
  }

  lemma CommandKeepsNumbered(c: Control, cmd: Command, first: nat)
    requires Numbered(c, first) && GoodStep(Do(cmd))
    requires TouchesIdFile(Do(cmd)) ==> Age(c.idFile, first) + 1 < TWO_TO_32
    ensures var d := Handle(c, cmd).0;
      && Numbered(d, first)
      && Age(d.idFile, first) <= Age(c.idFile, first) + if TouchesIdFile(Do(cmd)) then 1 else 0
  {
    if TouchesIdFile(Do(cmd)) { AgeOfNext(c.idFile, first); }
    if cmd.StartRun? && c.state.Configured? {
      AddFile(c.files, first, Opened(c.handler.prefix, c.handler.fileCount));
    }
  }

  lemma {:induction false} RunKeepsNumbered(idFile: nat, run: seq<Action>)
    requires idFile < TWO_TO_32 && Touches(run) < TWO_TO_32
    requires forall k :: 0 <= k < |run| ==> GoodStep(run[k])
    ensures var c := RunFrom(PowerOn(idFile, []), run);
      Numbered(c, idFile) && Age(c.idFile, idFile) <= Touches(run)
  {
    if run != [] {
      var front, a := run[..|run| - 1], run[|run| - 1];
      RunKeepsNumbered(idFile, front);
      StepKeepsNumbered(RunFrom(PowerOn(idFile, []), front), a, idFile);
    }
  }

  /** The name handed to open(): the file count follows a built prefix, or stands alone. */
  function NameOf(f: Opened): string {
    if f.prefix.Some? then ReadoutName(f.prefix.value.base, f.prefix.value.run, f.file) else Decimal(f.file) + ".dat"
  }

  lemma BuiltNamesHaveSlashes(base: string, run: nat, file: nat)
    ensures '/' in ReadoutName(base, run, file)
  {
    var stem, name := ReadoutStem(base), ReadoutName(base, run, file);
    assert READOUT_DIR[0] == '/' && stem[|base|] == READOUT_DIR[0];
    assert name[|base|] == stem[|base|];
  }

  /** Without a prefix a file is named by its count alone: in the working directory, and different from every other
      name. */
  lemma BareNamesStandApart(k: nat, other: Opened)
    ensures '/' !in NameOf(Opened(None, k))
    ensures NameOf(Opened(None, k)) == NameOf(other) <==> other == Opened(None, k)
  {
    var bare := NameOf(Opened(None, k));
    if other.prefix.Some? {
      BuiltNamesHaveSlashes(other.prefix.value.base, other.prefix.value.run, other.file);
    } else if bare == NameOf(other) {
      var ext: string := ".dat";
      assert Decimal(k) == bare[..|bare| - |ext|] && Decimal(other.file) == bare[..|bare| - |ext|];
      ValueOfDecimal(k);
      ValueOfDecimal(other.file);
    }
  }

  /** The handler of a run and the write thread of a failover are one object: the fields they share. */
  ghost predicate Shares(h: Handler, d: Failover.Disk) {
    && h.base == d.base && h.fileCount == d.fileCount && h.segment == d.segment
    && h.prefix == Some(Prefix(d.base, h.runNumber)) && h.diskStop == d.stopRequested
  }

  /** A switch of the write thread is the same step in both: the next file on this disk or on another, or a stop. */
  lemma NextFileIsSwitch(c: Control, d: Failover.Disk, sp: Failover.Space)
    requires |d.paths| >= 2 && Shares(c.handler, d) && !d.stopRequested
    ensures var e, verdict := Failover.SwitchFile(d, sp, false), Failover.Judge(d, sp);
      var w := if verdict.StopRun? then AskDiskStop
               else NextFile(if verdict.SwitchDisk? then Some(e.base) else None);
      var z := DoWork(c, w);
      && Shares(z.handler, e)
      && |z.files| - |c.files| == |e.files| - |d.files|
      && (|z.files| > |c.files| ==>
            NameOf(z.files[|c.files|]) == ReadoutName(e.base, c.handler.runNumber, e.files[|d.files|].number))
  {
  }

  /** No name is opened twice, so O_TRUNC never hits an earlier file. */
  ghost predicate NamesDiffer(files: seq<Opened>) {
    forall j, k :: 0 <= j < k < |files| ==> NameOf(files[j]) != NameOf(files[k])
  }

  /** While the run-id file behaves and configuration does not throw, no readout file name is ever opened twice,
      over any commands, stops, failovers, resets and restarts, wherever the number starts and even when it
      wraps. */
  lemma NoReadoutFileIsTruncated(idFile: nat, run: seq<Action>)
    requires idFile < TWO_TO_32 && Touches(run) < TWO_TO_32
    requires forall k :: 0 <= k < |run| ==> GoodStep(run[k])
    ensures NamesDiffer(RunFrom(PowerOn(idFile, []), run).files)
  {
    RunKeepsNumbered(idFile, run);
    var files := RunFrom(PowerOn(idFile, []), run).files;
    forall j, k | 0 <= j < k < |files| ensures NameOf(files[j]) != NameOf(files[k]) {
      var f, g := files[j].prefix.value, files[k].prefix.value;
      if NameOf(files[j]) == NameOf(files[k]) {
        ReadoutNameIsInjective(f.base, f.run, files[j].file, g.base, g.run, files[k].file);
      }
    }
  }

  // ---------------------------------------------------------------- names that collide

  lemma OneMoreStep(c: Control, run: seq<Action>, i: nat)
    requires i < |run|
    ensures RunFrom(c, run[..i + 1]) == Step(RunFrom(c, run[..i]), run[i])
  {
    assert run[..i + 1][..i] == run[..i];
  }

  lemma FiveSteps(c: Control, run: seq<Action>)
    requires |run| == 5
    ensures RunFrom(c, run) == Step(Step(Step(Step(Step(c, run[0]), run[1]), run[2]), run[3]), run[4])
  {
    OneMoreStep(c, run, 0);
    OneMoreStep(c, run, 1);
    OneMoreStep(c, run, 2);
    OneMoreStep(c, run, 3);
    OneMoreStep(c, run, 4);
    assert run[..0] == [] && run[..5] == run;
  }

  /** Start a run, stop it, reset, and start the next one. */
  function TwoRuns(p: Persist, base: string): seq<Action> {
    [Do(Configure(p, Complete, base)), Do(StartRun(true)), Do(StopRun), Do(ResetRun(p)), Do(StartRun(true))]
  }

  /** With a run-id file that cannot be read, holds no number, or cannot be written, every run gets id 0 and
      two runs open the same file. */
  lemma BadRunIdTruncates(idFile: nat, p: Persist, base: string)
    requires !GoodPersist(p)
    ensures var f := Opened(Some(Prefix(base, 0)), 0);
      RunFrom(PowerOn(idFile, []), TwoRuns(p, base)).files == [f, f]
  {
    var run, on := TwoRuns(p, base), PowerOn(idFile, []);
    FiveSteps(on, run);
    FirstRun(on, p, base);
  }

  lemma FirstRun(c: Control, p: Persist, base: string)
    requires !GoodPersist(p) && c == PowerOn(c.idFile, [])
    ensures var d := Step(Step(c, Do(Configure(p, Complete, base))), Do(StartRun(true)));
      d.state.Running? && d.files == [Opened(Some(Prefix(base, 0)), 0)] && d.handler.base == base
  {
  }

  /** Configure with an exception and start a run, in two processes. */
  function TwoProcesses(p: Persist, setup: Setup, base: string): seq<Action> {
    var configure := Do(Configure(p, setup, base));
    [configure, Do(StartRun(true)), Restart, configure, Do(StartRun(true))]
  }

  /** An exception leaves the prefix empty, so both processes open `0.dat`, whatever the run-id file answers. */
  lemma ThrownConfigurationTruncates(idFile: nat, p: Persist, setup: Setup, base: string)
    requires setup.Threw?
    ensures RunFrom(PowerOn(idFile, []), TwoProcesses(p, setup, base)).files == [Opened(None, 0), Opened(None, 0)]
  {
    var run, on := TwoProcesses(p, setup, base), PowerOn(idFile, []);
    FiveSteps(on, run);
    ThrownRun(on, p, setup, base);
    var c := Step(Step(Step(on, run[0]), run[1]), run[2]);
    assert c == PowerOn(c.idFile, [Opened(None, 0)]);
    ThrownRun(c, p, setup, base);
  }

  lemma ThrownRun(c: Control, p: Persist, setup: Setup, base: string)
    requires setup.Threw? && c == PowerOn(c.idFile, c.files)
    ensures Step(Step(c, Do(Configure(p, setup, base))), Do(StartRun(true))).files == c.files + [Opened(None, 0)]
  {
  }

  lemma SameNameTwice(files: seq<Opened>, j: nat, k: nat)
    requires j < k < |files| && files[j] == files[k]
    ensures !NamesDiffer(files)
  {
    assert NameOf(files[j]) == NameOf(files[k]);
  }

  /** Nothing is opened while every configuration is refused. */
  lemma {:induction false} NothingOpened(idFile: nat, run: seq<Action>, answers: set<Persist>, setups: set<Setup>)
    requires AllMeet(run, answers, setups) && (answers == {} || forall s :: s in setups ==> s.Refused?)
    ensures var c := RunFrom(PowerOn(idFile, []), run);
      c.state.Idle? && !c.isConfigured && c.files == []
  {
    if run != [] {
      NothingOpened(idFile, run[..|run| - 1], answers, setups);
      assert Meets(run[|run| - 1], answers, setups);
    }
  }

  lemma {:induction false} TouchesAtMost(run: seq<Action>)
    ensures Touches(run) <= |run|
  {
    if run != [] { TouchesAtMost(run[..|run| - 1]); }
  }

  predicate NeverTruncates(answers: set<Persist>, setups: set<Setup>) {
    answers == {}
    || ((forall s :: s in setups ==> !s.Threw?) && (Complete in setups ==> forall p :: p in answers ==> GoodPersist(p)))
  }

  /** When the run-id file may answer in any of the ways `answers`, changing along the run, and configuration may
      end in any of the ways `setups`: no readout file is ever truncated, over all runs, if and only if
      configuration never throws and, if it ever completes, the file can always be read, parsed and written. */
  lemma NoTruncationIff(answers: set<Persist>, setups: set<Setup>)
    ensures (forall idFile: nat, run: seq<Action> ::
               idFile < TWO_TO_32 && Touches(run) < TWO_TO_32 && AllMeet(run, answers, setups)
               ==> NamesDiffer(RunFrom(PowerOn(idFile, []), run).files))
            <==> NeverTruncates(answers, setups)
  {
    if NeverTruncates(answers, setups) {
      forall idFile: nat, run: seq<Action> |
        idFile < TWO_TO_32 && Touches(run) < TWO_TO_32 && AllMeet(run, answers, setups)
        ensures NamesDiffer(RunFrom(PowerOn(idFile, []), run).files)
      {
        if answers == {} || forall s :: s in setups ==> s.Refused? {
          NothingOpened(idFile, run, answers, setups);
        } else {
          forall k | 0 <= k < |run| ensures GoodStep(run[k]) { assert Meets(run[k], answers, setups); }
          NoReadoutFileIsTruncated(idFile, run);
        }
      }
    } else {
      var run := CollidingRun(answers, setups);
      assert !NamesDiffer(RunFrom(PowerOn(0, []), run).files);
    }
  }

  lemma CollidingRun(answers: set<Persist>, setups: set<Setup>) returns (run: seq<Action>)
    requires !NeverTruncates(answers, setups)
    ensures AllMeet(run, answers, setups) && Touches(run) < TWO_TO_32
    ensures !NamesDiffer(RunFrom(PowerOn(0, []), run).files)
  {
    var base: string := [];
    if s :| s in setups && s.Threw? {
      var p :| p in answers;
      run := TwoProcesses(p, s, base);
      ThrownConfigurationTruncates(0, p, s, base);
    } else {
      var p :| p in answers && !GoodPersist(p);
      run := TwoRuns(p, base);
      BadRunIdTruncates(0, p, base);
    }
    TouchesAtMost(run);
    SameNameTwice(RunFrom(PowerOn(0, []), run).files, 0, 1);
  }

  // ---------------------------------------------------------------- one bad answer among good ones

  const GOOD: Persist := Persist(true, true, true)
  const UNPARSED: Persist := Persist(true, false, true)

  /** One reset that finds no number in the file, then `k` more runs with a file that behaves. */
  function LaterRuns(k: nat): seq<Action> {
    if k == 0 then [Do(ResetRun(UNPARSED)), Do(StartRun(true))]
    else LaterRuns(k - 1) + [Do(StopRun), Do(ResetRun(GOOD)), Do(StartRun(true))]
  }

  lemma RunThree(c: Control, run: seq<Action>, x: Action, y: Action, z: Action)
    ensures RunFrom(c, run + [x, y, z]) == Step(Step(Step(RunFrom(c, run), x), y), z)
  {
    var all, n := run + [x, y, z], |run|;
    OneMoreStep(c, all, n);
    OneMoreStep(c, all, n + 1);
    OneMoreStep(c, all, n + 2);
    assert all[..n] == run && all[..n + 3] == all;
  }

  /** Run `k` has started on the disk of `c`, and the files of `c` are still there. */
  ghost predicate Counted(c: Control, d: Control, k: nat) {
    && d.state.Running? && d.idFile == k && d.handler.base == c.handler.base
    && |c.files| < |d.files| && c.files <= d.files
    && d.files[|d.files| - 1] == Opened(Some(Prefix(c.handler.base, k)), 0)
  }

  lemma NextRun(c: Control, d: Control, k: nat)
    requires Counted(c, d, k) && k + 1 < TWO_TO_32
    ensures Counted(c, Step(Step(Step(d, Do(StopRun)), Do(ResetRun(GOOD))), Do(StartRun(true))), k + 1)
  {
    var h := ResetHandler(d.handler, k + 1);
    assert Step(Step(d, Do(StopRun)), Do(ResetRun(GOOD))) ==
           d.(state := Configured, runId := k + 1, idFile := k + 1, handler := h);
  }

  lemma {:induction false} LaterRunsCountFromZero(c: Control, k: nat)
    requires c.state.Stopped? && k < TWO_TO_32
    ensures Counted(c, RunFrom(c, LaterRuns(k)), k)
  {
    if k == 0 {
      var run := LaterRuns(0);
      OneMoreStep(c, run, 0);
      OneMoreStep(c, run, 1);
      assert run[..0] == [] && run[..2] == run;
    } else {
      LaterRunsCountFromZero(c, k - 1);
      RunThree(c, LaterRuns(k - 1), Do(StopRun), Do(ResetRun(GOOD)), Do(StartRun(true)));
      NextRun(c, RunFrom(c, LaterRuns(k - 1)), k - 1);
    }
  }

  /** A single unparsable answer is enough: the file is rewritten with 0, ids count up again, and the first file of
      any earlier run `k` on the disk is truncated `k` runs later, although all later answers are good. */
  lemma OneUnparsedAnswerTruncates(c: Control, j: nat, k: nat)
    requires c.state.Stopped? && k < TWO_TO_32
    requires j < |c.files| && c.files[j] == Opened(Some(Prefix(c.handler.base, k)), 0)
    ensures !NamesDiffer(RunFrom(c, LaterRuns(k)).files)
  {
    LaterRunsCountFromZero(c, k);
    var files := RunFrom(c, LaterRuns(k)).files;
    assert files[j] == c.files[j];
    SameNameTwice(files, j, |files| - 1);
  }
}

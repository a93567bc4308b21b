/** Disk failover (src/data/data_handler.cpp:245-347) against the two side threads that follow it, the trigger
    reader (:930-979) and the PPS poller (:1149-1183). The write thread alone changes the base directory, the file
    count and the segment; the other two read them step by step. */
module Failover {
  import opened Basics
  import opened Names

  /** kDiskFileSwitchMinFreeBytes. */
  const SWITCH_MIN_FREE: nat := 3 * 1024 * 1024 * 1024

  /** What the disks answer when the write thread asks: free bytes where statvfs works, and whether the other
      disk's directory exists. */
  datatype Space = Space(current: Option<nat>, alt: Option<nat>, altExists: bool)

  datatype FileId = FileId(base: string, number: nat)

  /** The fields of DataHandler that a failover touches. `files` lists the readout files of the run. */
  datatype Disk = Disk(
    paths: seq<string>, active: nat, base: string, fileCount: nat, segment: nat, stopRequested: bool,
    files: seq<FileId>)

  datatype Verdict = Stay | StopRun | SwitchDisk

  function AltIndex(d: Disk): nat {
    if d.active == 0 then 1 else 0
  }

  /** MaybeSwitchDataDisk up to its decision (:254-285). */
  function Judge(d: Disk, sp: Space): Verdict {
    if |d.paths| < 2 then Stay
    else if sp.current.Some? && sp.current.value >= SWITCH_MIN_FREE then Stay
    else if sp.alt.Some? && sp.alt.value < SWITCH_MIN_FREE then StopRun
    else if sp.alt.None? && !sp.altExists then StopRun
    else SwitchDisk
  }

  /** The locked section (:291-297). */
  function MoveBase(d: Disk): Disk
    requires |d.paths| >= 2
  {
    d.(active := AltIndex(d), base := d.paths[AltIndex(d)])
  }

  /** The store of the segment (:300). */
  function StoreSegment(d: Disk): Disk {
    d.(segment := d.fileCount + 1)
  }

  /** The next readout file (:332-343); a failed open on a full disk requests the stop. */
  function OpenNext(d: Disk, full: bool): Disk {
    d.(fileCount := d.fileCount + 1, files := d.files + [FileId(d.base, d.fileCount + 1)],
    stopRequested := d.stopRequested || full)
  }

  /** SwitchWriteFile as one call. */
  function SwitchFile(d: Disk, sp: Space, full: bool): Disk {
    if d.stopRequested then d
    else
      match Judge(d, sp)
      case Stay => OpenNext(d, full)
      case StopRun => d.(stopRequested := true)
      case SwitchDisk => OpenNext(StoreSegment(MoveBase(d)), full)
  }

  predicate HasRoom(free: Option<nat>) {
    free.Some? && free.value >= SWITCH_MIN_FREE
  }

  /** The other disk can take the file: it has room, or its directory is there and nothing is known of its space. */
  predicate CanTake(sp: Space) {
    HasRoom(sp.alt) || (sp.alt.None? && sp.altExists)
  }

  /** With two disks, a new readout file is never opened on a disk known to be below the reserve; the disk is left
      exactly when it is not known to have room and the other can take the file; no file is opened exactly when
      neither can, or the stop was requested before; and the stop is then, or on a full disk, requested. */
  lemma NextFileHasRoom(d: Disk, sp: Space, full: bool)
    requires |d.paths| >= 2 && d.segment <= d.fileCount
    ensures var e := SwitchFile(d, sp, full);
      && (|e.files| > |d.files| ==>
            var free := if e.segment == d.segment then sp.current else sp.alt;
            && (free.Some? ==> free.value >= SWITCH_MIN_FREE)
            && e.files == d.files + [FileId(e.base, d.fileCount + 1)]
            && e.base == (if e.segment == d.segment then d.base else d.paths[AltIndex(d)]))
      && (e.segment != d.segment <==> !d.stopRequested && !HasRoom(sp.current) && CanTake(sp))
      && (e.files == d.files <==> d.stopRequested || (!HasRoom(sp.current) && !CanTake(sp)))
      && (e.stopRequested <==> e.files == d.files || full)
  {
    var e := SwitchFile(d, sp, full);
    assert !d.stopRequested && Judge(d, sp).SwitchDisk? ==> e.segment == d.fileCount + 1;
    assert |e.files| > |d.files| ==> e.files != d.files;
  }

  /** The candidates differ, and the base directory is the active one of them. */
  ghost predicate OnKnownDisk(d: Disk) {
    && (forall i, j :: 0 <= i < j < |d.paths| ==> d.paths[i] != d.paths[j])
    && d.active < |d.paths| && d.paths[d.active] == d.base
  }

  /** A failover goes to another disk, and only a failover does. */
  lemma FailoverLeavesDisk(d: Disk, sp: Space, full: bool)
    requires |d.paths| >= 2 && OnKnownDisk(d) && d.segment <= d.fileCount
    ensures var e := SwitchFile(d, sp, full);
      OnKnownDisk(e) && e.paths == d.paths && (e.base != d.base <==> e.segment != d.segment)
  {
  }

  /** InitNvmePathsFromEnv (:195-204): where the base directory stands among the candidates, 0 if nowhere. */
  function IndexFrom(paths: seq<string>, base: string, i: nat): nat
    requires i <= |paths|
    decreases |paths| - i
  {
    if i == |paths| then 0 else if paths[i] == base then i else IndexFrom(paths, base, i + 1)
  }

  lemma {:induction false} IndexFromFinds(paths: seq<string>, base: string, i: nat)
    requires i <= |paths| && base in paths[i..]
    ensures var k := IndexFrom(paths, base, i); i <= k < |paths| && paths[k] == base
    decreases |paths| - i
  {
    if paths[i] != base { IndexFromFinds(paths, base, i + 1); }
  }

  function RunStart(paths: seq<string>, base: string): Disk {
    Disk(paths, IndexFrom(paths, base, 0), base, 0, 0, false, [FileId(base, 0)])
  }

  /** The write thread's side of the handler, as an object. */
  class FileSwitcher {
    const paths: seq<string>
    const runNumber: nat
    var activeNvmeIndex: nat
    var dataBasedir: string
    var writePrefix: string
    var fileCount: nat
    var triggerSegment: nat
    var diskStopRequested: bool
    var stopWrite: bool
    var isRunning: bool
    ghost var files: seq<FileId>
    ghost var names: seq<string>

    ghost function View(): Disk
      reads this
    {
      Disk(paths, activeNvmeIndex, dataBasedir, fileCount, triggerSegment, diskStopRequested, files)
    }

    /** The name prefix follows the base directory, and every file opened has its built name. */
    ghost predicate Valid()
      reads this
    {
      && writePrefix == ReadoutStem(dataBasedir) + Decimal(runNumber) + "_"
      && |names| == |files|
      && forall k :: 0 <= k < |names| ==> names[k] == ReadoutName(files[k].base, runNumber, files[k].number)
    }

    constructor (nvme: seq<string>, base: string, run: nat)
      ensures Valid() && View() == RunStart(nvme, base)
    {
      paths, runNumber := nvme, run;
      activeNvmeIndex := IndexFrom(nvme, base, 0);
      dataBasedir := base;
      writePrefix := ReadoutStem(base) + Decimal(run) + "_";
      fileCount, triggerSegment, diskStopRequested, stopWrite, isRunning := 0, 0, false, false, true;
      files := [FileId(base, 0)];
      names := [ReadoutName(base, run, 0)];
    }

    method RequestDiskStop()
      requires Valid()
      modifies this
      ensures Valid() && View() == old(View()).(stopRequested := true)
      ensures !isRunning && stopWrite
    {
      diskStopRequested, isRunning, stopWrite := true, false, true;
    }

    method MaybeSwitchDataDisk(sp: Space) returns (switched: bool)
      requires Valid()
      modifies this
      ensures Valid() && switched == (Judge(old(View()), sp) == SwitchDisk)
      ensures View() == match Judge(old(View()), sp)
        case Stay => old(View())
        case StopRun => old(View()).(stopRequested := true)
        case SwitchDisk => StoreSegment(MoveBase(old(View())))
      ensures names == old(names)
    {
      if |paths| < 2 {
        return false;
      }
      if sp.current.Some? && sp.current.value >= SWITCH_MIN_FREE {
        return false;
      }
      var altIndex := if activeNvmeIndex == 0 then 1 else 0;
      if sp.alt.Some? && sp.alt.value < SWITCH_MIN_FREE {
        RequestDiskStop();
        return false;
      }
      if sp.alt.None? && !sp.altExists {
        RequestDiskStop();
        return false;
      }
      activeNvmeIndex := altIndex;
      dataBasedir := paths[altIndex];
      writePrefix := ReadoutStem(dataBasedir) + Decimal(runNumber) + "_";
      triggerSegment := fileCount + 1;
      return true;
    }

    /** Returns whether a new file is open; `opens` is what open() answers and `full` whether it says ENOSPC. */
    method SwitchWriteFile(sp: Space, opens: bool, full: bool) returns (ok: bool)
      requires Valid() && (opens ==> !full)
      modifies this
      ensures Valid() && View() == SwitchFile(old(View()), sp, full)
      ensures ok <==> opens && !old(diskStopRequested) && Judge(old(View()), sp) != StopRun
    {
      if diskStopRequested {
        return false;
      }
      var switched := MaybeSwitchDataDisk(sp);
      if diskStopRequested {
        return false;
      }
      fileCount := fileCount + 1;
      var name := writePrefix + Decimal(fileCount) + ".dat";
      files := files + [FileId(dataBasedir, fileCount)];
      names := names + [name];
      if !opens {
        if full {
          RequestDiskStop();
        }
        return false;
      }
      return true;
    }
  }

  // ---------------------------------------------------------------- interleaved with the side threads

  /** The write thread: outside a switch, decided to fail over and waiting for the lock, between the base change
      and the segment store, or about to open the next file. */
  datatype Writer = Outside | Decided | Moved | Opening

  /** A side thread's check: none running, the segment seen and found new, holding the lock with the base read,
      or the pair read and the lock released. */
  datatype Check =
    | Idle | Saw(seen: nat) | Locked(seen: nat, base: string) | Paired(seen: nat, base: string, number: nat)

  /** A side thread: which segment it believes open, and the disk and segment its open file was named after. */
  datatype Side = Side(openSegment: nat, file: FileId, check: Check)

  datatype System = System(disk: Disk, writer: Writer, trigger: Side, pps: Side, segments: seq<nat>)

  datatype Who = Trigger | Pps

  datatype Action =
    | BeginSwitch(sp: Space) | TakeLock | PutSegment | OpenFile(full: bool) | WriteFails
    | Look(who: Who) | LockAndRead(who: Who) | ReadSegment(who: Who) | Reopen(who: Who)

  function Start(paths: seq<string>, base: string): System {
    var side := Side(0, FileId(base, 0), Idle);
    System(RunStart(paths, base), Outside, side, side, [])
  }

  function Of(y: System, who: Who): Side {
    if who.Trigger? then y.trigger else y.pps
  }

  function With(y: System, who: Who, s: Side): System {
    if who.Trigger? then y.(trigger := s) else y.(pps := s)
  }

  predicate LockFree(y: System) {
    !y.trigger.check.Locked? && !y.pps.check.Locked?
  }

  predicate Enabled(y: System, a: Action) {
    match a
    case BeginSwitch(_) => y.writer.Outside?
    case TakeLock => y.writer.Decided? && LockFree(y)
    case PutSegment => y.writer.Moved?
    case OpenFile(_) => y.writer.Opening?
    case WriteFails => y.writer.Outside?
    case Look(who) => Of(y, who).check.Idle?
    case LockAndRead(who) => Of(y, who).check.Saw? && LockFree(y)
    case ReadSegment(who) => Of(y, who).check.Locked?
    case Reopen(who) => Of(y, who).check.Paired?
  }

  function Step(y: System, a: Action): (r: System)
    requires Enabled(y, a) && |y.disk.paths| >= 2
    ensures r.disk.paths == y.disk.paths
  {
    var d := y.disk;
    match a
    case BeginSwitch(sp) =>
      if d.stopRequested then y
      else (
        match Judge(d, sp)
        case Stay => y.(writer := Opening)
        case StopRun => y.(disk := d.(stopRequested := true))
        case SwitchDisk => y.(writer := Decided)
      )
    case TakeLock => y.(disk := MoveBase(d), writer := Moved)
    case PutSegment => y.(disk := StoreSegment(d), writer := Opening, segments := y.segments + [d.fileCount + 1])
    case OpenFile(full) => y.(disk := OpenNext(d, full), writer := Outside)
    case WriteFails => y.(disk := d.(stopRequested := true))
    case Look(who) =>
      var s := Of(y, who);
      if d.segment == s.openSegment then y else With(y, who, s.(check := Saw(d.segment)))
    case LockAndRead(who) =>
      var s := Of(y, who);
      With(y, who, s.(check := Locked(s.check.seen, d.base)))
    case ReadSegment(who) =>
      var s := Of(y, who);
      With(y, who, s.(check := Paired(s.check.seen, s.check.base, d.segment)))
    case Reopen(who) =>
      var s := Of(y, who);
      With(y, who, Side(s.check.seen, FileId(s.check.base, s.check.number), Idle))
  }

  /** Run by the write thread alone, the steps add up to SwitchWriteFile. */
  lemma StepsMakeSwitchFile(y: System, sp: Space, full: bool)
    requires y.writer.Outside? && LockFree(y) && |y.disk.paths| >= 2
    ensures var b := Step(y, BeginSwitch(sp));
      match b.writer
      case Outside => b.disk == SwitchFile(y.disk, sp, full)
      case Opening => Step(b, OpenFile(full)).disk == SwitchFile(y.disk, sp, full)
      case Decided => Step(Step(Step(b, TakeLock), PutSegment), OpenFile(full)).disk == SwitchFile(y.disk, sp, full)
      case Moved => false
  {
  }

  /** What a side thread knows. A pair whose segment is current is the current pair, unless the write thread is
      just between the base change and the segment store. */
  ghost predicate Informed(d: Disk, w: Writer, s: Side) {
    && s.openSegment <= s.file.number <= d.segment
    && (!w.Moved? && s.file.number == d.segment ==> s.file.base == d.base)
    && match s.check
       case Idle => true
       case Saw(seen) => s.openSegment != seen <= d.segment
       case Locked(seen, base) => s.openSegment != seen <= d.segment && base == d.base
       case Paired(seen, base, n) =>
         s.openSegment != seen <= n <= d.segment && (!w.Moved? && n == d.segment ==> base == d.base)
  }

  /** The files are numbered 0, 1, 2 ...; the segment is a file number, or the one about to be opened, and from it
      on the files are on the current disk. */
  ghost predicate FilesInStep(y: System) {
    var d := y.disk;
    && |d.files| == d.fileCount + 1
    && (forall k :: 0 <= k < |d.files| ==> d.files[k].number == k)
    && d.segment <= d.fileCount + (if y.writer.Opening? then 1 else 0)
    && (!y.writer.Moved? ==> forall k :: d.segment <= k <= d.fileCount ==> d.files[k].base == d.base)
    && (forall i, j :: 0 <= i < j < |y.segments| ==> y.segments[i] < y.segments[j])
    && d.segment == (if y.segments == [] then 0 else y.segments[|y.segments| - 1])
  }

  ghost predicate Inv(y: System) {
    && |y.disk.paths| >= 2
    && FilesInStep(y)
    && Informed(y.disk, y.writer, y.trigger)
    && Informed(y.disk, y.writer, y.pps)
    && !(y.trigger.check.Locked? && y.pps.check.Locked?)
  }

  predicate IsSideStep(a: Action) {
    a.Look? || a.LockAndRead? || a.ReadSegment? || a.Reopen?
  }

  lemma SideStepInforms(y: System, a: Action)
    requires Inv(y) && Enabled(y, a) && IsSideStep(a)
    ensures var z := Step(y, a);
      && z.disk == y.disk && z.writer == y.writer && z.segments == y.segments
      && Informed(z.disk, z.writer, z.trigger) && Informed(z.disk, z.writer, z.pps)
      && !(z.trigger.check.Locked? && z.pps.check.Locked?)
  {
  }

  lemma WriterStepInforms(y: System, a: Action, s: Side)
    requires FilesInStep(y) && |y.disk.paths| >= 2 && Enabled(y, a) && !IsSideStep(a)
    requires Informed(y.disk, y.writer, s) && (a.TakeLock? ==> !s.check.Locked?)
    ensures Informed(Step(y, a).disk, Step(y, a).writer, s)
  {
  }

  lemma WriterStepKeepsFiles(y: System, a: Action)
    requires FilesInStep(y) && |y.disk.paths| >= 2 && Enabled(y, a) && !IsSideStep(a)
    ensures FilesInStep(Step(y, a)) && Step(y, a).disk.paths == y.disk.paths
    ensures Step(y, a).trigger == y.trigger && Step(y, a).pps == y.pps
  {
  }

  lemma StepKeepsInv(y: System, a: Action)
    requires Inv(y) && Enabled(y, a)
    ensures Inv(Step(y, a))
  {
    if IsSideStep(a) {
      SideStepInforms(y, a);
    } else {
      WriterStepKeepsFiles(y, a);
      WriterStepInforms(y, a, y.trigger);
      WriterStepInforms(y, a, y.pps);
    }
  }

  ghost predicate Allowed(y: System, run: seq<Action>)
    requires |y.disk.paths| >= 2
    decreases |run|
  {
    run == [] || (Enabled(y, run[0]) && Allowed(Step(y, run[0]), run[1..]))
  }

  function RunFrom(y: System, run: seq<Action>): System
    requires |y.disk.paths| >= 2 && Allowed(y, run)
    decreases |run|
  {
    if run == [] then y else RunFrom(Step(y, run[0]), run[1..])
  }

  lemma {:induction false} RunKeepsInv(y: System, run: seq<Action>)
    requires Inv(y) && Allowed(y, run)
    ensures Inv(RunFrom(y, run))
    decreases |run|
  {
    if run != [] {
      StepKeepsInv(y, run[0]);
      RunKeepsInv(Step(y, run[0]), run[1..]);
    }
  }

  /** The path a side thread has open, for the stem of its kind of file. */
  function OpenPath(who: Who, file: FileId, run: nat): string {
    SegmentName(if who.Trigger? then TriggerStem(file.base) else PpsStem(file.base), run, file.number)
  }

  /** Under every interleaving, outside a half-done failover: the file a side thread has open is the built name of
      the current disk and segment exactly when the segment in its name is current, and it is whenever the thread
      believes its segment current. Segments strictly increase, and each is the number of a readout file, from
      which on the files are on the same disk. */
  lemma HandOver(paths: seq<string>, base: string, run: seq<Action>, runNumber: nat, who: Who)
    requires |paths| >= 2 && Allowed(Start(paths, base), run)
    ensures var y := RunFrom(Start(paths, base), run);
      var d, s := y.disk, Of(y, who);
      && (!y.writer.Moved? ==>
            && (OpenPath(who, s.file, runNumber) == OpenPath(who, FileId(d.base, d.segment), runNumber)
                <==> s.file.number == d.segment)
            && (s.openSegment == d.segment ==> s.file == FileId(d.base, d.segment)))
      && (forall i, j :: 0 <= i < j < |y.segments| ==> y.segments[i] < y.segments[j])
      && (y.writer.Outside? ==>
            && d.segment < |d.files|
            && forall k :: d.segment <= k < |d.files| ==> d.files[k] == FileId(d.base, k))
  {
    var y := RunFrom(Start(paths, base), run);
    RunKeepsInv(Start(paths, base), run);
    var f, g := Of(y, who).file, FileId(y.disk.base, y.disk.segment);
    StemsAreStems(f.base);
    StemsAreStems(g.base);
    if OpenPath(who, f, runNumber) == OpenPath(who, g, runNumber) {
      SegmentNameIsInjective(if who.Trigger? then TriggerStem(f.base) else PpsStem(f.base),
                             if who.Trigger? then TriggerStem(g.base) else PpsStem(g.base),
                             runNumber, f.number, g.number);
    }
  }

  // ---------------------------------------------------------------- which disk each file is on

  /** File by file, the disk changes exactly at the numbers booked as segments. */
  ghost predicate ChangesAt(files: seq<FileId>, segments: seq<nat>) {
    forall k :: 1 <= k < |files| ==> (files[k].base != files[k - 1].base <==> k in segments)
  }

  /** While a switch is under way: whether the next file will be on another disk is booked, or about to be. */
  ghost predicate Booked(y: System) {
    var d := y.disk;
    && FilesInStep(y)
    && OnKnownDisk(d)
    && ChangesAt(d.files, y.segments)
    && var changes := d.base != d.files[d.fileCount].base;
    match y.writer
    case Outside => !changes
    case Decided => !changes
    case Moved => changes
    case Opening => changes <==> d.fileCount + 1 in y.segments
  }

  lemma {:induction false} SegmentsAreBelow(segments: seq<nat>, k: nat)
    requires forall i, j :: 0 <= i < j < |segments| ==> segments[i] < segments[j]
    requires segments != [] ==> segments[|segments| - 1] < k
    ensures k !in segments
  {
    if segments != [] { assert forall i :: 0 <= i < |segments| ==> segments[i] <= segments[|segments| - 1]; }
  }

  lemma StepKeepsBooked(y: System, a: Action)
    requires Inv(y) && Booked(y) && Enabled(y, a)
    ensures Booked(Step(y, a))
  {
    StepKeepsInv(y, a);
    if a.PutSegment? {
      SegmentIsBooked(y);
    } else if a.OpenFile? {
      FileIsOpened(y, a);
    } else if a.BeginSwitch? {
      SegmentsAreBelow(y.segments, y.disk.fileCount + 1);
    }
  }

  lemma SegmentIsBooked(y: System)
    requires Inv(y) && Booked(y) && y.writer.Moved?
    ensures Booked(Step(y, PutSegment))
  {
    var n, z := y.disk.fileCount + 1, Step(y, PutSegment);
    WriterStepKeepsFiles(y, PutSegment);
    assert forall k :: k in z.segments <==> k in y.segments || k == n;
  }

  lemma FileIsOpened(y: System, a: Action)
    requires Inv(y) && Booked(y) && y.writer.Opening? && a.OpenFile?
    ensures Booked(Step(y, a))
  {
    var n, z := y.disk.fileCount + 1, Step(y, a);
    WriterStepKeepsFiles(y, a);
    assert z.disk.files == y.disk.files + [FileId(y.disk.base, n)];
  }

  lemma {:induction false} RunKeepsBooked(y: System, run: seq<Action>)
    requires Inv(y) && Booked(y) && Allowed(y, run)
    ensures Booked(RunFrom(y, run))
    decreases |run|
  {
    if run != [] {
      StepKeepsInv(y, run[0]);
      StepKeepsBooked(y, run[0]);
      RunKeepsBooked(Step(y, run[0]), run[1..]);
    }
  }

  /** Over every run that starts on one of the candidates: from one readout file to the next the disk changes
      exactly at the numbers the side files are named after. */
  lemma FilesChangeDiskAtSegments(paths: seq<string>, base: string, run: seq<Action>)
    requires |paths| >= 2 && base in paths && forall i, j :: 0 <= i < j < |paths| ==> paths[i] != paths[j]
    requires Allowed(Start(paths, base), run)
    ensures var y := RunFrom(Start(paths, base), run);
      && ChangesAt(y.disk.files, y.segments)
      && y.disk.active < |y.disk.paths| && y.disk.base == y.disk.paths[y.disk.active]
  {
    assert paths[0..] == paths;
    IndexFromFinds(paths, base, 0);
    RunKeepsBooked(Start(paths, base), run);
  }

  /** Once a write has failed on a full disk, no further file is opened, whatever follows. */
  lemma {:induction false} StopIsFinal(y: System, run: seq<Action>)
    requires |y.disk.paths| >= 2 && y.writer.Outside? && y.disk.stopRequested && Allowed(y, run)
    ensures RunFrom(y, run).disk == y.disk
    decreases |run|
  {
    if run != [] { StopIsFinal(Step(y, run[0]), run[1..]); }
  }

  lemma FailedWriteOpensNoMore(y: System, run: seq<Action>)
    requires |y.disk.paths| >= 2 && y.writer.Outside? && Allowed(Step(y, WriteFails), run)
    ensures RunFrom(Step(y, WriteFails), run).disk.files == y.disk.files
  {
    StopIsFinal(Step(y, WriteFails), run);
  }

  /** A check that the write thread does not disturb ends with the current file open. */
  lemma UndisturbedCheckCatchesUp(y: System, who: Who)
    requires Inv(y) && !y.writer.Moved? && LockFree(y) && Of(y, who).check.Idle?
    ensures var a := Step(y, Look(who));
      var z := if Of(a, who).check.Idle? then a
               else Step(Step(Step(a, LockAndRead(who)), ReadSegment(who)), Reopen(who));
      && z.disk == y.disk
      && Of(z, who).check.Idle? && Of(z, who).openSegment == y.disk.segment
      && Of(z, who).file == FileId(y.disk.base, y.disk.segment)
  {
  }
}

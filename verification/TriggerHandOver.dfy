/** The trigger reader's whole run against the interleaved failover: when its looks are the trigger thread's checks
    in a run of all three threads, which files its records are in (src/data/data_handler.cpp:873-1088). */
module TriggerHandOver {
  import opened Basics
  import opened Failover
  import opened TriggerLog

  /** What a completed check of the trigger thread found; the pair is read only when the segment is new. */
  datatype Turn = Turn(segment: nat, pair: Option<FileId>)

  function TurnOf(y: System, a: Action): seq<Turn>
    requires Enabled(y, a)
  {
    var s := y.trigger;
    if a == Look(Trigger) && y.disk.segment == s.openSegment then [Turn(s.openSegment, None)]
    else if a == Reopen(Trigger) then [Turn(s.check.seen, Some(FileId(s.check.base, s.check.number)))]
    else []
  }

  /** The checks the trigger thread completes along a run, in order. */
  function Turns(y: System, run: seq<Action>): seq<Turn>
    requires |y.disk.paths| >= 2 && Allowed(y, run)
    decreases |run|
  {
    if run == [] then [] else TurnOf(y, run[0]) + Turns(Step(y, run[0]), run[1..])
  }

  function Current(y: System): FileId {
    FileId(y.disk.base, y.disk.segment)
  }

  /** Every pair of disk and segment that is current at some moment of the run. */
  function Pairs(y: System, run: seq<Action>): set<FileId>
    requires |y.disk.paths| >= 2 && Allowed(y, run)
    decreases |run|
  {
    {Current(y)} + if run == [] then {} else Pairs(Step(y, run[0]), run[1..])
  }

  /** The reader's looks are the checks of the run. */
  ghost predicate Follows(looks: seq<Sighting>, turns: seq<Turn>) {
    && |looks| == |turns|
    && forall i :: 0 <= i < |turns| ==>
         looks[i].segment == turns[i].segment && (turns[i].pair.Some? ==> looks[i].pair == turns[i].pair.value)
  }

  lemma FollowsRest(looks: seq<Sighting>, turn: Turn, turns: seq<Turn>)
    requires Follows(looks, [turn] + turns)
    ensures looks != [] && Follows(looks[1..], turns)
    ensures looks[0].segment == turn.segment && (turn.pair.Some? ==> looks[0].pair == turn.pair.value)
  {
    var all := [turn] + turns;
    assert all[0] == turn && all[1..] == turns;
  }

  /** The files a reader opens, the one open at first included. */
  function OpenedBy(segment: nat, file: FileId, looks: seq<Sighting>): (r: seq<FileId>)
    ensures r != [] && r[0] == file
    decreases |looks|
  {
    if looks == [] then [file]
    else if looks[0].segment == segment then OpenedBy(segment, file, looks[1..])
    else [file] + OpenedBy(looks[0].segment, looks[0].pair, looks[1..])
  }

  function LastSegment(segment: nat, looks: seq<Sighting>): nat {
    if looks == [] then segment else looks[|looks| - 1].segment
  }

  ghost predicate Climbing(fs: seq<FileId>) {
    forall i, j :: 0 <= i < j < |fs| ==> fs[i].number <= fs[j].number
  }

  lemma ClimbOne(f: FileId, fs: seq<FileId>)
    requires fs != [] && Climbing(fs) && f.number <= fs[0].number
    ensures Climbing([f] + fs)
  {
    var all := [f] + fs;
    forall i, j | 0 <= i < j < |all| ensures all[i].number <= all[j].number {
      assert fs[0].number <= fs[j - 1].number;
    }
  }

  // ---------------------------------------------------------------- the thread's side

  /** Every file the thread has open or is about to open was a current pair. */
  ghost predicate Known(y: System, h: set<FileId>) {
    var s := y.trigger;
    && Current(y) in h
    && s.file in h
    && (s.check.Paired? ==> FileId(s.check.base, s.check.number) in h && s.file.number <= s.check.number)
  }

  lemma StepKeepsKnown(y: System, a: Action, h: set<FileId>)
    requires Inv(y) && Known(y, h) && Enabled(y, a)
    ensures Known(Step(y, a), h + {Current(Step(y, a))})
    ensures a != Reopen(Trigger) ==>
      Step(y, a).trigger.openSegment == y.trigger.openSegment && Step(y, a).trigger.file == y.trigger.file
  {
  }

  /** Looking through `looks`, a reader goes from the file and segment of `s` to those of `t`, over files of `h`. */
  ghost predicate Leads(s: Side, looks: seq<Sighting>, t: Side, h: set<FileId>) {
    var fs := OpenedBy(s.openSegment, s.file, looks);
    && Climbing(fs)
    && (forall f :: f in fs ==> f in h)
    && fs[|fs| - 1] == t.file
    && LastSegment(s.openSegment, looks) == t.openSegment
  }

  lemma LeadsOnSameFile(s: Side, looks: seq<Sighting>, t: Side, h: set<FileId>)
    requires looks != [] && looks[0].segment == s.openSegment && Leads(s, looks[1..], t, h)
    ensures Leads(s, looks, t, h)
  {
  }

  lemma LeadsOnNewFile(s: Side, looks: seq<Sighting>, r: Side, t: Side, h: set<FileId>)
    requires looks != [] && looks[0].segment == r.openSegment != s.openSegment && looks[0].pair == r.file
    requires Leads(r, looks[1..], t, h) && s.file in h && s.file.number <= r.file.number
    ensures Leads(s, looks, t, h)
  {
    ClimbOne(s.file, OpenedBy(r.openSegment, r.file, looks[1..]));
  }

  lemma LeadsAsBefore(s: Side, looks: seq<Sighting>, r: Side, t: Side, h: set<FileId>, g: set<FileId>)
    requires Leads(r, looks, t, g) && g <= h && r.openSegment == s.openSegment && r.file == s.file
    ensures Leads(s, looks, t, h)
  {
  }

  lemma {:induction false} TurnsOpenCurrentPairs(y: System, run: seq<Action>, looks: seq<Sighting>, h: set<FileId>)
    requires Inv(y) && Allowed(y, run) && Known(y, h) && Follows(looks, Turns(y, run))
    ensures Leads(y.trigger, looks, RunFrom(y, run).trigger, h + Pairs(y, run))
    decreases |run|
  {
    if run != [] {
      var a, rest, z := run[0], run[1..], Step(y, run[0]);
      var g, all, t := h + {Current(z)}, h + Pairs(y, run), RunFrom(y, run).trigger;
      StepKeepsInv(y, a);
      StepKeepsKnown(y, a, h);
      assert g + Pairs(z, rest) <= all;
      var turn := TurnOf(y, a);
      if turn == [] {
        assert Turns(y, run) == Turns(z, rest);
        TurnsOpenCurrentPairs(z, rest, looks, g);
        LeadsAsBefore(y.trigger, looks, z.trigger, t, all, g + Pairs(z, rest));
      } else {
        FollowsRest(looks, turn[0], Turns(z, rest));
        TurnsOpenCurrentPairs(z, rest, looks[1..], g);
        LeadsAsBefore(z.trigger, looks[1..], z.trigger, t, all, g + Pairs(z, rest));
        OneTurn(y, a, looks, t, all);
      }
    }
  }

  lemma OneTurn(y: System, a: Action, looks: seq<Sighting>, t: Side, h: set<FileId>)
    requires Inv(y) && Enabled(y, a) && Known(y, h) && TurnOf(y, a) != [] && looks != []
    requires var turn := TurnOf(y, a)[0];
      looks[0].segment == turn.segment && (turn.pair.Some? ==> looks[0].pair == turn.pair.value)
    requires Leads(Step(y, a).trigger, looks[1..], t, h)
    ensures Leads(y.trigger, looks, t, h)
  {
    if a == Reopen(Trigger) {
      LeadsOnNewFile(y.trigger, looks, Step(y, a).trigger, t, h);
    } else {
      LeadsOnSameFile(y.trigger, looks, t, h);
    }
  }

  // ---------------------------------------------------------------- the reader's side

  function Looks(events: seq<Event>): seq<Sighting> {
    if events == [] then []
    else if events[0].See? then [events[0].look] + Looks(events[1..])
    else Looks(events[1..])
  }

  /** From record `n` on, each record is in one of the files, and their numbers never go down. */
  ghost predicate FiledFrom(disk: seq<Stored>, n: nat, fs: seq<FileId>, low: nat) {
    && (forall i :: n <= i < |disk| ==> disk[i].file in fs && low <= disk[i].file.number)
    && (forall i, j :: n <= i < j < |disk| ==> disk[i].file.number <= disk[j].file.number)
  }

  /** From `l` to `z` through `looks`, records went to the files opened, in order. */
  ghost predicate Filed(l: Log, looks: seq<Sighting>, z: Log) {
    var fs := OpenedBy(l.segment, l.file, looks);
    && l.disk <= z.disk && FiledFrom(z.disk, |l.disk|, fs, l.file.number)
    && z.file == fs[|fs| - 1] && z.segment == LastSegment(l.segment, looks)
  }

  lemma FiledAfterTake(l: Log, r: Record, looks: seq<Sighting>, z: Log)
    requires Filed(TakeOne(l, r), looks, z)
    ensures Filed(l, looks, z)
  {
    var m := TakeOne(l, r);
    if l.isOpen {
      assert z.disk[|l.disk|] == m.disk[|l.disk|];
      assert z.disk[|l.disk|].file == OpenedBy(l.segment, l.file, looks)[0];
      assert l.disk <= m.disk;
    }
  }

  lemma Widen(disk: seq<Stored>, n: nat, gs: seq<FileId>, fs: seq<FileId>, low: nat, lower: nat)
    requires FiledFrom(disk, n, gs, low) && lower <= low && forall f :: f in gs ==> f in fs
    ensures FiledFrom(disk, n, fs, lower)
  {
  }

  lemma ClimbTail(f: FileId, fs: seq<FileId>)
    requires fs != [] && Climbing([f] + fs)
    ensures Climbing(fs) && f.number <= fs[0].number
  {
    var all := [f] + fs;
    assert all[0] == f && all[1] == fs[0];
    forall i, j | 0 <= i < j < |fs| ensures fs[i].number <= fs[j].number {
      assert all[i + 1].number <= all[j + 1].number;
    }
  }

  lemma OpenedBySee(l: Log, look: Sighting, looks: seq<Sighting>)
    ensures var m, fs := SeeLook(l, look), OpenedBy(l.segment, l.file, [look] + looks);
      var gs := OpenedBy(m.segment, m.file, looks);
      && fs == (if look.segment == l.segment then gs else [l.file] + gs)
      && (Climbing(fs) ==> Climbing(gs) && l.file.number <= m.file.number)
      && LastSegment(l.segment, [look] + looks) == LastSegment(m.segment, looks)
  {
    var m, fs := SeeLook(l, look), OpenedBy(l.segment, l.file, [look] + looks);
    var gs := OpenedBy(m.segment, m.file, looks);
    assert ([look] + looks)[1..] == looks;
    if look.segment != l.segment && Climbing(fs) { ClimbTail(l.file, gs); }
  }

  lemma FiledAfterSee(l: Log, look: Sighting, looks: seq<Sighting>, z: Log)
    requires Climbing(OpenedBy(l.segment, l.file, [look] + looks)) && Filed(SeeLook(l, look), looks, z)
    ensures Filed(l, [look] + looks, z)
  {
    var m := SeeLook(l, look);
    OpenedBySee(l, look, looks);
    Widen(z.disk, |l.disk|, OpenedBy(m.segment, m.file, looks), OpenedBy(l.segment, l.file, [look] + looks),
          m.file.number, l.file.number);
  }

  lemma {:induction false} RecordsAreFiled(l: Log, events: seq<Event>)
    requires Climbing(OpenedBy(l.segment, l.file, Looks(events)))
    ensures Filed(l, Looks(events), Replay(l, events))
    decreases |events|
  {
    if events != [] {
      var rest := events[1..];
      match events[0] {
        case See(look) =>
          OpenedBySee(l, look, Looks(rest));
          RecordsAreFiled(SeeLook(l, look), rest);
          FiledAfterSee(l, look, Looks(rest), Replay(l, events));
        case Take(r) =>
          RecordsAreFiled(TakeOne(l, r), rest);
          FiledAfterTake(l, r, Looks(rest), Replay(l, events));
      }
    }
  }

  /** Over the whole run of the thread, interleaved in any way with the write thread and the PPS poller: its records
      are on disk in the order they were taken, each in a file named after a disk and segment that were current
      together at some moment, with segments that never go down; no record is lost while every open succeeds; and
      the thread ends with the file and the segment that the interleaved model gives it. */
  lemma TriggerFilesFollow(paths: seq<string>, base: string, run: seq<Action>, opens: bool, rounds: seq<Round>)
    requires |paths| >= 2 && Allowed(Start(paths, base), run)
    requires Follows(Looks(RunEvents(true, 0, rounds)), Turns(Start(paths, base), run))
    ensures var events := RunEvents(true, 0, rounds);
      var l, y := Replay(StartLog(base, opens), events), RunFrom(Start(paths, base), run);
      && (forall i :: 0 <= i < |l.disk| ==> l.disk[i].file in Pairs(Start(paths, base), run))
      && (forall i, j :: 0 <= i < j < |l.disk| ==> l.disk[i].file.number <= l.disk[j].file.number)
      && l.segment == y.trigger.openSegment && l.file == y.trigger.file
      && |l.disk| + l.lost == |l.taken| && (l.lost == 0 ==> Records(l.disk) == l.taken)
      && (opens && AllOpen(events) ==> l.lost == 0)
  {
    var y, events := Start(paths, base), RunEvents(true, 0, rounds);
    TurnsOpenCurrentPairs(y, run, Looks(events), {Current(y)});
    RecordsAreFiled(StartLog(base, opens), events);
    ReplayIsSound(StartLog(base, opens), events);
    assert {Current(y)} + Pairs(y, run) == Pairs(y, run);
  }
}

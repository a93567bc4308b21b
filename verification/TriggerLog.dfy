/** What the trigger reader should do (src/data/data_handler.cpp:873-1088), without its buffer: each record goes
    straight to the file open when it is taken. How many records are pending is read off a 24-bit down-counter. */
module TriggerLog {
  import opened Basics
  import opened Failover
  import opened Names

  const COUNTER_START: nat := 0xFF_FFFF
  const TWO_TO_24: nat := 0x100_0000
  const TRIG_BUFFER_SIZE: nat := 250
  /** Full records the counter can count down before it wraps. */
  const COUNTER_RECORDS: nat := 1_048_575

  datatype Record = Record(data0: nat, data1: nat)

  /** One record on disk, and the file it was appended to. */
  datatype Stored = Stored(file: FileId, record: Record)

  /** The register after the board has produced `n` records of 16 bytes (:908, :985). */
  function Register(n: nat): nat {
    (COUNTER_START - 16 * n) % TWO_TO_24
  }

  /** trig_data_ctr_ after the reader has taken `n` records (:876, :1061), in 64 bits. */
  function Expected(n: nat): nat {
    (COUNTER_START - 16 * n) % TWO_TO_64
  }

  function Sub64(a: nat, b: nat): nat {
    (a - b) % TWO_TO_64
  }

  /** The test that a full record is pending (:990). */
  predicate FullRecord(expected: nat, register: nat) {
    Sub64(expected, register) >= 16
  }

  lemma CounterValues(n: nat)
    requires n <= COUNTER_RECORDS
    ensures Register(n) == Expected(n) == COUNTER_START - 16 * n
  {
  }

  lemma CounterIsExact(read: nat, produced: nat)
    requires read <= produced <= COUNTER_RECORDS
    ensures FullRecord(Expected(read), Register(produced)) <==> read < produced
  {
    CounterValues(read);
    CounterValues(produced);
  }

  /** The test is right for every number of records read and produced up to `limit` if and only if `limit` is at
      most 1,048,575; with one record more, the reader takes a record that is not there. */
  lemma CounterIsExactIff(limit: nat)
    ensures (forall read: nat, produced: nat :: read <= produced <= limit ==>
               (FullRecord(Expected(read), Register(produced)) <==> read < produced))
            <==> limit <= COUNTER_RECORDS
  {
    if limit <= COUNTER_RECORDS {
      forall read: nat, produced: nat | read <= produced <= limit
        ensures FullRecord(Expected(read), Register(produced)) <==> read < produced
      {
        CounterIsExact(read, produced);
      }
    } else {
      var n := COUNTER_RECORDS + 1;
      assert Register(n) == COUNTER_START;
      assert Expected(n) == TWO_TO_64 - 1;
      assert FullRecord(Expected(n), Register(n));
    }
  }

  function Records(disk: seq<Stored>): seq<Record> {
    if disk == [] then [] else Records(disk[..|disk| - 1]) + [disk[|disk| - 1].record]
  }

  function Stamp(file: FileId, rs: seq<Record>): (r: seq<Stored>)
    ensures |r| == |rs|
  {
    if rs == [] then [] else Stamp(file, rs[..|rs| - 1]) + [Stored(file, rs[|rs| - 1])]
  }

  // ---------------------------------------------------------------- what the thread does, event by event

  /** What one handle_disk_switch finds: the segment, and, should it differ, the disk and segment it reads under the
      lock and whether the new file opens. */
  datatype Sighting = Sighting(segment: nat, pair: FileId, opens: bool)

  /** What the environment shows at one turn of the drain loop: records produced so far, whether the run goes on,
      and, if the loop body runs, what it finds and the record it reads. */
  datatype Tick = Tick(produced: nat, running: bool, look: Sighting, record: Record)

  /** One turn of the outer loop. */
  datatype Round = Round(running: bool, look: Sighting, ticks: seq<Tick>)

  datatype Event = See(look: Sighting) | Take(record: Record)

  /** The loop test by the counter, or by what is really pending. */
  predicate Pending(byCounter: bool, taken: nat, produced: nat) {
    if byCounter then FullRecord(Expected(taken), Register(produced)) else taken < produced
  }

  /** How many records the drain loop takes, after `taken` others. */
  function Used(byCounter: bool, taken: nat, ticks: seq<Tick>): (r: nat)
    ensures r <= |ticks|
    decreases |ticks|
  {
    if ticks == [] || !ticks[0].running || !Pending(byCounter, taken, ticks[0].produced) then 0
    else 1 + Used(byCounter, taken + 1, ticks[1..])
  }

  function DrainEvents(byCounter: bool, taken: nat, ticks: seq<Tick>): seq<Event>
    decreases |ticks|
  {
    if ticks == [] || !ticks[0].running || !Pending(byCounter, taken, ticks[0].produced) then []
    else [See(ticks[0].look), Take(ticks[0].record)] + DrainEvents(byCounter, taken + 1, ticks[1..])
  }

  /** The outer loop (:981-1068). */
  function RunEvents(byCounter: bool, taken: nat, rounds: seq<Round>): seq<Event>
    decreases |rounds|
  {
    if rounds == [] || !rounds[0].running then []
    else
      [See(rounds[0].look)]
      + (DrainEvents(byCounter, taken, rounds[0].ticks)
         + RunEvents(byCounter, taken + Used(byCounter, taken, rounds[0].ticks), rounds[1..]))
  }

  /** The reader without a buffer. `lost` counts records taken while no file is open. */
  datatype Log = Log(segment: nat, file: FileId, isOpen: bool, taken: seq<Record>, disk: seq<Stored>, lost: nat)

  function StartLog(base: string, opens: bool): Log {
    Log(0, FileId(base, 0), opens, [], [], 0)
  }

  function SeeLook(l: Log, look: Sighting): Log {
    if look.segment == l.segment then l
    else l.(segment := look.segment, file := look.pair, isOpen := look.opens)
  }

  function TakeOne(l: Log, r: Record): Log {
    var m := l.(taken := l.taken + [r]);
    if l.isOpen then m.(disk := l.disk + [Stored(l.file, r)]) else m.(lost := l.lost + 1)
  }

  function Apply(l: Log, e: Event): Log {
    match e
    case See(look) => SeeLook(l, look)
    case Take(r) => TakeOne(l, r)
  }

  function Replay(l: Log, events: seq<Event>): Log
    decreases |events|
  {
    if events == [] then l else Replay(Apply(l, events[0]), events[1..])
  }

  lemma {:induction false} ReplayAppend(l: Log, a: seq<Event>, b: seq<Event>)
    ensures Replay(l, a + b) == Replay(Replay(l, a), b)
    decreases |a|
  {
    if a == [] {
      assert a + b == b;
    } else {
      assert (a + b)[0] == a[0] && (a + b)[1..] == a[1..] + b;
      ReplayAppend(Apply(l, a[0]), a[1..], b);
    }
  }

  /** One turn of the drain loop. */
  lemma ReplayTick(l: Log, t: Tick, rest: seq<Event>)
    ensures Replay(l, [See(t.look), Take(t.record)] + rest) == Replay(TakeOne(SeeLook(l, t.look), t.record), rest)
  {
    var events := [See(t.look), Take(t.record)] + rest;
    assert events[1..][1..] == rest && events[1..][0] == Take(t.record);
  }

  // ---------------------------------------------------------------- no record early, none left

  /** The board only ever adds records, no more than the counter holds. */
  predicate Rising(ticks: seq<Tick>, low: nat) {
    ticks == [] || (low <= ticks[0].produced <= COUNTER_RECORDS && Rising(ticks[1..], ticks[0].produced))
  }

  /** The last number of records the drain loop can have seen. */
  function Reached(ticks: seq<Tick>, low: nat): nat {
    if ticks == [] then low else Reached(ticks[1..], ticks[0].produced)
  }

  predicate RoundsRise(rounds: seq<Round>, low: nat) {
    rounds == [] || (Rising(rounds[0].ticks, low) && RoundsRise(rounds[1..], Reached(rounds[0].ticks, low)))
  }

  lemma {:induction false} ReachedIsHigher(ticks: seq<Tick>, low: nat)
    requires Rising(ticks, low)
    ensures low <= Reached(ticks, low)
  {
    if ticks != [] { ReachedIsHigher(ticks[1..], ticks[0].produced); }
  }

  lemma {:induction false} DrainIsExact(taken: nat, ticks: seq<Tick>, low: nat)
    requires taken <= low && Rising(ticks, low)
    ensures Used(true, taken, ticks) == Used(false, taken, ticks)
    ensures DrainEvents(true, taken, ticks) == DrainEvents(false, taken, ticks)
    ensures taken + Used(true, taken, ticks) <= Reached(ticks, low)
    decreases |ticks|
  {
    ReachedIsHigher(ticks, low);
    if ticks != [] {
      CounterIsExact(taken, ticks[0].produced);
      if ticks[0].running && taken < ticks[0].produced {
        DrainIsExact(taken + 1, ticks[1..], ticks[0].produced);
      }
    }
  }

  /** While the counter lasts, the thread does over the whole run what it would do if it knew how many records are
      pending: it takes none before it is produced and ends a drain only when none is left. */
  lemma {:induction false} RunIsExact(taken: nat, rounds: seq<Round>, low: nat)
    requires taken <= low && RoundsRise(rounds, low)
    ensures RunEvents(true, taken, rounds) == RunEvents(false, taken, rounds)
    decreases |rounds|
  {
    if rounds != [] && rounds[0].running {
      DrainIsExact(taken, rounds[0].ticks, low);
      RunIsExact(taken + Used(true, taken, rounds[0].ticks), rounds[1..], Reached(rounds[0].ticks, low));
    }
  }

  /** While the counter lasts, no record is taken before it is produced, and a drain that ends while the run goes on
      leaves none. */
  lemma {:induction false} DrainIsTimely(taken: nat, ticks: seq<Tick>, low: nat)
    requires taken <= low && Rising(ticks, low)
    ensures var used := Used(true, taken, ticks);
      && (forall i :: 0 <= i < used ==> taken + i < ticks[i].produced)
      && (used < |ticks| ==> taken + used <= ticks[used].produced)
      && (used < |ticks| && ticks[used].running ==> taken + used == ticks[used].produced)
    decreases |ticks|
  {
    if ticks != [] {
      CounterIsExact(taken, ticks[0].produced);
      if ticks[0].running && taken < ticks[0].produced {
        var rest := ticks[1..];
        DrainIsTimely(taken + 1, rest, ticks[0].produced);
        assert forall i :: 0 < i < |ticks| ==> ticks[i] == rest[i - 1];
      }
    }
  }

  function TickRecords(ticks: seq<Tick>): (r: seq<Record>)
    ensures |r| == |ticks| && forall i :: 0 <= i < |r| ==> r[i] == ticks[i].record
  {
    if ticks == [] then [] else [ticks[0].record] + TickRecords(ticks[1..])
  }

  /** A drain takes the records of the turns it makes, in order. */
  lemma {:induction false} DrainTakes(l: Log, ticks: seq<Tick>)
    ensures var used := Used(true, |l.taken|, ticks);
      Replay(l, DrainEvents(true, |l.taken|, ticks)).taken == l.taken + TickRecords(ticks[..used])
    decreases |ticks|
  {
    var n := |l.taken|;
    if Used(true, n, ticks) > 0 {
      var m, rest := TakeOne(SeeLook(l, ticks[0].look), ticks[0].record), ticks[1..];
      ReplayTick(l, ticks[0], DrainEvents(true, n + 1, rest));
      DrainTakes(m, rest);
      FirstRecord(l.taken, ticks, Used(true, n + 1, rest));
    }
  }

  lemma FirstRecord(taken: seq<Record>, ticks: seq<Tick>, used: nat)
    requires used < |ticks|
    ensures taken + TickRecords(ticks[..used + 1]) == (taken + [ticks[0].record]) + TickRecords(ticks[1..][..used])
  {
    assert ticks[..used + 1][1..] == ticks[1..][..used];
    Assoc(taken, [ticks[0].record], TickRecords(ticks[1..][..used]));
  }

  // ---------------------------------------------------------------- each record under the latest look

  /** The file open after the looks of some turns: that of the last look that showed another segment. */
  function FileAfter(segment: nat, file: FileId, ticks: seq<Tick>): FileId
    decreases |ticks|
  {
    if ticks == [] then file
    else
      var look := ticks[0].look;
      FileAfter(look.segment, if look.segment == segment then file else look.pair, ticks[1..])
  }

  /** Whether a file is open after the looks of some turns: whether the last new one opened. */
  function OpenAfter(segment: nat, isOpen: bool, ticks: seq<Tick>): bool
    decreases |ticks|
  {
    if ticks == [] then isOpen
    else
      var look := ticks[0].look;
      OpenAfter(look.segment, if look.segment == segment then isOpen else look.opens, ticks[1..])
  }

  /** How many turns find no file open after their look. */
  function Missed(segment: nat, isOpen: bool, ticks: seq<Tick>, used: nat): nat
    requires used <= |ticks|
  {
    if used == 0 then 0
    else Missed(segment, isOpen, ticks, used - 1) + if OpenAfter(segment, isOpen, ticks[..used]) then 0 else 1
  }

  /** What a drain puts on disk while every open succeeds: the record of each turn, in the file reached by the
      looks of the turns up to its own. */
  ghost predicate DrainedTo(l: Log, ticks: seq<Tick>, used: nat, disk: seq<Stored>)
    requires used <= |ticks|
  {
    && |disk| == |l.disk| + used && l.disk <= disk
    && forall i :: 0 <= i < used ==>
         disk[|l.disk| + i] == Stored(FileAfter(l.segment, l.file, ticks[..i + 1]), ticks[i].record)
  }

  /** The drain went through a look before each record: the reader ends on the segment and file of the last look,
      and each record is where the looks up to its own say. */
  ghost predicate Followed(l: Log, ticks: seq<Tick>, used: nat, z: Log)
    requires used <= |ticks|
  {
    && z.segment == (if used == 0 then l.segment else ticks[used - 1].look.segment)
    && z.file == FileAfter(l.segment, l.file, ticks[..used])
    && z.isOpen == OpenAfter(l.segment, l.isOpen, ticks[..used])
    && z.lost == l.lost + Missed(l.segment, l.isOpen, ticks, used)
    && (l.isOpen && (forall i :: 0 <= i < used ==> ticks[i].look.opens) ==>
          z.isOpen && DrainedTo(l, ticks, used, z.disk))
  }

  lemma {:induction false} DrainFollowsLooks(l: Log, ticks: seq<Tick>)
    ensures Followed(l, ticks, Used(true, |l.taken|, ticks), Replay(l, DrainEvents(true, |l.taken|, ticks)))
    decreases |ticks|
  {
    var n := |l.taken|;
    if Used(true, n, ticks) > 0 {
      var m, rest := TakeOne(SeeLook(l, ticks[0].look), ticks[0].record), ticks[1..];
      ReplayTick(l, ticks[0], DrainEvents(true, n + 1, rest));
      DrainFollowsLooks(m, rest);
      FollowedMore(l, m, ticks, Used(true, n + 1, rest), Replay(m, DrainEvents(true, n + 1, rest)));
    }
  }

  lemma {:induction false} MissedMore(segment: nat, isOpen: bool, ticks: seq<Tick>, used: nat)
    requires used < |ticks|
    ensures var look := ticks[0].look;
      var open := if look.segment == segment then isOpen else look.opens;
      Missed(segment, isOpen, ticks, used + 1)
        == (if open then 0 else 1) + Missed(look.segment, open, ticks[1..], used)
  {
    var look, t, rest := ticks[0].look, ticks[..used + 1], ticks[1..];
    var open := if look.segment == segment then isOpen else look.opens;
    assert t[0] == ticks[0] && t[1..] == rest[..used];
    assert OpenAfter(segment, isOpen, t) == OpenAfter(look.segment, open, rest[..used]);
    if used > 0 {
      MissedMore(segment, isOpen, ticks, used - 1);
    } else {
      assert Missed(segment, isOpen, ticks, 0) == 0;
    }
  }

  lemma FollowedMore(l: Log, m: Log, ticks: seq<Tick>, used: nat, z: Log)
    requires used < |ticks| && m == TakeOne(SeeLook(l, ticks[0].look), ticks[0].record)
    requires Followed(m, ticks[1..], used, z)
    ensures Followed(l, ticks, used + 1, z)
  {
    var rest := ticks[1..];
    assert ticks[..used + 1][1..] == rest[..used];
    MissedMore(l.segment, l.isOpen, ticks, used);
    if l.isOpen && forall i :: 0 <= i < used + 1 ==> ticks[i].look.opens {
      forall i | 0 <= i < used ensures rest[i].look.opens { assert rest[i] == ticks[i + 1]; }
      DrainedToMore(l, m, ticks, used, z.disk);
    }
  }

  lemma DrainedToMore(l: Log, m: Log, ticks: seq<Tick>, used: nat, disk: seq<Stored>)
    requires used < |ticks| && l.isOpen && ticks[0].look.opens
    requires m == TakeOne(SeeLook(l, ticks[0].look), ticks[0].record)
    requires DrainedTo(m, ticks[1..], used, disk)
    ensures DrainedTo(l, ticks, used + 1, disk)
  {
    var rest := ticks[1..];
    assert ticks[..1][1..] == [];
    assert m.disk[|l.disk|] == disk[|l.disk|];
    forall i | 0 <= i < used + 1
      ensures disk[|l.disk| + i] == Stored(FileAfter(l.segment, l.file, ticks[..i + 1]), ticks[i].record)
    {
      if i > 0 {
        assert ticks[..i + 1][1..] == rest[..i];
        assert disk[|m.disk| + (i - 1)] == Stored(FileAfter(m.segment, m.file, rest[..i - 1 + 1]), rest[i - 1].record);
      }
    }
  }

  /** The segment shown by the last look of the run: one at the start of each turn of the outer loop, and one
      before each record. */
  function LastShown(segment: nat, taken: nat, rounds: seq<Round>): nat
    decreases |rounds|
  {
    if rounds == [] || !rounds[0].running then segment
    else
      var ticks := rounds[0].ticks;
      var used := Used(true, taken, ticks);
      LastShown(if used > 0 then ticks[used - 1].look.segment else rounds[0].look.segment, taken + used, rounds[1..])
  }

  /** The reader that has reached `l` after `used` turns does with the rest what is done with all. */
  ghost predicate DrainsAlike(start: Log, ticks: seq<Tick>, l: Log, used: nat)
    requires used <= |ticks|
  {
    var n, m := |start.taken|, |l.taken|;
    && Used(true, n, ticks) == used + Used(true, m, ticks[used..])
    && Replay(start, DrainEvents(true, n, ticks)) == Replay(l, DrainEvents(true, m, ticks[used..]))
  }

  lemma DrainTurn(start: Log, ticks: seq<Tick>, l: Log, used: nat)
    requires used < |ticks| && DrainsAlike(start, ticks, l, used)
    requires ticks[used].running && Pending(true, |l.taken|, ticks[used].produced)
    ensures DrainsAlike(start, ticks, TakeOne(SeeLook(l, ticks[used].look), ticks[used].record), used + 1)
  {
    var t, rest := ticks[used], ticks[used..];
    assert rest[0] == t && rest[1..] == ticks[used + 1..];
    ReplayTick(l, t, DrainEvents(true, |l.taken| + 1, rest[1..]));
  }

  /** One turn of the outer loop. */
  lemma RoundReplays(l: Log, rounds: seq<Round>)
    requires rounds != [] && rounds[0].running
    ensures var m := SeeLook(l, rounds[0].look);
      var z := Replay(m, DrainEvents(true, |m.taken|, rounds[0].ticks));
      Replay(l, RunEvents(true, |l.taken|, rounds)) == Replay(z, RunEvents(true, |z.taken|, rounds[1..]))
  {
    var n := |l.taken|;
    var m, drain := SeeLook(l, rounds[0].look), DrainEvents(true, n, rounds[0].ticks);
    var rest := RunEvents(true, n + Used(true, n, rounds[0].ticks), rounds[1..]);
    DrainTakes(m, rounds[0].ticks);
    var all := [See(rounds[0].look)] + (drain + rest);
    assert all[1..] == drain + rest;
    ReplayAppend(m, drain, rest);
  }

  lemma DrainLands(l: Log, ticks: seq<Tick>)
    ensures var used, z := Used(true, |l.taken|, ticks), Replay(l, DrainEvents(true, |l.taken|, ticks));
      && |z.taken| == |l.taken| + used
      && z.segment == if used == 0 then l.segment else ticks[used - 1].look.segment
  {
    DrainTakes(l, ticks);
    DrainFollowsLooks(l, ticks);
  }

  lemma {:induction false} RunEndsOnLastLook(l: Log, rounds: seq<Round>)
    ensures Replay(l, RunEvents(true, |l.taken|, rounds)).segment == LastShown(l.segment, |l.taken|, rounds)
    decreases |rounds|
  {
    if rounds != [] && rounds[0].running {
      var m, ticks := SeeLook(l, rounds[0].look), rounds[0].ticks;
      var z := Replay(m, DrainEvents(true, |m.taken|, ticks));
      RoundReplays(l, rounds);
      DrainLands(m, ticks);
      RunEndsOnLastLook(z, rounds[1..]);
    }
  }

  // ---------------------------------------------------------------- nothing lost

  ghost predicate Sound(l: Log) {
    |l.disk| + l.lost == |l.taken| && (l.lost == 0 ==> Records(l.disk) == l.taken)
  }

  /** Every file that is opened does open. */
  ghost predicate AllOpen(events: seq<Event>) {
    forall k :: 0 <= k < |events| && events[k].See? ==> events[k].look.opens
  }

  lemma TakeIsSound(l: Log, r: Record)
    requires Sound(l)
    ensures Sound(TakeOne(l, r))
  {
    if l.isOpen {
      assert (l.disk + [Stored(l.file, r)])[..|l.disk|] == l.disk;
    }
  }

  /** The records on disk, in the order they were written, are the records taken, in order; when every open
      succeeds none is lost. */
  lemma {:induction false} ReplayIsSound(l: Log, events: seq<Event>)
    requires Sound(l)
    ensures Sound(Replay(l, events))
    ensures l.isOpen && AllOpen(events) ==> Replay(l, events).lost == l.lost
    decreases |events|
  {
    if events != [] {
      var e, rest := events[0], events[1..];
      if e.Take? { TakeIsSound(l, e.record); }
      if AllOpen(events) {
        forall k | 0 <= k < |rest| && rest[k].See? ensures rest[k].look.opens { assert rest[k] == events[k + 1]; }
      }
      ReplayIsSound(Apply(l, e), rest);
    }
  }
}

/** The trigger reader in place (src/data/data_handler.cpp:873-1088): records go through a buffer of 250 into the
    open file, and the file changes on a failover. The buffer never shows on disk. */
module TriggerReader {
  import opened Basics
  import opened Failover
  import opened Names
  import opened TriggerLog

  class TriggerReader {
    const buffer: array<Record>
    var readCounter: nat
    var expected: nat
    var file: FileId
    var isOpen: bool
    var openSegment: nat
    var disk: seq<Stored>
    ghost var log: Log

    /** What the open file still gets. */
    ghost function Waiting(): seq<Stored>
      requires readCounter <= buffer.Length
      reads this, buffer
    {
      if isOpen then Stamp(file, buffer[..readCounter]) else []
    }

    /** The disk and what waits in the buffer are what the reader without a buffer has on disk. */
    ghost predicate Matches()
      reads this, buffer
    {
      && buffer.Length == TRIG_BUFFER_SIZE
      && readCounter <= TRIG_BUFFER_SIZE
      && expected == Expected(|log.taken|)
      && openSegment == log.segment && file == log.file && isOpen == log.isOpen
      && disk + Waiting() == log.disk
    }

    ghost predicate Valid()
      reads this, buffer
    {
      Matches() && readCounter < TRIG_BUFFER_SIZE
    }

    constructor (base: string, opens: bool)
      ensures Valid() && fresh(buffer) && log == StartLog(base, opens)
    {
      buffer := new Record[TRIG_BUFFER_SIZE](_ => Record(0, 0));
      readCounter, expected, openSegment, isOpen := 0, COUNTER_START, 0, opens;
      file, disk, log := FileId(base, 0), [], StartLog(base, opens);
    }

    /** flush_trigger_buffers, and the write of a full buffer (:913-928, :1024-1028). */
    method Flush()
      requires Matches()
      modifies this`readCounter, this`disk
      ensures Valid() && readCounter == 0 && disk == log.disk
      ensures disk == if isOpen then old(disk) + Stamp(file, buffer[..old(readCounter)]) else old(disk)
    {
      if isOpen {
        disk := disk + Stamp(file, buffer[..readCounter]);
      }
      readCounter := 0;
      assert buffer[..0] == [];
    }

    /** handle_disk_switch: flush into the old file, then open the one for the current disk and segment. */
    method HandleDiskSwitch(look: Sighting)
      requires Valid()
      modifies this
      ensures Valid() && log == SeeLook(old(log), look)
      ensures look.segment == old(openSegment) ==> disk == old(disk) && readCounter == old(readCounter)
      ensures look.segment != old(openSegment) ==> readCounter == 0 && disk == log.disk
      ensures buffer[..] == old(buffer[..])
    {
      if look.segment == openSegment {
        return;
      }
      Flush();
      file := look.pair;
      isOpen := look.opens;
      openSegment := look.segment;
      log := SeeLook(log, look);
      assert buffer[..0] == [];
    }

    method TakeRecord(r: Record)
      requires Valid()
      modifies this, buffer
      ensures Valid() && log == TakeOne(old(log), r)
    {
      buffer[readCounter] := r;
      readCounter := readCounter + 1;
      expected := Sub64(expected, 16);
      assert buffer[..readCounter] == old(buffer[..readCounter]) + [r];
      StampSnoc(file, old(buffer[..readCounter]), r);
      Assoc(disk, Stamp(file, old(buffer[..readCounter])), [Stored(file, r)]);
      log := TakeOne(log, r);
      if readCounter >= TRIG_BUFFER_SIZE {
        Flush();
      }
    }

    /** The inner loop (:990-1064), over what the environment shows; `used` records are taken. */
    method Drain(ticks: seq<Tick>) returns (used: nat)
      requires Valid()
      modifies this, buffer
      ensures Valid() && used == Used(true, |old(log).taken|, ticks)
      ensures log == Replay(old(log), DrainEvents(true, |old(log).taken|, ticks))
      ensures Followed(old(log), ticks, used, log)
    {
      used := 0;
      ghost var before := log;
      assert ticks[0..] == ticks;
      while used < |ticks| && ticks[used].running && FullRecord(expected, Register(ticks[used].produced))
        invariant Valid() && used <= |ticks|
        invariant DrainsAlike(before, ticks, log, used)
      {
        DrainTurn(before, ticks, log, used);
        HandleDiskSwitch(ticks[used].look);
        TakeRecord(ticks[used].record);
        used := used + 1;
      }
      DrainFollowsLooks(before, ticks);
    }

    /** The outer loop (:981-1068). */
    method ReadRounds(rounds: seq<Round>)
      requires Valid()
      modifies this, buffer
      ensures Valid() && log == Replay(old(log), RunEvents(true, |old(log).taken|, rounds))
      ensures log.segment == LastShown(old(log).segment, |old(log).taken|, rounds)
    {
      var i := 0;
      ghost var before := log;
      while i < |rounds| && rounds[i].running
        invariant Valid() && i <= |rounds|
        invariant Replay(before, RunEvents(true, |before.taken|, rounds))
               == Replay(log, RunEvents(true, |log.taken|, rounds[i..]))
      {
        ghost var rest := rounds[i..];
        assert rest[0] == rounds[i] && rest[1..] == rounds[i + 1..];
        RoundReplays(log, rest);
        HandleDiskSwitch(rounds[i].look);
        var used := Drain(rounds[i].ticks);
        i := i + 1;
      }
      RunEndsOnLastLook(before, rounds);
    }

    /** The final flush before the file is closed (:1071-1082). */
    method Close()
      requires Valid()
      modifies this
      ensures Valid() && log == old(log) && disk == log.disk
    {
      Flush();
    }
  }

  lemma StampSnoc(file: FileId, rs: seq<Record>, r: Record)
    ensures Stamp(file, rs + [r]) == Stamp(file, rs) + [Stored(file, r)]
  {
    assert (rs + [r])[..|rs|] == rs;
  }

  /** The whole thread: whatever the buffer does in between, after the last flush the disk holds each record in the
      file that was open when it was taken, in order. */
  method TriggerRead(base: string, opens: bool, rounds: seq<Round>) returns (disk: seq<Stored>)
    ensures disk == Replay(StartLog(base, opens), RunEvents(true, 0, rounds)).disk
  {
    var reader := new TriggerReader(base, opens);
    reader.ReadRounds(rounds);
    reader.Close();
    disk := reader.disk;
  }
}

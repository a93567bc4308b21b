/** folly::ProducerConsumerQueue (lib/folly/ProducerConsumerQueue.h): a ring of `size` slots that holds at most
    size - 1 records, first as one thread sees it, then with producer and consumer interleaved at every
    index load, slot access and index store. */
module Ring {
  import opened Basics

  /** The index after `i` (:92-95, :114-117). */
  function Next(i: nat, size: nat): (r: nat)
    requires i < size
    ensures r < size
  {
    if i + 1 == size then 0 else i + 1
  }

  /** The slot `k` places behind `i`, wrapping once. */
  function Slot(i: nat, k: nat, size: nat): (r: nat)
    requires i < size && k <= size
    ensures r < size
  {
    if i + k < size then i + k else i + k - size
  }

  /** Records between two indices: what sizeGuess computes from the two values it loads (:171-175). */
  function Between(read: nat, write: nat, size: nat): (r: nat)
    requires read < size && write < size
    ensures r < size && Slot(read, r, size) == write
  {
    if write < read then write - read + size else write - read
  }

  /** The records in the ring, oldest first. */
  function Contents<T>(records: seq<T>, read: nat, write: nat): (r: seq<T>)
    requires read < |records| && write < |records|
    ensures |r| == Between(read, write, |records|)
    ensures forall k :: 0 <= k < |r| ==> r[k] == records[Slot(read, k, |records|)]
  {
    if read <= write then records[read..write] else records[read..] + records[..write]
  }

  lemma StoreGrows<T>(records: seq<T>, read: nat, write: nat, x: T)
    requires read < |records| && write < |records| && Next(write, |records|) != read
    ensures Contents(records[write := x], read, Next(write, |records|)) == Contents(records, read, write) + [x]
  {
  }

  lemma LoadShrinks<T>(records: seq<T>, read: nat, write: nat)
    requires read < |records| && write < |records| && read != write
    ensures Contents(records, read, write) == [records[read]] + Contents(records, Next(read, |records|), write)
  {
  }

  class ProducerConsumerQueue<T(0)> {
    const size: nat
    const records: array<T>
    var readIndex: nat
    var writeIndex: nat

    ghost predicate Valid()
      reads this
    {
      2 <= size == records.Length && readIndex < size && writeIndex < size
    }

    ghost function Items(): seq<T>
      requires Valid()
      reads this, records
    {
      Contents(records[..], readIndex, writeIndex)
    }

    constructor (n: nat)
      requires n >= 2
      ensures Valid() && fresh(records) && size == n && Items() == []
    {
      size, records := n, new T[n];
      readIndex, writeIndex := 0, 0;
    }

    method Write(x: T) returns (ok: bool)
      requires Valid()
      modifies this`writeIndex, records
      ensures Valid()
      ensures ok <==> |old(Items())| < size - 1
      ensures Items() == if ok then old(Items()) + [x] else old(Items())
    {
      var currentWrite := writeIndex;
      var nextRecord := currentWrite + 1;
      if nextRecord == size {
        nextRecord := 0;
      }
      if nextRecord != readIndex {
        StoreGrows(records[..], readIndex, writeIndex, x);
        records[currentWrite] := x;
        writeIndex := nextRecord;
        assert records[..] == old(records[..])[currentWrite := x];
        return true;
      }
      return false;
    }

    method Read() returns (r: Option<T>)
      requires Valid()
      modifies this`readIndex
      ensures Valid()
      ensures r.Some? <==> old(Items()) != []
      ensures old(Items()) == (if r.Some? then [r.value] else []) + Items()
    {
      var currentRead := readIndex;
      if currentRead == writeIndex {
        return None;
      }
      var nextRecord := currentRead + 1;
      if nextRecord == size {
        nextRecord := 0;
      }
      LoadShrinks(records[..], readIndex, writeIndex);
      r := Some(records[currentRead]);
      readIndex := nextRecord;
    }

    method FrontPtr() returns (r: Option<T>)
      requires Valid()
      ensures r == if Items() == [] then None else Some(Items()[0])
    {
      if readIndex == writeIndex {
        return None;
      }
      return Some(records[readIndex]);
    }

    method PopFront()
      requires Valid() && Items() != []
      modifies this`readIndex
      ensures Valid() && Items() == old(Items())[1..]
    {
      LoadShrinks(records[..], readIndex, writeIndex);
      readIndex := if readIndex + 1 == size then 0 else readIndex + 1;
    }

    method IsEmpty() returns (r: bool)
      requires Valid()
      ensures r <==> Items() == []
    {
      r := readIndex == writeIndex;
    }

    method IsFull() returns (r: bool)
      requires Valid()
      ensures r <==> |Items()| == size - 1
    {
      var nextRecord := writeIndex + 1;
      if nextRecord == size {
        nextRecord := 0;
      }
      r := nextRecord == readIndex;
    }

    method SizeGuess() returns (r: nat)
      requires Valid()
      ensures r == |Items()|
    {
      var ret := writeIndex - readIndex;
      r := if ret < 0 then ret + size else ret;
    }
  }

  // ---------------------------------------------------------------- interleaved

  /** Where the producer is: idle, or after each shared access of write() or sizeGuess(). */
  datatype Producer<T> =
    | Idle
    | Loaded(value: T)
    | Cleared(value: T)
    | Filled(value: T)
    | Guessed(guess: nat)

  /** Where the consumer is: idle, or after each shared access of read() or sizeGuess(). */
  datatype Consumer<T> =
    | Resting
    | Begun
    | Ready
    | Taken(value: T)
    | Estimated(guess: nat)

  /** The shared ring with both program counters. `pushed` and `popped` are the values of the write() and read()
      calls that returned true, in order; `refused` and `missed` count the calls that returned false. */
  datatype Machine<T> = Machine(
    records: seq<T>, readIndex: nat, writeIndex: nat, producer: Producer<T>, consumer: Consumer<T>,
    pushed: seq<T>, popped: seq<T>, refused: nat, missed: nat)
  {
    ghost predicate Indexed() {
      2 <= |records| && readIndex < |records| && writeIndex < |records|
    }

    function Inside(): seq<T>
      requires Indexed()
    {
      Contents(records, readIndex, writeIndex)
    }
  }

  datatype Action<T> =
    | StartWrite(value: T) | LoadRead | FillSlot | StoreWrite
    | StartRead | LoadWrite | TakeSlot | StoreRead
    | ProducerGuess | DropProducerGuess | ConsumerGuess | DropConsumerGuess

  function Init<T>(records: seq<T>): Machine<T> {
    Machine(records, 0, 0, Idle, Resting, [], [], 0, 0)
  }

  ghost predicate Enabled<T>(m: Machine<T>, a: Action<T>) {
    match a
    case StartWrite(_) => m.producer.Idle?
    case LoadRead => m.producer.Loaded?
    case FillSlot => m.producer.Cleared?
    case StoreWrite => m.producer.Filled?
    case StartRead => m.consumer.Resting?
    case LoadWrite => m.consumer.Begun?
    case TakeSlot => m.consumer.Ready?
    case StoreRead => m.consumer.Taken?
    case ProducerGuess => m.producer.Idle?
    case DropProducerGuess => m.producer.Guessed?
    case ConsumerGuess => m.consumer.Resting?
    case DropConsumerGuess => m.consumer.Estimated?
  }

  /** One shared access. Each side reads its own index without interference, so that load is folded into the
      neighbouring step. */
  function Step<T>(m: Machine<T>, a: Action<T>): (r: Machine<T>)
    requires m.Indexed() && Enabled(m, a)
    ensures r.Indexed()
  {
    var size := |m.records|;
    match a
    case StartWrite(v) => m.(producer := Loaded(v))
    case LoadRead =>
      if Next(m.writeIndex, size) != m.readIndex
      then m.(producer := Cleared(m.producer.value))
      else m.(producer := Idle, refused := m.refused + 1)
    case FillSlot =>
      m.(records := m.records[m.writeIndex := m.producer.value], producer := Filled(m.producer.value))
    case StoreWrite =>
      m.(writeIndex := Next(m.writeIndex, size), producer := Idle, pushed := m.pushed + [m.producer.value])
    case StartRead => m.(consumer := Begun)
    case LoadWrite =>
      if m.readIndex == m.writeIndex
      then m.(consumer := Resting, missed := m.missed + 1)
      else m.(consumer := Ready)
    case TakeSlot => m.(consumer := Taken(m.records[m.readIndex]))
    case StoreRead =>
      m.(readIndex := Next(m.readIndex, size), consumer := Resting, popped := m.popped + [m.consumer.value])
    case ProducerGuess => m.(producer := Guessed(Between(m.readIndex, m.writeIndex, size)))
    case DropProducerGuess => m.(producer := Idle)
    case ConsumerGuess => m.(consumer := Estimated(Between(m.readIndex, m.writeIndex, size)))
    case DropConsumerGuess => m.(consumer := Resting)
  }

  /** The slot each side is about to access or has just accessed. */
  function ProducerSlot<T>(m: Machine<T>): Option<nat> {
    if m.producer.Cleared? || m.producer.Filled? then Some(m.writeIndex) else None
  }

  function ConsumerSlot<T>(m: Machine<T>): Option<nat> {
    if m.consumer.Ready? || m.consumer.Taken? then Some(m.readIndex) else None
  }

  /** The ring is a FIFO of capacity size - 1: what was pushed is what was popped, then what is inside. */
  ghost predicate Fifo<T>(m: Machine<T>) {
    && m.Indexed()
    && m.pushed == m.popped + m.Inside()
    && |m.Inside()| <= |m.records| - 1
  }

  /** A side that holds a slot knows it is its own; a guess errs on the safe side. */
  ghost predicate Safe<T>(m: Machine<T>) {
    && Fifo(m)
    && (ProducerSlot(m).Some? ==> |m.Inside()| < |m.records| - 1)
    && (m.producer.Filled? ==> m.records[m.writeIndex] == m.producer.value)
    && (ConsumerSlot(m).Some? ==> |m.Inside()| > 0)
    && (m.consumer.Taken? ==> m.consumer.value == m.Inside()[0])
    && (m.producer.Guessed? ==> m.producer.guess >= |m.Inside()|)
    && (m.consumer.Estimated? ==> m.consumer.guess <= |m.Inside()|)
  }

  lemma FillIsSafe<T>(m: Machine<T>)
    requires Safe(m) && m.producer.Cleared?
    ensures Safe(Step(m, FillSlot)) && Step(m, FillSlot).Inside() == m.Inside()
  {
    var z := Step(m, FillSlot);
    assert Contents(z.records, m.readIndex, m.writeIndex) == Contents(m.records, m.readIndex, m.writeIndex);
  }

  lemma StoreWriteIsSafe<T>(m: Machine<T>)
    requires Safe(m) && m.producer.Filled?
    ensures Safe(Step(m, StoreWrite)) && Step(m, StoreWrite).Inside() == m.Inside() + [m.producer.value]
  {
    StoreGrows(m.records, m.readIndex, m.writeIndex, m.producer.value);
    assert m.records[m.writeIndex := m.producer.value] == m.records;
    Assoc(m.popped, m.Inside(), [m.producer.value]);
  }

  lemma StoreReadIsSafe<T>(m: Machine<T>)
    requires Safe(m) && m.consumer.Taken?
    ensures Safe(Step(m, StoreRead)) && m.Inside() == [m.consumer.value] + Step(m, StoreRead).Inside()
  {
    LoadShrinks(m.records, m.readIndex, m.writeIndex);
    Assoc(m.popped, [m.consumer.value], Step(m, StoreRead).Inside());
  }

  /** A step that neither fills a slot nor stores an index. */
  lemma QuietStepIsSafe<T>(m: Machine<T>, a: Action<T>)
    requires Safe(m) && Enabled(m, a) && !a.FillSlot? && !a.StoreWrite? && !a.StoreRead?
    ensures Safe(Step(m, a)) && Step(m, a).records == m.records
  {
    assert Step(m, a).Inside() == m.Inside();
  }

  lemma StepIsSafe<T>(m: Machine<T>, a: Action<T>)
    requires Safe(m) && Enabled(m, a)
    ensures Safe(Step(m, a))
    ensures |Step(m, a).records| == |m.records|
  {
    match a {
      case FillSlot => FillIsSafe(m);
      case StoreWrite => StoreWriteIsSafe(m);
      case StoreRead => StoreReadIsSafe(m);
      case _ => QuietStepIsSafe(m, a);
    }
  }

  /** A schedule both sides can follow, one shared access at a time. */
  ghost predicate Allowed<T>(m: Machine<T>, run: seq<Action<T>>)
    requires m.Indexed()
    decreases |run|
  {
    run == [] || (Enabled(m, run[0]) && Allowed(Step(m, run[0]), run[1..]))
  }

  function RunFrom<T>(m: Machine<T>, run: seq<Action<T>>): (r: Machine<T>)
    requires m.Indexed() && Allowed(m, run)
    ensures r.Indexed()
    decreases |run|
  {
    if run == [] then m else RunFrom(Step(m, run[0]), run[1..])
  }

  lemma {:induction false} RunIsSafe<T>(m: Machine<T>, run: seq<Action<T>>)
    requires Safe(m) && Allowed(m, run)
    ensures Safe(RunFrom(m, run)) && |RunFrom(m, run).records| == |m.records|
    decreases |run|
  {
    if run != [] {
      StepIsSafe(m, run[0]);
      RunIsSafe(Step(m, run[0]), run[1..]);
    }
  }

  /** Under every interleaving: the n-th successful read returns the n-th successful write, at most size - 1
      records wait, the two sides never hold the same slot, and sizeGuess is at most the true size for the
      consumer and at least the true size for the producer. */
  lemma RingRefinesFifo<T>(records: seq<T>, run: seq<Action<T>>)
    requires |records| >= 2 && Allowed(Init(records), run)
    ensures var m := RunFrom(Init(records), run);
      && |m.popped| <= |m.pushed| <= |m.popped| + |records| - 1
      && (forall k :: 0 <= k < |m.popped| ==> m.popped[k] == m.pushed[k])
      && m.Inside() == m.pushed[|m.popped|..]
      && (ProducerSlot(m).Some? && ConsumerSlot(m).Some? ==> ProducerSlot(m) != ConsumerSlot(m))
      && (m.producer.Guessed? ==> m.producer.guess >= |m.pushed| - |m.popped|)
      && (m.consumer.Estimated? ==> m.consumer.guess <= |m.pushed| - |m.popped|)
  {
    RunIsSafe(Init(records), run);
  }

  /** At the load that decides it, a guess is the number of records inside. */
  lemma GuessesAreExact<T>(m: Machine<T>)
    requires Safe(m)
    ensures m.producer.Idle? ==> Step(m, ProducerGuess).producer == Guessed(|m.pushed| - |m.popped|)
    ensures m.consumer.Resting? ==> Step(m, ConsumerGuess).consumer == Estimated(|m.pushed| - |m.popped|)
  {
  }

  /** write() refuses exactly when size - 1 records are inside at its load of the read index, and read() finds
      nothing exactly when none is at its load of the write index. */
  lemma RefusalsAreExact<T>(m: Machine<T>)
    requires Safe(m)
    ensures m.producer.Loaded? ==>
      (Step(m, LoadRead).refused == m.refused + 1 <==> |m.Inside()| == |m.records| - 1)
    ensures m.consumer.Begun? ==>
      (Step(m, LoadWrite).missed == m.missed + 1 <==> m.Inside() == [])
  {
  }
}

/** The event framer of DataHandler::DataWrite (src/data/data_handler.cpp:433-571), one word at a time,
    with its fixed event buffer, and the list form it refines. */
module Framer {
  import opened Basics
  import opened Readout

  /** One write() of a full chunk, with the event count at that moment. */
  datatype Chunk = Chunk(words: seq<Word>, count: nat)

  /** The locals of DataWrite. `mem` is the whole event buffer, of fixed length; only its first
      `numWords` words are live. `eventCount` is local_event_count, which always equals event_end_count. */
  datatype State = State(
    mem: seq<Word>, numWords: nat, eventBegin: nat, eventWords: nat, eventChunk: nat, eventStart: bool,
    eventCount: nat, startCount: nat, droppedPartial: nat, writes: seq<Chunk>)
  {
    predicate WellFormed() {
      && numWords <= |mem|
      && eventBegin < |mem|
      && eventWords <= |mem|
      && eventChunk < EVENTCHUNK
    }
  }

  function Fresh(mem: seq<Word>): State {
    State(mem, 0, 0, 0, 0, false, 0, 0, 0, [])
  }

  /** Roll the buffer back to the start of the event being built (:487, :498, :505). */
  function Rollback(f: State): State {
    f.(numWords := f.eventBegin, eventStart := false, droppedPartial := f.droppedPartial + 1)
  }

  /** First block after lost words (:482-488). */
  function Resync(f: State): State {
    if f.eventStart then Rollback(f) else f
  }

  function Store(f: State, w: Word): State
    requires f.numWords < |f.mem|
  {
    f.(mem := f.mem[f.numWords := w], numWords := f.numWords + 1)
  }

  function WriteIfFull(f: State): State
    requires f.numWords <= |f.mem|
  {
    if f.eventChunk == EVENTCHUNK then
      f.(writes := f.writes + [Chunk(f.mem[..f.numWords], f.eventCount)],
      eventStart := false, numWords := 0, eventWords := 0, eventChunk := 0)
    else f
  }

  /** A start marker while no event is open (:508-510, :525-526). */
  function BeginEvent(f: State, w: Word): State
    requires f.numWords < |f.mem|
  {
    WriteIfFull(Store(f.(eventBegin := f.numWords, eventStart := true, startCount := f.startCount + 1), w))
  }

  /** An end marker while an event is open (:517-526). */
  function EndEvent(f: State, w: Word): State
    requires f.numWords < |f.mem|
  {
    WriteIfFull(Store(f.(eventStart := false, eventChunk := f.eventChunk + 1,
                         eventCount := f.eventCount + 1, eventWords := f.numWords + 1), w))
  }

  /** The word past the overflow test. */
  function PlaceWord(g: State, w: Word): (r: State)
    requires g.WellFormed() && g.numWords < |g.mem|
    ensures r.WellFormed() && |r.mem| == |g.mem|
  {
    if w == EVENT_START then BeginEvent(if g.eventStart then Rollback(g) else g, w)
    else if !g.eventStart then g
    else if w == EVENT_END then EndEvent(g, w)
    else WriteIfFull(Store(g, w))
  }

  /** One turn of the word loop (:491-549). */
  function TakeWord(f: State, w: Word): (r: State)
    requires f.WellFormed()
    ensures r.WellFormed() && |r.mem| == |f.mem|
  {
    PlaceWord(if f.numWords >= |f.mem| then Rollback(f) else f, w)
  }

  function Step(f: State, x: Item): (r: State)
    requires f.WellFormed()
    ensures r.WellFormed() && |r.mem| == |f.mem|
  {
    if x.Gap? then Resync(f) else TakeWord(f, x.word)
  }

  /** The framer after the stream `s`, from a fresh start with buffer `mem`. */
  function Run(mem: seq<Word>, s: seq<Item>): (r: State)
    requires mem != []
    ensures r.WellFormed() && |r.mem| == |mem|
  {
    if s == [] then Fresh(mem)
    else Step(Run(mem, s[..|s| - 1]), s[|s| - 1])
  }

  /** What the last write before close hands to the file (:554). */
  function Flush(f: State): seq<Word>
    requires f.WellFormed()
  {
    f.mem[..f.eventWords]
  }

  /** Everything written, chunk by chunk, then the final flush. */
  function Joined(writes: seq<Chunk>): seq<Word> {
    if writes == [] then [] else Joined(writes[..|writes| - 1]) + writes[|writes| - 1].words
  }

  function Output(f: State): seq<Word>
    requires f.WellFormed()
  {
    Joined(f.writes) + Flush(f)
  }

  // ---------------------------------------------------------------- the list form

  /** What the framer holds, as spans of the stream: the events of each chunk write, the complete events
      waiting in the buffer, the open event, and the chunk tally. `undone` counts complete events that
      the overflow test took back. */
  datatype Shelf = Shelf(
    groups: seq<seq<Span>>, cur: seq<Span>, open: Option<nat>, tally: nat, dropped: nat, undone: nat)

  function Used(es: seq<Span>): int {
    if es == [] then 0 else Used(es[..|es| - 1]) + es[|es| - 1].Length()
  }

  /** Words held when the stream has reached position `n`. */
  function Held(sh: Shelf, n: nat): int {
    Used(sh.cur) + if sh.open.Some? then n - sh.open.value else 0
  }

  function Overflow(sh: Shelf): Shelf {
    if sh.open.Some? then sh.(open := None, dropped := sh.dropped + 1)
    else if sh.cur != [] then
      sh.(cur := sh.cur[..|sh.cur| - 1], dropped := sh.dropped + 1, undone := sh.undone + 1)
    else sh
  }

  function Abandon(sh: Shelf): Shelf {
    if sh.open.Some? then sh.(open := None, dropped := sh.dropped + 1) else sh
  }

  function Complete(sh: Shelf, e: Span): Shelf {
    var cur := sh.cur + [e];
    if sh.tally + 1 == EVENTCHUNK
    then sh.(groups := sh.groups + [cur], cur := [], open := None, tally := 0)
    else sh.(cur := cur, open := None, tally := sh.tally + 1)
  }

  function Place(g: Shelf, x: Item, n: nat): Shelf {
    if IsStart(x) then Abandon(g).(open := Some(n))
    else if IsEnd(x) && g.open.Some? then Complete(g, Span(g.open.value, n))
    else g
  }

  /** One item, at stream position `n`, with room for `cap` words. */
  function ShelfStep(cap: nat, sh: Shelf, x: Item, n: nat): Shelf {
    if x.Gap? then Abandon(sh)
    else
      Place(if Held(sh, n) >= cap then Overflow(sh) else sh, x, n)
  }

  function Shelve(cap: nat, s: seq<Item>): Shelf {
    if s == [] then Shelf([], [], None, 0, 0, 0)
    else ShelfStep(cap, Shelve(cap, s[..|s| - 1]), s[|s| - 1], |s| - 1)
  }

  /** All events kept, in stream order. */
  function Flatten<T>(groups: seq<seq<T>>): seq<T> {
    if groups == [] then [] else Flatten(groups[..|groups| - 1]) + groups[|groups| - 1]
  }

  function Kept(sh: Shelf): seq<Span> {
    Flatten(sh.groups) + sh.cur
  }
}

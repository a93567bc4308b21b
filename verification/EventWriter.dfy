/** DataWrite as the write thread runs it: in place, on one buffer, block by block. */
module EventWriter {
  import opened Basics
  import opened Readout
  import opened Framer
  import opened FramerFiles
  import opened FramerResults

  /** A block read from the queue; `resync` says that the resync test (:480) was true for it. */
  datatype Block = Block(words: seq<Word>, resync: bool)

  function Items(words: seq<Word>): (r: seq<Item>)
    ensures |r| == |words|
    ensures forall k :: 0 <= k < |words| ==> r[k] == Data(words[k])
  {
    if words == [] then [] else Items(words[..|words| - 1]) + [Data(words[|words| - 1])]
  }

  lemma ItemsSnoc(words: seq<Word>, i: nat)
    requires i < |words|
    ensures Items(words[..i + 1]) == Items(words[..i]) + [Data(words[i])]
  {
    assert words[..i + 1][..i] == words[..i];
  }

  function BlockItems(b: Block): seq<Item> {
    (if b.resync then [Gap] else []) + Items(b.words)
  }

  /** The stream that a sequence of blocks amounts to. */
  function Stream(bs: seq<Block>): seq<Item> {
    if bs == [] then [] else Stream(bs[..|bs| - 1]) + BlockItems(bs[|bs| - 1])
  }

  function ZeroBuffer(n: nat): (r: seq<Word>)
    ensures |r| == n
  {
    seq<Word>(n, _ => 0)
  }

  class EventWriter {
    const buffer: array<Word>
    var eventStart: bool
    var numWords: nat
    var eventBegin: nat
    var eventWords: nat
    var eventChunk: nat
    var eventCount: nat
    var startCount: nat
    var droppedPartial: nat
    var writes: seq<Chunk>
    var files: seq<seq<Word>>
    ghost var stream: seq<Item>

    ghost function View(): State
      reads this, buffer
    {
      State(buffer[..], numWords, eventBegin, eventWords, eventChunk, eventStart,
            eventCount, startCount, droppedPartial, writes)
    }

    /** The fields are what the framer function computes from the stream taken so far. */
    ghost predicate Valid()
      reads this, buffer
    {
      buffer.Length > 0 && View() == Run(ZeroBuffer(buffer.Length), stream) && files == Files(writes)
    }

    constructor (capacity: nat)
      requires capacity > 0
      ensures Valid() && fresh(buffer) && buffer.Length == capacity && stream == []
    {
      buffer := new Word[capacity](_ => 0);
      eventStart, numWords, eventBegin, eventWords, eventChunk := false, 0, 0, 0, 0;
      eventCount, startCount, droppedPartial, writes, files, stream := 0, 0, 0, [], [[]], [];
      new;
      assert buffer[..] == ZeroBuffer(capacity);
    }

    method Resync()
      requires Valid()
      modifies this
      ensures Valid() && stream == old(stream) + [Gap]
    {
      if eventStart {
        numWords := eventBegin;
        eventStart := false;
        droppedPartial := droppedPartial + 1;
      }
      stream := stream + [Gap];
      Snoc(old(stream), Gap);
    }

    method TakeWord(w: Word)
      requires Valid()
      modifies this, buffer
      ensures Valid() && stream == old(stream) + [Data(w)]
    {
      Snoc(stream, Data(w));
      stream := stream + [Data(w)];
      if numWords >= buffer.Length {
        numWords := eventBegin;
        eventStart := false;
        droppedPartial := droppedPartial + 1;
      }
      assert View() == if old(numWords) >= buffer.Length then Rollback(old(View())) else old(View());
      Place(w);
    }

    /** What a marker does before the word is stored; a word outside any event is not kept. */
    method Mark(w: Word) returns (keep: bool)
      requires View().WellFormed() && numWords < buffer.Length
      modifies this`numWords, this`droppedPartial, this`eventBegin, this`eventStart, this`startCount,
               this`eventChunk, this`eventCount, this`eventWords
      ensures numWords < buffer.Length
      ensures PlaceWord(old(View()), w) == if keep then WriteIfFull(Store(View(), w)) else View()
    {
      if w == EVENT_START {
        if eventStart {
          numWords := eventBegin;
          droppedPartial := droppedPartial + 1;
        }
        eventBegin := numWords;
        eventStart := true;
        startCount := startCount + 1;
      } else if !eventStart {
        return false;
      } else if w == EVENT_END {
        eventStart := false;
        eventChunk := eventChunk + 1;
        eventCount := eventCount + 1;
        eventWords := numWords + 1;
      }
      keep := true;
    }

    /** The word, past the overflow test. */
    method Place(w: Word)
      requires View().WellFormed() && numWords < buffer.Length && files == Files(writes)
      modifies this, buffer
      ensures stream == old(stream) && files == Files(writes)
      ensures View() == PlaceWord(old(View()), w)
    {
      var keep := Mark(w);
      if keep {
        Put(w);
        if eventChunk == EVENTCHUNK {
          WriteChunk();
        }
      }
    }

    method Put(w: Word)
      requires numWords < buffer.Length
      modifies this`numWords, buffer
      ensures View() == Store(old(View()), w)
    {
      buffer[numWords] := w;
      numWords := numWords + 1;
      assert buffer[..] == old(buffer[..])[numWords - 1 := w];
    }

    /** The chunk goes to the open file; SwitchWriteFile opens the next one at every 5000 events. */
    method WriteChunk()
      requires numWords <= buffer.Length && files == Files(writes) && eventChunk == EVENTCHUNK
      modifies this
      ensures View() == WriteIfFull(old(View())) && stream == old(stream) && files == Files(writes)
    {
      var chunk := Chunk(buffer[..numWords], eventCount);
      FilesSnoc(writes, chunk);
      writes := writes + [chunk];
      files := files[|files| - 1 := files[|files| - 1] + chunk.words];
      if eventCount % EVENTS_PER_FILE == 0 {
        files := files + [[]];
      }
      eventStart, numWords, eventWords, eventChunk := false, 0, 0, 0;
      assert buffer[..] == old(buffer[..]);
    }

    method TakeBlock(b: Block)
      requires Valid()
      modifies this, buffer
      ensures Valid() && stream == old(stream) + BlockItems(b)
    {
      if b.resync {
        Resync();
      }
      ghost var before := stream;
      assert b.words[..0] == [];
      for i := 0 to |b.words|
        invariant Valid() && stream == before + Items(b.words[..i])
      {
        ItemsSnoc(b.words, i);
        Assoc(before, Items(b.words[..i]), [Data(b.words[i])]);
        TakeWord(b.words[i]);
      }
      assert b.words[..|b.words|] == b.words;
    }

    /** The write of the remaining complete events before the file is closed. */
    method Finish()
      requires Valid()
      modifies this`files
      ensures View() == old(View()) && files == FinalFiles(View())
    {
      files := files[|files| - 1 := files[|files| - 1] + buffer[..eventWords]];
    }
  }

  /** A whole run of the write thread over the blocks it reads. The files together are the framer's output for the
      stream; when every attempt fits that is exactly the complete events of the stream, in order, 5000 to a file. */
  method DataWrite(blocks: seq<Block>, bound: nat) returns (files: seq<seq<Word>>, events: nat)
    requires bound > 0
    ensures var s := Stream(blocks);
      && Concat(files) == Output(Run(ZeroBuffer(EVENTCHUNK * bound), s))
      && files == FinalFiles(Run(ZeroBuffer(EVENTCHUNK * bound), s))
      && (Fits(s, bound) ==>
            Dealt(s, ParseStream(s).found, files)
            && Concat(files) == Cat(s, ParseStream(s).found) && events == |ParseStream(s).found|)
  {
    var writer := new EventWriter(EVENTCHUNK * bound);
    assert blocks[..0] == [];
    for i := 0 to |blocks|
      invariant writer.Valid() && writer.stream == Stream(blocks[..i])
      invariant writer.buffer.Length == EVENTCHUNK * bound && fresh(writer) && fresh(writer.buffer)
    {
      assert blocks[..i + 1][..i] == blocks[..i];
      writer.TakeBlock(blocks[i]);
    }
    assert blocks[..|blocks|] == blocks;
    writer.Finish();
    files, events := writer.files, writer.eventCount;
    FilesHoldOutput(Run(ZeroBuffer(EVENTCHUNK * bound), Stream(blocks)));
    if Fits(Stream(blocks), bound) {
      FittingStreamIsLossless(ZeroBuffer(EVENTCHUNK * bound), Stream(blocks), bound);
      FilesPartitionEvents(ZeroBuffer(EVENTCHUNK * bound), Stream(blocks), bound);
    }
  }

  // ---------------------------------------------------------------- how the stream is cut into blocks

  lemma {:induction false} ItemsAppend(u: seq<Word>, v: seq<Word>)
    ensures Items(u + v) == Items(u) + Items(v)
  {
  }

  lemma StreamSnoc(a: seq<Block>, b: Block)
    ensures Stream(a + [b]) == Stream(a) + BlockItems(b)
  {
    assert (a + [b])[..|a|] == a;
  }

  lemma {:induction false} StreamAppend(a: seq<Block>, b: seq<Block>)
    ensures Stream(a + b) == Stream(a) + Stream(b)
  {
    if b == [] {
      assert a + b == a;
    } else {
      var c, x := b[..|b| - 1], b[|b| - 1];
      StreamAppend(a, c);
      assert c + [x] == b && (a + c) + [x] == a + b;
      StreamSnoc(a + c, x);
      StreamSnoc(c, x);
      Assoc(Stream(a), Stream(c), BlockItems(x));
    }
  }

  /** Cutting a block in two, anywhere in the run, changes nothing the framer does. */
  lemma BlockCutIsInvisible(mem: seq<Word>, a: seq<Block>, u: seq<Word>, v: seq<Word>, resync: bool, b: seq<Block>)
    requires mem != []
    ensures Run(mem, Stream(a + [Block(u + v, resync)] + b))
         == Run(mem, Stream(a + [Block(u, resync), Block(v, false)] + b))
  {
    var one, two := [Block(u + v, resync)], [Block(u, resync), Block(v, false)];
    ItemsAppend(u, v);
    StreamOfOne(Block(u + v, resync));
    StreamOfOne(Block(u, resync));
    assert two[..1] == [Block(u, resync)];
    Assoc(if resync then [Gap] else [], Items(u), Items(v));
    assert Stream(one) == Stream(two);
    StreamAppend(a + one, b);
    StreamAppend(a, one);
    StreamAppend(a + two, b);
    StreamAppend(a, two);
  }

  lemma StreamOfOne(b: Block)
    ensures Stream([b]) == BlockItems(b)
  {
    assert [b][..0] == [];
  }
}

/** HardwareDevice::LoadFirmware (src/hardware/hardware_device.cpp:12-98): a bitfile is packed two bytes to a word
    into packets of 501 words, and a tail packet closes it. */
module Firmware {
  import opened Basics

  type Byte = b: int | 0 <= b < 0x100
  type Word32 = w: int | 0 <= w < 0x1_0000_0000

  const SEND_SIZE: nat := 40000
  const NSEND: nat := 500
  const BLOCK: nat := 2 * NSEND
  const CHIP_C: nat := 7

  /** Assignment of a sum to a uint32_t. */
  function Wrap32(n: nat): Word32 {
    n % 0x1_0000_0000
  }

  function Pair(low: Byte, high: nat): Word32 {
    Wrap32(low + high * 0x1_0000)
  }

  function Low(w: Word32): Byte {
    w % 0x100
  }

  function High(w: Word32): Byte {
    (w / 0x1_0000) % 0x100
  }

  /** The first word of every packet (:39, :66): module, a chip number no command uses, and the first byte. */
  function Header(slot: nat, b: Byte): Word32 {
    Wrap32(slot * 0x800 + CHIP_C * 0x100 + b * 0x1_0000)
  }

  lemma PairUnpacks(low: Byte, high: nat)
    ensures Low(Pair(low, high)) == low
    ensures high < 0x100 ==> High(Pair(low, high)) == high
  {
    var n := low + high * 0x1_0000;
    var h := high - 0x1_0000 * (n / 0x1_0000_0000);
    assert Pair(low, high) == 0x1_0000 * h + low;
    DivModIs(Pair(low, high), 0x100, 0x100 * h, low);
    DivModIs(Pair(low, high), 0x1_0000, h, low);
    if high < 0x100 {
      assert h == high;
    }
  }

  /** The slot number leaves bits 16 to 23 of the header alone; every real slot, below 32, does. */
  predicate HeaderFits(slot: nat) {
    (slot / 32) % 0x100 == 0
  }

  /** The header keeps its byte exactly when the slot number fits. */
  lemma HeaderKeepsByteIff(slot: nat, b: Byte)
    ensures High(Header(slot, b)) == b <==> HeaderFits(slot)
  {
    var n := slot * 0x800 + CHIP_C * 0x100 + b * 0x1_0000;
    var m, r := slot / 32, slot % 32;
    var h := m + b - 0x1_0000 * (n / 0x1_0000_0000);
    assert Header(slot, b) == 0x1_0000 * h + (r * 0x800 + 0x700);
    DivModIs(Header(slot, b), 0x1_0000, h, r * 0x800 + 0x700);
    var q, s := m / 0x100, m % 0x100;
    assert h == 0x100 * (q - 0x100 * (n / 0x1_0000_0000)) + (s + b);
    if s + b < 0x100 {
      DivModIs(h, 0x100, q - 0x100 * (n / 0x1_0000_0000), s + b);
    } else {
      DivModIs(h, 0x100, q - 0x100 * (n / 0x1_0000_0000) + 1, s + b - 0x100);
    }
  }

  function LowerHalf(w: Word32): nat {
    w % 0x1_0000
  }

  function UpperHalf(w: Word32): nat {
    w / 0x1_0000
  }

  /** The fields of a 16-bit command: slot, chip, and command byte 0, which loads configuration. */
  predicate Addresses(half: nat, slot: nat, chip: nat) {
    half / 0x800 == slot && half / 0x100 % 8 == chip && half % 0x100 == 0
  }

  lemma CommandFields(slot: nat, chip: nat)
    requires chip < 8
    ensures Addresses(slot * 0x800 + chip * 0x100, slot, chip)
  {
    var half := slot * 0x800 + chip * 0x100;
    DivModIs(half, 0x800, slot, chip * 0x100);
    DivModIs(half, 0x100, slot * 8 + chip, 0);
    DivModIs(slot * 8 + chip, 8, slot, chip);
  }

  /** The header addresses the module, with the chip number no command uses. */
  lemma HeaderFields(slot: nat, b: Byte)
    requires slot < 32
    ensures Addresses(LowerHalf(Header(slot, b)), slot, CHIP_C)
  {
    CommandFields(slot, CHIP_C);
    DivModIs(Header(slot, b), 0x1_0000, b, slot * 0x800 + CHIP_C * 0x100);
  }

  lemma PairHalves(low: Byte, high: nat)
    requires high < 0x1_0000
    ensures UpperHalf(Pair(low, high)) == high
  {
    DivModIs(Pair(low, high), 0x1_0000, high, low);
  }

  /** The `k`-th byte a packet carries: the header's, then two to a word. */
  function ByteAt(p: seq<Word32>, k: nat): Byte
    requires (k + 1) / 2 < |p|
  {
    if k % 2 == 1 then Low(p[(k + 1) / 2]) else High(p[k / 2])
  }

  /** The first `n` bytes of a packet. */
  function PacketBytes(p: seq<Word32>, n: nat): (r: seq<Byte>)
    requires n / 2 < |p|
    ensures |r| == n
    ensures forall k :: 0 <= k < n ==> r[k] == ByteAt(p, k)
  {
    seq<Byte>(n, k requires 0 <= k < n => ByteAt(p, k))
  }

  /** The file's bytes in the last packet. */
  function Rest(packets: seq<seq<Word32>>, length: nat): int {
    length - BLOCK * (|packets| - 1)
  }

  /** There are as many packets as the file length asks for, and the last one is long enough. */
  predicate Sized(packets: seq<seq<Word32>>, length: nat) {
    && packets != []
    && 0 <= Rest(packets, length) < BLOCK
    && (forall i :: 0 <= i < |packets| - 1 ==> |packets[i]| == NSEND + 1)
    && Rest(packets, length) / 2 < |packets[|packets| - 1]|
  }

  /** Word `j` of a packet of `n` words. */
  function PackedWord(c: seq<Byte>, n: nat, closing: nat, j: nat): Word32
    requires 0 < j <= n && |c| == 2 * n
  {
    Pair(c[2 * j - 1], if j == n then closing else c[2 * j])
  }

  ghost predicate Packed(p: seq<Word32>, c: seq<Byte>, n: nat, closing: nat) {
    |p| == n + 1 && |c| == 2 * n && forall j :: 0 < j <= n ==> p[j] == PackedWord(c, n, closing, j)
  }

  lemma PackedCarries(p: seq<Word32>, c: seq<Byte>, n: nat, closing: nat)
    requires n > 0 && Packed(p, c, n, closing) && High(p[0]) == c[0]
    ensures forall k :: 0 <= k < 2 * n ==> ByteAt(p, k) == c[k]
  {
    forall k | 0 < k < 2 * n ensures ByteAt(p, k) == c[k] {
      PackedByte(p, c, n, closing, (k + 1) / 2);
      assert k == 2 * ((k + 1) / 2) || k == 2 * ((k + 1) / 2) - 1;
    }
  }

  lemma PackedByte(p: seq<Word32>, c: seq<Byte>, n: nat, closing: nat, j: nat)
    requires Packed(p, c, n, closing) && 0 < j <= n
    ensures ByteAt(p, 2 * j - 1) == c[2 * j - 1]
    ensures j < n ==> ByteAt(p, 2 * j) == c[2 * j]
  {
    var low, high := c[2 * j - 1], if j == n then closing else c[2 * j];
    var w := p[j];
    assert w == Pair(low, high);
    PairUnpacks(low, high);
    Halves(j);
  }

  lemma Halves(j: nat)
    ensures (2 * j) / 2 == j && (2 * j) % 2 == 0
    ensures j > 0 ==> (2 * j - 1 + 1) / 2 == j && (2 * j - 1) % 2 == 1
  {
  }

  /** What a receiver that knows the file length takes out of the packets: 1000 bytes from each but the last,
      and the rest of the file from the last. */
  function Decode(packets: seq<seq<Word32>>, length: nat): seq<Byte>
    requires Sized(packets, length)
  {
    Blocks(packets[..|packets| - 1]) + PacketBytes(packets[|packets| - 1], Rest(packets, length))
  }

  function Blocks(packets: seq<seq<Word32>>): (r: seq<Byte>)
    requires forall i :: 0 <= i < |packets| ==> |packets[i]| == NSEND + 1
    ensures |r| == BLOCK * |packets|
  {
    if packets == [] then []
    else Blocks(packets[..|packets| - 1]) + PacketBytes(packets[|packets| - 1], BLOCK)
  }

  /** The buffers the device object lends; they keep whatever an earlier load left in them. */
  class PcieBuffers {
    const carray: array<Byte>
    const bufSend: array<Word32>

    ghost predicate Valid()
      reads this
    {
      carray.Length == SEND_SIZE && bufSend.Length == SEND_SIZE
    }

    constructor ()
      ensures Valid() && fresh(carray) && fresh(bufSend)
    {
      carray, bufSend := new Byte[SEND_SIZE](_ => 0), new Word32[SEND_SIZE](_ => 0);
    }

    /** Words 1 to `n`: two bytes each, `closing` in the upper half of the last (:45-53, :76-84). */
    method FillWords(n: nat, closing: nat)
      requires Valid() && 0 < n && 2 * n < SEND_SIZE
      modifies bufSend
      ensures bufSend[0] == old(bufSend[0])
      ensures Packed(bufSend[..n + 1], carray[..2 * n], n, closing)
    {
      for ij := 0 to n
        invariant bufSend[0] == old(bufSend[0])
        invariant forall j :: 0 < j <= ij ==> bufSend[j] == PackedWord(carray[..2 * n], n, closing, j)
      {
        var high := if ij == n - 1 then closing else carray[2 * ij + 2];
        assert Pair(carray[2 * ij + 1], high) == PackedWord(carray[..2 * n], n, closing, ij + 1);
        bufSend[ij + 1] := Pair(carray[2 * ij + 1], high);
      }
    }

    /** The header and `n` words, as sent; they carry the first `count` bytes of carray when the header fits. */
    method Packet(slot: nat, n: nat, closing: nat, count: nat) returns (p: seq<Word32>)
      requires Valid() && 0 < n && 2 * n < SEND_SIZE && count <= 2 * n
      modifies bufSend
      ensures |p| == n + 1 && p[0] == Header(slot, carray[0]) && p[n] == Pair(carray[2 * n - 1], closing)
      ensures HeaderFits(slot) ==> PacketBytes(p, count) == carray[..count]
    {
      bufSend[0] := Header(slot, carray[0]);
      FillWords(n, closing);
      p := bufSend[..n + 1];
      HeaderKeepsByteIff(slot, carray[0]);
      if HeaderFits(slot) {
        PackedCarries(p, carray[..2 * n], n, closing);
      }
      assert carray[..2 * n][..count] == carray[..count];
    }

    /** The closing packet for the `count` bytes left over (:64-94). */
    method Tail(slot: nat, chip: nat, count: nat) returns (p: seq<Word32>)
      requires Valid() && count < BLOCK
      modifies bufSend
      ensures |p| >= 2 && count / 2 < |p| && p[0] == Header(slot, carray[0])
      ensures HeaderFits(slot) ==> PacketBytes(p, count) == carray[..count]
      ensures count > 1 ==> count <= 2 * (|p| - 1) - 2 && p[|p| - 1] == Pair(Low(p[|p| - 1]), Command(slot, chip))
      ensures |p| == if count > 1 then count / 2 + 3 else 2
    {
      if count > 1 {
        var ik := if (count - 1) % 2 == 0 then (count - 1) / 2 else (count - 1) / 2 + 1;
        ik := ik + 2;
        p := Packet(slot, ik, Command(slot, chip), count);
        PairUnpacks(carray[2 * ik - 1], Command(slot, chip));
      } else {
        bufSend[0] := Header(slot, carray[0]);
        HeaderKeepsByteIff(slot, carray[0]);
        p := bufSend[..2];
      }
    }
  }

  /** The command in the upper half of the closing word (:79). */
  function Command(slot: nat, chip: nat): nat {
    slot * 0x800 + chip * 0x100
  }

  lemma BlocksSnoc(packets: seq<seq<Word32>>, p: seq<Word32>)
    requires FullPackets(packets) && |p| == NSEND + 1
    ensures FullPackets(packets + [p])
    ensures Blocks(packets + [p]) == Blocks(packets) + PacketBytes(p, BLOCK)
  {
    assert (packets + [p])[..|packets|] == packets;
  }

  lemma DecodeSnoc(packets: seq<seq<Word32>>, p: seq<Word32>, count: nat, length: nat)
    requires FullPackets(packets)
    requires count < BLOCK && count / 2 < |p| && length == BLOCK * |packets| + count
    ensures Sized(packets + [p], length) && Rest(packets + [p], length) == count
    ensures Decode(packets + [p], length) == Blocks(packets) + PacketBytes(p, count)
  {
    var all := packets + [p];
    LastOf(packets, p);
    assert Rest(all, length) == count;
    assert Sized(all, length);
  }

  lemma LastOf(packets: seq<seq<Word32>>, p: seq<Word32>)
    ensures var all := packets + [p];
      all[..|all| - 1] == packets && all[|all| - 1] == p && forall i :: 0 <= i < |packets| ==> all[i] == packets[i]
  {
  }

  ghost predicate FullPackets(packets: seq<seq<Word32>>) {
    forall i :: 0 <= i < |packets| ==> |packets[i]| == NSEND + 1
  }

  /** A whole packet: addressed to the module, and no command in its last word. */
  ghost predicate Framed(slot: nat, p: seq<Word32>) {
    && |p| == NSEND + 1
    && UpperHalf(p[NSEND]) == 0
    && (slot < 32 ==> Addresses(LowerHalf(p[0]), slot, CHIP_C))
  }

  /** The whole packets so far carry the file's first bytes when the header fits, and the first of them starts
      with the header of the file's first byte. */
  ghost predicate Carries(slot: nat, packets: seq<seq<Word32>>, file: seq<Byte>) {
    && FullPackets(packets)
    && |file| == BLOCK * |packets|
    && (HeaderFits(slot) ==> Blocks(packets) == file)
    && (packets != [] ==> packets[0][0] == Header(slot, file[0]))
  }

  ghost predicate AllFramed(slot: nat, packets: seq<seq<Word32>>) {
    forall i :: 0 <= i < |packets| ==> Framed(slot, packets[i])
  }

  lemma CarriesMore(slot: nat, packets: seq<seq<Word32>>, sent: seq<Byte>, p: seq<Word32>, c: seq<Byte>)
    requires Carries(slot, packets, sent) && |p| == NSEND + 1 && |c| == BLOCK
    requires p[0] == Header(slot, c[0]) && (HeaderFits(slot) ==> PacketBytes(p, BLOCK) == c)
    ensures Carries(slot, packets + [p], sent + c)
  {
    BlocksSnoc(packets, p);
    assert packets != [] ==> (packets + [p])[0] == packets[0] && (sent + c)[0] == sent[0];
    assert packets == [] ==> (packets + [p])[0] == p && sent + c == c;
  }

  /** Send a full block (:37-61). */
  method SendBlock(buffers: PcieBuffers, slot: nat, packets: seq<seq<Word32>>, ghost sent: seq<Byte>,
                   ghost whole: seq<Byte>)
    returns (more: seq<seq<Word32>>)
    requires buffers.Valid() && Carries(slot, packets, sent) && whole == sent + buffers.carray[..BLOCK]
    requires AllFramed(slot, packets)
    modifies buffers.bufSend
    ensures Carries(slot, more, whole) && AllFramed(slot, more)
  {
    var p := buffers.Packet(slot, NSEND, 0, BLOCK);
    PairHalves(buffers.carray[BLOCK - 1], 0);
    if slot < 32 { HeaderFields(slot, buffers.carray[0]); }
    CarriesMore(slot, packets, sent, p, buffers.carray[..BLOCK]);
    more := packets + [p];
  }

  lemma OneMoreByte(sent: seq<Byte>, c: seq<Byte>, file: seq<Byte>, i: nat)
    requires i < |file| && sent + c == file[..i]
    ensures sent + (c + [file[i]]) == file[..i + 1]
  {
  }

  /** One byte of the file goes to carray (:34-36). */
  method StoreByte(buffers: PcieBuffers, count: nat, b: Byte) returns (next: nat)
    requires buffers.Valid() && count < BLOCK
    modifies buffers.carray
    ensures next == count + 1 && buffers.carray[..next] == old(buffers.carray[..count]) + [b]
  {
    buffers.carray[count] := b;
    next := count + 1;
  }

  /** One turn of the reading loop (:32-62). */
  method TakeByte(buffers: PcieBuffers, slot: nat, packets: seq<seq<Word32>>, count: nat, ghost sent: seq<Byte>,
                  file: seq<Byte>, i: nat)
    returns (more: seq<seq<Word32>>, next: nat, ghost sentNow: seq<Byte>)
    requires buffers.Valid() && count < BLOCK && i < |file|
    requires Carries(slot, packets, sent) && sent + buffers.carray[..count] == file[..i]
    requires AllFramed(slot, packets)
    modifies buffers.carray, buffers.bufSend
    ensures next < BLOCK && Carries(slot, more, sentNow) && sentNow + buffers.carray[..next] == file[..i + 1]
    ensures AllFramed(slot, more)
  {
    OneMoreByte(sent, buffers.carray[..count], file, i);
    next := StoreByte(buffers, count, file[i]);
    more, sentNow := packets, sent;
    if next % BLOCK == 0 {
      assert next == BLOCK;
      sentNow := file[..i + 1];
      more := SendBlock(buffers, slot, packets, sent, sentNow);
      next := 0;
      assert buffers.carray[..0] == [];
    }
  }

  /** The reading loop: whole blocks are sent, the rest of the file is left in carray. */
  method SendBlocks(buffers: PcieBuffers, slot: nat, file: seq<Byte>)
    returns (packets: seq<seq<Word32>>, count: nat, ghost sent: seq<Byte>)
    requires buffers.Valid()
    modifies buffers.carray, buffers.bufSend
    ensures count < BLOCK && Carries(slot, packets, sent) && file == sent + buffers.carray[..count]
    ensures AllFramed(slot, packets)
  {
    packets, count, sent := [], 0, [];
    for i := 0 to |file|
      invariant count < BLOCK && Carries(slot, packets, sent) && AllFramed(slot, packets)
      invariant sent + buffers.carray[..count] == file[..i]
    {
      packets, count, sent := TakeByte(buffers, slot, packets, count, sent, file, i);
    }
    assert file[..|file|] == file;
  }

  lemma {:induction false} BlocksStart(packets: seq<seq<Word32>>)
    requires FullPackets(packets) && packets != []
    ensures Blocks(packets)[0] == High(packets[0][0])
  {
    var n := |packets| - 1;
    if n > 0 { BlocksStart(packets[..n]); }
    assert PacketBytes(packets[n], BLOCK)[0] == ByteAt(packets[n], 0);
  }

  /** What arrives is the file exactly when the header fits, unless there is nothing to send. */
  lemma ArrivesIff(slot: nat, blocks: seq<seq<Word32>>, tail: seq<Word32>, sent: seq<Byte>, rest: seq<Byte>)
    requires Carries(slot, blocks, sent) && |rest| < BLOCK
    requires |tail| >= 2 && |rest| / 2 < |tail|
    requires rest != [] ==> tail[0] == Header(slot, rest[0])
    requires HeaderFits(slot) ==> PacketBytes(tail, |rest|) == rest
    ensures var file := sent + rest;
      && Sized(blocks + [tail], |file|) && Rest(blocks + [tail], |file|) == |rest|
      && (Decode(blocks + [tail], |file|) == file <==> file == [] || HeaderFits(slot))
  {
    DecodeSnoc(blocks, tail, |rest|, |sent + rest|);
    var d := Blocks(blocks) + PacketBytes(tail, |rest|);
    if blocks != [] {
      HeaderKeepsByteIff(slot, sent[0]);
      BlocksStart(blocks);
      assert d[0] == High(blocks[0][0]);
    } else if rest != [] {
      HeaderKeepsByteIff(slot, rest[0]);
      assert d[0] == ByteAt(tail, 0);
    }
  }

  /** The tail packet: addressed like the others; with bytes left over, its length is known and the closing command
      stands behind all of them. */
  ghost predicate Closed(slot: nat, chip: nat, tail: seq<Word32>, count: nat) {
    && |tail| == (if count > 1 then count / 2 + 3 else 2)
    && (slot < 32 ==> Addresses(LowerHalf(tail[0]), slot, CHIP_C))
    && (count > 1 ==> count <= 2 * (|tail| - 1) - 2
                      && tail[|tail| - 1] == Pair(Low(tail[|tail| - 1]), Command(slot, chip)))
    && (count > 1 && slot < 32 && chip < 8 ==> Addresses(UpperHalf(tail[|tail| - 1]), slot, chip))
  }

  lemma TailIsClosed(slot: nat, chip: nat, tail: seq<Word32>, count: nat, b: Byte)
    requires |tail| == (if count > 1 then count / 2 + 3 else 2) && tail[0] == Header(slot, b)
    requires count > 1 ==> count <= 2 * (|tail| - 1) - 2
                           && tail[|tail| - 1] == Pair(Low(tail[|tail| - 1]), Command(slot, chip))
    ensures Closed(slot, chip, tail, count)
  {
    if slot < 32 {
      HeaderFields(slot, b);
      if chip < 8 {
        CommandFields(slot, chip);
        PairHalves(Low(tail[|tail| - 1]), Command(slot, chip));
      }
    }
  }

  /** LoadFirmware. For every bitfile, whatever the buffers held before: a receiver gets back the file's bytes in
      order if and only if the slot number fits the header (or there is nothing to send); every packet is addressed to
      the module; and only the last packet ends in a command, the closing one, behind all bytes. */
  method LoadFirmware(buffers: PcieBuffers, slot: nat, chip: nat, file: seq<Byte>) returns (packets: seq<seq<Word32>>)
    requires buffers.Valid()
    modifies buffers.carray, buffers.bufSend
    ensures Sized(packets, |file|)
    ensures Decode(packets, |file|) == file <==> file == [] || HeaderFits(slot)
    ensures slot < 32 ==> Decode(packets, |file|) == file
    ensures AllFramed(slot, packets[..|packets| - 1])
    ensures Closed(slot, chip, packets[|packets| - 1], Rest(packets, |file|))
  {
    var blocks, count, sent := SendBlocks(buffers, slot, file);
    var tail := buffers.Tail(slot, chip, count);
    ArrivesIff(slot, blocks, tail, sent, buffers.carray[..count]);
    TailIsClosed(slot, chip, tail, count, buffers.carray[0]);
    packets := blocks + [tail];
    assert packets[..|packets| - 1] == blocks;
  }
}

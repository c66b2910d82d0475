/** Reading a scalar from the pieces a received transfer lies in. */
module Decoding {
  import opened Bits
  import opened Pool
  import opened Reception
  import opened Contents
  import opened Canard
  import opened Scalars
  import opened Transmission

  const HEAD_BITS := 48           // in the head
  const BLOCK_BITS := 224         // in a buffer block

  /** The payload a transfer's pointers describe. */
  ghost function PayloadOf(mem: seq<Block>, t: RxTransfer, blocks: seq<nat>): (p: seq<bv8>)
    reads t
    ensures |p| == t.length
  {
    Gathered(mem, t.head, blocks, t.tail, t.length)
  }

  /** The transfer's pointers are intact: its block list is `blocks`, and with head and tail it covers the payload. */
  ghost predicate Intact(mem: seq<Block>, t: RxTransfer, blocks: seq<nat>)
    reads t
  {
    Linked(mem, t.middle, blocks) && AreBuffers(mem, blocks) && WellScattered(t.head, |blocks|, t.tail, t.length)
  }

  /** `amount` bits of a, from bit `i` on, are those of b from bit `j` on. */
  predicate SameBits(a: seq<bv8>, i: nat, b: seq<bv8>, j: nat, amount: nat) {
    && i + amount <= 8 * |a| && j + amount <= 8 * |b|
    && forall k: nat {:trigger BitAt(a, k)} | i <= k < i + amount :: BitAt(a, k) == BitAt(b, k - i + j)
  }

  /** Two stretches of bits are equal if the bytes they lie in are. */
  lemma SegmentBits(segment: seq<bv8>, payload: seq<bv8>, p: nat, from: nat, amount: nat)
    requires from + amount <= 8 * |segment| && 8 * p + from + amount <= 8 * |payload|
    requires forall i | 0 <= i < |segment| && p + i < |payload| :: segment[i] == payload[p + i]
    ensures SameBits(segment, from, payload, 8 * p + from, amount)
  {
    hide BitOf;
    forall k: nat | from <= k < from + amount ensures BitAt(segment, k) == BitAt(payload, k - from + (8 * p + from)) {
      assert (8 * p + k) / 8 == p + k / 8 && (8 * p + k) % 8 == k % 8;
    }
  }

  /** Copies a stretch of one piece behind what was copied so far. */
  method CopyPiece(piece: seq<bv8>, ghost p: nat, from: nat, amount: nat, output: array<bv8>, done: nat,
                   ghost payload: seq<bv8>, ghost start: nat, ghost before: seq<bv8>)
    requires amount > 0 && from + amount <= 8 * |piece| && done + amount <= 8 * output.Length
    requires 8 * p + from == start + done && start + done + amount <= 8 * |payload|
    requires forall i | 0 <= i < |piece| && p + i < |payload| :: piece[i] == payload[p + i]
    requires BitsCopied(payload, start, done, before, output[..], 0)
    modifies output
    ensures BitsCopied(payload, start, done + amount, before, output[..], 0)
  {
    hide BitsCopied, SameBits;
    ghost var now := output[..];
    CopyBitArray(piece, from, amount, output, done);
    SegmentBits(piece, payload, p, from, amount);
    SameCopy(piece, from, payload, start + done, amount, now, output[..], done);
    CopiesCompose(payload, start, done, amount, before, now, output[..], 0);
  }

  lemma SameCopy(a: seq<bv8>, from: nat, b: seq<bv8>, from': nat, amount: nat, before: seq<bv8>, after: seq<bv8>,
                 to: nat)
    requires BitsCopied(a, from, amount, before, after, to) && SameBits(a, from, b, from', amount)
    ensures BitsCopied(b, from', amount, before, after, to)
  {
    hide BitAt;
    forall k: nat | k < 8 * |after|
      ensures BitAt(after, k) == if to <= k < to + amount then BitAt(b, from' + (k - to)) else BitAt(before, k)
    {
      if to <= k < to + amount {
        assert BitAt(a, from + (k - to)) == BitAt(b, from + (k - to) - from + from');
      }
    }
  }

  // ---------------------------------------------------------------------------------------------
  // The pieces

  lemma HeadBytes(mem: seq<Block>, t: RxTransfer, blocks: seq<nat>)
    requires Intact(mem, t, blocks) && (blocks != [] || t.tail.Some?)
    ensures |t.head| == HEAD_SIZE <= t.length
    ensures forall i | 0 <= i < HEAD_SIZE :: t.head[i] == PayloadOf(mem, t, blocks)[i]
  {
  }

  lemma BlockBytes(mem: seq<Block>, t: RxTransfer, blocks: seq<nat>, j: nat)
    requires Intact(mem, t, blocks) && j < |blocks|
    ensures blocks[j] < |mem| && mem[blocks[j]].BufferBlock? && |mem[blocks[j]].data| == BLOCK_SIZE
    ensures mem[blocks[j]].next == At(blocks, j + 1)
    ensures forall i | 0 <= i < BLOCK_SIZE && HEAD_SIZE + BLOCK_SIZE * j + i < t.length ::
              mem[blocks[j]].data[i] == PayloadOf(mem, t, blocks)[HEAD_SIZE + BLOCK_SIZE * j + i]
  {
    forall i | 0 <= i < BLOCK_SIZE && HEAD_SIZE + BLOCK_SIZE * j + i < t.length
      ensures mem[blocks[j]].data[i] == PayloadOf(mem, t, blocks)[HEAD_SIZE + BLOCK_SIZE * j + i]
    {
      PositionInBlocks(j, i);
    }
  }

  lemma TailBytes(mem: seq<Block>, t: RxTransfer, blocks: seq<nat>)
    requires Intact(mem, t, blocks) && t.tail.Some?
    ensures t.length == HEAD_SIZE + BLOCK_SIZE * |blocks| + |t.tail.value|
    ensures forall i | 0 <= i < |t.tail.value| ::
              t.tail.value[i] == PayloadOf(mem, t, blocks)[HEAD_SIZE + BLOCK_SIZE * |blocks| + i]
  {
  }

  lemma SingleBytes(mem: seq<Block>, t: RxTransfer, blocks: seq<nat>)
    requires Intact(mem, t, blocks) && blocks == [] && t.tail.None?
    ensures t.length <= |t.head|
    ensures forall i | 0 <= i < t.length :: t.head[i] == PayloadOf(mem, t, blocks)[i]
  {
  }

  lemma FirstBlock(mem: seq<Block>, t: RxTransfer, blocks: seq<nat>)
    requires Intact(mem, t, blocks)
    ensures t.middle == At(blocks, 0) && (t.middle != NULL <==> blocks != [])
    ensures t.tail.None? && blocks != [] ==> t.length <= HEAD_SIZE + BLOCK_SIZE * |blocks|
  {
  }

  /** The bits of a multi-frame transfer: from the head, then block by block, then from the last frame. */
  method ReadPieces(mem: seq<Block>, t: RxTransfer, bitOffset: nat, bitLength: nat, output: array<bv8>,
                    ghost blocks: seq<nat>)
    requires Intact(mem, t, blocks) && (blocks != [] || t.tail.Some?)
    requires 1 <= bitLength <= 64 && bitOffset + bitLength <= 8 * t.length && output.Length == 8
    modifies output
    ensures BitsCopied(PayloadOf(mem, t, blocks), bitOffset, bitLength, old(output[..]), output[..], 0)
  {
    hide BitsCopied, Intact, PayloadOf;
    ghost var payload, before := PayloadOf(mem, t, blocks), output[..];
    CopyNothing(payload, bitOffset, before, 0);
    HeadBytes(mem, t, blocks);
    FirstBlock(mem, t, blocks);
    var inputOffset: nat, outputOffset: nat, remaining: nat := bitOffset, 0, bitLength;
    if inputOffset < HEAD_BITS {
      var amount := if remaining < HEAD_BITS - inputOffset then remaining else HEAD_BITS - inputOffset;
      CopyPiece(t.head, 0, inputOffset, amount, output, 0, payload, bitOffset, before);
      inputOffset, outputOffset, remaining := inputOffset + amount, outputOffset + amount, remaining - amount;
    }
    var remainingBits, blockOffset, block := 8 * t.length - HEAD_BITS, HEAD_BITS, t.middle;
    ghost var j := 0;
    while block != NULL && remaining > 0
      invariant j <= |blocks| && block == At(blocks, j)
      invariant inputOffset == bitOffset + outputOffset && outputOffset + remaining == bitLength
      invariant remainingBits + blockOffset == 8 * t.length && remainingBits >= 0
      invariant remaining > 0 ==> inputOffset >= blockOffset && blockOffset == HEAD_BITS + BLOCK_BITS * j
      invariant BitsCopied(payload, bitOffset, outputOffset, before, output[..], 0)
      decreases |blocks| - j
    {
      assert remainingBits > 0;
      BlockBytes(mem, t, blocks, j);
      var blockEnd := blockOffset + if BLOCK_BITS < remainingBits then BLOCK_BITS else remainingBits;
      if blockEnd > inputOffset {
        var amount := if remaining < blockEnd - inputOffset then remaining else blockEnd - inputOffset;
        assert inputOffset >= blockOffset;
        CopyPiece(mem[block].data, HEAD_SIZE + BLOCK_SIZE * j, inputOffset - blockOffset, amount, output, outputOffset,
                  payload, bitOffset, before);
        inputOffset, outputOffset, remaining := inputOffset + amount, outputOffset + amount, remaining - amount;
      }
      assert blockEnd > blockOffset;
      remainingBits := remainingBits - (blockEnd - blockOffset);
      blockOffset := blockEnd;
      block := mem[block].next;
      j := j + 1;
    }
    assert remaining <= remainingBits;
    if t.tail.Some? && remaining > 0 {
      TailBytes(mem, t, blocks);
      assert inputOffset >= blockOffset;
      CopyPiece(t.tail.value, HEAD_SIZE + BLOCK_SIZE * |blocks|, inputOffset - blockOffset, remaining, output,
                outputOffset,
                payload, bitOffset, before);
      inputOffset, outputOffset, remaining := inputOffset + remaining, outputOffset + remaining, 0;
    }
    assert inputOffset <= 8 * t.length && outputOffset <= 64 && remaining == 0;
    assert payload == PayloadOf(mem, t, blocks);
  }

  /** Copies up to `bitLength` bits of the payload, from bit `bitOffset` on, to the beginning of the output. */
  method DescatterTransferPayload(mem: seq<Block>, t: RxTransfer, bitOffset: nat, bitLength: nat, output: array<bv8>,
                                  ghost blocks: seq<nat>) returns (read: nat)
    requires Intact(mem, t, blocks) && 1 <= bitLength <= 64 && output.Length == 8
    modifies output
    ensures read == if bitOffset >= 8 * t.length then 0
                    else if bitOffset + bitLength > 8 * t.length then 8 * t.length - bitOffset else bitLength
    ensures if read == 0 then output[..] == old(output[..])
            else BitsCopied(PayloadOf(mem, t, blocks), bitOffset, read, old(output[..]), output[..], 0)
  {
    hide BitsCopied, Intact, PayloadOf;
    if bitOffset >= 8 * t.length {
      return 0;
    }
    read := bitLength;
    if bitOffset + bitLength > 8 * t.length {
      read := 8 * t.length - bitOffset;
    }
    FirstBlock(mem, t, blocks);
    if t.middle != NULL || t.tail.Some? {
      ReadPieces(mem, t, bitOffset, read, output, blocks);
    } else {
      SingleBytes(mem, t, blocks);
      ghost var payload := PayloadOf(mem, t, blocks);
      CopyNothing(payload, bitOffset, output[..], 0);
      CopyPiece(t.head, 0, bitOffset, read, output, 0, payload, bitOffset, output[..]);
      assert payload == PayloadOf(mem, t, blocks);
    }
  }

  /** What the storage holds after the bits were read, on any host. */
  method Interpret(storage: array<bv8>, bitLength: nat, signed: bool, bigEndian: bool) returns (value: bv64)
    requires storage.Length == 8 && 1 <= bitLength <= 64 && OnlyFirst(storage[..], bitLength)
    modifies storage
    ensures value == Decoded(old(storage[..]), bitLength, signed)
  {
    hide BitOf, ByteRight, OnlyFirst, SignSet, SignedWithin, Widened, Assemble, ZeroFrom, Extended;
    ghost var b, s := storage[..], Shifted(storage[..], bitLength);
    if bitLength % 8 != 0 {
      storage[bitLength / 8] := ByteRight(storage[bitLength / 8], 8 - bitLength % 8);
    }
    assert storage[..] == s;
    ShiftedZero(b, bitLength);
    var size := StdBytes(bitLength);
    if bigEndian {
      SwapByteOrder(storage, size);
    }
    var bytes := LoadValue(storage, size, bigEndian);
    forall k: nat | k < 8 ensures bytes[k] == s[k] {
      if k >= size {
        ZeroByte(s, bitLength, k);
      }
    }
    assert bytes == s;
    if signed {
      TwoStepExtension(s, bitLength);
      bytes := Widened(SignedWithin(bytes, bitLength), size);
    } else {
      Unsigned(s, bitLength);
    }
    DecodedIs(b, bitLength, signed);
    value := Assemble(bytes);
  }

  lemma Unsigned(s: seq<bv8>, n: nat)
    requires |s| == 8 && 1 <= n <= 64
    ensures Extended(s, n, false) == s
  {
  }

  /** The value is that of the first `read` bits from the offset on, as a scalar of n bits. */
  ghost predicate ReadsAs(payload: seq<bv8>, offset: nat, read: nat, n: nat, signed: bool, value: bv64)
    requires 1 <= n <= 64
  {
    exists b :: Read(payload, offset, read, b) && value == Decoded(b, n, signed)
  }

  lemma ReadsBack(v: bv64, n: nat, signed: bool, before: seq<bv8>, payload: seq<bv8>, offset: nat, value: bv64)
    requires 1 <= n <= 64 && Representable(v, n, signed) && offset + n <= 8 * |before|
    requires BitsCopied(Encoded(v, n), 0, n, before, payload, offset) && ReadsAs(payload, offset, n, n, signed, value)
    ensures value == v
  {
    hide BitsCopied, Representable, Decoded;
    var b :| Read(payload, offset, n, b) && value == Decoded(b, n, signed);
    ScalarRoundTrip(v, n, signed, before, payload, offset, b);
  }

  /** Reads a scalar of 1 to 64 bits, 2 to 64 if it is signed. At the end of the payload fewer bits are read. */
  method DecodeScalar(mem: seq<Block>, t: RxTransfer, bitOffset: nat, bitLength: nat, signed: bool, bigEndian: bool,
                      ghost blocks: seq<nat>) returns (result: int, value: bv64)
    requires Intact(mem, t, blocks)
    ensures bitLength < 1 || bitLength > 64 || (bitLength == 1 && signed) ==> result == -2
    ensures 1 <= bitLength <= 64 && !(bitLength == 1 && signed) ==>
              && result == (if bitOffset >= 8 * t.length then 0
                            else if bitOffset + bitLength > 8 * t.length then 8 * t.length - bitOffset else bitLength)
              && (result > 0 ==> ReadsAs(PayloadOf(mem, t, blocks), bitOffset, result, bitLength, signed, value))
  {
    hide BitsCopied, Intact, PayloadOf, OnlyFirst, Decoded;
    value := 0;
    if bitLength < 1 || bitLength > 64 {
      return -INVALID_ARGUMENT, 0;
    }
    if bitLength == 1 && signed {
      return -INVALID_ARGUMENT, 0;
    }
    var storage := new bv8[8](_ => 0);
    ghost var payload := PayloadOf(mem, t, blocks);
    assert storage[..] == [0, 0, 0, 0, 0, 0, 0, 0];
    var read := DescatterTransferPayload(mem, t, bitOffset, bitLength, storage, blocks);
    if read <= 0 {
      return 0, 0;
    }
    ghost var b := storage[..];
    assert Read(payload, bitOffset, read, b);
    ReadOnlyFirst(payload, bitOffset, read, b);
    OnlyFewer(b, read, bitLength);
    value := Interpret(storage, bitLength, signed, bigEndian);
    result := read;
    assert payload == PayloadOf(mem, t, blocks);
  }

  /** What one side encodes, the other decodes, whatever the byte orders of the two hosts and however the payload lies
      scattered where it arrives. */
  method EncodeThenDecode(destination: array<bv8>, bitOffset: nat, bitLength: nat, signed: bool, v: bv64,
                          senderBigEndian: bool,
                          mem: seq<Block>, t: RxTransfer, receiverBigEndian: bool, ghost blocks: seq<nat>)
    returns (result: int, value: bv64)
    requires 1 <= bitLength <= 64 && !(bitLength == 1 && signed) && bitOffset + bitLength <= 8 * destination.Length
    requires Representable(v, bitLength, signed) && Intact(mem, t, blocks)
    modifies destination
    ensures PayloadOf(mem, t, blocks) == destination[..] ==> result == bitLength && value == v
  {
    hide BitsCopied, Intact, Representable, ReadsAs, PayloadOf;
    ghost var before := destination[..];
    EncodeScalar(destination, bitOffset, bitLength, v, senderBigEndian);
    result, value := DecodeScalar(mem, t, bitOffset, bitLength, signed, receiverBigEndian, blocks);
    ghost var payload := PayloadOf(mem, t, blocks);
    if payload == destination[..] {
      ReadsBack(v, bitLength, signed, before, payload, bitOffset, value);
    }
  }

  lemma OnlyFewer(b: seq<bv8>, m: nat, n: nat)
    requires OnlyFirst(b, m) && m <= n
    ensures OnlyFirst(b, n)
  {
  }

  /** The transfer an application is handed can be read: its pointers are intact. */
  lemma HandedOver(ins: CanardInstance, t: RxTransfer)
    requires ins.Consistent() && ins.lent == t.middle
    requires WellScattered(t.head, |List(ins.lists, InTransfer)|, t.tail, t.length)
    ensures Intact(ins.arena[..], t, List(ins.lists, InTransfer))
  {
    hide Inv, WellScattered;
    Keys(ins.H(), ins.lists);
    Elements(ins.H(), ins.lists, InTransfer);
    LinkedList(ins.H(), ins.lists, InTransfer);
  }

  lemma LinkedList(h: Heap, l: Lists, k: Key)
    requires Inv(h, l) && k in l.at
    ensures Linked(h.mem, Head(h, k), l.at[k])
  {
  }
}

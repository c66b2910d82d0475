/** Scalars at any bit offset of a payload: how they are encoded, and how they are read back from scattered storage. */
module Scalars {
  import opened Bits
  import Crc = TransferCrc

  // ---------------------------------------------------------------------------------------------
  // Values as bytes and bits

  /** A 64-bit value from its bytes, least significant first. */
  function Assemble(b: seq<bv8>): bv64
    requires |b| == 8
  {
    Join(b[0], b[1], b[2], b[3], b[4], b[5], b[6], b[7])
  }

  /** The bit of weight 2^j. */
  predicate ValueBit(v: bv64, j: nat)
    requires j < 64
  {
    BitOf(Crc.ByteOf(v, j / 8), 7 - j % 8)
  }

  lemma AssembledByte(b: seq<bv8>, k: nat)
    requires |b| == 8 && k < 8
    ensures Crc.ByteOf(Assemble(b), k) == b[k]
  {
    JoinedBytes(b[0], b[1], b[2], b[3], b[4], b[5], b[6], b[7]);
  }

  function Join(a: bv8, b: bv8, c: bv8, d: bv8, e: bv8, f: bv8, g: bv8, h: bv8): bv64 {
    (a as bv64) | ((b as bv64) << 8) | ((c as bv64) << 16) | ((d as bv64) << 24)
    | ((e as bv64) << 32) | ((f as bv64) << 40) | ((g as bv64) << 48) | ((h as bv64) << 56)
  }

  lemma JoinedBytes(a: bv8, b: bv8, c: bv8, d: bv8, e: bv8, f: bv8, g: bv8, h: bv8)
    ensures var v := Join(a, b, c, d, e, f, g, h);
            && Crc.ByteOf(v, 0) == a && Crc.ByteOf(v, 1) == b && Crc.ByteOf(v, 2) == c && Crc.ByteOf(v, 3) == d
            && Crc.ByteOf(v, 4) == e && Crc.ByteOf(v, 5) == f && Crc.ByteOf(v, 6) == g && Crc.ByteOf(v, 7) == h
  {
  }

  lemma JoinBytes(v: bv64)
    ensures Join(Crc.ByteOf(v, 0), Crc.ByteOf(v, 1), Crc.ByteOf(v, 2), Crc.ByteOf(v, 3),
                 Crc.ByteOf(v, 4), Crc.ByteOf(v, 5), Crc.ByteOf(v, 6), Crc.ByteOf(v, 7)) == v
  {
  }

  lemma AssembleBytes(v: bv64)
    ensures Assemble(Crc.SignatureBytes(v)) == v
  {
    hide Crc.ByteOf, Join;
    JoinBytes(v);
  }

  /** Values with the same bits are equal. */
  lemma SameValue(a: bv64, b: bv64)
    requires forall j: nat | j < 64 :: ValueBit(a, j) == ValueBit(b, j)
    ensures a == b
  {
    hide BitOf, Crc.ByteOf, Assemble;
    forall k: nat | k < 8 ensures Crc.ByteOf(a, k) == Crc.ByteOf(b, k) {
      forall i: nat | i < 8 ensures BitOf(Crc.ByteOf(a, k), i) == BitOf(Crc.ByteOf(b, k), i) {
        assert ValueBit(a, 8 * k + (7 - i)) == ValueBit(b, 8 * k + (7 - i));
      }
      BytesEqualByBits(Crc.ByteOf(a, k), Crc.ByteOf(b, k));
    }
    AssembleBytes(a);
    AssembleBytes(b);
    assert Crc.SignatureBytes(a) == Crc.SignatureBytes(b);
  }

  /** Bytes of the standard type a scalar of n bits is kept in. */
  function StdBytes(n: nat): (b: nat)
    requires 1 <= n <= 64
    ensures n <= 8 * b && b <= 8
  {
    if n <= 8 then 1 else if n <= 16 then 2 else if n <= 32 then 4 else 8
  }

  /** The value fits n bits: all higher bits are zero, or repeat the sign bit. */
  ghost predicate Representable(v: bv64, n: nat, signed: bool)
    requires 1 <= n <= 64
  {
    forall j: nat {:trigger ValueBit(v, j)} | n <= j < 64 :: ValueBit(v, j) == (signed && ValueBit(v, n - 1))
  }

  // ---------------------------------------------------------------------------------------------
  // Byte shifts

  function ByteLeft(x: bv8, s: nat): bv8
    requires s < 8
  {
    LowByte(ShiftLeft(x as bv16, s))
  }

  function ByteRight(x: bv8, s: nat): bv8
    requires s < 8
  {
    LowByte(ShiftRight(x as bv16, s))
  }

  lemma ByteLeftBit(x: bv8, s: nat, j: nat)
    requires s < 8 && j < 8
    ensures BitOf(ByteLeft(x, s), j) == (j + s < 8 && BitOf(x, j + s))
  {
    hide Weight, BitOf, ShiftLeft, ShiftRight, LowByte;
    BitIsWeight(ByteLeft(x, s), j);
    LowByteWeight(ShiftLeft(x as bv16, s), 7 - j);
    ShiftLeftWeight(x as bv16, s, 7 - j);
    if j + s < 8 {
      BitIsWeight(x, j + s);
    }
  }

  lemma ByteRightBit(x: bv8, s: nat, j: nat)
    requires s < 8 && j < 8
    ensures BitOf(ByteRight(x, s), j) == (s <= j && BitOf(x, j - s))
  {
    hide Weight, BitOf, ShiftLeft, ShiftRight, LowByte;
    BitIsWeight(ByteRight(x, s), j);
    LowByteWeight(ShiftRight(x as bv16, s), 7 - j);
    ShiftRightWeight(x as bv16, s, 7 - j);
    if s <= j {
      BitIsWeight(x, j - s);
    }
    ByteWeight(x, 7 - j + s);
  }

  // ---------------------------------------------------------------------------------------------
  // Encoding

  /** Bytes least significant first; the bits of an incomplete last byte move to its most significant end. */
  function Encoded(v: bv64, n: nat): (b: seq<bv8>)
    requires 1 <= n <= 64
    ensures |b| == 8
  {
    var b := seq(8, k requires 0 <= k < 8 => if k < StdBytes(n) then Crc.ByteOf(v, k) else 0);
    if n % 8 == 0 then b else b[n / 8 := ByteLeft(b[n / 8], 8 - n % 8)]
  }

  /** Bit k of the encoding: whole bytes as they are, of the last byte the lowest bits. */
  function SourceBit(n: nat, k: nat): (j: nat)
    requires k < n <= 64
    ensures j < n
  {
    if k / 8 == n / 8 then 8 * (k / 8) + (n % 8 - 1 - k % 8) else 8 * (k / 8) + (7 - k % 8)
  }

  lemma EncodedBit(v: bv64, n: nat, k: nat)
    requires 1 <= n <= 64 && k < n
    ensures BitAt(Encoded(v, n), k) == ValueBit(v, SourceBit(n, k))
    ensures BitAt(Encoded(v, n), k) ==
            BitOf(Crc.SignatureBytes(v)[k / 8], if k / 8 == n / 8 then 8 - n % 8 + k % 8 else k % 8)
  {
    hide BitOf, Crc.ByteOf, ByteLeft, Encoded, SourceBit;
    EncodedByte(v, n, k);
    if k / 8 == n / 8 {
      ByteLeftBit(Crc.ByteOf(v, n / 8), 8 - n % 8, k % 8);
      LastBits(n, k);
    } else {
      FullBits(n, k);
    }
  }

  lemma EncodedByte(v: bv64, n: nat, k: nat)
    requires 1 <= n <= 64 && k < n
    ensures Encoded(v, n)[k / 8] ==
            if k / 8 == n / 8 then ByteLeft(Crc.ByteOf(v, n / 8), 8 - n % 8) else Crc.ByteOf(v, k / 8)
  {
    hide Crc.ByteOf, ByteLeft;
  }

  lemma FullBits(n: nat, k: nat)
    requires k < n <= 64 && k / 8 != n / 8
    ensures SourceBit(n, k) / 8 == k / 8 && SourceBit(n, k) % 8 == 7 - k % 8
  {
  }

  lemma LastBits(n: nat, k: nat)
    requires k < n <= 64 && k / 8 == n / 8
    ensures SourceBit(n, k) / 8 == n / 8 && SourceBit(n, k) % 8 == n % 8 - 1 - k % 8
  {
  }

  // ---------------------------------------------------------------------------------------------
  // Decoding

  /** The bytes read, with an incomplete last byte moved back. */
  function Shifted(b: seq<bv8>, n: nat): (s: seq<bv8>)
    requires |b| == 8 && 1 <= n <= 64
    ensures |s| == 8
  {
    if n % 8 == 0 then b else b[n / 8 := ByteRight(b[n / 8], 8 - n % 8)]
  }

  /** The ones from bit n on, within byte k. */
  function OnesFrom(n: nat, k: nat): bv8 {
    if 8 * k >= n then 0xFF else if 8 * k + 8 <= n then 0 else ByteLeft(0xFF, n - 8 * k)
  }

  /** The sign bit of an n-bit number, in its bytes. */
  predicate SignSet(s: seq<bv8>, n: nat)
    requires |s| == 8 && 1 <= n <= 64
  {
    BitOf(s[(n - 1) / 8], 7 - (n - 1) % 8)
  }

  function Extended(s: seq<bv8>, n: nat, signed: bool): (e: seq<bv8>)
    requires |s| == 8 && 1 <= n <= 64
    ensures |e| == 8
  {
    if signed && SignSet(s, n) then seq(8, k requires 0 <= k < 8 => s[k] | OnesFrom(n, k)) else s
  }

  /** The value of the n bits at the beginning of b; the others must be zero. */
  function Decoded(b: seq<bv8>, n: nat, signed: bool): bv64
    requires |b| == 8 && 1 <= n <= 64
  {
    Assemble(Extended(Shifted(b, n), n, signed))
  }

  /** The first n bits are data, and all others zero. */
  predicate OnlyFirst(b: seq<bv8>, n: nat) {
    |b| == 8 && forall k: nat {:trigger BitAt(b, k)} | n <= k < 64 :: !BitAt(b, k)
  }

  /** Where the value's bit j is in the encoding. */
  function TargetBit(n: nat, j: nat): (k: nat)
    requires j < n <= 64
    ensures k < n && SourceBit(n, k) == j
  {
    var k := if j / 8 == n / 8 then 8 * (j / 8) + (n % 8 - 1 - j % 8) else 8 * (j / 8) + (7 - j % 8);
    assert k / 8 == j / 8;
    k
  }

  lemma ShiftedBit(b: seq<bv8>, n: nat, j: nat)
    requires OnlyFirst(b, n) && 1 <= n <= 64 && j < 64
    ensures BitOf(Shifted(b, n)[j / 8], 7 - j % 8) == (j < n && BitAt(b, TargetBit(n, j)))
  {
    hide BitOf, ByteRight;
    if j / 8 == n / 8 && n % 8 != 0 {
      ByteRightBit(b[n / 8], 8 - n % 8, 7 - j % 8);
      if j < n {
        assert TargetBit(n, j) / 8 == n / 8 && TargetBit(n, j) % 8 == n % 8 - 1 - j % 8;
      }
    } else if j < n {
      assert TargetBit(n, j) / 8 == j / 8 && TargetBit(n, j) % 8 == 7 - j % 8;
    } else {
      var k := 8 * (j / 8) + (7 - j % 8);
      assert k / 8 == j / 8 && k % 8 == 7 - j % 8 && k >= n;
      assert !BitAt(b, k);
    }
  }

  lemma OnesBit(n: nat, k: nat, i: nat)
    requires k < 8 && i < 8
    ensures BitOf(OnesFrom(n, k), 7 - i) == (n <= 8 * k + i)
  {
    hide ByteLeft;
    AllOnes(7 - i);
    if 8 * k < n < 8 * k + 8 {
      ByteLeftBit(0xFF, n - 8 * k, 7 - i);
      if 7 - i + (n - 8 * k) < 8 {
        AllOnes(7 - i + (n - 8 * k));
      }
    }
  }

  lemma AllOnes(j: nat)
    requires j < 8
    ensures BitOf(0xFF, j) && !BitOf(0, j)
  {
  }

  predicate Masked(b: bv8, m: bv8) {
    b & m != 0
  }

  lemma OrBit(a: bv8, b: bv8, j: nat)
    requires j < 8
    ensures BitOf(a | b, j) == (BitOf(a, j) || BitOf(b, j))
  {
    hide *;
    BitIsMasked(a | b, j);
    BitIsMasked(a, j);
    BitIsMasked(b, j);
    OrMask(a, b, Mask(j));
  }

  lemma BitIsMasked(b: bv8, j: nat)
    requires j < 8
    ensures BitOf(b, j) == Masked(b, Mask(j))
  {
    hide Mask;
  }

  lemma OrMask(a: bv8, b: bv8, m: bv8)
    ensures Masked(a | b, m) == (Masked(a, m) || Masked(b, m))
  {
  }

  lemma ExtendedBit(s: seq<bv8>, n: nat, signed: bool, j: nat)
    requires |s| == 8 && 1 <= n <= 64 && j < 64
    ensures BitOf(Extended(s, n, signed)[j / 8], 7 - j % 8) ==
            (BitOf(s[j / 8], 7 - j % 8) || (signed && SignSet(s, n) && n <= j))
  {
    hide BitOf, OnesFrom, SignSet;
    if signed && SignSet(s, n) {
      OrBit(s[j / 8], OnesFrom(n, j / 8), 7 - j % 8);
      OnesBit(n, j / 8, j % 8);
    }
  }

  /** Bit j of the decoded value: taken from the payload below n, and zero or the sign from n on. */
  lemma DecodedBit(b: seq<bv8>, n: nat, signed: bool, j: nat)
    requires |b| == 8 && OnlyFirst(b, n) && 1 <= n <= 64 && j < 64
    ensures ValueBit(Decoded(b, n, signed), j) ==
            if j < n then BitAt(b, TargetBit(n, j)) else signed && BitAt(b, TargetBit(n, n - 1))
  {
    hide *;
    var s := Shifted(b, n);
    ValueBitIs(s, n, signed, j);
    ExtendedBit(s, n, signed, j);
    ShiftedBit(b, n, j);
    ShiftedBit(b, n, n - 1);
    SignIs(s, n);
    DecodedIs(b, n, signed);
  }

  lemma DecodedIs(b: seq<bv8>, n: nat, signed: bool)
    requires |b| == 8 && 1 <= n <= 64
    ensures Decoded(b, n, signed) == Assemble(Extended(Shifted(b, n), n, signed))
  {
  }

  lemma SignIs(s: seq<bv8>, n: nat)
    requires |s| == 8 && 1 <= n <= 64
    ensures SignSet(s, n) == BitOf(s[(n - 1) / 8], 7 - (n - 1) % 8)
  {
  }

  lemma ValueBitIs(s: seq<bv8>, n: nat, signed: bool, j: nat)
    requires |s| == 8 && 1 <= n <= 64 && j < 64
    ensures ValueBit(Assemble(Extended(s, n, signed)), j) == BitOf(Extended(s, n, signed)[j / 8], 7 - j % 8)
  {
    hide BitOf, Crc.ByteOf, Assemble, Extended;
    AssembledByte(Extended(s, n, signed), j / 8);
  }

  /** The storage into which n bits of a payload are read. */
  ghost predicate Read(payload: seq<bv8>, offset: nat, n: nat, b: seq<bv8>) {
    |b| == 8 && n <= 64 && BitsCopied(payload, offset, n, [0, 0, 0, 0, 0, 0, 0, 0], b, 0)
  }

  lemma ReadOnlyFirst(payload: seq<bv8>, offset: nat, n: nat, b: seq<bv8>)
    requires Read(payload, offset, n, b)
    ensures OnlyFirst(b, n) && forall k: nat | k < n :: BitAt(b, k) == BitAt(payload, offset + k)
  {
    hide BitOf;
    var zeros: seq<bv8> := [0, 0, 0, 0, 0, 0, 0, 0];
    forall k: nat | n <= k < 64 ensures !BitAt(b, k) {
      assert BitAt(b, k) == BitAt(zeros, k);
      AllOnes(k % 8);
    }
    forall k: nat | k < n ensures BitAt(b, k) == BitAt(payload, offset + k) {
      assert BitAt(b, k) == BitAt(payload, offset + (k - 0));
    }
  }

  /** Whatever is encoded into a payload at any bit offset is read back, if it fits the bit length. */
  lemma ScalarRoundTrip(v: bv64, n: nat, signed: bool, before: seq<bv8>, payload: seq<bv8>, offset: nat, b: seq<bv8>)
    requires |b| == 8 && 1 <= n <= 64 && Representable(v, n, signed) && offset + n <= 8 * |before|
    requires BitsCopied(Encoded(v, n), 0, n, before, payload, offset) && Read(payload, offset, n, b)
    ensures Decoded(b, n, signed) == v
  {
    hide BitOf, Decoded, Encoded, ValueBit, TargetBit, SourceBit, Read, OnlyFirst, BitAt;
    ReadOnlyFirst(payload, offset, n, b);
    forall j: nat | j < 64 ensures ValueBit(Decoded(b, n, signed), j) == ValueBit(v, j) {
      DecodedBit(b, n, signed, j);
      var i := if j < n then j else n - 1;
      var k := TargetBit(n, i);
      EncodedBit(v, n, k);
      assert BitAt(payload, offset + k) == BitAt(Encoded(v, n), 0 + (offset + k - offset));
      TargetIsSource(n, i);
      assert j >= n ==> ValueBit(v, j) == (signed && ValueBit(v, n - 1));
    }
    SameValue(Decoded(b, n, signed), v);
  }

  lemma TargetIsSource(n: nat, j: nat)
    requires j < n <= 64
    ensures SourceBit(n, TargetBit(n, j)) == j
  {
  }

  // ---------------------------------------------------------------------------------------------
  // The encoder

  /** Reverses the first `size` bytes. */
  method SwapByteOrder(data: array<bv8>, size: nat)
    requires 1 <= size <= data.Length
    modifies data
    ensures forall k | 0 <= k < size :: data[k] == old(data[size - 1 - k])
    ensures forall k | size <= k < data.Length :: data[k] == old(data[k])
  {
    var fwd, rev := 0, size - 1;
    while fwd < rev
      invariant 0 <= fwd <= size && rev == size - 1 - fwd && fwd <= rev + 1
      invariant forall k | 0 <= k < fwd || rev < k < size :: data[k] == old(data[size - 1 - k])
      invariant forall k | fwd <= k <= rev || size <= k < data.Length :: data[k] == old(data[k])
    {
      data[fwd], data[rev] := data[rev], data[fwd];
      fwd := fwd + 1;
      rev := rev - 1;
    }
  }

  /** Puts a value of a standard type into storage, on a host of either byte order. */
  method StoreValue(storage: array<bv8>, v: bv64, size: nat, bigEndian: bool)
    requires storage.Length == 8 && 1 <= size <= 8
    modifies storage
    ensures forall k | 0 <= k < 8 :: storage[k] == if k < size then Crc.ByteOf(v, if bigEndian then size - 1 - k else k)
                                                   else old(storage[k])
  {
    hide Crc.ByteOf;
    for i := 0 to size
      invariant forall k | 0 <= k < 8 ::
                  storage[k] == if k < i then Crc.ByteOf(v, if bigEndian then size - 1 - k else k)
                                else old(storage[k])
    {
      storage[i] := Crc.ByteOf(v, if bigEndian then size - 1 - i else i);
    }
  }

  /** The value as the encoder prepares it: least significant byte first on any host, the last bits moved to the
      left. */
  method Prepare(v: bv64, bitLength: nat, bigEndian: bool) returns (storage: array<bv8>)
    requires 1 <= bitLength <= 64
    ensures fresh(storage) && storage[..] == Encoded(v, bitLength)
  {
    hide Crc.ByteOf, ByteLeft;
    storage := new bv8[8](_ => 0);
    var size := StdBytes(bitLength);
    StoreValue(storage, v, size, bigEndian);
    if bigEndian {
      SwapByteOrder(storage, size);
    }
    if bitLength % 8 != 0 {
      storage[bitLength / 8] := ByteLeft(storage[bitLength / 8], 8 - bitLength % 8);
    }
  }

  /** Writes the lowest n bits of a value to bit `bitOffset` of the destination. A single bit is a boolean. */
  method EncodeScalar(destination: array<bv8>, bitOffset: nat, bitLength: nat, v: bv64, bigEndian: bool)
    requires 1 <= bitLength <= 64 && bitOffset + bitLength <= 8 * destination.Length
    modifies destination
    ensures BitsCopied(Encoded(v, bitLength), 0, bitLength, old(destination[..]), destination[..], bitOffset)
  {
    hide Encoded, BitsCopied;
    var storage := Prepare(v, bitLength, bigEndian);
    CopyBitArray(storage[..], 0, bitLength, destination, bitOffset);
  }

  // ---------------------------------------------------------------------------------------------
  // Sign extension in two steps, as the decoder does it

  /** Ones from bit n on, within the standard type. */
  function SignedWithin(s: seq<bv8>, n: nat): (e: seq<bv8>)
    requires |s| == 8 && 1 <= n <= 64
    ensures |e| == 8
  {
    if 8 * StdBytes(n) != n && SignSet(s, n)
    then seq(8, k requires 0 <= k < 8 => if k < StdBytes(n) then s[k] | OnesFrom(n, k) else s[k])
    else s
  }

  /** The value of a signed standard type, as a 64-bit one. */
  function Widened(s: seq<bv8>, size: nat): (e: seq<bv8>)
    requires |s| == 8 && 1 <= size <= 8
    ensures |e| == 8
  {
    if SignSet(s, 8 * size) then seq(8, k requires 0 <= k < 8 => if k < size then s[k] else 0xFF) else s
  }

  predicate ZeroFrom(s: seq<bv8>, n: nat)
    requires |s| == 8
  {
    forall j: nat | n <= j < 64 :: !BitOf(s[j / 8], 7 - j % 8)
  }

  lemma ShiftedZero(b: seq<bv8>, n: nat)
    requires |b| == 8 && OnlyFirst(b, n) && 1 <= n <= 64
    ensures ZeroFrom(Shifted(b, n), n)
  {
    hide BitOf, Shifted, OnlyFirst, BitAt, TargetBit;
    forall j: nat | n <= j < 64 ensures !BitOf(Shifted(b, n)[j / 8], 7 - j % 8) {
      ShiftedBit(b, n, j);
    }
  }

  lemma ZeroByte(s: seq<bv8>, n: nat, k: nat)
    requires |s| == 8 && ZeroFrom(s, n) && n <= 8 * k && k < 8
    ensures s[k] == 0
  {
    hide BitOf;
    forall i: nat | i < 8 ensures BitOf(s[k], i) == BitOf(0, i) {
      assert (8 * k + (7 - i)) / 8 == k && (8 * k + (7 - i)) % 8 == 7 - i;
      AllOnes(i);
    }
    BytesEqualByBits(s[k], 0);
  }

  lemma TopBit(s: seq<bv8>, n: nat)
    requires |s| == 8 && ZeroFrom(s, n) && 1 <= n <= 64
    ensures SignSet(SignedWithin(s, n), 8 * StdBytes(n)) == SignSet(s, n)
  {
    hide BitOf, OnesFrom;
    var size := StdBytes(n);
    assert (8 * size - 1) / 8 == size - 1 && (8 * size - 1) % 8 == 7;
    if 8 * size != n {
      if SignSet(s, n) {
        OrBit(s[size - 1], OnesFrom(n, size - 1), 0);
        OnesBit(n, size - 1, 7);
      } else {
        assert !BitOf(s[(8 * size - 1) / 8], 7 - (8 * size - 1) % 8);
      }
    }
  }

  /** Both steps together extend the sign of an n-bit number to 64 bits. */
  lemma TwoStepExtension(s: seq<bv8>, n: nat)
    requires |s| == 8 && ZeroFrom(s, n) && 1 <= n <= 64
    ensures Widened(SignedWithin(s, n), StdBytes(n)) == Extended(s, n, true)
  {
    hide BitOf, SignSet, ZeroFrom;
    TopBit(s, n);
    var size := StdBytes(n);
    var w := Widened(SignedWithin(s, n), size);
    forall k: nat | k < 8 ensures w[k] == Extended(s, n, true)[k] {
      if n <= 8 * k {
        ZeroByte(s, n, k);
      }
      OrZero(s[k]);
    }
  }

  lemma OrZero(x: bv8)
    ensures x | 0 == x && 0 | 0xFF == 0xFF as bv8
  {
  }

  /** The value of a standard type in storage, on a host of either byte order, least significant byte first. */
  method LoadValue(storage: array<bv8>, size: nat, bigEndian: bool) returns (bytes: seq<bv8>)
    requires storage.Length == 8 && 1 <= size <= 8
    ensures |bytes| == 8
    ensures forall k | 0 <= k < 8 :: bytes[k] == if k < size then storage[if bigEndian then size - 1 - k else k] else 0
  {
    bytes := [];
    for i := 0 to 8
      invariant |bytes| == i
      invariant forall k | 0 <= k < i ::
                  bytes[k] == if k < size then storage[if bigEndian then size - 1 - k else k] else 0
    {
      bytes := bytes + [if i < size then storage[if bigEndian then size - 1 - i else i] else 0];
    }
  }
}

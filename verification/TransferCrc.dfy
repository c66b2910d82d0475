/** CRC-16-CCITT of multi-frame transfers, seeded with the data type signature. */
module TransferCrc {
  import opened Polynomials

  function ShiftBit(crc: bv16): bv16 {
    if crc & 0x8000 != 0 then (crc << 1) ^ 0x1021 else crc << 1
  }

  function ShiftBits(crc: bv16, n: nat): bv16 {
    if n == 0 then crc else ShiftBit(ShiftBits(crc, n - 1))
  }

  function MixIn(crc: bv16, b: bv8): bv16 {
    crc ^ ((b as bv16) << 8)
  }

  function AddByte(crc: bv16, b: bv8): bv16 {
    ShiftBits(MixIn(crc, b), 8)
  }

  function Add(crc: bv16, bytes: seq<bv8>): bv16 {
    if bytes == [] then crc else AddByte(Add(crc, bytes[..|bytes| - 1]), bytes[|bytes| - 1])
  }

  function Moved(v: bv64, k: nat): bv64
    requires k < 8
  {
    if k == 0 then v else if k == 1 then v >> 8 else if k == 2 then v >> 16 else if k == 3 then v >> 24
    else if k == 4 then v >> 32 else if k == 5 then v >> 40 else if k == 6 then v >> 48 else v >> 56
  }

  /** Byte k of a 64-bit word, least significant first. */
  function ByteOf(v: bv64, k: nat): bv8
    requires k < 8
  {
    (Moved(v, k) & 0xFF) as bv8
  }

  /** The signature enters the CRC least significant byte first. */
  function SignatureBytes(signature: bv64): (bytes: seq<bv8>)
    ensures |bytes| == 8
  {
    seq(8, k requires 0 <= k < 8 => ByteOf(signature, k))
  }

  lemma LittleEndian(v: bv64)
    ensures var b := SignatureBytes(v);
            && b[0] == (v & 0xFF) as bv8 && b[1] == ((v >> 8) & 0xFF) as bv8 && b[2] == ((v >> 16) & 0xFF) as bv8
            && b[3] == ((v >> 24) & 0xFF) as bv8 && b[4] == ((v >> 32) & 0xFF) as bv8
            && b[5] == ((v >> 40) & 0xFF) as bv8 && b[6] == ((v >> 48) & 0xFF) as bv8 && b[7] == (v >> 56) as bv8
  {
    TopByteAlone(v);
  }

  lemma TopByteAlone(v: bv64)
    ensures ((v >> 56) & 0xFF) as bv8 == (v >> 56) as bv8
  {
  }

  function AddSignature(crc: bv16, signature: bv64): bv16 {
    Add(crc, SignatureBytes(signature))
  }

  /** The CRC of a payload cut into frames is the CRC of the payload. */
  lemma {:induction false} AddConcat(crc: bv16, a: seq<bv8>, b: seq<bv8>)
    ensures Add(crc, a + b) == Add(Add(crc, a), b)
  {
    if b == [] {
      assert a + b == a;
    } else {
      var front := b[..|b| - 1];
      assert (a + b)[..|a + b| - 1] == a + front;
      AddConcat(crc, a, front);
    }
  }

  // ---------------------------------------------------------------------------------------------
  // The register holds a remainder

  /** The generator polynomial x^16 + x^12 + x^5 + 1, 0x1021. */
  function Generator(): (g: Poly)
    ensures |g| == 17 && g[0] && g[16]
  {
    [true] + (BitsDown(0x10) + BitsDown(0x21))
  }

  predicate Top(c: bv16) { c & 0x8000 != 0 }

  function Left(c: bv16): bv16 { c << 1 }

  function Xor(c: bv16, d: bv16): bv16 { c ^ d }

  function Left8(c: bv16): bv16 { c << 8 }

  function UpperByte(c: bv16): bv8 { (c >> 8) as bv8 }

  /** The bits of a register, most significant first. */
  function Bits(c: bv16): (p: Poly)
    ensures |p| == 16
  {
    Out(Top, Left, c, 16)
  }

  lemma XorTop(c: bv16, d: bv16)
    ensures Top(Xor(c, d)) == (Top(c) != Top(d)) && Left(Xor(c, d)) == Xor(Left(c), Left(d))
  {
    TopOfXor(c, d);
  }

  lemma TopOfXor(c: bv16, d: bv16)
    ensures Top(Xor(c, d)) == (Top(c) != Top(d))
  {
  }

  lemma {:induction false} BitsXor(c: bv16, d: bv16, n: nat)
    ensures Out(Top, Left, Xor(c, d), n) == Sum(Out(Top, Left, c, n), Out(Top, Left, d, n))
    decreases n
  {
    hide Xor, Top, Left;
    if n > 0 {
      XorTop(c, d);
      BitsXor(Left(c), Left(d), n - 1);
      OutStep(Top, Left, c, n);
      OutStep(Top, Left, d, n);
      OutStep(Top, Left, Xor(c, d), n);
    }
  }

  lemma Lefts(c: bv16)
    ensures Left(Left(Left(Left(Left(Left(Left(Left(c)))))))) == Left8(c)
    ensures var c2, c4, c6 := Left(Left(c)), Left(Left(Left(Left(c)))), Left(Left(Left(Left(Left(Left(c))))));
            BitsDown(UpperByte(c)) ==
            [Top(c), Top(Left(c)), Top(c2), Top(Left(c2)), Top(c4), Top(Left(c4)), Top(c6), Top(Left(c6))]
  {
  }

  lemma TwoBytes(c: bv16)
    ensures Bits(c) == BitsDown(UpperByte(c)) + BitsDown(UpperByte(Left8(c))) && After(Left, c, 16) == Left8(Left8(c))
  {
    hide Top, Left, Left8, UpperByte, BitsDown;
    OutJoins(Top, Left, c, 8, 8);
    OutEight(Top, Left, c);
    OutEight(Top, Left, Left8(c));
    Lefts(c);
    Lefts(Left8(c));
  }

  lemma GeneratorBits()
    ensures Generator()[1..] == Bits(0x1021)
  {
    hide Top, Left, BitsDown, Out;
    TwoBytes(0x1021);
  }

  function High(b: bv8): bv16 { (b as bv16) << 8 }

  lemma HighByte(c: bv16, b: bv8)
    ensures MixIn(c, b) == Xor(c, High(b)) && UpperByte(High(b)) == b && UpperByte(Left8(High(b))) == 0
  {
  }

  lemma BitsMixed(c: bv16, b: bv8)
    ensures Bits(MixIn(c, b)) == Sum(Bits(c), BitsDown(b) + Polynomials.Zeros(8))
  {
    hide MixIn, Xor, Top, Left, UpperByte, Left8, Bits, BitsDown;
    var high := High(b);
    HighByte(c, b);
    BitsXor(c, high, 16);
    TwoBytes(high);
    NoBits();
    BitsIs(c);
    BitsIs(high);
    BitsIs(Xor(c, high));
  }

  lemma NoBits()
    ensures BitsDown(0) == Polynomials.Zeros(8)
  {
  }

  lemma BitsIs(c: bv16)
    ensures Bits(c) == Out(Top, Left, c, 16) && Bits(c)[0] == Top(c)
  {
  }

  lemma BitsStep(c: bv16)
    ensures Bits(ShiftBit(c)) == Step(Generator(), Bits(c), false)
  {
    hide ShiftBit, Xor, Top, Left, Left8, Bits, Generator;
    StepIs(c);
    TwoBytes(c);
    ShiftedAway(c);
    OutShifted(Top, Left, c, 16);
    BitsXor(Left(c), 0x1021, 16);
    GeneratorBits();
    BitsIs(c);
    BitsIs(Left(c));
    BitsIs(0x1021);
    BitsIs(Xor(Left(c), 0x1021));
  }

  lemma StepIs(c: bv16)
    ensures ShiftBit(c) == if Top(c) then Xor(Left(c), 0x1021) else Left(c)
  {
  }

  lemma ShiftedAway(c: bv16)
    ensures !Top(Left8(Left8(c)))
  {
  }

  lemma {:induction false} BitsSteps(c: bv16, n: nat)
    ensures Bits(ShiftBits(c, n)) == Feed(Generator(), Bits(c), Polynomials.Zeros(n))
  {
    hide ShiftBit, Bits, Generator, Step, Polynomials.Zeros;
    if n > 0 {
      BitsSteps(c, n - 1);
      BitsStep(ShiftBits(c, n - 1));
      ZerosMore(n - 1);
    }
  }

  /** A byte enters the register bit by bit, most significant first. */
  lemma BitsAdded(c: bv16, b: bv8)
    ensures Bits(AddByte(c, b)) == Feed(Generator(), Bits(c), BitsDown(b))
  {
    hide MixIn, ShiftBits, Bits, Generator, Feed, BitsDown;
    BitsMixed(c, b);
    BitsSteps(MixIn(c, b), 8);
    MixedIn(Generator(), Bits(c), BitsDown(b));
  }

  lemma {:induction false} BitsFed(c: bv16, bytes: seq<bv8>)
    ensures Bits(Add(c, bytes)) == Feed(Generator(), Bits(c), Message(BitsDown, bytes))
  {
    hide AddByte, Bits, Generator, Feed, BitsDown;
    if bytes != [] {
      var front, b := bytes[..|bytes| - 1], bytes[|bytes| - 1];
      BitsFed(c, front);
      BitsAdded(Add(c, front), b);
      FeedConcat(Generator(), Bits(c), Message(BitsDown, front), BitsDown(b));
    } else {
      FedNothing(Bits(c));
    }
  }

  lemma FedNothing(r: Poly)
    requires |r| == 16
    ensures Feed(Generator(), r, []) == r
  {
  }

  /** The CRC is the remainder of the division by the generator: of the bytes, most significant bit first, followed by
      16 zeros, with the first value of the register added to the first 16 bits. */
  lemma CrcIsRemainder(crc: bv16, bytes: seq<bv8>)
    ensures Remainder(Dividend(Bits(crc), Message(BitsDown, bytes)), Generator(), Bits(Add(crc, bytes)))
  {
    hide Add, Bits, Generator, BitsDown, Remainder;
    BitsFed(crc, bytes);
    FeedIsRemainder(Generator(), Bits(crc), Message(BitsDown, bytes));
  }

  /** Payloads that differ within two bytes in a row have different CRCs. */
  lemma BurstDetected(crc: bv16, before: seq<bv8>, a: seq<bv8>, b: seq<bv8>, after: seq<bv8>)
    requires |a| == |b| <= 2 && Add(crc, before + a + after) == Add(crc, before + b + after)
    ensures a == b
  {
    hide Add, Bits, Generator, BitsDown, Feed;
    BitsFed(crc, before + a + after);
    BitsFed(crc, before + b + after);
    forall c: bv8, d: bv8 | BitsDown(c) == BitsDown(d) ensures c == d {
      DownTells(c, d);
    }
    BytesTell(Generator(), Bits(crc), BitsDown, before, a, b, after);
  }

  function ByteShifted(c: bv16): bv16 {
    ShiftBit(ShiftBit(ShiftBit(ShiftBit(ShiftBit(ShiftBit(ShiftBit(ShiftBit(c))))))))
  }

  lemma Unrolled(c: bv16)
    ensures ShiftBits(c, 8) == ByteShifted(c)
  {
    hide ShiftBit;
    assert ShiftBits(c, 1) == ShiftBit(c) && ShiftBits(c, 2) == ShiftBit(ShiftBits(c, 1));
    assert ShiftBits(c, 3) == ShiftBit(ShiftBits(c, 2)) && ShiftBits(c, 4) == ShiftBit(ShiftBits(c, 3));
    assert ShiftBits(c, 5) == ShiftBit(ShiftBits(c, 4)) && ShiftBits(c, 6) == ShiftBit(ShiftBits(c, 5));
    assert ShiftBits(c, 7) == ShiftBit(ShiftBits(c, 6)) && ShiftBits(c, 8) == ShiftBit(ShiftBits(c, 7));
  }

  lemma OneMore(bytes: seq<bv8>, b: bv8)
    ensures Add(0xFFFF, bytes + [b]) == ByteShifted(MixIn(Add(0xFFFF, bytes), b))
  {
    hide ShiftBit, MixIn;
    assert (bytes + [b])[..|bytes + [b]| - 1] == bytes;
    Unrolled(MixIn(Add(0xFFFF, bytes), b));
  }

  /** The check value of CRC-16-CCITT, for the digits from 1 to 9. */
  lemma CheckValue()
    ensures Add(0xFFFF, [0x31, 0x32, 0x33, 0x34, 0x35, 0x36, 0x37, 0x38, 0x39]) == 0x29B1
  {
    hide ByteShifted, MixIn, Add;
    var d: seq<bv8> := [0x31, 0x32, 0x33, 0x34, 0x35, 0x36, 0x37, 0x38, 0x39];
    Digits();
    NothingAdded();
    for k := 0 to 9
      invariant Add(0xFFFF, d[..k]) == CheckRegisters()[k]
    {
      assert d[..k] + [d[k]] == d[..k + 1];
      OneMore(d[..k], d[k]);
    }
    assert d[..9] == d;
  }

  /** The register before the digits, and after each of them. */
  function CheckRegisters(): (r: seq<bv16>)
    ensures |r| == 10
  {
    [0xFFFF, 0xC782, 0x3DBA, 0x5BCE, 0x5349, 0x4560, 0x2EF4, 0x7718, 0xA12B, 0x29B1]
  }

  lemma NothingAdded()
    ensures Add(0xFFFF, []) == 0xFFFF
  {
  }

  lemma Digits()
    ensures ByteShifted(MixIn(0xFFFF, 0x31)) == 0xC782 && ByteShifted(MixIn(0xC782, 0x32)) == 0x3DBA
    ensures ByteShifted(MixIn(0x3DBA, 0x33)) == 0x5BCE && ByteShifted(MixIn(0x5BCE, 0x34)) == 0x5349
    ensures ByteShifted(MixIn(0x5349, 0x35)) == 0x4560 && ByteShifted(MixIn(0x4560, 0x36)) == 0x2EF4
    ensures ByteShifted(MixIn(0x2EF4, 0x37)) == 0x7718 && ByteShifted(MixIn(0x7718, 0x38)) == 0xA12B
    ensures ByteShifted(MixIn(0xA12B, 0x39)) == 0x29B1
  {
  }

  method CrcShift(crc: bv16) returns (r: bv16)
    ensures r == ShiftBit(crc)
  {
    if crc & 0x8000 != 0 {
      r := (crc << 1) ^ 0x1021;
    } else {
      r := crc << 1;
    }
  }

  method CrcAddByte(crc: bv16, b: bv8) returns (r: bv16)
    ensures r == AddByte(crc, b)
  {
    hide MixIn, ShiftBit;
    r := MixIn(crc, b);
    for j := 0 to 8
      invariant r == ShiftBits(MixIn(crc, b), j)
    {
      r := CrcShift(r);
    }
  }

  method CrcAdd(crc: bv16, bytes: seq<bv8>) returns (r: bv16)
    ensures r == Add(crc, bytes)
  {
    r := crc;
    for i := 0 to |bytes|
      invariant r == Add(crc, bytes[..i])
    {
      assert bytes[..i + 1][..i] == bytes[..i];
      r := CrcAddByte(r, bytes[i]);
    }
    assert bytes[..|bytes|] == bytes;
  }

  method CrcAddSignature(crc: bv16, signature: bv64) returns (r: bv16)
    ensures r == AddSignature(crc, signature)
  {
    r := crc;
    ghost var bytes := SignatureBytes(signature);
    for k := 0 to 8
      invariant r == Add(crc, bytes[..k])
    {
      assert bytes[..k + 1][..k] == bytes[..k];
      r := CrcAddByte(r, ByteOf(signature, k));
    }
    assert bytes[..8] == bytes;
  }
}

/** The CRC of the configuration pool: CRC-32 from register value 0, least significant bit first. */
module PoolCrc {
  import opened Polynomials

  function Shift(crc: bv32): bv32 {
    if crc & 1 != 0 then (crc >> 1) ^ 0xEDB88320 else crc >> 1
  }

  function Shifts(crc: bv32, n: nat): bv32 {
    if n == 0 then crc else Shift(Shifts(crc, n - 1))
  }

  function Crc32Step(crc: bv32, b: bv8): bv32 {
    Shifts(crc ^ (b as bv32), 8)
  }

  /** From register value 0, without inverting the result. */
  function Crc32(crc: bv32, bytes: seq<bv8>): bv32 {
    if bytes == [] then crc else Crc32Step(Crc32(crc, bytes[..|bytes| - 1]), bytes[|bytes| - 1])
  }

  method ComputeShift(crc: bv32) returns (r: bv32)
    ensures r == Shift(crc)
  {
    LowestBit(crc);
    NoChange(crc >> 1);
    var mask: bv32 := 0 - (crc & 1);
    r := (crc >> 1) ^ (0xEDB88320 & mask);
  }

  lemma LowestBit(crc: bv32)
    ensures 0xEDB88320 & (0 - (crc & 1)) == if crc & 1 != 0 then 0xEDB88320 else 0
  {
  }

  lemma NoChange(c: bv32)
    ensures c ^ 0 == c
  {
  }

  method ComputeCrc32Step(crc: bv32, b: bv8) returns (r: bv32)
    ensures r == Crc32Step(crc, b)
  {
    hide Shift;
    r := crc ^ (b as bv32);
    ghost var c := r;
    for j := 0 to 8
      invariant r == Shifts(c, j)
    {
      r := ComputeShift(r);
    }
  }

  method ComputeCrc32(crc: bv32, bytes: seq<bv8>) returns (r: bv32)
    ensures r == Crc32(crc, bytes)
  {
    hide Crc32Step;
    r := crc;
    for i := 0 to |bytes|
      invariant r == Crc32(crc, bytes[..i])
    {
      assert bytes[..i + 1][..i] == bytes[..i];
      r := ComputeCrc32Step(r, bytes[i]);
    }
    assert bytes[..|bytes|] == bytes;
  }

  lemma {:induction false} CrcConcat(crc: bv32, a: seq<bv8>, b: seq<bv8>)
    ensures Crc32(crc, a + b) == Crc32(Crc32(crc, a), b)
  {
    hide Crc32Step;
    if b == [] {
      assert a + b == a;
    } else {
      var front := b[..|b| - 1];
      assert (a + b)[..|a + b| - 1] == a + front;
      CrcConcat(crc, a, front);
    }
  }

  // ---------------------------------------------------------------------------------------------
  // The register holds a remainder

  /** The generator polynomial of IEEE 802.3, 0x04C11DB7. */
  function Generator(): (g: Poly)
    ensures |g| == 33 && g[0]
  {
    [true] + (BitsDown(0x04) + (BitsDown(0xC1) + (BitsDown(0x1D) + BitsDown(0xB7))))
  }

  const REVERSED: bv32 := 0xEDB88320

  predicate Low(c: bv32) { c & 1 != 0 }

  function Right(c: bv32): bv32 { c >> 1 }

  function Xor(c: bv32, d: bv32): bv32 { c ^ d }

  function Right8(c: bv32): bv32 { c >> 8 }

  function LowerByte(c: bv32): bv8 { (c & 0xFF) as bv8 }

  /** The bits of a register, least significant first. */
  function Bits(c: bv32): (p: Poly)
    ensures |p| == 32
  {
    Out(Low, Right, c, 32)
  }

  lemma BitsIs(c: bv32)
    ensures Bits(c) == Out(Low, Right, c, 32) && Bits(c)[0] == Low(c)
  {
  }

  lemma XorLow(c: bv32, d: bv32)
    ensures Low(Xor(c, d)) == (Low(c) != Low(d)) && Right(Xor(c, d)) == Xor(Right(c), Right(d))
  {
  }

  lemma {:induction false} BitsXor(c: bv32, d: bv32, n: nat)
    ensures Out(Low, Right, Xor(c, d), n) == Sum(Out(Low, Right, c, n), Out(Low, Right, d, n))
    decreases n
  {
    hide Xor, Low, Right;
    if n > 0 {
      XorLow(c, d);
      BitsXor(Right(c), Right(d), n - 1);
      OutStep(Low, Right, c, n);
      OutStep(Low, Right, d, n);
      OutStep(Low, Right, Xor(c, d), n);
    }
  }

  lemma Rights(c: bv32)
    ensures Right(Right(Right(Right(Right(Right(Right(Right(c)))))))) == Right8(c)
    ensures var c2, c4 := Right(Right(c)), Right(Right(Right(Right(c))));
            var c6 := Right(Right(c4));
            BitsUp(LowerByte(c)) ==
            [Low(c), Low(Right(c)), Low(c2), Low(Right(c2)), Low(c4), Low(Right(c4)), Low(c6), Low(Right(c6))]
  {
  }

  lemma NextByte(c: bv32, n: nat)
    ensures Out(Low, Right, c, n + 8) == BitsUp(LowerByte(c)) + Out(Low, Right, Right8(c), n)
    ensures After(Right, c, n + 8) == After(Right, Right8(c), n)
  {
    hide Low, Right, Right8, LowerByte, BitsUp;
    OutJoins(Low, Right, c, 8, n);
    OutEight(Low, Right, c);
    Rights(c);
  }

  lemma FourBytes(c: bv32)
    ensures var c1, c2, c3 := Right8(c), Right8(Right8(c)), Right8(Right8(Right8(c)));
            && Bits(c) ==
               BitsUp(LowerByte(c)) + (BitsUp(LowerByte(c1)) + (BitsUp(LowerByte(c2)) + BitsUp(LowerByte(c3))))
            && After(Right, c, 32) == Right8(c3)
  {
    hide Low, Right, Right8, LowerByte, BitsUp;
    NextByte(c, 24);
    NextByte(Right8(c), 16);
    NextByte(Right8(Right8(c)), 8);
    NextByte(Right8(Right8(Right8(c))), 0);
  }

  lemma Emptied(c: bv32)
    ensures !Low(Right8(Right8(Right8(Right8(c)))))
  {
  }

  lemma ReversedBytes()
    ensures LowerByte(REVERSED) == 0x20 && LowerByte(Right8(REVERSED)) == 0x83
    ensures LowerByte(Right8(Right8(REVERSED))) == 0xB8 && LowerByte(Right8(Right8(Right8(REVERSED)))) == 0xED
    ensures BitsUp(0x20) == BitsDown(0x04) && BitsUp(0x83) == BitsDown(0xC1)
    ensures BitsUp(0xB8) == BitsDown(0x1D) && BitsUp(0xED) == BitsDown(0xB7) && BitsDown(0xB7)[7]
  {
  }

  /** The polynomial with its bits the other way round. */
  lemma GeneratorBits()
    ensures Generator()[1..] == Bits(REVERSED) && Generator()[32]
  {
    hide Bits, LowerByte, Right8, BitsUp, BitsDown;
    FourBytes(REVERSED);
    ReversedBytes();
  }

  lemma ByteAlone(c: bv32, b: bv8)
    ensures c ^ (b as bv32) == Xor(c, b as bv32) && LowerByte(b as bv32) == b && Right8(b as bv32) == 0
  {
  }

  lemma {:induction false} OutZero(n: nat)
    ensures Out(Low, Right, 0, n) == Zeros(n)
    decreases n
  {
    if n > 0 {
      OutZero(n - 1);
    }
  }

  lemma BitsMixed(c: bv32, b: bv8)
    ensures Bits(c ^ (b as bv32)) == Sum(Bits(c), BitsUp(b) + Zeros(24))
  {
    hide Xor, Low, Right, LowerByte, Right8, Bits, BitsUp;
    var low := b as bv32;
    ByteAlone(c, b);
    BitsXor(c, low, 32);
    NextByte(low, 24);
    OutZero(24);
    BitsIs(c);
    BitsIs(low);
    BitsIs(Xor(c, low));
  }

  lemma StepIs(c: bv32)
    ensures Shift(c) == if Low(c) then Xor(Right(c), REVERSED) else Right(c)
  {
  }

  lemma BitsStep(c: bv32)
    ensures Bits(Shift(c)) == Step(Generator(), Bits(c), false)
  {
    hide Shift, Xor, Low, Right, Right8, Bits, Generator;
    StepIs(c);
    FourBytes(c);
    Emptied(c);
    OutShifted(Low, Right, c, 32);
    BitsXor(Right(c), REVERSED, 32);
    GeneratorBits();
    BitsIs(c);
    BitsIs(Right(c));
    BitsIs(REVERSED);
    BitsIs(Xor(Right(c), REVERSED));
  }

  lemma {:induction false} BitsSteps(c: bv32, n: nat)
    ensures Bits(Shifts(c, n)) == Feed(Generator(), Bits(c), Zeros(n))
  {
    hide Shift, Bits, Generator, Step, Zeros;
    if n > 0 {
      BitsSteps(c, n - 1);
      BitsStep(Shifts(c, n - 1));
      ZerosMore(n - 1);
    }
  }

  /** A byte enters the register bit by bit, least significant first. */
  lemma BitsAdded(c: bv32, b: bv8)
    ensures Bits(Crc32Step(c, b)) == Feed(Generator(), Bits(c), BitsUp(b))
  {
    hide Shifts, Bits, Generator, Feed, BitsUp;
    BitsMixed(c, b);
    BitsSteps(c ^ (b as bv32), 8);
    MixedIn(Generator(), Bits(c), BitsUp(b));
  }

  lemma {:induction false} BitsFed(c: bv32, bytes: seq<bv8>)
    ensures Bits(Crc32(c, bytes)) == Feed(Generator(), Bits(c), Message(BitsUp, bytes))
  {
    hide Crc32Step, Bits, Generator, Feed, BitsUp;
    if bytes != [] {
      var front, b := bytes[..|bytes| - 1], bytes[|bytes| - 1];
      BitsFed(c, front);
      BitsAdded(Crc32(c, front), b);
      FeedConcat(Generator(), Bits(c), Message(BitsUp, front), BitsUp(b));
    } else {
      NothingFed(Bits(c));
    }
  }

  lemma NothingFed(r: Poly)
    requires |r| == 32
    ensures Feed(Generator(), r, []) == r
  {
  }

  /** The CRC is the remainder of the division by the generator: of the bytes, least significant bit first, followed by
      32 zeros, with the first value of the register added to the first 32 bits. */
  lemma CrcIsRemainder(crc: bv32, bytes: seq<bv8>)
    ensures Remainder(Dividend(Bits(crc), Message(BitsUp, bytes)), Generator(), Bits(Crc32(crc, bytes)))
  {
    hide Crc32, Bits, Generator, BitsUp, Remainder;
    BitsFed(crc, bytes);
    FeedIsRemainder(Generator(), Bits(crc), Message(BitsUp, bytes));
  }

  /** Bytes that differ within 4 in a row have different CRCs. */
  lemma BurstDetected(crc: bv32, before: seq<bv8>, a: seq<bv8>, b: seq<bv8>, after: seq<bv8>)
    requires |a| == |b| <= 4 && Crc32(crc, before + a + after) == Crc32(crc, before + b + after)
    ensures a == b
  {
    hide Crc32, Bits, Generator, BitsUp, Feed;
    BitsFed(crc, before + a + after);
    BitsFed(crc, before + b + after);
    GeneratorBits();
    forall c: bv8, d: bv8 | BitsUp(c) == BitsUp(d) ensures c == d {
      UpTells(c, d);
    }
    BytesTell(Generator(), Bits(crc), BitsUp, before, a, b, after);
  }

  /** A single bit gives the polynomial. */
  lemma SingleBit()
    ensures Crc32(0, [0x80]) == 0xEDB88320
  {
    hide Shift;
    var one: seq<bv8> := [0x80];
    assert one[..0] == [];
    Unrolled(0x80);
    SevenRights();
  }

  lemma SevenRights()
    ensures Shift(Shift(Shift(Shift(Shift(Shift(Shift(Shift(0x80)))))))) == 0xEDB88320
  {
  }

  lemma Unrolled(c: bv32)
    ensures Shifts(c, 8) == Shift(Shift(Shift(Shift(Shift(Shift(Shift(Shift(c))))))))
  {
    hide Shift;
    assert Shifts(c, 1) == Shift(c) && Shifts(c, 2) == Shift(Shifts(c, 1));
    assert Shifts(c, 3) == Shift(Shifts(c, 2)) && Shifts(c, 4) == Shift(Shifts(c, 3));
    assert Shifts(c, 5) == Shift(Shifts(c, 4)) && Shifts(c, 6) == Shift(Shifts(c, 5));
    assert Shifts(c, 7) == Shift(Shifts(c, 6)) && Shifts(c, 8) == Shift(Shifts(c, 7));
  }
}

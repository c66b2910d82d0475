/** CRC-64-WE, bit by bit, and the incremental, unrolled form the bootloader uses. */
module Crc64 {
  import opened Polynomials

  const POLY: bv64 := 0x42F0E1EBA9EA3693
  const TOP_BIT: bv64 := 0x8000_0000_0000_0000
  const ALL_ONES: bv64 := 0xFFFF_FFFF_FFFF_FFFF

  /** Divides by the polynomial, one bit. */
  function ShiftBit(crc: bv64): bv64 {
    if crc & TOP_BIT != 0 then (crc << 1) ^ POLY else crc << 1
  }

  function ShiftBits(crc: bv64, n: nat): bv64 {
    if n == 0 then crc else ShiftBit(ShiftBits(crc, n - 1))
  }

  function High(b: bv8): bv64 { (b as bv64) << 56 }

  function MixIn(crc: bv64, b: bv8): bv64 { crc ^ High(b) }

  /** The CRC register after some bytes. */
  function Fed(crc: bv64, bytes: seq<bv8>): bv64 {
    if bytes == [] then crc else ShiftBits(MixIn(Fed(crc, bytes[..|bytes| - 1]), bytes[|bytes| - 1]), 8)
  }

  /** CRC-64-WE: all ones to begin with, and inverted at the end. */
  function Crc(bytes: seq<bv8>): bv64 {
    Fed(ALL_ONES, bytes) ^ ALL_ONES
  }

  /** The register may be fed piece by piece. */
  lemma {:induction false} FedConcat(crc: bv64, a: seq<bv8>, b: seq<bv8>)
    ensures Fed(crc, a + b) == Fed(Fed(crc, a), b)
  {
    hide ShiftBits, MixIn;
    if b == [] {
      assert a + b == a;
    } else {
      var front := b[..|b| - 1];
      assert (a + b)[..|a + b| - 1] == a + front;
      FedConcat(crc, a, front);
    }
  }

  class CRC64WE {
    var crc: bv64

    constructor ()
      ensures crc == Fed(ALL_ONES, [])
    {
      crc := ALL_ONES;
    }

    /** Feeds some bytes; the eight bits of a byte are not folded into a loop. */
    method Add(data: seq<bv8>)
      modifies this
      ensures crc == Fed(old(crc), data)
    {
      hide ShiftBit, MixIn;
      for i := 0 to |data|
        invariant crc == Fed(old(crc), data[..i])
      {
        assert data[..i + 1][..i] == data[..i];
        crc := MixIn(crc, data[i]);
        ghost var c := crc;
        crc := ShiftBit(crc);
        crc := ShiftBit(crc);
        crc := ShiftBit(crc);
        crc := ShiftBit(crc);
        crc := ShiftBit(crc);
        crc := ShiftBit(crc);
        crc := ShiftBit(crc);
        crc := ShiftBit(crc);
        Unrolled(c);
      }
      assert data[..|data|] == data;
    }

    function Get(): (r: bv64)
      reads this
      ensures forall bytes :: crc == Fed(ALL_ONES, bytes) ==> r == Crc(bytes)
    {
      crc ^ ALL_ONES
    }
  }

  lemma Unrolled(c: bv64)
    ensures ShiftBits(c, 8) == ShiftBit(ShiftBit(ShiftBit(ShiftBit(ShiftBit(ShiftBit(ShiftBit(ShiftBit(c))))))))
  {
    hide ShiftBit;
    assert ShiftBits(c, 1) == ShiftBit(c) && ShiftBits(c, 2) == ShiftBit(ShiftBits(c, 1));
    assert ShiftBits(c, 3) == ShiftBit(ShiftBits(c, 2)) && ShiftBits(c, 4) == ShiftBit(ShiftBits(c, 3));
    assert ShiftBits(c, 5) == ShiftBit(ShiftBits(c, 4)) && ShiftBits(c, 6) == ShiftBit(ShiftBits(c, 5));
    assert ShiftBits(c, 7) == ShiftBit(ShiftBits(c, 6)) && ShiftBits(c, 8) == ShiftBit(ShiftBits(c, 7));
  }

  /** The same, with the loop. */
  method BitwiseAdd(crc: bv64, bytes: seq<bv8>) returns (val: bv64)
    ensures val == Fed(crc, bytes)
  {
    hide ShiftBit, MixIn;
    val := crc;
    for i := 0 to |bytes|
      invariant val == Fed(crc, bytes[..i])
    {
      assert bytes[..i + 1][..i] == bytes[..i];
      val := MixIn(val, bytes[i]);
      ghost var c := val;
      for bit := 0 to 8
        invariant val == ShiftBits(c, bit)
      {
        val := ShiftBit(val);
      }
    }
    assert bytes[..|bytes|] == bytes;
  }

  // ---------------------------------------------------------------------------------------------
  // The register holds a remainder

  /** The generator polynomial of ECMA-182, 0x42F0E1EBA9EA3693. */
  function Generator(): (g: Poly)
    ensures |g| == 65 && g[0]
  {
    MessageSize(BitsDown, GeneratorBytes());
    [true] + Message(BitsDown, GeneratorBytes())
  }

  function GeneratorBytes(): seq<bv8> {
    [0x42, 0xF0, 0xE1, 0xEB, 0xA9, 0xEA, 0x36, 0x93]
  }

  predicate Top(c: bv64) { c & TOP_BIT != 0 }

  function Left(c: bv64): bv64 { c << 1 }

  function Xor(c: bv64, d: bv64): bv64 { c ^ d }

  function Left8(c: bv64): bv64 { c << 8 }

  function UpperByte(c: bv64): bv8 { (c >> 56) as bv8 }

  /** The bits of a register, most significant first. */
  function Bits(c: bv64): (p: Poly)
    ensures |p| == 64
  {
    Out(Top, Left, c, 64)
  }

  lemma BitsIs(c: bv64)
    ensures Bits(c) == Out(Top, Left, c, 64) && Bits(c)[0] == Top(c)
  {
  }

  lemma XorTop(c: bv64, d: bv64)
    ensures Top(Xor(c, d)) == (Top(c) != Top(d)) && Left(Xor(c, d)) == Xor(Left(c), Left(d))
  {
  }

  lemma {:induction false} BitsXor(c: bv64, d: bv64, n: nat)
    ensures Out(Top, Left, Xor(c, d), n) == Sum(Out(Top, Left, c, n), Out(Top, Left, d, n))
    decreases n
  {
    hide Xor, Top, Left;
    if n > 0 {
      XorTop(c, d);
      BitsXor(Left(c), Left(d), n - 1);
      OutStep(Top, Left, c, n);
      OutStep(Top, Left, d, n);
      OutStep(Top, Left, Xor(c, d), n);
    }
  }

  lemma Lefts(c: bv64)
    ensures Left(Left(Left(Left(Left(Left(Left(Left(c)))))))) == Left8(c)
    ensures var c2, c4, c6 := Left(Left(c)), Left(Left(Left(Left(c)))), Left(Left(Left(Left(Left(Left(c))))));
            BitsDown(UpperByte(c)) ==
            [Top(c), Top(Left(c)), Top(c2), Top(Left(c2)), Top(c4), Top(Left(c4)), Top(c6), Top(Left(c6))]
  {
  }

  lemma NextByte(c: bv64, n: nat)
    ensures Out(Top, Left, c, n + 8) == BitsDown(UpperByte(c)) + Out(Top, Left, Left8(c), n)
    ensures After(Left, c, n + 8) == After(Left, Left8(c), n)
  {
    hide Top, Left, Left8, UpperByte, BitsDown;
    OutJoins(Top, Left, c, 8, n);
    OutEight(Top, Left, c);
    Lefts(c);
  }

  /** Byte k from above. */
  function Byte(c: bv64, k: nat): bv8
    decreases k
  {
    if k == 0 then UpperByte(c) else Byte(Left8(c), k - 1)
  }

  lemma {:induction false} OutBytes(c: bv64, k: nat, n: nat)
    requires k < n
    ensures Out(Top, Left, c, 8 * n)[8 * k..8 * k + 8] == BitsDown(Byte(c, k))
    decreases k
  {
    hide Top, Left, Left8, UpperByte, BitsDown;
    var m := 8 * (n - 1);
    var out, rest := Out(Top, Left, c, m + 8), Out(Top, Left, Left8(c), m);
    NextByte(c, m);
    assert out[..8] == BitsDown(UpperByte(c)) && out[8..] == rest && m + 8 == 8 * n;
    if k > 0 {
      OutBytes(Left8(c), k - 1, n - 1);
      assert out[8 * k..8 * k + 8] == rest[8 * (k - 1)..8 * (k - 1) + 8];
    }
  }

  function Lefts8(c: bv64, k: nat): bv64
    decreases k
  {
    if k == 0 then c else Lefts8(Left8(c), k - 1)
  }

  lemma {:induction false} AfterBytes(c: bv64, k: nat)
    ensures After(Left, c, 8 * k) == Lefts8(c, k)
    decreases k
  {
    hide Top, Left, Left8;
    if k > 0 {
      OutJoins(Top, Left, c, 8, 8 * (k - 1));
      OutEight(Top, Left, c);
      Lefts(c);
      AfterBytes(Left8(c), k - 1);
    }
  }

  lemma AllShifted(c: bv64)
    ensures !Top(After(Left, c, 64))
  {
    hide Top, Left, Left8;
    AfterBytes(c, 8);
    var c2, c4 := Left8(Left8(c)), Left8(Left8(Left8(Left8(c))));
    var c6 := Left8(Left8(c4));
    assert Lefts8(c, 8) == Lefts8(c2, 6) == Lefts8(c4, 4) == Lefts8(c6, 2) == Left8(Left8(c6));
    Emptied(c);
  }

  lemma Emptied(c: bv64)
    ensures !Top(Left8(Left8(Left8(Left8(Left8(Left8(Left8(Left8(c)))))))))
  {
  }

  lemma PolyBytes()
    ensures forall k | 0 <= k < 8 :: Byte(POLY, k) == GeneratorBytes()[k]
  {
    assert Byte(POLY, 2) == Byte(0xE1EBA9EA36930000, 0);
    assert Byte(POLY, 4) == Byte(0xE1EBA9EA36930000, 2) == Byte(0xA9EA369300000000, 0);
    assert Byte(POLY, 6) == Byte(0xE1EBA9EA36930000, 4) == Byte(0xA9EA369300000000, 2) == Byte(0x3693000000000000, 0);
    assert Byte(POLY, 3) == Byte(0xE1EBA9EA36930000, 1);
    assert Byte(POLY, 5) == Byte(0xE1EBA9EA36930000, 3) == Byte(0xA9EA369300000000, 1);
    assert Byte(POLY, 7) == Byte(0xE1EBA9EA36930000, 5) == Byte(0xA9EA369300000000, 3) == Byte(0x3693000000000000, 1);
  }

  lemma GeneratorBits()
    ensures Generator()[1..] == Bits(POLY) && Generator()[64]
  {
    hide Byte, BitsDown, Top, Left, Out;
    var g, p := Message(BitsDown, GeneratorBytes()), Bits(POLY);
    MessageSize(BitsDown, GeneratorBytes());
    PolyBytes();
    forall k | 0 <= k < 8 ensures g[8 * k..8 * k + 8] == p[8 * k..8 * k + 8] {
      MessageEight(BitsDown, GeneratorBytes(), k);
      OutBytes(POLY, k, 8);
    }
    SameEights(g, p, 8);
    MessageEight(BitsDown, GeneratorBytes(), 7);
    Odd();
    assert g[63] == g[56..64][7];
  }

  lemma Odd()
    ensures BitsDown(0x93)[7]
  {
  }

  lemma HighByte(c: bv64, b: bv8)
    ensures MixIn(c, b) == Xor(c, High(b)) && UpperByte(High(b)) == b && Left8(High(b)) == 0
  {
  }

  lemma {:induction false} OutZero(n: nat)
    ensures Out(Top, Left, 0, n) == Polynomials.Zeros(n)
    decreases n
  {
    if n > 0 {
      OutZero(n - 1);
    }
  }

  lemma BitsMixed(c: bv64, b: bv8)
    ensures Bits(MixIn(c, b)) == Sum(Bits(c), BitsDown(b) + Polynomials.Zeros(56))
  {
    hide MixIn, Xor, High, Top, Left, UpperByte, Left8, Bits, BitsDown;
    var high := High(b);
    HighByte(c, b);
    BitsXor(c, high, 64);
    NextByte(high, 56);
    OutZero(56);
    BitsIs(c);
    BitsIs(high);
    BitsIs(Xor(c, high));
  }

  lemma StepIs(c: bv64)
    ensures ShiftBit(c) == if Top(c) then Xor(Left(c), POLY) else Left(c)
  {
  }

  lemma BitsStep(c: bv64)
    ensures Bits(ShiftBit(c)) == Step(Generator(), Bits(c), false)
  {
    hide ShiftBit, Xor, Top, Left, Left8, Bits, Generator;
    StepIs(c);
    AllShifted(c);
    OutShifted(Top, Left, c, 64);
    BitsXor(Left(c), POLY, 64);
    GeneratorBits();
    BitsIs(c);
    BitsIs(Left(c));
    BitsIs(POLY);
    BitsIs(Xor(Left(c), POLY));
  }

  lemma {:induction false} BitsSteps(c: bv64, n: nat)
    ensures Bits(ShiftBits(c, n)) == Feed(Generator(), Bits(c), Polynomials.Zeros(n))
  {
    hide ShiftBit, Bits, Generator, Step, Polynomials.Zeros;
    if n > 0 {
      BitsSteps(c, n - 1);
      BitsStep(ShiftBits(c, n - 1));
      ZerosMore(n - 1);
    }
  }

  /** A byte enters the register bit by bit, most significant first. */
  lemma BitsAdded(c: bv64, b: bv8)
    ensures Bits(ShiftBits(MixIn(c, b), 8)) == Feed(Generator(), Bits(c), BitsDown(b))
  {
    hide MixIn, ShiftBits, Bits, Generator, Feed, BitsDown;
    BitsMixed(c, b);
    BitsSteps(MixIn(c, b), 8);
    MixedIn(Generator(), Bits(c), BitsDown(b));
  }

  lemma {:induction false} BitsFed(c: bv64, bytes: seq<bv8>)
    ensures Bits(Fed(c, bytes)) == Feed(Generator(), Bits(c), Message(BitsDown, bytes))
  {
    hide ShiftBits, MixIn, Bits, Generator, Feed, BitsDown;
    if bytes != [] {
      var front, b := bytes[..|bytes| - 1], bytes[|bytes| - 1];
      BitsFed(c, front);
      BitsAdded(Fed(c, front), b);
      FeedConcat(Generator(), Bits(c), Message(BitsDown, front), BitsDown(b));
    } else {
      NothingFed(Bits(c));
    }
  }

  lemma NothingFed(r: Poly)
    requires |r| == 64
    ensures Feed(Generator(), r, []) == r
  {
  }

  /** The register is the remainder of the division by the generator: of the bytes, most significant bit first, followed
      by 64 zeros, with the first value of the register added to the first 64 bits. */
  lemma FedIsRemainder(crc: bv64, bytes: seq<bv8>)
    ensures Remainder(Dividend(Bits(crc), Message(BitsDown, bytes)), Generator(), Bits(Fed(crc, bytes)))
  {
    hide Fed, Bits, Generator, BitsDown, Remainder;
    BitsFed(crc, bytes);
    FeedIsRemainder(Generator(), Bits(crc), Message(BitsDown, bytes));
  }

  lemma CrcInjective(a: seq<bv8>, b: seq<bv8>)
    requires Crc(a) == Crc(b)
    ensures Fed(ALL_ONES, a) == Fed(ALL_ONES, b)
  {
    hide Fed;
    XorCancels(Fed(ALL_ONES, a));
    XorCancels(Fed(ALL_ONES, b));
  }

  lemma XorCancels(x: bv64)
    ensures (x ^ ALL_ONES) ^ ALL_ONES == x
  {
  }

  /** Two messages that differ within 8 bytes in a row have different CRCs. */
  lemma BurstDetected(before: seq<bv8>, a: seq<bv8>, b: seq<bv8>, after: seq<bv8>)
    requires |a| == |b| <= 8 && Crc(before + a + after) == Crc(before + b + after)
    ensures a == b
  {
    hide Fed, Crc, Bits, Generator, BitsDown, Feed;
    CrcInjective(before + a + after, before + b + after);
    BitsFed(ALL_ONES, before + a + after);
    BitsFed(ALL_ONES, before + b + after);
    GeneratorBits();
    forall c: bv8, d: bv8 | BitsDown(c) == BitsDown(d) ensures c == d {
      DownTells(c, d);
    }
    BytesTell(Generator(), Bits(ALL_ONES), BitsDown, before, a, b, after);
  }

  // ---------------------------------------------------------------------------------------------
  // The check value

  function ByteShifted(c: bv64): bv64 {
    ShiftBit(ShiftBit(ShiftBit(ShiftBit(ShiftBit(ShiftBit(ShiftBit(ShiftBit(c))))))))
  }

  lemma OneMore(bytes: seq<bv8>, b: bv8)
    ensures Fed(ALL_ONES, bytes + [b]) == ByteShifted(MixIn(Fed(ALL_ONES, bytes), b))
  {
    hide ShiftBit, MixIn;
    assert (bytes + [b])[..|bytes + [b]| - 1] == bytes;
    Unrolled(MixIn(Fed(ALL_ONES, bytes), b));
  }

  /** The check value of CRC-64-WE, for the digits from 1 to 9. */
  lemma CheckValue()
    ensures Crc([0x31, 0x32, 0x33, 0x34, 0x35, 0x36, 0x37, 0x38, 0x39]) == 0x62EC59E3F1A4F00A
  {
    hide ByteShifted, MixIn, Fed;
    var d: seq<bv8> := [0x31, 0x32, 0x33, 0x34, 0x35, 0x36, 0x37, 0x38, 0x39];
    Digits();
    NothingYet();
    for k := 0 to 9
      invariant Fed(ALL_ONES, d[..k]) == CheckRegisters()[k]
    {
      assert d[..k] + [d[k]] == d[..k + 1];
      OneMore(d[..k], d[k]);
    }
    assert d[..9] == d;
  }

  lemma NothingYet()
    ensures Fed(ALL_ONES, []) == ALL_ONES
  {
  }

  /** The register before the digits, and after each of them. */
  function CheckRegisters(): (r: seq<bv64>)
    ensures |r| == 10
  {
    [ALL_ONES, 0x8DB4713229B2F2A5, 0xF488D61A961B3128, 0x2A0BB93A7813CA88, 0x33302B9FC23855A8,
     0xFCF93A5065C329F9, 0xC242B8ED1B26187A, 0xCFC30460A7CC7B9F, 0xCB9E4A0B1E7BF3B9, 0x9D13A61C0E5B0FF5]
  }

  lemma Digits()
    ensures ByteShifted(MixIn(ALL_ONES, 0x31)) == 0x8DB4713229B2F2A5
    ensures ByteShifted(MixIn(0x8DB4713229B2F2A5, 0x32)) == 0xF488D61A961B3128
    ensures ByteShifted(MixIn(0xF488D61A961B3128, 0x33)) == 0x2A0BB93A7813CA88
    ensures ByteShifted(MixIn(0x2A0BB93A7813CA88, 0x34)) == 0x33302B9FC23855A8
    ensures ByteShifted(MixIn(0x33302B9FC23855A8, 0x35)) == 0xFCF93A5065C329F9
    ensures ByteShifted(MixIn(0xFCF93A5065C329F9, 0x36)) == 0xC242B8ED1B26187A
    ensures ByteShifted(MixIn(0xC242B8ED1B26187A, 0x37)) == 0xCFC30460A7CC7B9F
    ensures ByteShifted(MixIn(0xCFC30460A7CC7B9F, 0x38)) == 0xCB9E4A0B1E7BF3B9
    ensures ByteShifted(MixIn(0xCB9E4A0B1E7BF3B9, 0x39)) == 0x9D13A61C0E5B0FF5
  {
  }
}

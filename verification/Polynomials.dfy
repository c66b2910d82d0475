/** Polynomials over the two-element field, written as their coefficients from the highest down, and what a CRC register
    has to do with them: it is the remainder of a division. */
module Polynomials {
  type Poly = seq<bool>

  function Zeros(n: nat): (z: Poly)
    ensures |z| == n && forall i | 0 <= i < n :: !z[i]
  {
    seq(n, _ => false)
  }

  lemma ZerosMore(n: nat)
    ensures Zeros(n + 1) == Zeros(n) + [false] && Zeros(n + 1)[..n] == Zeros(n)
  {
  }

  function Sum(a: Poly, b: Poly): (c: Poly)
    requires |a| == |b|
    ensures |c| == |a| && forall i | 0 <= i < |a| :: c[i] == (a[i] != b[i])
  {
    seq(|a|, i requires 0 <= i < |a| => a[i] != b[i])
  }

  /** q times g, by Horner's rule. */
  function Product(q: Poly, g: Poly): (p: Poly)
    requires g != []
    ensures |p| == |q| + |g| - 1
  {
    if q == [] then Zeros(|g| - 1)
    else Sum(Product(q[..|q| - 1], g) + [false], Zeros(|q| - 1) + if q[|q| - 1] then g else Zeros(|g|))
  }

  lemma SameEights(p: Poly, q: Poly, n: nat)
    requires |p| == |q| == 8 * n && forall k | 0 <= k < n :: p[8 * k..8 * k + 8] == q[8 * k..8 * k + 8]
    ensures p == q
  {
    forall i | 0 <= i < 8 * n ensures p[i] == q[i] {
      var k := i / 8;
      assert p[8 * k..8 * k + 8][i - 8 * k] == q[8 * k..8 * k + 8][i - 8 * k];
    }
  }

  /** r is what the division of p by g leaves. */
  ghost predicate Remainder(p: Poly, g: Poly, r: Poly) {
    g != [] && |r| == |g| - 1 <= |p|
    && exists q: Poly :: |q| == |p| - |r| && Product(q, g) == Sum(p, Zeros(|p| - |r|) + r)
  }

  // ---------------------------------------------------------------------------------------------
  // Bytes

  /** The bits of a byte, most significant first. */
  function BitsDown(b: bv8): (p: Poly)
    ensures |p| == 8
  {
    [b & 0x80 != 0, b & 0x40 != 0, b & 0x20 != 0, b & 0x10 != 0, b & 8 != 0, b & 4 != 0, b & 2 != 0, b & 1 != 0]
  }

  /** Least significant first. */
  function BitsUp(b: bv8): (p: Poly)
    ensures |p| == 8
  {
    [b & 1 != 0, b & 2 != 0, b & 4 != 0, b & 8 != 0, b & 0x10 != 0, b & 0x20 != 0, b & 0x40 != 0, b & 0x80 != 0]
  }

  /** The bits of some bytes, one byte after the other. */
  function Message(bits: bv8 -> Poly, bytes: seq<bv8>): Poly {
    if bytes == [] then [] else Message(bits, bytes[..|bytes| - 1]) + bits(bytes[|bytes| - 1])
  }

  predicate SameBits(b: bv8, c: bv8) {
    && (b & 1 != 0) == (c & 1 != 0) && (b & 2 != 0) == (c & 2 != 0)
    && (b & 4 != 0) == (c & 4 != 0) && (b & 8 != 0) == (c & 8 != 0)
    && (b & 0x10 != 0) == (c & 0x10 != 0) && (b & 0x20 != 0) == (c & 0x20 != 0)
    && (b & 0x40 != 0) == (c & 0x40 != 0) && (b & 0x80 != 0) == (c & 0x80 != 0)
  }

  lemma SameByte(b: bv8, c: bv8)
    requires SameBits(b, c)
    ensures b == c
  {
  }

  lemma DownTells(b: bv8, c: bv8)
    requires BitsDown(b) == BitsDown(c)
    ensures b == c
  {
    var p, q := BitsDown(b), BitsDown(c);
    assert SameBits(b, c) by {
      assert p[0] == q[0] && p[1] == q[1] && p[2] == q[2] && p[3] == q[3];
      assert p[4] == q[4] && p[5] == q[5] && p[6] == q[6] && p[7] == q[7];
    }
    SameByte(b, c);
  }

  lemma UpTells(b: bv8, c: bv8)
    requires BitsUp(b) == BitsUp(c)
    ensures b == c
  {
    var p, q := BitsUp(b), BitsUp(c);
    assert SameBits(b, c) by {
      assert p[0] == q[0] && p[1] == q[1] && p[2] == q[2] && p[3] == q[3];
      assert p[4] == q[4] && p[5] == q[5] && p[6] == q[6] && p[7] == q[7];
    }
    SameByte(b, c);
  }

  /** Two sequences of bytes of the same length with the same bits are the same. */
  lemma {:induction false} MessageTells(bits: bv8 -> Poly, a: seq<bv8>, b: seq<bv8>)
    requires |a| == |b| && Message(bits, a) == Message(bits, b)
    requires (forall c: bv8 :: |bits(c)| == 8) && forall c: bv8, d: bv8 :: bits(c) == bits(d) ==> c == d
    ensures a == b
  {
    if a != [] {
      var n := |a| - 1;
      var p, q := Message(bits, a[..n]), Message(bits, b[..n]);
      MessageSize(bits, a[..n]);
      MessageSize(bits, b[..n]);
      assert p == Message(bits, a)[..8 * n] && bits(a[n]) == Message(bits, a)[8 * n..];
      assert q == Message(bits, b)[..8 * n] && bits(b[n]) == Message(bits, b)[8 * n..];
      MessageTells(bits, a[..n], b[..n]);
      assert a == a[..n] + [a[n]] && b == b[..n] + [b[n]];
    }
  }

  lemma {:induction false} MessageSize(bits: bv8 -> Poly, bytes: seq<bv8>)
    requires forall c: bv8 :: |bits(c)| == 8
    ensures |Message(bits, bytes)| == 8 * |bytes|
  {
    if bytes != [] {
      MessageSize(bits, bytes[..|bytes| - 1]);
    }
  }

  lemma {:induction false} MessageEight(bits: bv8 -> Poly, bytes: seq<bv8>, k: nat)
    requires (forall c: bv8 :: |bits(c)| == 8) && k < |bytes|
    ensures |Message(bits, bytes)| == 8 * |bytes| && Message(bits, bytes)[8 * k..8 * k + 8] == bits(bytes[k])
  {
    MessageSize(bits, bytes);
    MessageSize(bits, bytes[..|bytes| - 1]);
    if k < |bytes| - 1 {
      MessageEight(bits, bytes[..|bytes| - 1], k);
    }
  }

  lemma {:induction false} MessageJoins(bits: bv8 -> Poly, a: seq<bv8>, b: seq<bv8>)
    ensures Message(bits, a + b) == Message(bits, a) + Message(bits, b)
  {
    if b == [] {
      assert a + b == a;
    } else {
      MessageJoins(bits, a, b[..|b| - 1]);
      assert (a + b)[..|a + b| - 1] == a + b[..|b| - 1];
    }
  }

  lemma MessageMore(bits: bv8 -> Poly, a: bv8, rest: seq<bv8>)
    ensures Message(bits, [a]) == bits(a) && Message(bits, [a] + rest) == bits(a) + Message(bits, rest)
  {
    assert [a][..0] == [];
    MessageJoins(bits, [a], rest);
  }

  lemma MessageFour(bits: bv8 -> Poly, a: bv8, b: bv8, c: bv8, d: bv8)
    ensures Message(bits, [a, b, c, d]) == bits(a) + (bits(b) + (bits(c) + bits(d)))
  {
    hide Message;
    MessageMore(bits, a, [b, c, d]);
    MessageMore(bits, b, [c, d]);
    MessageMore(bits, c, [d]);
    MessageMore(bits, d, []);
    assert [a, b, c, d] == [a] + [b, c, d] && [b, c, d] == [b] + [c, d] && [c, d] == [c] + [d];
  }

  /** The n bits that a register shifts out. */
  function Out<T>(top: T -> bool, next: T -> T, c: T, n: nat): (p: Poly)
    ensures |p| == n
    decreases n
  {
    if n == 0 then [] else [top(c)] + Out(top, next, next(c), n - 1)
  }

  function After<T>(next: T -> T, c: T, n: nat): T
    decreases n
  {
    if n == 0 then c else After(next, next(c), n - 1)
  }

  lemma {:induction false} OutJoins<T>(top: T -> bool, next: T -> T, c: T, n: nat, k: nat)
    ensures Out(top, next, c, n + k) == Out(top, next, c, n) + Out(top, next, After(next, c, n), k)
    ensures After(next, c, n + k) == After(next, After(next, c, n), k)
    decreases n
  {
    if n > 0 {
      OutJoins(top, next, next(c), n - 1, k);
    }
  }

  lemma OutStep<T>(top: T -> bool, next: T -> T, c: T, n: nat)
    requires n > 0
    ensures Out(top, next, c, n) == [top(c)] + Out(top, next, next(c), n - 1)
  {
  }

  lemma OutEight<T>(top: T -> bool, next: T -> T, c: T)
    ensures var c2, c4, c6 := next(next(c)), next(next(next(next(c)))), next(next(next(next(next(next(c))))));
            && Out(top, next, c, 8) ==
               [top(c), top(next(c)), top(c2), top(next(c2)), top(c4), top(next(c4)), top(c6), top(next(c6))]
            && After(next, c, 8) == next(next(c6))
  {
    OutJoins(top, next, c, 2, 6);
    OutJoins(top, next, next(next(c)), 2, 4);
    OutJoins(top, next, next(next(next(next(c)))), 2, 2);
  }

  /** A register that is empty after n bits takes in zeros. */
  lemma OutShifted<T>(top: T -> bool, next: T -> T, c: T, n: nat)
    requires n > 0 && !top(After(next, c, n))
    ensures Out(top, next, next(c), n) == Out(top, next, c, n)[1..] + [false]
  {
    OutJoins(top, next, c, n, 1);
    assert Out(top, next, c, n + 1)[1..] == Out(top, next, next(c), n);
  }

  // ---------------------------------------------------------------------------------------------
  // A shift register

  /** One bit into a register with feedback g. */
  function Step(g: Poly, r: Poly, b: bool): (r': Poly)
    requires |g| == |r| + 1 && r != []
    ensures |r'| == |r|
  {
    var shifted := r[1..] + [false];
    if r[0] != b then Sum(shifted, g[1..]) else shifted
  }

  function Feed(g: Poly, r: Poly, m: Poly): (r': Poly)
    requires |g| == |r| + 1 && r != []
    ensures |r'| == |r|
  {
    if m == [] then r else Step(g, Feed(g, r, m[..|m| - 1]), m[|m| - 1])
  }

  /** The bits that were fed back. */
  function Quotient(g: Poly, r: Poly, m: Poly): (q: Poly)
    requires |g| == |r| + 1 && r != []
    ensures |q| == |m|
  {
    if m == [] then [] else Quotient(g, r, m[..|m| - 1]) + [Feed(g, r, m[..|m| - 1])[0] != m[|m| - 1]]
  }

  /** What is divided: the message and as many zeros as the register is long, with the register's first value added at
      the front. */
  function Dividend(r: Poly, m: Poly): (p: Poly)
    ensures |p| == |r| + |m|
  {
    Sum(r + Zeros(|m|), m + Zeros(|r|))
  }

  lemma DividendMore(r: Poly, m: Poly, b: bool)
    requires r != []
    ensures var p, p' := Dividend(r, m), Dividend(r, m + [b]);
            && (forall i | 0 <= i < |p| && i != |m| :: p'[i] == p[i])
            && p'[|m|] == (p[|m|] != b) && !p'[|p|]
  {
  }

  lemma ProductMore(q: Poly, g: Poly, t: bool)
    requires g != []
    ensures Product(q + [t], g) == Sum(Product(q, g) + [false], Zeros(|q|) + if t then g else Zeros(|g|))
  {
    assert (q + [t])[..|q + [t]| - 1] == q;
  }

  lemma NothingDivided(g: Poly, r: Poly)
    requires |g| == |r| + 1
    ensures Product([], g) == Sum(Dividend(r, []), Zeros(0) + r)
  {
    assert Dividend(r, []) == r;
  }

  lemma {:induction false} FeedDivides(g: Poly, r: Poly, m: Poly)
    requires |g| == |r| + 1 && r != [] && g[0]
    ensures Product(Quotient(g, r, m), g) == Sum(Dividend(r, m), Zeros(|m|) + Feed(g, r, m))
  {
    hide Step, Product, Dividend, Sum, Zeros;
    if m == [] {
      NothingDivided(g, r);
    } else {
      var n, b := |m| - 1, m[|m| - 1];
      var front := m[..n];
      var s, q := Feed(g, r, front), Quotient(g, r, front);
      FeedDivides(g, r, front);
      assert m == front + [b];
      DividendMore(r, front, b);
      ProductMore(q, g, s[0] != b);
      DividesMore(g, Dividend(r, front), Dividend(r, m), s, n, b, Product(q, g));
    }
  }

  lemma StepBits(g: Poly, r: Poly, b: bool)
    requires |g| == |r| + 1 && r != []
    ensures forall k | 0 <= k < |r| ::
              Step(g, r, b)[k] == ((k + 1 < |r| && r[k + 1]) != (r[0] != b && g[k + 1]))
  {
  }

  /** One more bit: the difference of dividend and remainder is still a multiple of g. */
  lemma DividesMore(g: Poly, p: Poly, p': Poly, r: Poly, n: nat, b: bool, multiple: Poly)
    requires |g| == |r| + 1 && r != [] && g[0] && |p| == n + |r| && |p'| == |p| + 1
    requires (forall i | 0 <= i < |p| && i != n :: p'[i] == p[i]) && p'[n] == (p[n] != b) && !p'[|p|]
    requires multiple == Sum(p, Zeros(n) + r)
    ensures Sum(multiple + [false], Zeros(n) + if r[0] != b then g else Zeros(|g|)) ==
            Sum(p', Zeros(n + 1) + Step(g, r, b))
  {
    var t, next := r[0] != b, Step(g, r, b);
    StepBits(g, r, b);
    hide Step, Sum, Zeros;
    var x, y := Zeros(n) + (if t then g else Zeros(|g|)), Zeros(n + 1) + next;
    forall i | 0 <= i <= |p| ensures ((multiple + [false])[i] != x[i]) == (p'[i] != y[i]) {
      if n <= i {
        assert x[i] == (t && g[i - n]);
        assert i < |p| ==> (Zeros(n) + r)[i] == r[i - n];
      }
    }
  }

  /** The register holds the remainder. */
  lemma FeedIsRemainder(g: Poly, r: Poly, m: Poly)
    requires |g| == |r| + 1 && r != [] && g[0]
    ensures Remainder(Dividend(r, m), g, Feed(g, r, m))
  {
    FeedDivides(g, r, m);
    var q := Quotient(g, r, m);
    assert |q| == |Dividend(r, m)| - |r|;
  }

  // ---------------------------------------------------------------------------------------------
  // Pieces

  lemma {:induction false} FeedConcat(g: Poly, r: Poly, a: Poly, b: Poly)
    requires |g| == |r| + 1 && r != []
    ensures Feed(g, r, a + b) == Feed(g, Feed(g, r, a), b)
  {
    if b == [] {
      assert a + b == a;
    } else {
      FeedConcat(g, r, a, b[..|b| - 1]);
      assert (a + b)[..|a + b| - 1] == a + b[..|b| - 1];
    }
  }

  lemma FeedOne(g: Poly, r: Poly, b: bool)
    requires |g| == |r| + 1 && r != []
    ensures Feed(g, r, [b]) == Step(g, r, b)
  {
    assert [b][..0] == [];
  }

  /** Several bits may be added to the register at once, and then shifted out. */
  lemma {:induction false} MixedIn(g: Poly, r: Poly, m: Poly)
    requires |g| == |r| + 1 && r != [] && |m| <= |r|
    ensures Feed(g, Sum(r, m + Zeros(|r| - |m|)), Zeros(|m|)) == Feed(g, r, m)
    decreases |m|
  {
    var mixed := Sum(r, m + Zeros(|r| - |m|));
    if m == [] {
      assert mixed == r;
    } else {
      var next, rest := Step(g, r, m[0]), m[1..];
      assert Step(g, mixed, false) == Sum(next, rest + Zeros(|r| - |rest|));
      MixedIn(g, next, rest);
      assert Zeros(|m|) == [false] + Zeros(|rest|) && m == [m[0]] + rest;
      FeedConcat(g, mixed, [false], Zeros(|rest|));
      FeedConcat(g, r, [m[0]], rest);
      FeedOne(g, mixed, false);
      FeedOne(g, r, m[0]);
    }
  }

  // ---------------------------------------------------------------------------------------------
  // What a remainder tells apart

  lemma {:induction false} ProductSum(q: Poly, q': Poly, g: Poly)
    requires |q| == |q'| && g != []
    ensures Product(Sum(q, q'), g) == Sum(Product(q, g), Product(q', g))
  {
    if q != [] {
      ProductSum(q[..|q| - 1], q'[..|q| - 1], g);
      assert Sum(q, q')[..|q| - 1] == Sum(q[..|q| - 1], q'[..|q| - 1]);
    }
  }

  lemma {:induction false} ProductZero(n: nat, g: Poly)
    requires g != []
    ensures Product(Zeros(n), g) == Zeros(n + |g| - 1)
  {
    if n > 0 {
      ProductZero(n - 1, g);
      assert Zeros(n)[..n - 1] == Zeros(n - 1);
    }
  }

  /** A multiple whose upper coefficients are zero is zero. */
  lemma {:induction false} UpperZero(q: Poly, g: Poly)
    requires |g| > 1 && g[0] && forall i | 0 <= i < |q| :: !Product(q, g)[i]
    ensures q == Zeros(|q|)
  {
    hide Product, Zeros;
    if q != [] {
      var n, front := |q| - 1, q[..|q| - 1];
      ProductUpper(q, g);
      forall i | 0 <= i < n ensures !Product(front, g)[i] {
        assert !Product(q, g)[i];
      }
      UpperZero(front, g);
      ProductZero(n, g);
      assert !Product(q, g)[n];
    }
  }

  lemma ProductUpper(q: Poly, g: Poly)
    requires |g| > 1 && g[0] && q != []
    ensures var n := |q| - 1; var front := q[..n];
            && (forall i | 0 <= i < n :: Product(q, g)[i] == Product(front, g)[i])
            && Product(q, g)[n] == (Product(front, g)[n] != q[n])
  {
  }

  /** No polynomial of a degree less than that of g is a multiple of g, even with zeros at its end. */
  lemma {:induction false} NoMultiple(q: Poly, g: Poly, i: nat, d: Poly, j: nat)
    requires |g| > 1 && g[0] && g[|g| - 1] && |d| < |g| && Product(q, g) == Zeros(i) + d + Zeros(j)
    ensures d == Zeros(|d|)
    decreases j
  {
    var p := Zeros(i) + d + Zeros(j);
    if q == [] {
      assert d == p[i..i + |d|];
    } else if j == 0 {
      forall k | 0 <= k < |q| ensures !Product(q, g)[k] {
        assert !p[k];
      }
      UpperZero(q, g);
      ProductZero(|q|, g);
      assert d == p[i..i + |d|];
    } else {
      assert !p[|p| - 1];
      var front := q[..|q| - 1];
      assert Product(front, g) == p[..|p| - 1];
      assert p[..|p| - 1] == Zeros(i) + d + Zeros(j - 1);
      NoMultiple(front, g, i, d, j - 1);
    }
  }

  lemma SumZero(a: Poly, b: Poly)
    requires |a| == |b| && Sum(a, b) == Zeros(|a|)
    ensures a == b
  {
    forall i | 0 <= i < |a| ensures a[i] == b[i] {
      assert !Sum(a, b)[i];
    }
  }

  /** Messages that differ within as many bits in a row as the register is long leave different remainders. */
  lemma BurstDetected(g: Poly, r: Poly, before: Poly, a: Poly, b: Poly, after: Poly)
    requires |g| == |r| + 1 && r != [] && g[0] && g[|g| - 1] && |a| == |b| <= |r|
    requires Feed(g, r, before + a + after) == Feed(g, r, before + b + after)
    ensures a == b
  {
    hide *;
    Differ(g, r, before, a, b, after, before + a + after, before + b + after);
  }

  lemma Differ(g: Poly, r: Poly, before: Poly, a: Poly, b: Poly, after: Poly, m: Poly, m': Poly)
    requires |g| == |r| + 1 && r != [] && g[0] && g[|g| - 1] && |a| == |b| <= |r| && |m| == |m'|
    requires m == before + a + after && m' == before + b + after && Feed(g, r, m) == Feed(g, r, m')
    ensures a == b
  {
    hide *;
    var q := DifferenceMultiple(g, r, m, m');
    DividendsDiffer(r, before, a, b, after, m, m', Zeros(|m|) + Feed(g, r, m));
    NoMultiple(q, g, |before|, Sum(a, b), |after| + |r|);
    SumZero(a, b);
  }

  lemma DifferenceMultiple(g: Poly, r: Poly, m: Poly, m': Poly) returns (q: Poly)
    requires |g| == |r| + 1 && r != [] && g[0] && |m| == |m'| && Feed(g, r, m) == Feed(g, r, m')
    ensures var x := Zeros(|m|) + Feed(g, r, m); Product(q, g) == Sum(Sum(Dividend(r, m), x), Sum(Dividend(r, m'), x))
  {
    hide *;
    FeedDivides(g, r, m);
    FeedDivides(g, r, m');
    ProductSum(Quotient(g, r, m), Quotient(g, r, m'), g);
    q := Sum(Quotient(g, r, m), Quotient(g, r, m'));
  }

  lemma DividendsDiffer(r: Poly, before: Poly, a: Poly, b: Poly, after: Poly, m: Poly, m': Poly,
                        x: Poly)
    requires |a| == |b| && |x| == |r| + |m| && |m| == |m'| && m == before + a + after && m' == before + b + after
    ensures Sum(Sum(Dividend(r, m), x), Sum(Dividend(r, m'), x)) ==
            Zeros(|before|) + Sum(a, b) + Zeros(|after| + |r|)
  {
    hide Dividend, Sum, Zeros;
    DividendBits(r, m);
    DividendBits(r, m');
    var d := Sum(a, b);
    var y := Zeros(|before|) + d + Zeros(|after| + |r|);
    var p, p' := Dividend(r, m), Dividend(r, m');
    forall i | 0 <= i < |x| ensures ((p[i] != x[i]) != (p'[i] != x[i])) == y[i] {
      if i < |before| || i >= |before| + |a| {
        assert !y[i];
      } else {
        assert m[i] == a[i - |before|] && m'[i] == b[i - |before|] && y[i] == d[i - |before|];
      }
    }
  }

  lemma DividendBits(r: Poly, m: Poly)
    ensures forall i | 0 <= i < |r| + |m| :: Dividend(r, m)[i] == ((i < |r| && r[i]) != (i < |m| && m[i]))
  {
  }

  /** The same for bytes. */
  lemma BytesTell(g: Poly, r: Poly, bits: bv8 -> Poly, before: seq<bv8>, a: seq<bv8>, b: seq<bv8>, after: seq<bv8>)
    requires |g| == |r| + 1 && r != [] && g[0] && g[|g| - 1] && |a| == |b| && 8 * |a| <= |r|
    requires (forall c: bv8 :: |bits(c)| == 8) && forall c: bv8, d: bv8 :: bits(c) == bits(d) ==> c == d
    requires Feed(g, r, Message(bits, before + a + after)) == Feed(g, r, Message(bits, before + b + after))
    ensures a == b
  {
    hide *;
    MessageJoins(bits, before + a, after);
    MessageJoins(bits, before, a);
    MessageJoins(bits, before + b, after);
    MessageJoins(bits, before, b);
    MessageSize(bits, a);
    MessageSize(bits, b);
    BurstDetected(g, r, Message(bits, before), Message(bits, a), Message(bits, b), Message(bits, after));
    MessageTells(bits, a, b);
  }

  /** There is only one remainder. */
  lemma RemainderUnique(p: Poly, g: Poly, r: Poly, r': Poly)
    requires |g| > 1 && g[0] && g[|g| - 1] && Remainder(p, g, r) && Remainder(p, g, r')
    ensures r == r'
  {
    var n := |p| - |r|;
    var q :| |q| == n && Product(q, g) == Sum(p, Zeros(n) + r);
    var q' :| |q'| == n && Product(q', g) == Sum(p, Zeros(n) + r');
    ProductSum(q, q', g);
    assert Sum(Sum(p, Zeros(n) + r), Sum(p, Zeros(n) + r')) == Zeros(n) + Sum(r, r') + Zeros(0);
    NoMultiple(Sum(q, q'), g, n, Sum(r, r'), 0);
    SumZero(r, r');
  }
}

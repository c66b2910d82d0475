/** The search for CAN bit timings. */
module Timings {
  import opened CanFrames

  const UNSUPPORTED_BIT_RATE := 1000
  const MIN_BIT_RATE := 1000
  const MAX_PRESCALER := 1024
  const MAX_BS1 := 16
  const MAX_BS2 := 8
  const MAX_SAMPLE_POINT := 900         // per mille

  datatype Result = Solved(prescaler: nat, jumpWidth: nat, bs1: nat, bs2: nat) | Failed(error: int)

  function MaxQuanta(bitRate: nat): nat {
    if bitRate >= 1_000_000 then 10 else 17
  }

  /** q time quanta per bit divide the bit time evenly. */
  predicate Divides(q: nat, prescalerBs: nat) {
    3 <= q && prescalerBs % q == 0
  }

  /** The highest such number of quanta. */
  ghost predicate Best(q: nat, prescalerBs: nat, maxQuanta: nat) {
    q <= maxQuanta && Divides(q, prescalerBs) && forall p: nat | q < p <= maxQuanta :: !Divides(p, prescalerBs)
  }

  /** The sample point in per mille of the bit time, rounded down. */
  function SamplePoint(bs1: nat, bs2: nat): nat {
    1000 * (1 + bs1) / (1 + bs1 + bs2)
  }

  /** How far a sample point is from 7/8 of a bit, in eighths of a quantum. */
  function Deviation(bs1: nat, bs2: nat): nat {
    var d := 8 * (1 + bs1) - 7 * (1 + bs1 + bs2);
    if d < 0 then -d else d
  }

  /** A split of the bit time that the search may choose. */
  predicate Allowed(bs1: nat, bs2: nat) {
    bs1 >= 1 && bs2 >= 1 && SamplePoint(bs1, bs2) <= MAX_SAMPLE_POINT
  }

  /** Both segments fit the hardware, the sample point is at most at 90.0 %, and no other split that respects this comes
      closer to 7/8. */
  ghost predicate GoodSplit(bs1: nat, bs2: nat) {
    && Allowed(bs1, bs2) && bs1 <= MAX_BS1 && bs2 <= MAX_BS2
    && forall c: nat, d: nat | c + d == bs1 + bs2 && Allowed(c, d) :: Deviation(bs1, bs2) <= Deviation(c, d)
  }

  /** The split the search arrives at: rounded to nearest, or to zero if the sample point would be too late. */
  function Split(sum: nat): (bs1: nat)
    requires 2 <= sum <= 16
    ensures bs1 <= sum
  {
    var nearest := (7 * sum - 1 + 4) / 8;
    if SamplePoint(nearest, sum - nearest) > MAX_SAMPLE_POINT then (7 * sum - 1) / 8 else nearest
  }

  lemma Mono(a: nat, b: nat, m: nat)
    requires a <= b
    ensures a * m <= b * m
  {
    assert (b - a) * m >= 0;
  }

  lemma FloorBound(n: nat, m: nat, k: nat)
    requires m > 0
    ensures n / m <= k <==> n < (k + 1) * m
  {
    var q := n / m;
    if q <= k {
      Mono(q + 1, k + 1, m);
    } else {
      Mono(k + 1, q, m);
    }
  }

  lemma SampleBound(bs1: nat, bs2: nat)
    ensures SamplePoint(bs1, bs2) <= MAX_SAMPLE_POINT <==> 1000 * (1 + bs1) < 901 * (1 + bs1 + bs2)
  {
    FloorBound(1000 * (1 + bs1), 1 + bs1 + bs2, 900);
  }

  /** Rounding to nearest comes closest to 7/8, and rounding to zero does if that is too far. */
  lemma Closest(sum: nat, bs1: nat, c: nat)
    requires 2 <= sum <= 16 && bs1 <= sum && c < sum && 1000 * (1 + c) < 901 * (1 + sum)
    requires var nearest := (7 * sum - 1 + 4) / 8;
             if 1000 * (1 + nearest) < 901 * (1 + sum) then bs1 == nearest else bs1 == (7 * sum - 1) / 8
    ensures Deviation(bs1, sum - bs1) <= Deviation(c, sum - c)
  {
  }

  lemma SegmentsFit(sum: nat)
    requires 2 <= sum <= 16
    ensures var nearest := (7 * sum - 1 + 4) / 8; var lower := (7 * sum - 1) / 8;
            && 1 <= lower <= nearest <= MAX_BS1 && nearest <= sum && 1 <= sum - lower <= MAX_BS2
            && 1000 * (1 + lower) < 901 * (1 + sum) && (nearest == sum ==> 1000 * (1 + nearest) >= 901 * (1 + sum))
  {
  }

  lemma SplitIsGood(sum: nat)
    requires 2 <= sum <= 16
    ensures GoodSplit(Split(sum), sum - Split(sum))
  {
    hide SamplePoint, Deviation;
    var nearest, lower := (7 * sum - 1 + 4) / 8, (7 * sum - 1) / 8;
    SegmentsFit(sum);
    SampleBound(nearest, sum - nearest);
    SampleBound(lower, sum - lower);
    var bs1 := Split(sum);
    forall c: nat, d: nat | c + d == sum && Allowed(c, d) ensures Deviation(bs1, sum - bs1) <= Deviation(c, d) {
      SampleBound(c, d);
      Closest(sum, bs1, c);
    }
  }

  // ---------------------------------------------------------------------------------------------
  // The search

  /** The bit time in clock cycles. */
  function BitTime(clock: nat, bitRate: nat): nat
    requires bitRate > 0
  {
    clock / bitRate
  }

  /** The number of quanta q is found and gives a prescaler in range, and the bit rate comes out exactly. */
  ghost predicate Solvable(clock: nat, bitRate: nat, q: nat)
    requires bitRate > 0
  {
    && Best(q, BitTime(clock, bitRate), MaxQuanta(bitRate))
    && 1 <= BitTime(clock, bitRate) / q <= MAX_PRESCALER
    && clock % bitRate < BitTime(clock, bitRate)
  }

  lemma Exact(p: nat, q: nat)
    requires q > 0 && p % q == 0
    ensures p / q * q == p
  {
  }

  /** The bit rate that results is the one asked for exactly if the remainder of the division is less than the bit
      time. */
  lemma RateComesOut(clock: nat, bitRate: nat)
    requires bitRate > 0 && BitTime(clock, bitRate) > 0
    ensures clock / BitTime(clock, bitRate) == bitRate <==> clock % bitRate < BitTime(clock, bitRate)
  {
    var p, r := clock / bitRate, clock % bitRate;
    assert clock == bitRate * p + r;
    if r < p {
      Field(clock, p, bitRate, r);
    } else {
      FloorBound(clock, p, bitRate);
    }
  }

  lemma BestUnique(q: nat, p: nat, prescalerBs: nat, maxQuanta: nat)
    requires Best(q, prescalerBs, maxQuanta) && Best(p, prescalerBs, maxQuanta)
    ensures q == p
  {
    hide Divides;
  }

  /** If the highest number of quanta does not do, nothing does. */
  lemma Unsolvable(clock: nat, bitRate: nat, q: nat)
    requires bitRate > 0 && Best(q, BitTime(clock, bitRate), MaxQuanta(bitRate)) && !Solvable(clock, bitRate, q)
    ensures forall p: nat :: !Solvable(clock, bitRate, p)
  {
    hide Divides, BitTime, MaxQuanta, Best;
    forall p: nat ensures !Solvable(clock, bitRate, p) {
      if Best(p, BitTime(clock, bitRate), MaxQuanta(bitRate)) {
        BestUnique(q, p, BitTime(clock, bitRate), MaxQuanta(bitRate));
      }
    }
  }

  lemma NoneDivides(clock: nat, bitRate: nat)
    requires bitRate > 0 && forall p: nat | 3 <= p <= MaxQuanta(bitRate) :: !Divides(p, BitTime(clock, bitRate))
    ensures forall p: nat :: !Solvable(clock, bitRate, p)
  {
    hide BitTime, MaxQuanta;
  }

  /** Solves for the best timings, or fails exactly if there are none: with the most quanta per bit, at most 10 for
      1 Mbit/s and more and 17 otherwise, a prescaler up to 1024, and a sample point up to 90.0 %. */
  method ComputeCANTimings(clock: nat, bitRate: nat) returns (r: Result)
    ensures bitRate < 1000 ==> r == Failed(-1000)
    ensures bitRate >= 1000 ==>
              (r.Solved? <==> exists q: nat :: Best(q, clock / bitRate, if bitRate >= 1_000_000 then 10 else 17)
                                            && 1 <= clock / bitRate / q <= 1024 && clock % bitRate < clock / bitRate)
    ensures r.Failed? ==> r == Failed(-1000)
    ensures r.Solved? ==>
              && r.jumpWidth == 1 && 1 <= r.prescaler <= 1024 && GoodSplit(r.bs1, r.bs2)
              && r.bs1 <= 16 && r.bs2 <= 8 && 1000 * (1 + r.bs1) / (1 + r.bs1 + r.bs2) <= 900
              && Best(1 + r.bs1 + r.bs2, clock / bitRate, if bitRate >= 1_000_000 then 10 else 17)
              && r.prescaler * (1 + r.bs1 + r.bs2) == clock / bitRate
              && clock / (r.prescaler * (1 + r.bs1 + r.bs2)) == bitRate
  {
    hide GoodSplit, Split, Solvable, Best;
    if bitRate < MIN_BIT_RATE {
      return Failed(-UNSUPPORTED_BIT_RATE);
    }
    SolvableMeans(clock, bitRate, clock / bitRate, if bitRate >= 1_000_000 then 10 else 17);
    var sum := FindQuanta(clock, bitRate);
    if sum == 0 {
      NoneDivides(clock, bitRate);
      return Failed(-UNSUPPORTED_BIT_RATE);
    }
    var q := 1 + sum;
    var prescalerBs := clock / bitRate;
    var prescaler := prescalerBs / q;
    SolvableIs(clock, bitRate, q);
    if prescaler < 1 || prescaler > MAX_PRESCALER {
      Unsolvable(clock, bitRate, q);
      return Failed(-UNSUPPORTED_BIT_RATE);
    }
    Exact(prescalerBs, q);
    RateComesOut(clock, bitRate);
    var bs1, valid := FindSegments(sum);
    var bs2 := sum - bs1;
    GoodFits(bs1, bs2);
    if bitRate != clock / (prescaler * (1 + bs1 + bs2)) || !valid {
      Unsolvable(clock, bitRate, q);
      return Failed(-UNSUPPORTED_BIT_RATE);
    }
    r := Solved(prescaler, 1, bs1, bs2);
  }

  lemma SolvableMeans(clock: nat, bitRate: nat, cycles: nat, most: nat)
    requires bitRate > 0 && cycles == clock / bitRate && most == if bitRate >= 1_000_000 then 10 else 17
    ensures forall q: nat {:trigger Best(q, cycles, most)} {:trigger Solvable(clock, bitRate, q)} ::
              Solvable(clock, bitRate, q) <==>
              Best(q, cycles, most) && 1 <= cycles / q <= 1024 && clock % bitRate < cycles
  {
    forall q: nat ensures Solvable(clock, bitRate, q) <==>
                          Best(q, cycles, most) && 1 <= cycles / q <= 1024 && clock % bitRate < cycles
    {
      assert BitTime(clock, bitRate) == cycles && MaxQuanta(bitRate) == most;
    }
  }

  /** The split is the one of all that respect the sample point that comes closest to 7/8. */
  lemma ClosestSplit(bs1: nat, bs2: nat, c: nat, d: nat)
    requires GoodSplit(bs1, bs2) && c + d == bs1 + bs2 && c >= 1 && d >= 1 && 1000 * (1 + c) / (1 + c + d) <= 900
    ensures var q := 1 + bs1 + bs2;
            Distance(8 * (1 + bs1), 7 * q) <= Distance(8 * (1 + c), 7 * q)
  {
    assert Allowed(c, d);
  }

  function Distance(a: int, b: int): int {
    if a < b then b - a else a - b
  }

  lemma SolvableIs(clock: nat, bitRate: nat, q: nat)
    requires bitRate > 0 && Best(q, BitTime(clock, bitRate), MaxQuanta(bitRate))
    ensures Solvable(clock, bitRate, q) <==>
            1 <= BitTime(clock, bitRate) / q <= MAX_PRESCALER && clock % bitRate < BitTime(clock, bitRate)
    ensures BitTime(clock, bitRate) % q == 0
    ensures BitTime(clock, bitRate) / q >= 1 ==> BitTime(clock, bitRate) >= 1
  {
    hide BitTime, MaxQuanta;
    if BitTime(clock, bitRate) == 0 {
      Field(0, q, 0, 0);
    }
  }

  /** The quanta but one, or 0 if no number of quanta divides the bit time. */
  method FindQuanta(clock: nat, bitRate: nat) returns (sum: nat)
    requires bitRate > 0
    ensures sum != 0 ==> 2 <= sum <= 16 && Best(1 + sum, BitTime(clock, bitRate), MaxQuanta(bitRate))
    ensures sum == 0 ==> forall p: nat | 3 <= p <= MaxQuanta(bitRate) :: !Divides(p, BitTime(clock, bitRate))
  {
    var maxQuanta := MaxQuanta(bitRate);
    var prescalerBs := clock / bitRate;
    sum := maxQuanta - 1;
    while prescalerBs % (1 + sum) != 0
      invariant 2 <= sum <= maxQuanta - 1
      invariant forall p: nat | 1 + sum < p <= maxQuanta :: !Divides(p, prescalerBs)
      decreases sum
    {
      if sum <= 2 {
        return 0;
      }
      sum := sum - 1;
    }
  }

  /** Splits the quanta into two segments around the sample point. */
  method FindSegments(sum: nat) returns (bs1: nat, valid: bool)
    requires 2 <= sum <= 16
    ensures bs1 <= sum && valid && GoodSplit(bs1, sum - bs1)
  {
    hide GoodSplit, SamplePoint;
    bs1 := (7 * sum - 1 + 4) / 8;
    var bs2 := sum - bs1;
    var samplePoint := SamplePoint(bs1, bs2);
    if samplePoint > MAX_SAMPLE_POINT {
      bs1 := (7 * sum - 1) / 8;
      bs2 := sum - bs1;
    }
    SplitIsGood(sum);
    valid := 1 <= bs1 <= MAX_BS1 && 1 <= bs2 <= MAX_BS2;
    GoodFits(bs1, bs2);
  }

  lemma GoodFits(bs1: nat, bs2: nat)
    requires GoodSplit(bs1, bs2)
    ensures 1 <= bs1 <= MAX_BS1 && 1 <= bs2 <= MAX_BS2 && SamplePoint(bs1, bs2) <= MAX_SAMPLE_POINT
  {
  }

  /** For a clock that is a multiple of the bit rate the exactness condition is void. */
  lemma DividingClock(clock: nat, bitRate: nat, q: nat)
    requires bitRate > 0 && clock % bitRate == 0
    ensures Solvable(clock, bitRate, q) <==>
            Best(q, clock / bitRate, MaxQuanta(bitRate)) && 1 <= clock / bitRate / q <= MAX_PRESCALER
  {
    if Best(q, clock / bitRate, MaxQuanta(bitRate)) && clock / bitRate == 0 {
      assert 0 / q == 0;
    }
  }
}

/** The emission schedule in 32-bit fixed point: a closed form by truncating binary
    exponentiation, a step-by-step form, and the cumulative supply built on them. */
module Emission {

  const ONE: nat := 0x1_0000_0000
  const DECAY_FP: nat := 4_294_964_465
  const INITIAL_REWARD: nat := 1_383_764_049
  const TAIL_REWARD: nat := 79_853_981

  /** Fixed-point product, rounded down. */
  function MulShift(a: nat, b: nat): nat {
    a * b / ONE
  }

  function PowLoop(result: nat, base: nat, exp: nat): nat
    decreases exp
  {
    if exp == 0 then result
    else PowLoop(if exp % 2 == 1 then MulShift(result, base) else result, MulShift(base, base), exp / 2)
  }

  function FixedPow(exp: nat): nat {
    PowLoop(ONE, DECAY_FP, exp)
  }

  method FixedPowDecay(e: nat) returns (result: nat)
    ensures result == FixedPow(e)
  {
    result := ONE;
    var base, exp := DECAY_FP, e;
    while exp > 0
      invariant PowLoop(result, base, exp) == FixedPow(e)
    {
      if exp % 2 == 1 { result := MulShift(result, base); }
      base := MulShift(base, base);
      exp := exp / 2;
    }
  }

  function Floored(reward: nat): nat {
    if reward <= TAIL_REWARD then TAIL_REWARD else reward
  }

  function ClosedReward(height: nat): nat {
    if height == 0 then 0
    else if height == 1 then INITIAL_REWARD
    else Floored(MulShift(INITIAL_REWARD, FixedPow(height - 1)))
  }

  /** The reward after `n` decay steps, before the tail floor. */
  function SteppedRaw(n: nat): nat {
    if n == 0 then INITIAL_REWARD else MulShift(SteppedRaw(n - 1), DECAY_FP)
  }

  function SteppedReward(height: nat): nat {
    if height == 0 then 0 else Floored(SteppedRaw(height - 1))
  }

  method ExpectedReward(height: nat) returns (reward: nat)
    ensures reward == SteppedReward(height)
  {
    if height == 0 { return 0; }
    reward := INITIAL_REWARD;
    for i := 1 to height
      invariant reward == SteppedRaw(i - 1)
    {
      reward := MulShift(reward, DECAY_FP);
      if reward <= TAIL_REWARD {
        SteppedDecreases(i, height - 1);
        return TAIL_REWARD;
      }
    }
    if reward < TAIL_REWARD { reward := TAIL_REWARD; }
  }

  // ----- fixed point against exact powers -----

  function RealPow(x: real, n: nat): real {
    if n == 0 then 1.0 else x * RealPow(x, n - 1)
  }

  const RATE: real := DECAY_FP as real / ONE as real

  /** 2^32 times the exact power of the decay rate. */
  function Exact(e: nat): real {
    ONE as real * RealPow(RATE, e)
  }

  lemma {:induction false} RealMulMono(a: real, b: real, c: real)
    requires 0.0 <= a && b <= c
    ensures a * b <= a * c
  {
  }

  lemma {:induction false} ProductBound(a: real, b: real, c: real, d: real)
    requires 0.0 <= a <= b && 0.0 <= c <= d
    ensures 0.0 <= a * c <= b * d
  {
    RealMulMono(a, c, d);
    RealMulMono(d, a, b);
  }

  lemma {:induction false} UnitProduct(x: real, y: real)
    requires 0.0 <= x <= 1.0 && 0.0 <= y <= 1.0
    ensures 0.0 <= x * y <= 1.0
  {
    ProductBound(x, 1.0, y, 1.0);
  }

  lemma {:induction false} RealPowUnit(x: real, n: nat)
    requires 0.0 <= x <= 1.0
    ensures 0.0 <= RealPow(x, n) <= 1.0
  {
    if n > 0 {
      RealPowUnit(x, n - 1);
      UnitProduct(x, RealPow(x, n - 1));
    }
  }

  lemma {:induction false} RealPowSquare(x: real, n: nat)
    ensures RealPow(x * x, n) == RealPow(x, 2 * n)
  {
    if n > 0 {
      RealPowSquare(x, n - 1);
      assert RealPow(x, 2 * n) == x * (x * RealPow(x, 2 * n - 2));
    }
  }

  /** `v` is `x`, scaled by 2^32, from below and within `err`. */
  predicate Near(v: nat, x: real, err: nat) {
    0.0 <= x <= 1.0 && ONE as real * x - err as real <= v as real <= ONE as real * x
  }

  /** Two factors below `s`, each short by some error, give a product short by at most
      `s` times the sum of the errors. */
  lemma {:induction false} ProductGap(a: real, x: real, ea: real, b: real, y: real, eb: real, s: real)
    requires 0.0 <= a <= x <= s && x - a <= ea
    requires 0.0 <= b <= y <= s && y - b <= eb
    ensures 0.0 <= x * y - a * b <= s * (ea + eb)
  {
    var p, q := y * (x - a), a * (y - b);
    ProductBound(y, s, x - a, ea);
    ProductBound(a, s, y - b, eb);
    assert x * y - a * b == p + q;
    assert s * (ea + eb) == s * ea + s * eb;
  }

  lemma {:induction false} MulShiftReal(a: nat, b: nat)
    ensures var q := MulShift(a, b) as real * ONE as real;
            q <= a as real * b as real < q + ONE as real
  {
    var q := MulShift(a, b);
    assert q * ONE <= a * b < q * ONE + ONE;
    assert (q * ONE) as real == q as real * ONE as real;
    assert (a * b) as real == a as real * b as real;
  }

  lemma {:induction false} ScaledGap(a: real, x: real, ea: real, b: real, y: real, eb: real, s: real)
    requires 0.0 <= a <= s * x <= s && s * x - a <= ea
    requires 0.0 <= b <= s * y <= s && s * y - b <= eb
    ensures 0.0 <= s * (s * (x * y)) - a * b <= s * (ea + eb)
  {
    ScaledProduct(s, x, y);
    ProductGap(a, s * x, ea, b, s * y, eb, s);
  }

  /** The product of two scaled numbers lies below `z`, scaled twice, by at most `err`. */
  predicate Short(product: real, z: real, err: nat) {
    0.0 <= z <= 1.0 && 0.0 <= ONE as real * (ONE as real * z) - product <= ONE as real * err as real
  }

  lemma {:induction false} NearShort(a: nat, x: real, ea: nat, b: nat, y: real, eb: nat)
    requires Near(a, x, ea) && Near(b, y, eb)
    ensures Short(a as real * b as real, x * y, ea + eb)
  {
    NearBounds(a, x, ea);
    NearBounds(b, y, eb);
    hide Near;
    ScaledGap(a as real, x, ea as real, b as real, y, eb as real, ONE as real);
    UnitProduct(x, y);
  }

  /** Rounding down a product adds the two errors and one unit. */
  lemma {:induction false} MulShiftNear(a: nat, x: real, ea: nat, b: nat, y: real, eb: nat)
    requires Near(a, x, ea) && Near(b, y, eb)
    ensures Near(MulShift(a, b), x * y, ea + eb + 1)
  {
    hide Near, Short, MulShift;
    NearShort(a, x, ea, b, y, eb);
    MulShiftReal(a, b);
    NearFromProduct(MulShift(a, b), x * y, a as real * b as real, ea + eb);
  }

  lemma {:induction false} NearBounds(v: nat, x: real, err: nat)
    requires Near(v, x, err)
    ensures 0.0 <= x <= 1.0
    ensures 0.0 <= v as real <= ONE as real * x <= ONE as real
    ensures ONE as real * x - v as real <= err as real
  {
  }

  lemma {:induction false} ScaledProduct(s: real, x: real, y: real)
    ensures (s * x) * (s * y) == s * (s * (x * y))
  {
  }

  /** Dividing a product that is short by `s * err` loses at most one more unit. */
  lemma {:induction false} NearFromProduct(q: nat, z: real, product: real, err: nat)
    requires q as real * ONE as real <= product < q as real * ONE as real + ONE as real
    requires Short(product, z, err)
    ensures Near(q, z, err + 1)
  {
  }

  /** What is left of an exponentiation: the exact value it must reach and the error it
      may have collected when bits of weight `k` and more remain. */
  predicate Owed(x: real, d: nat, y: real, k: nat, exp: nat, z: real, err: nat) {
    z == x * RealPow(y, exp) && err == d + k * exp
  }

  lemma {:induction false} OwedOdd(x: real, d: nat, y: real, k: nat, exp: nat, z: real, err: nat)
    requires exp % 2 == 1 && Owed(x, d, y, k, exp, z, err)
    ensures Owed(x * y, d + k, y * y, 2 * k, exp / 2, z, err)
  {
    var half := exp / 2;
    RealPowSquare(y, half);
    var p := RealPow(y, 2 * half);
    assert x * RealPow(y, exp) == (x * y) * p;
    assert k * exp == k + 2 * k * half;
  }

  lemma {:induction false} OwedEven(x: real, d: nat, y: real, k: nat, exp: nat, z: real, err: nat)
    requires exp % 2 == 0 && Owed(x, d, y, k, exp, z, err)
    ensures Owed(x, d, y * y, 2 * k, exp / 2, z, err)
  {
    RealPowSquare(y, exp / 2);
    assert k * exp == 2 * k * (exp / 2);
  }

  /** Each exponent bit of weight k adds k to the error, so the total is the exponent. */
  lemma {:induction false} PowLoopNear(
    result: nat, x: real, d: nat, base: nat, y: real, k: nat, exp: nat, z: real, err: nat)
    requires k >= 1 && Near(result, x, d) && Near(base, y, k - 1) && Owed(x, d, y, k, exp, z, err)
    ensures Near(PowLoop(result, base, exp), z, err)
    decreases exp
  {
    if exp > 0 {
      hide Near, MulShift, Owed;
      MulShiftNear(base, y, k - 1, base, y, k - 1);
      if exp % 2 == 1 {
        OwedOdd(x, d, y, k, exp, z, err);
        MulShiftNear(result, x, d, base, y, k - 1);
        PowLoopNear(MulShift(result, base), x * y, d + k, MulShift(base, base), y * y, 2 * k, exp / 2, z, err);
      } else {
        OwedEven(x, d, y, k, exp, z, err);
        PowLoopNear(result, x, d, MulShift(base, base), y * y, 2 * k, exp / 2, z, err);
      }
    }
  }

  /** For every exponent the truncated power is within `e` units below the exact one. */
  lemma {:induction false} PowError(e: nat)
    ensures Exact(e) - e as real <= FixedPow(e) as real <= Exact(e)
  {
    PowLoopNear(ONE, 1.0, 0, DECAY_FP, RATE, 1, e, RealPow(RATE, e), e);
  }

  // ----- closed form against stepped form -----

  lemma {:induction false} MulShiftMono(a: nat, b: nat, c: nat)
    requires a <= b
    ensures MulShift(a, c) <= MulShift(b, c)
  {
    assert a * c <= b * c;
  }

  lemma {:induction false} SteppedDecreases(m: nat, n: nat)
    requires m <= n
    ensures SteppedRaw(n) <= SteppedRaw(m)
    decreases n
  {
    if m < n {
      SteppedDecreases(m, n - 1);
      assert SteppedRaw(n - 1) * DECAY_FP <= SteppedRaw(n - 1) * ONE;
    }
  }

  function ExactReward(n: nat): real {
    INITIAL_REWARD as real * RealPow(RATE, n)
  }

  lemma {:induction false} ShiftByRate(p: nat)
    ensures var q := MulShift(p, DECAY_FP) as real; q <= p as real * RATE < q + 1.0
  {
    MulShiftReal(p, DECAY_FP);
    hide MulShift;
    assert RATE * ONE as real == DECAY_FP as real;
    ScaledBounds(MulShift(p, DECAY_FP) as real, p as real * RATE, ONE as real);
  }

  lemma {:induction false} ScaledBounds(q: real, x: real, s: real)
    requires s > 0.0 && q * s <= x * s < q * s + s
    ensures q <= x < q + 1.0
  {
    if x < q { RealMulMono(s, x, q); }
    if q + 1.0 <= x { RealMulMono(s, q + 1.0, x); }
  }

  lemma {:induction false} RateStep(p: real, q: real, x: real, err: real)
    requires q <= p * RATE < q + 1.0 && 0.0 <= x - p <= err
    ensures q <= RATE * x && RATE * x - (err + 1.0) < q
  {
    RateShrinks(x - p);
    assert RATE * x == RATE * p + RATE * (x - p);
  }

  lemma {:induction false} RateShrinks(x: real)
    requires 0.0 <= x
    ensures 0.0 <= RATE * x <= x
  {
    RealMulMono(x, 0.0, RATE);
    RealMulMono(x, RATE, 1.0);
  }

  /** Each decay step loses less than one unit more. */
  lemma {:induction false} SteppedError(n: nat)
    ensures SteppedRaw(n) as real <= ExactReward(n)
    ensures n == 0 || ExactReward(n) - n as real < SteppedRaw(n) as real
    ensures n == 0 ==> SteppedRaw(n) as real == ExactReward(n)
  {
    if n > 0 {
      SteppedError(n - 1);
      assert ExactReward(n) == RATE * ExactReward(n - 1);
      ShiftByRate(SteppedRaw(n - 1));
      hide MulShift, ExactReward;
      RateStep(SteppedRaw(n - 1) as real, SteppedRaw(n) as real, ExactReward(n - 1), (n - 1) as real);
    }
  }

  lemma {:induction false} ClosedError(n: nat)
    ensures var c := MulShift(INITIAL_REWARD, FixedPow(n)) as real;
            ExactReward(n) - n as real / 3.0 - 1.0 < c <= ExactReward(n)
  {
    PowError(n);
    var s, p, q := ONE as real, FixedPow(n), MulShift(INITIAL_REWARD, FixedPow(n));
    assert q * ONE <= INITIAL_REWARD * p < q * ONE + ONE;
    assert (q as real) * s <= INITIAL_REWARD as real * p as real < (q as real) * s + s;
    assert INITIAL_REWARD as real * Exact(n) == s * ExactReward(n);
  }

  /** The two forms never differ by more than h - 2 units from height 2 on, and agree at
      height 1, tail floor included. */
  lemma {:induction false} FormsAgree(h: nat)
    requires h >= 1
    ensures var bound := if h == 1 then 0 else h - 2;
            -bound <= ClosedReward(h) - SteppedReward(h) <= bound
  {
    var n := h - 1;
    if n == 1 {
      assert PowLoop(DECAY_FP, MulShift(DECAY_FP, DECAY_FP), 0) == DECAY_FP;
      assert FixedPow(1) == DECAY_FP;
      assert SteppedRaw(0) == INITIAL_REWARD;
    } else if n > 1 {
      SteppedError(n);
      ClosedError(n);
      var c: int, r: int := MulShift(INITIAL_REWARD, FixedPow(n)), SteppedRaw(n);
      assert (c - r) as real < n as real;
      assert (r - c) as real < n as real;
    }
  }

  /** The larger of the tail and the exact reward of a height. */
  function Ideal(height: nat): real
    requires height >= 1
  {
    var exact := ExactReward(height - 1);
    if exact < 79_853_981.0 then 79_853_981.0 else exact
  }

  lemma {:induction false} FirstReward()
    ensures ExactReward(0) == INITIAL_REWARD as real
  {
  }

  lemma {:induction false} FloorNear(raw: nat, exact: real, err: real)
    requires err > 0.0 && exact - err < raw as real <= exact
    ensures var ideal := if exact < 79_853_981.0 then 79_853_981.0 else exact;
            ideal - err < Floored(raw) as real <= ideal
  {
  }

  /** At height 0 there is no reward; from height 1 on both forms lie below the larger of the
      tail and the exact reward, by less than the height. */
  lemma {:induction false} RewardError(h: nat)
    ensures h == 0 ==> ClosedReward(h) == SteppedReward(h) == 0
    ensures h >= 1 ==> Ideal(h) - h as real < ClosedReward(h) as real <= Ideal(h)
    ensures h >= 1 ==> Ideal(h) - h as real < SteppedReward(h) as real <= Ideal(h)
  {
    if h >= 1 {
      var n := h - 1;
      SteppedError(n);
      ClosedError(n);
      FirstReward();
      hide FixedPow, MulShift, ExactReward, SteppedRaw, Floored;
      FloorNear(SteppedRaw(n), ExactReward(n), h as real);
      FloorNear(MulShift(INITIAL_REWARD, FixedPow(n)), ExactReward(n), h as real);
    }
  }

  // ----- monotonicity of the closed form -----

  lemma {:induction false} PowLoopMono(a: nat, b: nat, base: nat, exp: nat)
    requires a <= b
    ensures PowLoop(a, base, exp) <= PowLoop(b, base, exp)
    decreases exp
  {
    hide MulShift;
    if exp > 0 {
      MulShiftMono(a, b, base);
      PowLoopMono(if exp % 2 == 1 then MulShift(a, base) else a, if exp % 2 == 1 then MulShift(b, base) else b,
                  MulShift(base, base), exp / 2);
    }
  }

  /** Carry induction: adding one to the exponent replaces a run of low bases, whose
      truncated product is `c`, by the next base, which is no larger. */
  lemma {:induction false} PowLoopCarry(c: nat, base: nat, exp: nat)
    requires base <= c <= ONE
    ensures PowLoop(ONE, base, exp + 1) <= PowLoop(c, base, exp)
    decreases exp
  {
    MulShiftOne(base);
    hide MulShift;
    var square := MulShift(base, base);
    if exp % 2 == 0 {
      PowLoopMono(base, c, square, exp / 2);
      if exp == 0 { assert PowLoop(ONE, base, 1) == PowLoop(base, square, 0); }
    } else {
      MulShiftMono(base, c, base);
      MulShiftMono(c, ONE, base);
      PowLoopCarry(MulShift(c, base), square, exp / 2);
    }
  }

  lemma {:induction false} MulShiftOne(b: nat)
    ensures MulShift(ONE, b) == b
  {
  }

  lemma {:induction false} PowDecreases(m: nat, n: nat)
    requires m <= n
    ensures FixedPow(n) <= FixedPow(m)
    decreases n
  {
    if m < n {
      PowDecreases(m, n - 1);
      PowLoopCarry(ONE, DECAY_FP, n - 1);
    }
  }

  /** From height 1 on the reward never rises, never exceeds the initial reward and never
      falls below the tail, despite truncation. */
  lemma {:induction false} RewardDecreases(g: nat, h: nat)
    requires 1 <= g <= h
    ensures TAIL_REWARD <= ClosedReward(h) <= ClosedReward(g) <= INITIAL_REWARD
  {
    PowDecreases(0, g - 1);
    PowDecreases(g - 1, h - 1);
    MulShiftMono(FixedPow(h - 1), FixedPow(g - 1), INITIAL_REWARD);
    MulShiftMono(FixedPow(g - 1), ONE, INITIAL_REWARD);
    assert MulShift(ONE, INITIAL_REWARD) == INITIAL_REWARD;
  }

  // ----- cumulative supply -----

  function Supply(height: nat): nat {
    if height == 0 then 0 else Supply(height - 1) + ClosedReward(height)
  }

  method ExpectedCumulativeSupply(height: nat) returns (total: nat)
    ensures total == Supply(height)
  {
    total := 0;
    for h := 0 to height
      invariant total == Supply(h)
    {
      var reward := ComputeClosedReward(h + 1);
      total := total + reward;
    }
  }

  method ComputeClosedReward(height: nat) returns (reward: nat)
    ensures reward == ClosedReward(height)
  {
    if height == 0 { return 0; }
    if height == 1 { return INITIAL_REWARD; }
    var decay := FixedPowDecay(height - 1);
    reward := INITIAL_REWARD * decay / ONE;
    if reward <= TAIL_REWARD { return TAIL_REWARD; }
  }

  /** What the schedule would mint in exact arithmetic. */
  function IdealSupply(height: nat): real {
    if height == 0 then 0.0 else IdealSupply(height - 1) + Ideal(height)
  }

  lemma {:induction false} NextTriangle(h: nat)
    requires h > 0
    ensures h * (h + 1) / 2 == (h - 1) * h / 2 + h
  {
    assert h * (h + 1) == (h - 1) * h + 2 * h;
  }

  /** The supply stays below the ideal one, by at most h (h + 1) / 2. */
  lemma {:induction false} SupplyError(h: nat)
    ensures IdealSupply(h) - (h * (h + 1) / 2) as real <= Supply(h) as real <= IdealSupply(h)
  {
    if h > 0 {
      SupplyError(h - 1);
      RewardError(h);
      NextTriangle(h);
      hide Ideal, ClosedReward;
      var triangle, lower: nat := h * (h + 1) / 2, (h - 1) * h / 2;
      assert triangle as real == lower as real + h as real;
    }
  }

  /** A commitment to a value under a blinding scalar; addition is componentwise. */
  datatype Commitment = Commitment(value: int, blind: int)

  function Plus(a: Commitment, b: Commitment): Commitment {
    Commitment(a.value + b.value, a.blind + b.blind)
  }

  function BlindSum(blind: nat -> int, height: nat): int {
    if height == 0 then 0 else BlindSum(blind, height - 1) + blind(height)
  }

  /** An entry commits to the whole supply minted up to its position. */
  predicate CommitsToSupply(blind: nat -> int, commits: seq<(int, Commitment)>, i: nat) {
    i < |commits| && commits[i] == (i + 1, Commitment(Supply(i + 1), BlindSum(blind, i + 1)))
  }

  /** The audit accepts exactly the lists in which entry i carries height i + 1 and commits
      to the supply at that height; `blind` is the scalar each height derives. */
  method VerifyCumulativeSupply(blind: nat -> int, commits: seq<(int, Commitment)>) returns (ok: bool)
    ensures ok <==> forall i: nat :: i < |commits| ==> CommitsToSupply(blind, commits, i)
  {
    hide ClosedReward;
    var expected, expectedHeight := Commitment(0, 0), 1;
    for i := 0 to |commits|
      invariant expectedHeight == i + 1
      invariant expected == Commitment(Supply(i), BlindSum(blind, i))
      invariant forall j: nat :: j < i ==> CommitsToSupply(blind, commits, j)
    {
      var (height, commit) := commits[i];
      if height != expectedHeight {
        assert !CommitsToSupply(blind, commits, i);
        return false;
      }
      var reward := ComputeClosedReward(expectedHeight);
      expected := Plus(expected, Commitment(reward, blind(expectedHeight)));
      assert expected == Commitment(Supply(i + 1), BlindSum(blind, i + 1));
      if expected != commit {
        assert !CommitsToSupply(blind, commits, i);
        return false;
      }
      expectedHeight := expectedHeight + 1;
    }
    return true;
  }

  /** Entry `i` adds to the entry before it, or to nothing, a commitment to the reward of its
      height under that height's scalar. */
  predicate AddsReward(blind: nat -> int, commits: seq<(int, Commitment)>, i: nat) {
    && i < |commits| && commits[i].0 == i + 1
    && var before := if i == 0 then Commitment(0, 0) else commits[i - 1].1;
       && commits[i].1.value == before.value + ClosedReward(i + 1)
       && commits[i].1.blind == before.blind + blind(i + 1)
  }

  /** What the audit accepts are exactly the lists in which every entry adds its reward. */
  lemma {:induction false} AuditExactly(blind: nat -> int, commits: seq<(int, Commitment)>, n: nat)
    requires n <= |commits|
    ensures (forall i: nat :: i < n ==> CommitsToSupply(blind, commits, i)) <==>
            (forall i: nat :: i < n ==> AddsReward(blind, commits, i))
  {
    if n > 0 {
      hide ClosedReward;
      AuditExactly(blind, commits, n - 1);
      if forall i: nat :: i < n - 1 ==> CommitsToSupply(blind, commits, i) {
        if n > 1 { assert CommitsToSupply(blind, commits, n - 2); }
        assert CommitsToSupply(blind, commits, n - 1) <==> AddsReward(blind, commits, n - 1);
      }
    }
  }
}

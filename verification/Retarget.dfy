/** Difficulty retargeting: one proportional step and the walk from genesis. */
module Retarget {
  import opened Words

  const U32_MAX: nat := 0xFFFF_FFFF
  const INITIAL_TARGET: nat := 0x0FFF_FFFF
  const MIN_TARGET: nat := 1
  const MAX_TARGET: nat := U32_MAX
  const TARGET_BLOCK_TIME: nat := 120
  const TIMESTAMP_WINDOW: nat := 20
  const INTERVAL_SAMPLES: nat := 10
  const SCALE: nat := 1_000_000

  /** The length of the step from `a` to `b`, zero when it goes backwards. */
  function Gap(a: nat, b: nat): nat { if a < b then b - a else 0 }

  function Max(a: int, b: int): int { if a < b then b else a }

  function Min(a: int, b: int): int { if a < b then a else b }

  function Clamp(t: int): nat {
    Max(MIN_TARGET, Min(MAX_TARGET, t))
  }

  function Last<T>(s: seq<T>, n: nat): seq<T> {
    if |s| <= n then s else s[|s| - n..]
  }

  // ----- one step -----

  /** Sum of the non-negative parts of consecutive differences. */
  function TotalInterval(ts: seq<nat>): nat {
    if |ts| < 2 then 0
    else TotalInterval(ts[..|ts| - 1]) + Gap(ts[|ts| - 2], ts[|ts| - 1])
  }

  function AverageInterval(ts: seq<nat>): nat
    requires |ts| >= 2
  {
    var recent := Last(ts, INTERVAL_SAMPLES);
    TotalInterval(recent) / (|recent| - 1)
  }

  /** The fixed-point ratio of wanted to observed interval. */
  function Ratio(average: nat): nat {
    if average == 0 then SCALE * 9 / 10
    else Max(SCALE / 2, Min(SCALE * 2, TARGET_BLOCK_TIME * SCALE / average))
  }

  /** The ratio, capped at one tenth away from one. */
  function Factor(average: nat): nat {
    var ratio := Ratio(average);
    if ratio > SCALE then SCALE + Min(ratio - SCALE, SCALE / 10)
    else if ratio < SCALE then SCALE - Min(SCALE - ratio, SCALE / 10)
    else SCALE
  }

  lemma {:induction false} FactorRange(average: nat)
    ensures SCALE * 9 / 10 <= Factor(average) <= SCALE * 11 / 10
  {
  }

  /** The target after one retarget step on an observed average interval. */
  function Step(target: nat, average: nat): nat {
    FactorRange(average);
    Clamp(target * SCALE / Factor(average))
  }

  function Adjust(ts: seq<nat>, target: nat): nat {
    if |ts| < 2 then target else Step(target, AverageInterval(ts))
  }

  // ----- the walk from genesis -----

  /** The target in force after blocks with timestamps `ts` (heights 1, 2, ...). */
  function Walk(ts: seq<nat>): nat {
    if ts == [] then INITIAL_TARGET
    else Adjust(Last(ts, TIMESTAMP_WINDOW), Walk(ts[..|ts| - 1]))
  }

  /** Timestamps of heights 1..n, cut at the first missing height. */
  function Stamps(blocks: Chain, n: nat): seq<nat> {
    if n == 0 then []
    else
      var below := Stamps(blocks, n - 1);
      if |below| == n - 1 && n in blocks then below + [blocks[n].header.blob.timestamp] else below
  }

  /** The target demanded at `height` on top of `blocks`, for a rule that gives the target in
      force after blocks with some timestamps. */
  function TargetAt(rule: seq<nat> -> nat, blocks: Chain, height: nat): nat {
    if height <= 1 then U32_MAX else rule(Stamps(blocks, height - 1))
  }

  // ----- the imperative forms -----

  method ComputeAdjustment(timestamps: seq<nat>, current: nat) returns (target: nat)
    ensures target == Adjust(timestamps, current)
  {
    if |timestamps| < 2 { return current; }
    var n := if |timestamps| < INTERVAL_SAMPLES then |timestamps| else INTERVAL_SAMPLES;
    var recent := timestamps[|timestamps| - n..];
    assert recent == Last(timestamps, INTERVAL_SAMPLES);
    var total, i := 0, 1;
    while i < |recent|
      invariant 1 <= i <= |recent|
      invariant total == TotalInterval(recent[..i])
    {
      assert recent[..i + 1][..i] == recent[..i];
      total := total + Gap(recent[i - 1], recent[i]);
      i := i + 1;
    }
    assert recent[..i] == recent;
    var average := total / (|recent| - 1);
    var ratio := SCALE * 9 / 10;
    if average != 0 {
      ratio := Max(SCALE / 2, Min(SCALE * 2, TARGET_BLOCK_TIME * SCALE / average));
    }
    var tenth := SCALE / 10;
    var adjustment := SCALE;
    if ratio > SCALE {
      adjustment := SCALE + Min(ratio - SCALE, tenth);
    } else if ratio < SCALE {
      adjustment := SCALE - Min(SCALE - ratio, tenth);
    }
    target := Clamp(current * SCALE / adjustment);
  }

  method GetNextWorkRequired(blocks: Chain, height: nat) returns (target: nat)
    ensures target == TargetAt(Walk, blocks, height)
  {
    if height <= 1 { return U32_MAX; }
    target := WalkBlocks(blocks, height);
  }

  /** The walk over the heights below `height`, keeping the last window of timestamps. */
  method WalkBlocks(blocks: Chain, height: nat) returns (target: nat)
    requires height >= 1
    ensures target == Walk(Stamps(blocks, height - 1))
  {
    target := INITIAL_TARGET;
    var timestamps: seq<nat> := [];
    var h := 1;
    hide Adjust, Walk;
    WalkStart();
    while h < height
      invariant 1 <= h <= height
      invariant |Stamps(blocks, h - 1)| == h - 1
      invariant timestamps == Last(Stamps(blocks, h - 1), TIMESTAMP_WINDOW)
      invariant target == Walk(Stamps(blocks, h - 1))
    {
      ghost var before := Stamps(blocks, h - 1);
      if h !in blocks {
        StampsStop(blocks, h, height - 1);
        return;
      }
      var stamp := blocks[h].header.blob.timestamp;
      timestamps := timestamps + [stamp];
      if |timestamps| > TIMESTAMP_WINDOW {
        timestamps := timestamps[1..];
      }
      WalkNext(before, stamp);
      assert timestamps == Last(before + [stamp], TIMESTAMP_WINDOW);
      if |timestamps| >= 2 {
        target := ComputeAdjustment(timestamps, target);
      }
      h := h + 1;
    }
  }

  lemma {:induction false} WalkStart()
    ensures Walk([]) == INITIAL_TARGET
  {
  }

  lemma {:induction false} WalkNext(ts: seq<nat>, t: nat)
    ensures var window := Last(ts + [t], TIMESTAMP_WINDOW);
            && Walk(ts + [t]) == Adjust(window, Walk(ts))
            && (|window| < 2 ==> Walk(ts + [t]) == Walk(ts))
  {
    assert (ts + [t])[..|ts|] == ts;
  }

  /** Nothing above the first missing height is read. */
  lemma {:induction false} StampsStop(blocks: Chain, gap: nat, n: nat)
    requires 1 <= gap <= n && gap !in blocks
    ensures Stamps(blocks, n) == Stamps(blocks, gap - 1)
    decreases n
  {
    StampsLength(blocks, gap - 1);
    if n > gap {
      StampsStop(blocks, gap, n - 1);
    }
  }

  lemma {:induction false} StampsLength(blocks: Chain, n: nat)
    ensures |Stamps(blocks, n)| <= n
  {
    if n > 0 { StampsLength(blocks, n - 1); }
  }

  /** On a chain without gaps the stamps are exactly the timestamps in height order. */
  lemma {:induction false} StampsDense(blocks: Chain, n: nat)
    requires forall h :: 1 <= h <= n ==> h in blocks
    ensures |Stamps(blocks, n)| == n
    ensures forall h :: 1 <= h <= n ==> Stamps(blocks, n)[h - 1] == blocks[h].header.blob.timestamp
  {
    if n > 0 { StampsDense(blocks, n - 1); }
  }

  /** The rule at a height reads only the timestamps below it. */
  lemma {:induction false} StampsAgree(a: Chain, b: Chain, n: nat)
    requires forall h :: 1 <= h <= n ==> h in a && h in b
    requires forall h :: 1 <= h <= n ==> a[h].header.blob.timestamp == b[h].header.blob.timestamp
    ensures Stamps(a, n) == Stamps(b, n)
  {
    if n > 0 { StampsAgree(a, b, n - 1); }
  }

  // ----- properties of one step -----

  lemma {:induction false} MulMonotone(a: nat, b: nat, c: nat)
    requires b <= c
    ensures a * b <= a * c
  {
  }

  lemma {:induction false} DivAntitone(x: nat, c: nat, d: nat)
    requires 0 < c <= d
    ensures x / d <= x / c
  {
    var q, r := x / d, x / c;
    MulMonotone(q, c, d);
    if r + 1 <= q { MulMonotone(c, r + 1, q); }
  }

  lemma {:induction false} TenthOff(t: nat)
    ensures t * SCALE / (SCALE * 11 / 10) == 10 * t / 11
    ensures t * SCALE / (SCALE * 9 / 10) == 10 * t / 9
  {
    assert SCALE * 11 / 10 == 1_100_000 && SCALE * 9 / 10 == 900_000;
    assert t * SCALE == t * 1_000_000;
    assert t * 1_000_000 / 1_100_000 == 10 * t / 11;
    assert t * 1_000_000 / 900_000 == 10 * t / 9;
  }

  /** One step moves the target by at most a tenth, rounded down and clamped. */
  lemma {:induction false} StepBounds(target: nat, average: nat)
    ensures Clamp(10 * target / 11) <= Step(target, average) <= Clamp(10 * target / 9)
  {
    var x := target * SCALE;
    FactorRange(average);
    DivAntitone(x, Factor(average), SCALE * 11 / 10);
    DivAntitone(x, SCALE * 9 / 10, Factor(average));
    TenthOff(target);
  }

  /** Slower blocks never tighten the target, as long as the average is not zero. */
  lemma {:induction false} StepMonotone(target: nat, fast: nat, slow: nat)
    requires 1 <= fast <= slow
    ensures Step(target, fast) <= Step(target, slow)
  {
    DivAntitone(TARGET_BLOCK_TIME * SCALE, fast, slow);
    assert Factor(slow) <= Factor(fast);
    FactorRange(slow);
    DivAntitone(target * SCALE, Factor(slow), Factor(fast));
  }

  /** An average of zero is outside that order: it eases as much as the slowest average. */
  lemma {:induction false} ZeroAverageEases(target: nat)
    ensures Step(target, 0) == Clamp(10 * target / 9)
    ensures 9 <= target < MAX_TARGET ==> Step(target, 0) > target
  {
    TenthOff(target);
  }

  /** A faster average eases no legal target more than a slower one exactly when it is not zero,
      or the slower one is zero too, or so slow that it eases by the full tenth itself. */
  lemma {:induction false} MonotoneExactly(fast: nat, slow: nat)
    requires fast <= slow
    ensures (forall t: nat :: MIN_TARGET <= t <= MAX_TARGET ==> Step(t, fast) <= Step(t, slow))
       <==> fast >= 1 || slow == 0 || slow >= 134
  {
    if fast >= 1 {
      forall t: nat | MIN_TARGET <= t <= MAX_TARGET
        ensures Step(t, fast) <= Step(t, slow)
      {
        StepMonotone(t, fast, slow);
      }
    } else if slow >= 134 {
      DivAntitone(TARGET_BLOCK_TIME * SCALE, 134, slow);
      assert Factor(slow) == Factor(0);
    } else if slow > 0 {
      var t: nat := SCALE * 100;
      StepMonotone(t, slow, 133);
      assert Factor(133) == 902_255;
      assert Step(t, 133) < Step(t, 0);
    }
  }

  /** The step leaves every target alone exactly at the wanted block time. */
  lemma {:induction false} StepFixed(average: nat)
    ensures (forall t: nat :: MIN_TARGET <= t <= MAX_TARGET ==> Step(t, average) == t)
       <==> average == TARGET_BLOCK_TIME
  {
    if average == TARGET_BLOCK_TIME {
      forall t: nat | MIN_TARGET <= t <= MAX_TARGET
        ensures Step(t, average) == t
      {
        assert t * SCALE / SCALE == t;
      }
    } else {
      var t: nat := SCALE * 100;
      FactorRange(average);
      if average != 0 {
        if average < TARGET_BLOCK_TIME {
          DivAntitone(TARGET_BLOCK_TIME * SCALE, average, TARGET_BLOCK_TIME - 1);
        } else {
          DivAntitone(TARGET_BLOCK_TIME * SCALE, TARGET_BLOCK_TIME + 1, average);
        }
      }
      var f := Factor(average);
      assert f != SCALE;
      assert f < SCALE ==> t * SCALE >= (t + 1) * f;
      assert f > SCALE ==> t * SCALE < t * f;
      assert MIN_TARGET <= t <= MAX_TARGET && Step(t, average) != t;
    }
  }

  /** A target can rise from `t` under some average exactly when 9 <= t < MAX_TARGET. */
  lemma {:induction false} CanRise(t: nat)
    requires MIN_TARGET <= t <= MAX_TARGET
    ensures (exists average: nat :: Step(t, average) > t) <==> 9 <= t < MAX_TARGET
  {
    if 9 <= t < MAX_TARGET {
      ZeroAverageEases(t);
    } else {
      forall average: nat
        ensures Step(t, average) <= t
      {
        StepBounds(t, average);
      }
    }
  }

  /** Every target the walk produces is a legal 32-bit target. */
  lemma {:induction false} WalkRange(ts: seq<nat>)
    ensures MIN_TARGET <= Walk(ts) <= MAX_TARGET
  {
    hide Adjust;
    if ts != [] {
      WalkRange(ts[..|ts| - 1]);
      AdjustRange(Last(ts, TIMESTAMP_WINDOW), Walk(ts[..|ts| - 1]));
    }
  }

  lemma {:induction false} AdjustRange(window: seq<nat>, target: nat)
    requires MIN_TARGET <= target <= MAX_TARGET
    ensures MIN_TARGET <= Adjust(window, target) <= MAX_TARGET
  {
  }

  /** A walk that has reached 8 or less never rises again. */
  lemma {:induction false} LowTargetTrap(ts: seq<nat>, m: nat, n: nat)
    requires m <= n <= |ts|
    requires Walk(ts[..m]) <= 8
    ensures Walk(ts[..n]) <= Walk(ts[..m])
    decreases n
  {
    hide Adjust;
    if m < n {
      LowTargetTrap(ts, m, n - 1);
      assert ts[..n][..n - 1] == ts[..n - 1];
      WalkRange(ts[..n - 1]);
      LowAdjust(Last(ts[..n], TIMESTAMP_WINDOW), Walk(ts[..n - 1]));
    }
  }

  lemma {:induction false} LowAdjust(window: seq<nat>, target: nat)
    requires MIN_TARGET <= target <= 8
    ensures Adjust(window, target) <= target
  {
    hide AverageInterval, Step;
    if |window| >= 2 { StepBounds(target, AverageInterval(window)); }
  }
}

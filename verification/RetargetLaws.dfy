/** What a retarget step makes of the timestamps, in closed form: which stamps count, what
    average they give, and how far each average moves the target. */
module RetargetLaws {
  import opened Words
  import opened Retarget

  // ----- which stamps count -----

  /** Stamps older than the last ten do not matter. */
  lemma {:induction false} OldStampsIgnored(older: seq<nat>, ts: seq<nat>, target: nat)
    requires |ts| >= 10
    ensures Adjust(older + ts, target) == Adjust(ts, target)
  {
    assert Last(older + ts, 10) == Last(ts, 10);
  }

  predicate NonDecreasing(ts: seq<nat>) {
    forall i, j :: 0 <= i <= j < |ts| ==> ts[i] <= ts[j]
  }

  lemma {:induction false} OrderedTotal(ts: seq<nat>)
    requires |ts| >= 1 && NonDecreasing(ts)
    ensures TotalInterval(ts) == ts[|ts| - 1] - ts[0]
  {
    if |ts| >= 2 {
      var before := ts[..|ts| - 1];
      OrderedTotal(before);
      assert ts[|ts| - 2] <= ts[|ts| - 1];
    }
  }

  /** On stamps in order, the average is that between the newest and the tenth newest, or the
      oldest of fewer. */
  lemma {:induction false} OrderedAverage(ts: seq<nat>, target: nat)
    requires |ts| >= 2 && NonDecreasing(ts)
    ensures var n := if |ts| < 10 then |ts| else 10;
            Adjust(ts, target) == Step(target, (ts[|ts| - 1] - ts[|ts| - n]) / (n - 1))
  {
    hide Step, TotalInterval;
    var recent := Last(ts, 10);
    OrderedTotal(recent);
  }

  /** A stamp that goes back adds nothing, one that goes forward adds its distance. */
  lemma {:induction false} NextInterval(ts: seq<nat>, x: nat)
    requires ts != []
    ensures x <= ts[|ts| - 1] ==> TotalInterval(ts + [x]) == TotalInterval(ts)
    ensures x >= ts[|ts| - 1] ==> TotalInterval(ts + [x]) == TotalInterval(ts) + x - ts[|ts| - 1]
  {
    assert (ts + [x])[..|ts|] == ts;
  }

  /** A window that ends with a step back is judged by the distance covered before it. */
  lemma {:induction false} BackwardStamp(ts: seq<nat>, x: nat, target: nat)
    requires 1 <= |ts| < 10 && NonDecreasing(ts) && x <= ts[|ts| - 1]
    ensures Adjust(ts + [x], target) == Step(target, (ts[|ts| - 1] - ts[0]) / |ts|)
  {
    hide Step, TotalInterval;
    assert Last(ts + [x], 10) == ts + [x];
    NextInterval(ts, x);
    OrderedTotal(ts);
  }

  /** Fewer than two stamps leave the target alone. */
  lemma {:induction false} TooFewStamps(ts: seq<nat>, target: nat)
    requires |ts| < 2
    ensures Adjust(ts, target) == target
  {
  }

  // ----- how far an average moves the target -----

  /** Averages up to 109 tighten by the full tenth, averages from 134 on and zero ease by it. */
  lemma {:induction false} StepCapped(target: nat, average: nat)
    ensures 1 <= average <= 109 ==> Step(target, average) == Clamp(10 * target / 11)
    ensures average >= 134 || average == 0 ==> Step(target, average) == Clamp(10 * target / 9)
  {
    TenthOff(target);
    if 1 <= average <= 109 {
      DivAntitone(TARGET_BLOCK_TIME * SCALE, average, 109);
      assert Factor(average) == SCALE * 11 / 10;
    } else if average >= 134 {
      DivAntitone(TARGET_BLOCK_TIME * SCALE, 134, average);
      assert Factor(average) == SCALE * 9 / 10;
    }
  }

  /** Between them the target moves in proportion to the average over 120 seconds, up to the
      rounding of the ratio. */
  lemma {:induction false} StepProportional(target: nat, average: nat)
    requires 110 <= average <= 133
    ensures Clamp(target * average / 120) <= Step(target, average)
         <= Clamp(target * average / 120 + target / 800_000 + 1)
  {
    var f := 120_000_000 / average;
    UncappedFactor(average);
    var x := target * SCALE / f;
    assert Step(target, average) == Clamp(x);
    ProportionLow(target, average, f);
    ProportionHigh(target, average, f);
  }

  lemma {:induction false} UncappedFactor(average: nat)
    requires 110 <= average <= 133
    ensures var f := 120_000_000 / average;
            Factor(average) == f && 902_255 <= f <= 1_090_909 && f * average <= 120_000_000 < (f + 1) * average
  {
    var f := 120_000_000 / average;
    DivAntitone(120_000_000, average, 133);
    DivAntitone(120_000_000, 110, average);
  }

  lemma {:induction false} DivAtLeast(x: nat, d: nat, q: nat)
    requires d > 0 && q * d <= x
    ensures q <= x / d
  {
    var r := x / d;
    if r + 1 <= q { MulMonotone(d, r + 1, q); }
  }

  lemma {:induction false} ProportionLow(t: nat, a: nat, f: nat)
    requires f > 0 && f * a <= 120_000_000
    ensures t * a / 120 <= t * SCALE / f
  {
    var q := t * a / 120;
    assert q * 120 <= t * a;
    MulMonotone(f, q * 120, t * a);
    MulMonotone(t, f * a, 120_000_000);
    assert f * (t * a) == t * (f * a);
    assert f * (q * 120) == 120 * (q * f);
    assert q * f <= t * SCALE;
    DivAtLeast(t * SCALE, f, q);
  }

  lemma {:induction false} ProportionHigh(t: nat, a: nat, f: nat)
    requires 902_255 <= f && 110 <= a <= 133 && 120_000_000 < (f + 1) * a
    ensures t * SCALE / f <= t * a / 120 + t / 800_000 + 1
  {
    var q, r, x := t * a / 120, t / 800_000, t * SCALE / f;
    var bound := q + r + 2;
    Excess(t, a, f, q, r);
    assert x * f <= t * SCALE;
    if bound <= x { MulMonotone(f, bound, x); }
  }

  /** The quotient stays below the bound: the excess of the rounded ratio is under one part in
      800,000. */
  lemma {:induction false} Excess(t: nat, a: nat, f: nat, q: nat, r: nat)
    requires 902_255 <= f && 110 <= a <= 133 && 120_000_000 < (f + 1) * a
    requires 120 * q <= t * a < 120 * (q + 1) && t < 800_000 * (r + 1)
    ensures t * SCALE < (q + r + 2) * f
  {
    var u, v := q + 1, r + 1;
    MulMonotone(t, 120_000_000, (f + 1) * a);
    assert t * ((f + 1) * a) == (f + 1) * (t * a);
    MulMonotone(f + 1, t * a, 120 * u);
    assert (f + 1) * (120 * u) == 120 * (u * f) + 120 * u;
    assert t * 120_000_000 == 120 * (t * SCALE);
    assert t * SCALE <= u * f + u;
    OneMore(t, a, u, v, f, q, r);
    assert (q + r + 2) * f == u * f + v * f;
  }

  lemma {:induction false} OneMore(t: nat, a: nat, u: nat, v: nat, f: nat, q: nat, r: nat)
    requires 902_255 <= f && a <= 133 && u == q + 1 && v == r + 1
    requires 120 * q <= t * a && t < 800_000 * v
    ensures u < v * f
  {
    MulMonotone(t, a, 133);
    assert 120 * q <= 133 * t;
    MulMonotone(v, 902_255, f);
  }

  // ----- the walk -----

  /** The sliding window loses nothing: each height adjusts on all stamps so far. */
  lemma {:induction false} WalkUnwindowed(ts: seq<nat>, x: nat)
    ensures Walk(ts + [x]) == Adjust(ts + [x], Walk(ts))
  {
    hide Adjust;
    var all := ts + [x];
    WalkNext(ts, x);
    if |all| > 20 {
      var older, window := all[..|all| - 20], all[|all| - 20..];
      assert older + window == all && Last(all, 20) == window;
      OldStampsIgnored(older, window, Walk(ts));
    }
  }

  lemma {:induction false} EvenSpacing(gaps: nat)
    requires gaps > 0
    ensures 120 * gaps / gaps == 120
  {
  }

  lemma {:induction false} SteadyStep(ts: seq<nat>, target: nat)
    requires |ts| >= 2 && forall i :: 0 <= i < |ts| ==> ts[i] == ts[0] + 120 * i
    requires 1 <= target <= MAX_TARGET
    ensures Adjust(ts, target) == target
  {
    hide Adjust, Step;
    OrderedAverage(ts, target);
    var n := if |ts| < 10 then |ts| else 10;
    assert ts[|ts| - 1] - ts[|ts| - n] == 120 * (n - 1);
    EvenSpacing(n - 1);
    StepFixed(120);
  }

  /** A chain with one block every two minutes keeps the initial target. */
  lemma {:induction false} SteadyWalk(ts: seq<nat>)
    requires forall i :: 0 <= i < |ts| ==> ts[i] == ts[0] + 120 * i
    ensures Walk(ts) == 0x0FFF_FFFF
  {
    if ts == [] {
      WalkStart();
    } else {
      var before, x := ts[..|ts| - 1], ts[|ts| - 1];
      SteadyWalk(before);
      assert before + [x] == ts;
      WalkUnwindowed(before, x);
      hide Adjust, Walk;
      if |ts| < 2 { TooFewStamps(ts, Walk(before)); } else { SteadyStep(ts, Walk(before)); }
    }
  }

  // ----- what a height demands -----

  /** The first height demands the easiest target; on a chain without gaps every other demands
      what the rule gives on the timestamps below it, whatever else the chain holds. */
  lemma {:induction false} DemandExactly(rule: seq<nat> -> nat, blocks: Chain, height: nat, ts: seq<nat>)
    requires |ts| == (if height == 0 then 0 else height - 1)
    requires forall h :: 1 <= h < height ==> h in blocks && blocks[h].header.blob.timestamp == ts[h - 1]
    ensures TargetAt(rule, blocks, height) == if height <= 1 then 0xFFFF_FFFF else rule(ts)
  {
    if height > 1 {
      StampsDense(blocks, height - 1);
      forall i | 0 <= i < |ts|
        ensures Stamps(blocks, height - 1)[i] == ts[i]
      {
        var h := i + 1;
        assert h in blocks && blocks[h].header.blob.timestamp == ts[h - 1];
      }
      assert Stamps(blocks, height - 1) == ts;
    }
  }

  /** A missing height hides every timestamp above it. */
  lemma {:induction false} GapHides(rule: seq<nat> -> nat, blocks: Chain, gap: nat, height: nat)
    requires 1 <= gap < height && height > 1 && gap !in blocks
    ensures TargetAt(rule, blocks, height) == rule(Stamps(blocks, gap - 1))
  {
    StampsStop(blocks, gap, height - 1);
  }
}

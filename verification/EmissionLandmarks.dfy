/** Where the emission schedule meets its documented landmarks: the half-life and the first
    height of the tail. Each needs one exact power, and its rounds are written out. */
module EmissionLandmarks {
  import opened Emission

  /** One round of the binary exponentiation, by what it rounds down to. */
  lemma {:induction false} Round(result: nat, base: nat, exp: nat, next: nat, square: nat)
    requires exp > 0
    requires if exp % 2 == 1 then next * ONE <= result * base < (next + 1) * ONE else next == result
    requires square * ONE <= base * base < (square + 1) * ONE
    ensures PowLoop(result, base, exp) == PowLoop(next, square, exp / 2)
  {
  }

  lemma {:induction false} NoRounds(result: nat, base: nat)
    ensures PowLoop(result, base, 0) == result
  {
  }

  lemma {:induction false} HalfPower()
    ensures FixedPow(1_051_920) == 2_146_985_643
  {
    hide PowLoop;
    Round(4_294_967_296, 4_294_964_465, 1_051_920, 4_294_967_296, 4_294_961_634);
    Round(4_294_967_296, 4_294_961_634, 525_960, 4_294_967_296, 4_294_955_972);
    Round(4_294_967_296, 4_294_955_972, 262_980, 4_294_967_296, 4_294_944_648);
    Round(4_294_967_296, 4_294_944_648, 131_490, 4_294_967_296, 4_294_922_000);
    Round(4_294_967_296, 4_294_922_000, 65_745, 4_294_922_000, 4_294_876_704);
    Round(4_294_922_000, 4_294_876_704, 32_872, 4_294_922_000, 4_294_786_113);
    Round(4_294_922_000, 4_294_786_113, 16_436, 4_294_922_000, 4_294_604_937);
    Round(4_294_922_000, 4_294_604_937, 8218, 4_294_922_000, 4_294_242_608);
    Round(4_294_922_000, 4_294_242_608, 4109, 4_294_197_319, 4_293_518_042);
    Round(4_294_197_319, 4_293_518_042, 2054, 4_294_197_319, 4_292_069_277);
    Round(4_294_197_319, 4_292_069_277, 1027, 4_291_299_819, 4_289_173_213);
    Round(4_291_299_819, 4_289_173_213, 513, 4_285_510_683, 4_283_386_946);
    Round(4_285_510_683, 4_283_386_946, 256, 4_285_510_683, 4_271_837_819);
    Round(4_285_510_683, 4_271_837_819, 128, 4_285_510_683, 4_248_832_900);
    Round(4_285_510_683, 4_248_832_900, 64, 4_285_510_683, 4_203_194_056);
    Round(4_285_510_683, 4_203_194_056, 32, 4_285_510_683, 4_113_381_791);
    Round(4_285_510_683, 4_113_381_791, 16, 4_285_510_683, 3_939_473_479);
    Round(4_285_510_683, 3_939_473_479, 8, 4_285_510_683, 3_613_403_833);
    Round(4_285_510_683, 3_613_403_833, 4, 4_285_510_683, 3_039_996_898);
    Round(4_285_510_683, 3_039_996_898, 2, 4_285_510_683, 2_151_723_285);
    Round(4_285_510_683, 2_151_723_285, 1, 2_146_985_643, 1_077_985_646);
    NoRounds(2_146_985_643, 1_077_985_646);
  }

  lemma {:induction false} LastDecay()
    ensures FixedPow(4_327_297) == 247_853_179
  {
    hide PowLoop;
    Round(4_294_967_296, 4_294_964_465, 4_327_297, 4_294_964_465, 4_294_961_634);
    Round(4_294_964_465, 4_294_961_634, 2_163_648, 4_294_964_465, 4_294_955_972);
    Round(4_294_964_465, 4_294_955_972, 1_081_824, 4_294_964_465, 4_294_944_648);
    Round(4_294_964_465, 4_294_944_648, 540_912, 4_294_964_465, 4_294_922_000);
    Round(4_294_964_465, 4_294_922_000, 270_456, 4_294_964_465, 4_294_876_704);
    Round(4_294_964_465, 4_294_876_704, 135_228, 4_294_964_465, 4_294_786_113);
    Round(4_294_964_465, 4_294_786_113, 67_614, 4_294_964_465, 4_294_604_937);
    Round(4_294_964_465, 4_294_604_937, 33_807, 4_294_602_106, 4_294_242_608);
    Round(4_294_602_106, 4_294_242_608, 16_903, 4_293_877_479, 4_293_518_042);
    Round(4_293_877_479, 4_293_518_042, 8451, 4_292_428_592, 4_292_069_277);
    Round(4_292_428_592, 4_292_069_277, 4225, 4_289_532_285, 4_289_173_213);
    Round(4_289_532_285, 4_289_173_213, 2112, 4_289_532_285, 4_283_386_946);
    Round(4_289_532_285, 4_283_386_946, 1056, 4_289_532_285, 4_271_837_819);
    Round(4_289_532_285, 4_271_837_819, 528, 4_289_532_285, 4_248_832_900);
    Round(4_289_532_285, 4_248_832_900, 264, 4_289_532_285, 4_203_194_056);
    Round(4_289_532_285, 4_203_194_056, 132, 4_289_532_285, 4_113_381_791);
    Round(4_289_532_285, 4_113_381_791, 66, 4_289_532_285, 3_939_473_479);
    Round(4_289_532_285, 3_939_473_479, 33, 3_934_488_323, 3_613_403_833);
    Round(3_934_488_323, 3_613_403_833, 16, 3_934_488_323, 3_039_996_898);
    Round(3_934_488_323, 3_039_996_898, 8, 3_934_488_323, 2_151_723_285);
    Round(3_934_488_323, 2_151_723_285, 4, 3_934_488_323, 1_077_985_646);
    Round(3_934_488_323, 1_077_985_646, 2, 3_934_488_323, 270_561_560);
    Round(3_934_488_323, 270_561_560, 1, 247_853_179, 17_044_031);
    NoRounds(247_853_179, 17_044_031);
  }

  lemma {:induction false} FirstTail()
    ensures FixedPow(4_327_298) == 247_853_015
  {
    hide PowLoop;
    Round(4_294_967_296, 4_294_964_465, 4_327_298, 4_294_967_296, 4_294_961_634);
    Round(4_294_967_296, 4_294_961_634, 2_163_649, 4_294_961_634, 4_294_955_972);
    Round(4_294_961_634, 4_294_955_972, 1_081_824, 4_294_961_634, 4_294_944_648);
    Round(4_294_961_634, 4_294_944_648, 540_912, 4_294_961_634, 4_294_922_000);
    Round(4_294_961_634, 4_294_922_000, 270_456, 4_294_961_634, 4_294_876_704);
    Round(4_294_961_634, 4_294_876_704, 135_228, 4_294_961_634, 4_294_786_113);
    Round(4_294_961_634, 4_294_786_113, 67_614, 4_294_961_634, 4_294_604_937);
    Round(4_294_961_634, 4_294_604_937, 33_807, 4_294_599_275, 4_294_242_608);
    Round(4_294_599_275, 4_294_242_608, 16_903, 4_293_874_649, 4_293_518_042);
    Round(4_293_874_649, 4_293_518_042, 8451, 4_292_425_763, 4_292_069_277);
    Round(4_292_425_763, 4_292_069_277, 4225, 4_289_529_458, 4_289_173_213);
    Round(4_289_529_458, 4_289_173_213, 2112, 4_289_529_458, 4_283_386_946);
    Round(4_289_529_458, 4_283_386_946, 1056, 4_289_529_458, 4_271_837_819);
    Round(4_289_529_458, 4_271_837_819, 528, 4_289_529_458, 4_248_832_900);
    Round(4_289_529_458, 4_248_832_900, 264, 4_289_529_458, 4_203_194_056);
    Round(4_289_529_458, 4_203_194_056, 132, 4_289_529_458, 4_113_381_791);
    Round(4_289_529_458, 4_113_381_791, 66, 4_289_529_458, 3_939_473_479);
    Round(4_289_529_458, 3_939_473_479, 33, 3_934_485_730, 3_613_403_833);
    Round(3_934_485_730, 3_613_403_833, 16, 3_934_485_730, 3_039_996_898);
    Round(3_934_485_730, 3_039_996_898, 8, 3_934_485_730, 2_151_723_285);
    Round(3_934_485_730, 2_151_723_285, 4, 3_934_485_730, 1_077_985_646);
    Round(3_934_485_730, 1_077_985_646, 2, 3_934_485_730, 270_561_560);
    Round(3_934_485_730, 270_561_560, 1, 247_853_015, 17_044_031);
    NoRounds(247_853_015, 17_044_031);
  }

  /** The reward stands at the tail exactly from height 4,327,299 on. */
  lemma {:induction false} TailFrom(h: nat)
    requires h >= 1
    ensures ClosedReward(h) == 79_853_981 <==> h >= 4_327_299
  {
    hide FixedPow;
    LastDecay();
    FirstTail();
    if h >= 4_327_299 { RewardDecreases(4_327_299, h); } else { RewardDecreases(h, 4_327_298); }
  }

  /** From the first tail height on, the supply is linear. */
  lemma {:induction false} LinearSupply(g: nat, h: nat)
    requires 4_327_299 <= g <= h
    ensures Supply(h) == Supply(g) + (h - g) * 79_853_981
    decreases h
  {
    hide ClosedReward;
    if g < h {
      LinearSupply(g, h - 1);
      TailFrom(h);
    }
  }

  /** After one half-life the reward is half the initial one, short by less than one in 4,000. */
  lemma {:induction false} HalfLife()
    ensures ClosedReward(1) == 1_383_764_049
    ensures 0 <= ClosedReward(1) - 2 * ClosedReward(1_051_921) < ClosedReward(1) / 4000
  {
    hide FixedPow;
    HalfPower();
  }
}

/** Relayer settlement: pending fees split over active deployments, and the stake that
    covers withdrawals. */
module Relayer {
  import opened Endowment

  // ----- the pro-rata split -----

  function BackerShare(k: Config, fee: nat, cut: nat): nat
    requires k.bpPrecision > 0
  {
    fee * cut / k.bpPrecision
  }

  function Capital(lots: seq<Lot>): nat {
    if lots == [] then 0 else Capital(lots[..|lots| - 1]) + lots[|lots| - 1].deployment.amount
  }

  /** A deployment's part of the pending total, rounded down, then the backer's cut of it. */
  function ShareOf(k: Config, total: nat, deployed: nat, d: Deployment): nat
    requires k.bpPrecision > 0 && deployed > 0
  {
    BackerShare(k, total * d.amount / deployed, d.cutBp)
  }

  function Allocations(k: Config, total: nat, deployed: nat, lots: seq<Lot>): seq<Allocation>
    requires k.bpPrecision > 0 && deployed > 0
  {
    if lots == [] then []
    else
      var before, last := Allocations(k, total, deployed, lots[..|lots| - 1]), lots[|lots| - 1];
      var share := ShareOf(k, total, deployed, last.deployment);
      if share > 0 then before + [Allocation(last.id, share)] else before
  }

  // ----- settling one relayer -----

  type Fees = map<string, nat>

  function Pending(fees: Fees, relayer: string): nat {
    if relayer in fees then fees[relayer] else 0
  }

  datatype Outcome = Nothing | Replied(reply: Reply) | DividedByZero

  function Minus(a: nat, b: nat): nat { if a > b then a - b else 0 }

  function SettleRelayer(k: Config, l: Ledger, fees: Fees, relayer: string): (Ledger, Fees, Outcome) {
    var total, lots := Pending(fees, relayer), ActiveLots(l.deployments, relayer);
    if total == 0 then (l, fees, Nothing)
    else if lots == [] then (l, fees[relayer := 0], Nothing)
    else if Capital(lots) == 0 || k.bpPrecision == 0 then (l, fees, DividedByZero)
    else
      var allocations := Allocations(k, total, Capital(lots), lots);
      if allocations == [] then (l, fees, Nothing)
      else
        var (m, reply) := Settle(l, relayer, Total(allocations), allocations);
        (m, fees[relayer := Minus(total, Total(allocations))], Replied(reply))
  }

  class CapitalDeployer {
    const config: Config
    const endowment: EndowmentContract
    var pendingFees: Fees

    constructor (endowment: EndowmentContract)
      ensures this.endowment == endowment && config == endowment.config && pendingFees == map[]
    {
      this.endowment, config, pendingFees := endowment, endowment.config, map[];
    }

    method AccumulateFees(relayer: string, fee: nat)
      modifies this
      ensures pendingFees == old(pendingFees)[relayer := Pending(old(pendingFees), relayer) + fee]
    {
      pendingFees := pendingFees[relayer := (if relayer in pendingFees then pendingFees[relayer] else 0) + fee];
    }

    method SettlePending(relayer: string) returns (outcome: Outcome)
      modifies this, endowment
      ensures (endowment.View(), pendingFees, outcome) ==
              SettleRelayer(config, old(endowment.View()), old(pendingFees), relayer)
    {
      hide Settle, ShareOf, ActiveLots;
      var total := if relayer in pendingFees then pendingFees[relayer] else 0;
      if total == 0 { return Nothing; }
      var lots := endowment.GetActiveDeployments(relayer);
      if lots == [] {
        pendingFees := pendingFees[relayer := 0];
        return Nothing;
      }
      var deployed := SumCapital(lots);
      if deployed == 0 || config.bpPrecision == 0 { return DividedByZero; }
      var allocations: seq<Allocation> := [];
      for i := 0 to |lots|
        invariant allocations == Allocations(config, total, deployed, lots[..i])
        invariant endowment.View() == old(endowment.View()) && pendingFees == old(pendingFees)
      {
        assert lots[..i + 1][..i] == lots[..i];
        var share := ShareOf(config, total, deployed, lots[i].deployment);
        if share > 0 { allocations := allocations + [Allocation(lots[i].id, share)]; }
      }
      assert lots[..|lots|] == lots;
      if allocations == [] { return Nothing; }
      var handed := SumFees(allocations);
      var reply := endowment.SettleFees(relayer, handed, allocations);
      pendingFees := pendingFees[relayer := if total > handed then total - handed else 0];
      return Replied(reply);
    }
  }

  method SumCapital(lots: seq<Lot>) returns (total: nat)
    ensures total == Capital(lots)
  {
    total := 0;
    for i := 0 to |lots|
      invariant total == Capital(lots[..i])
    {
      assert lots[..i + 1][..i] == lots[..i];
      total := total + lots[i].deployment.amount;
    }
    assert lots[..|lots|] == lots;
  }

  method SumFees(allocations: seq<Allocation>) returns (total: nat)
    ensures total == Total(allocations)
  {
    total := 0;
    for i := 0 to |allocations|
      invariant total == Total(allocations[..i])
    {
      assert allocations[..i + 1][..i] == allocations[..i];
      total := total + allocations[i].fee;
    }
    assert allocations[..|allocations|] == allocations;
  }

  // ----- the split never exceeds the pending total -----

  lemma {:induction false} DivBound(x: nat, d: nat)
    requires d > 0
    ensures (x / d) * d <= x
  {
  }

  lemma {:induction false} CancelRight(a: nat, b: nat, d: nat)
    requires d > 0 && a * d <= b * d
    ensures a <= b
  {
    if b + 1 <= a { MulOrder(b + 1, a, d); }
  }

  lemma {:induction false} MulOrder(a: nat, b: nat, d: nat)
    requires a <= b
    ensures a * d <= b * d
  {
  }

  predicate CutsWithin(k: Config, lots: seq<Lot>) {
    forall i :: 0 <= i < |lots| ==> lots[i].deployment.cutBp <= k.bpPrecision
  }

  /** Capital weighted with the cuts. */
  function Weight(lots: seq<Lot>): nat {
    if lots == [] then 0
    else Weight(lots[..|lots| - 1]) + lots[|lots| - 1].deployment.amount * lots[|lots| - 1].deployment.cutBp
  }

  lemma {:induction false} WeightWithin(k: Config, lots: seq<Lot>)
    requires CutsWithin(k, lots)
    ensures Weight(lots) <= Capital(lots) * k.bpPrecision
  {
    if lots != [] {
      var d := lots[|lots| - 1].deployment;
      WeightWithin(k, lots[..|lots| - 1]);
      MulOrder(d.cutBp, k.bpPrecision, d.amount);
    }
  }

  lemma {:induction false} TwoFloors(share: nat, part: nat, cut: nat, precision: nat, deployed: nat, whole: nat)
    requires share * precision <= part * cut && part * deployed <= whole
    ensures share * (deployed * precision) <= whole * cut
  {
    MulOrder(share * precision, part * cut, deployed);
    MulOrder(part * deployed, whole, cut);
    assert share * (deployed * precision) == (share * precision) * deployed;
    assert (part * cut) * deployed == (part * deployed) * cut;
  }

  lemma {:induction false} ShareScaled(k: Config, total: nat, deployed: nat, d: Deployment)
    requires k.bpPrecision > 0 && deployed > 0
    ensures ShareOf(k, total, deployed, d) * (deployed * k.bpPrecision) <= total * (d.amount * d.cutBp)
  {
    var whole := total * d.amount;
    var part := whole / deployed;
    DivBound(whole, deployed);
    DivBound(part * d.cutBp, k.bpPrecision);
    TwoFloors(ShareOf(k, total, deployed, d), part, d.cutBp, k.bpPrecision, deployed, whole);
    assert whole * d.cutBp == total * (d.amount * d.cutBp);
  }

  lemma {:induction false} AddScaled(sum: nat, share: nat, scale: nat, total: nat, weight: nat, more: nat)
    requires sum * scale <= total * weight && share * scale <= total * more
    ensures (sum + share) * scale <= total * (weight + more)
  {
  }

  lemma {:induction false} AllocationsScaled(k: Config, total: nat, deployed: nat, lots: seq<Lot>)
    requires k.bpPrecision > 0 && deployed > 0
    ensures Total(Allocations(k, total, deployed, lots)) * (deployed * k.bpPrecision) <= total * Weight(lots)
  {
    if lots == [] {
      assert Total(Allocations(k, total, deployed, lots)) == 0;
    } else {
      hide ShareOf, Allocations, Total;
      var before, d := lots[..|lots| - 1], lots[|lots| - 1].deployment;
      AllocationsScaled(k, total, deployed, before);
      ShareScaled(k, total, deployed, d);
      TotalOfAllocations(k, total, deployed, lots);
      AddScaled(Total(Allocations(k, total, deployed, before)), ShareOf(k, total, deployed, d),
                deployed * k.bpPrecision, total, Weight(before), d.amount * d.cutBp);
    }
  }

  lemma {:induction false} TotalOfAllocations(k: Config, total: nat, deployed: nat, lots: seq<Lot>)
    requires k.bpPrecision > 0 && deployed > 0 && lots != []
    ensures Total(Allocations(k, total, deployed, lots)) ==
            Total(Allocations(k, total, deployed, lots[..|lots| - 1]))
            + ShareOf(k, total, deployed, lots[|lots| - 1].deployment)
  {
    hide ShareOf;
    var before := Allocations(k, total, deployed, lots[..|lots| - 1]);
    var share := ShareOf(k, total, deployed, lots[|lots| - 1].deployment);
    if share > 0 { assert (before + [Allocation(lots[|lots| - 1].id, share)])[..|before|] == before; }
  }

  lemma {:induction false} DivExact(y: nat, x: nat, d: nat)
    requires d > 0 && y == x * d
    ensures y / d == x
  {
    var q := y / d;
    DivBound(y, d);
    CancelRight(q, x, d);
    if q + 1 <= x { MulOrder(q + 1, x, d); }
  }

  lemma {:induction false} ExactShare(k: Config, deployed: nat, d: Deployment)
    requires k.bpPrecision > 0 && deployed > 0
    ensures ShareOf(k, deployed * k.bpPrecision, deployed, d) == d.amount * d.cutBp
  {
    var p, a, c := k.bpPrecision, d.amount, d.cutBp;
    var part, whole := p * a, (deployed * p) * a;
    assert whole == part * deployed;
    DivExact(whole, part, deployed);
    assert part * c == (a * c) * p;
    DivExact(part * c, a * c, p);
  }

  /** A total of capital times precision splits without rounding. */
  lemma {:induction false} ExactSplit(k: Config, deployed: nat, lots: seq<Lot>)
    requires k.bpPrecision > 0 && deployed > 0
    ensures Total(Allocations(k, deployed * k.bpPrecision, deployed, lots)) == Weight(lots)
  {
    if lots == [] {
      assert Total(Allocations(k, deployed * k.bpPrecision, deployed, lots)) == 0;
    } else {
      hide Allocations, Total, ShareOf;
      ExactSplit(k, deployed, lots[..|lots| - 1]);
      TotalOfAllocations(k, deployed * k.bpPrecision, deployed, lots);
      ExactShare(k, deployed, lots[|lots| - 1].deployment);
    }
  }

  /** The floored shares together stay within whatever is being split exactly when the cuts,
      weighted with the capital, average at most the precision. */
  lemma {:induction false} SplitFits(k: Config, lots: seq<Lot>)
    requires k.bpPrecision > 0 && Capital(lots) > 0
    ensures (forall total: nat :: Total(Allocations(k, total, Capital(lots), lots)) <= total)
       <==> Weight(lots) <= Capital(lots) * k.bpPrecision
  {
    hide Allocations, Total, Capital, Weight;
    var scale := Capital(lots) * k.bpPrecision;
    ExactSplit(k, Capital(lots), lots);
    if Weight(lots) <= scale {
      forall total: nat
        ensures Total(Allocations(k, total, Capital(lots), lots)) <= total
      {
        AllocationsScaled(k, total, Capital(lots), lots);
        MulOrder(Weight(lots), scale, total);
        CancelRight(Total(Allocations(k, total, Capital(lots), lots)), total, scale);
      }
    }
  }

  lemma {:induction false} AllocationsBounded(k: Config, total: nat, lots: seq<Lot>)
    requires k.bpPrecision > 0 && Capital(lots) > 0 && CutsWithin(k, lots)
    ensures Total(Allocations(k, total, Capital(lots), lots)) <= total
  {
    WeightWithin(k, lots);
    SplitFits(k, lots);
  }

  // ----- the contract accepts every split -----

  lemma {:induction false} LotsValid(ds: seq<Deployment>, relayer: string)
    ensures forall t :: t in ActiveLots(ds, relayer) ==>
              t.id < |ds| && ds[t.id] == t.deployment && IsActive(t.deployment, relayer)
    ensures Capital(ActiveLots(ds, relayer)) == TotalActive(ds, relayer)
  {
    if ds != [] {
      var n := |ds| - 1;
      LotsValid(ds[..n], relayer);
      var before, lots := ActiveLots(ds[..n], relayer), ActiveLots(ds, relayer);
      assert lots != before ==> lots[..|lots| - 1] == before;
      forall t | t in lots
        ensures t.id < |ds| && ds[t.id] == t.deployment && IsActive(t.deployment, relayer)
      {
        if t in before { assert ds[..n][t.id] == ds[t.id]; }
      }
    }
  }

  lemma {:induction false} AllocationsFromLots(k: Config, total: nat, deployed: nat, lots: seq<Lot>, a: Allocation)
    requires k.bpPrecision > 0 && deployed > 0 && a in Allocations(k, total, deployed, lots)
    ensures exists t :: t in lots && t.id == a.id
  {
    hide ShareOf;
    var before, last := lots[..|lots| - 1], lots[|lots| - 1];
    assert last in lots && forall t :: t in before ==> t in lots;
    if a in Allocations(k, total, deployed, before) {
      AllocationsFromLots(k, total, deployed, before, a);
    }
  }

  lemma {:induction false} CreditAccepts(ds: seq<Deployment>, relayer: string, allocations: seq<Allocation>)
    requires forall i :: 0 <= i < |allocations| ==> Refusal(ds, relayer, allocations[i]).None?
    ensures Credit(ds, relayer, allocations).1.None?
    decreases |allocations|
  {
    if allocations != [] {
      var a := allocations[0];
      var next := ds[a.id := ds[a.id].(fees := ds[a.id].fees + a.fee)];
      assert forall i :: 0 <= i < |next| ==> next[i].relayer == ds[i].relayer && next[i].withdrawn == ds[i].withdrawn;
      CreditAccepts(next, relayer, allocations[1..]);
    }
  }

  lemma {:induction false} SettleAccepts(k: Config, l: Ledger, total: nat, relayer: string)
    requires k.bpPrecision > 0 && InOrder(l)
    requires Capital(ActiveLots(l.deployments, relayer)) > 0
    ensures var lots := ActiveLots(l.deployments, relayer);
            var allocations := Allocations(k, total, Capital(lots), lots);
            Settle(l, relayer, Total(allocations), allocations).1 == Settled(Total(allocations))
  {
    hide Allocations, ActiveLots, Total;
    var lots := ActiveLots(l.deployments, relayer);
    var allocations := Allocations(k, total, Capital(lots), lots);
    LotsValid(l.deployments, relayer);
    forall i | 0 <= i < |allocations|
      ensures Refusal(l.deployments, relayer, allocations[i]).None?
    {
      AllocationsFromLots(k, total, Capital(lots), lots, allocations[i]);
    }
    CreditAccepts(l.deployments, relayer, allocations);
    assert lots != [];
    assert lots[0] in lots;
  }

  // ----- conservation -----

  /** What a settlement of `total` hands out to the lots of a relayer. */
  function Handout(k: Config, l: Ledger, total: nat, relayer: string): nat {
    var lots := ActiveLots(l.deployments, relayer);
    if Capital(lots) == 0 || k.bpPrecision == 0 then 0 else Total(Allocations(k, total, Capital(lots), lots))
  }

  /** Settlement divides by zero exactly when there is something to split and no capital or no
      precision. It credits exactly what it hands out, the contract always accepts that, and
      pending fees are conserved exactly when there is nothing pending, or there is an active
      deployment and the handout does not exceed what is pending. */
  lemma {:induction false} SettleConserves(k: Config, l: Ledger, fees: Fees, relayer: string)
    requires InOrder(l)
    ensures var (m, after, o) := SettleRelayer(k, l, fees, relayer);
            var total, lots := Pending(fees, relayer), ActiveLots(l.deployments, relayer);
            var credited := Outstanding(m.deployments) - Outstanding(l.deployments);
            && (o.DividedByZero? <==> total > 0 && lots != [] && (Capital(lots) == 0 || k.bpPrecision == 0))
            && (o.Replied? ==> o.reply.Settled? && o.reply.total == credited)
            && (total > 0 ==> credited == Handout(k, l, total, relayer))
            && (Pending(after, relayer) + credited == total <==>
                  total == 0 || (lots != [] && Handout(k, l, total, relayer) <= total))
            && forall r :: r != relayer ==> Pending(after, r) == Pending(fees, r)
  {
    hide Settle, Allocations, ActiveLots, Total;
    var total, lots := Pending(fees, relayer), ActiveLots(l.deployments, relayer);
    if total > 0 && lots != [] && Capital(lots) > 0 && k.bpPrecision > 0 {
      var allocations := Allocations(k, total, Capital(lots), lots);
      SettleAccepts(k, l, total, relayer);
      EmptyTotal();
      SettleCredits(l, relayer, Total(allocations), allocations);
    }
  }

  lemma {:induction false} EmptyTotal()
    ensures Total([]) == 0
  {
  }

  lemma {:induction false} SettleCredits(l: Ledger, relayer: string, total: nat, allocations: seq<Allocation>)
    requires Settle(l, relayer, total, allocations).1.Settled?
    ensures Outstanding(Settle(l, relayer, total, allocations).0.deployments) == Outstanding(l.deployments) + total
  {
    FeeFlow(Config(0, 1), l, SettleStep(relayer, total, allocations));
  }

  /** Settling neither loses nor makes fees: what was pending is still pending or credited. */
  predicate Conserves(k: Config, l: Ledger, fees: Fees, relayer: string) {
    var (m, after, _) := SettleRelayer(k, l, fees, relayer);
    Pending(fees, relayer) == Pending(after, relayer) + (Outstanding(m.deployments) - Outstanding(l.deployments))
  }

  /** A ledger conserves whatever is pending exactly when the relayer has an active deployment
      and the cuts agreed to, weighted with the capital, average at most the precision; without
      a precision nothing is ever split. */
  lemma {:induction false} ConservesAlways(k: Config, l: Ledger, relayer: string)
    requires InOrder(l)
    ensures (forall fees :: Conserves(k, l, fees, relayer)) <==>
            var lots := ActiveLots(l.deployments, relayer);
            lots != [] && (k.bpPrecision == 0 || Weight(lots) <= Capital(lots) * k.bpPrecision)
  {
    hide SettleRelayer, Allocations, ActiveLots, Total, Capital, Weight, InOrder;
    var lots := ActiveLots(l.deployments, relayer);
    NoWeight(lots);
    if lots == [] {
      SettleConserves(k, l, map[relayer := 1], relayer);
      assert !Conserves(k, l, map[relayer := 1], relayer);
    } else if k.bpPrecision == 0 || Capital(lots) == 0 || Weight(lots) <= Capital(lots) * k.bpPrecision {
      if k.bpPrecision > 0 && Capital(lots) > 0 { SplitFits(k, lots); }
      forall fees
        ensures Conserves(k, l, fees, relayer)
      {
        SettleConserves(k, l, fees, relayer);
        var total := Pending(fees, relayer);
        if k.bpPrecision > 0 && Capital(lots) > 0 {
          assert Total(Allocations(k, total, Capital(lots), lots)) <= total;
        }
        assert Handout(k, l, total, relayer) <= total;
      }
    } else {
      SplitFits(k, lots);
      var total: nat :| Total(Allocations(k, total, Capital(lots), lots)) > total;
      NothingSplit(k, Capital(lots), lots);
      SettleConserves(k, l, map[relayer := total], relayer);
      assert !Conserves(k, l, map[relayer := total], relayer);
    }
  }

  lemma {:induction false} NoWeight(lots: seq<Lot>)
    ensures Capital(lots) == 0 ==> Weight(lots) == 0
  {
    if lots != [] { NoWeight(lots[..|lots| - 1]); }
  }

  lemma {:induction false} NothingSplit(k: Config, deployed: nat, lots: seq<Lot>)
    requires k.bpPrecision > 0 && deployed > 0
    ensures Total(Allocations(k, 0, deployed, lots)) == 0
  {
    AllocationsScaled(k, 0, deployed, lots);
    CancelRight(Total(Allocations(k, 0, deployed, lots)), 0, deployed * k.bpPrecision);
  }

  /** Every deployment carries capital. */
  predicate Funded(l: Ledger) {
    forall i :: 0 <= i < |l.deployments| ==> l.deployments[i].amount > 0
  }

  lemma {:induction false} FundedCapital(l: Ledger, relayer: string)
    requires Funded(l) && ActiveLots(l.deployments, relayer) != []
    ensures Capital(ActiveLots(l.deployments, relayer)) > 0
  {
    var lots := ActiveLots(l.deployments, relayer);
    LotsValid(l.deployments, relayer);
    assert lots[|lots| - 1] in lots;
  }

  /** A positive minimum deployment keeps every run funded. */
  lemma {:induction false} RunFunded(k: Config, steps: seq<Step>)
    requires k.minDeploy > 0
    ensures Funded(Run(k, steps))
  {
    if steps != [] {
      var l, s := Run(k, steps[..|steps| - 1]), steps[|steps| - 1];
      RunFunded(k, steps[..|steps| - 1]);
      if s.SettleStep? {
        CreditKeeps(l.deployments, s.relayer, s.allocations);
        SameFields(Credit(l.deployments, s.relayer, s.allocations).0, l.deployments);
      }
    }
  }

  /** With a positive minimum and precision no settlement after any run divides by zero. */
  lemma {:induction false} NeverDivides(k: Config, steps: seq<Step>, fees: Fees, relayer: string)
    requires k.minDeploy > 0 && k.bpPrecision > 0
    ensures !SettleRelayer(k, Run(k, steps), fees, relayer).2.DividedByZero?
  {
    hide Settle, Allocations, ActiveLots, Total;
    var l := Run(k, steps);
    RunFunded(k, steps);
    if ActiveLots(l.deployments, relayer) != [] { FundedCapital(l, relayer); }
  }

  // ----- every run of accruing and settling -----

  datatype World = World(ledger: Ledger, fees: Fees)

  /** The contract is used directly, also for settling; fees accrue and are settled through
      the relayer. */
  datatype WorldStep = Contract(step: Step) | Accrue(relayer: string, fee: nat) | SettleNow(relayer: string)

  function WorldApply(k: Config, w: World, s: WorldStep): World {
    match s
    case Contract(step) => w.(ledger := Apply(k, w.ledger, step).0)
    case Accrue(r, fee) => w.(fees := w.fees[r := Pending(w.fees, r) + fee])
    case SettleNow(r) => var (l, fees, _) := SettleRelayer(k, w.ledger, w.fees, r); World(l, fees)
  }

  function WorldRun(k: Config, steps: seq<WorldStep>): World {
    if steps == [] then World(EMPTY_LEDGER, map[])
    else WorldApply(k, WorldRun(k, steps[..|steps| - 1]), steps[|steps| - 1])
  }

  /** Backers agree to cuts within precision. */
  predicate FairCut(k: Config, s: WorldStep) {
    s.Contract? && s.step.DeployStep? ==> s.step.cut <= k.bpPrecision
  }

  function Accrued(steps: seq<WorldStep>, r: string): nat {
    if steps == [] then 0
    else
      var s := steps[|steps| - 1];
      Accrued(steps[..|steps| - 1], r) + (if s.Accrue? && s.relayer == r then s.fee else 0)
  }

  /** Fees credited by settlements made on the contract directly, which no accrual backs. */
  function Direct(k: Config, steps: seq<WorldStep>, r: string): nat {
    if steps == [] then 0
    else
      var w, s := WorldRun(k, steps[..|steps| - 1]), steps[|steps| - 1];
      Direct(k, steps[..|steps| - 1], r) + (if s.Contract? then DirectBy(k, w.ledger, s.step, r) else 0)
  }

  function DirectBy(k: Config, l: Ledger, s: Step, r: string): nat {
    if s.SettleStep? && s.relayer == r && Apply(k, l, s).1.Settled? then s.total else 0
  }

  /** Pending fees discarded by settlements that found no active deployment. */
  function Dropped(k: Config, steps: seq<WorldStep>, r: string): nat {
    if steps == [] then 0
    else
      var w, s := WorldRun(k, steps[..|steps| - 1]), steps[|steps| - 1];
      Dropped(k, steps[..|steps| - 1], r) +
      (if s == SettleNow(r) && ActiveLots(w.ledger.deployments, r) == [] then Pending(w.fees, r) else 0)
  }

  /** Lifetime fees a relayer has credited to its backers. */
  function CreditedTo(l: Ledger, r: string): nat {
    if r in l.registry then l.registry[r].accumulatedFees else 0
  }

  /** What a settlement hands out beyond what is pending. */
  function MintedBy(k: Config, w: World, r: string): nat {
    if ActiveLots(w.ledger.deployments, r) == [] then 0
    else Minus(Handout(k, w.ledger, Pending(w.fees, r), r), Pending(w.fees, r))
  }

  function Minted(k: Config, steps: seq<WorldStep>, r: string): nat {
    if steps == [] then 0
    else
      var w, s := WorldRun(k, steps[..|steps| - 1]), steps[|steps| - 1];
      Minted(k, steps[..|steps| - 1], r) + (if s == SettleNow(r) then MintedBy(k, w, r) else 0)
  }

  lemma {:induction false} ContractCredits(k: Config, l: Ledger, s: Step, r: string)
    ensures CreditedTo(Apply(k, l, s).0, r) == CreditedTo(l, r) + DirectBy(k, l, s, r)
  {
  }

  lemma {:induction false} SettleNowOrder(k: Config, w: World, r: string)
    requires InOrder(w.ledger)
    ensures InOrder(WorldApply(k, w, SettleNow(r)).ledger)
  {
    hide Settle, Allocations, ActiveLots, Total, InOrder;
    var total, lots := Pending(w.fees, r), ActiveLots(w.ledger.deployments, r);
    if total > 0 && lots != [] && Capital(lots) > 0 && k.bpPrecision > 0 {
      var allocations := Allocations(k, total, Capital(lots), lots);
      StepKeeps(k, w.ledger, SettleStep(r, Total(allocations), allocations));
    }
  }

  lemma {:induction false} SettleNowFlow(k: Config, w: World, r: string, q: string)
    requires InOrder(w.ledger)
    ensures var v := WorldApply(k, w, SettleNow(r));
            Pending(v.fees, q) + CreditedTo(v.ledger, q)
              + (if q == r && ActiveLots(w.ledger.deployments, r) == [] then Pending(w.fees, r) else 0) ==
            Pending(w.fees, q) + CreditedTo(w.ledger, q) + (if q == r then MintedBy(k, w, r) else 0)
  {
    hide Allocations, ActiveLots, Total, Credit, InOrder;
    var l, total, lots := w.ledger, Pending(w.fees, r), ActiveLots(w.ledger.deployments, r);
    if lots != [] && Capital(lots) > 0 && k.bpPrecision > 0 {
      NothingSplit(k, Capital(lots), lots);
      EmptyTotal();
      if total > 0 { SettleAccepts(k, l, total, r); }
    }
  }

  /** Over every run, whatever cuts were agreed to: what a relayer accrued, what was settled for
      it on the contract directly and what its settlements handed out beyond what was pending is
      pending, credited to its backers, or was dropped for want of an active deployment. */
  lemma {:induction false} AccruedConserved(k: Config, steps: seq<WorldStep>, r: string)
    ensures InOrder(WorldRun(k, steps).ledger)
    ensures var w := WorldRun(k, steps);
            Accrued(steps, r) + Direct(k, steps, r) + Minted(k, steps, r) ==
            Pending(w.fees, r) + CreditedTo(w.ledger, r) + Dropped(k, steps, r)
  {
    hide SettleRelayer, Apply, InOrder, ActiveLots, DirectBy, MintedBy;
    if steps == [] {
      StartInOrder();
    } else {
      var before, s := steps[..|steps| - 1], steps[|steps| - 1];
      AccruedConserved(k, before, r);
      var w := WorldRun(k, before);
      match s {
        case Contract(step) =>
          StepKeeps(k, w.ledger, step);
          ContractCredits(k, w.ledger, step, r);
        case Accrue(_, _) =>
        case SettleNow(q) =>
          SettleNowOrder(k, w, q);
          SettleNowFlow(k, w, q, r);
      }
    }
  }

  /** If step `i` settles for `r`, it finds no active deployment or hands out no more than is
      pending. */
  predicate WithinAt(k: Config, steps: seq<WorldStep>, r: string, i: nat)
    requires i < |steps|
  {
    steps[i] == SettleNow(r) ==> MintedBy(k, WorldRun(k, steps[..i]), r) == 0
  }

  lemma {:induction false} MintedExactly(k: Config, steps: seq<WorldStep>, r: string)
    ensures Minted(k, steps, r) == 0 <==> forall i :: 0 <= i < |steps| ==> WithinAt(k, steps, r, i)
  {
    hide MintedBy, WorldRun;
    if steps != [] {
      var n := |steps| - 1;
      var before := steps[..n];
      MintedExactly(k, before, r);
      assert forall i :: 0 <= i < n ==> before[..i] == steps[..i] && before[i] == steps[i];
      assert forall i :: 0 <= i < n ==> (WithinAt(k, before, r, i) <==> WithinAt(k, steps, r, i));
      assert WithinAt(k, steps, r, n) <==> (steps[n] == SettleNow(r) ==> MintedBy(k, WorldRun(k, before), r) == 0);
    }
  }

  /** So nothing is made or lost over a run exactly when no settlement of it hands out more than
      is pending. */
  lemma {:induction false} RunConserves(k: Config, steps: seq<WorldStep>, r: string)
    ensures var w := WorldRun(k, steps);
            Accrued(steps, r) + Direct(k, steps, r) ==
            Pending(w.fees, r) + CreditedTo(w.ledger, r) + Dropped(k, steps, r) <==>
            forall i :: 0 <= i < |steps| ==> WithinAt(k, steps, r, i)
  {
    hide WorldRun, WithinAt;
    AccruedConserved(k, steps, r);
    MintedExactly(k, steps, r);
  }

  // ----- fair cuts -----

  predicate FairLedger(k: Config, l: Ledger) {
    InOrder(l) && forall i :: 0 <= i < |l.deployments| ==> l.deployments[i].cutBp <= k.bpPrecision
  }

  lemma {:induction false} FairStep(k: Config, l: Ledger, s: Step)
    requires FairLedger(k, l) && FairCut(k, Contract(s))
    ensures FairLedger(k, Apply(k, l, s).0)
  {
    hide InOrder;
    StepKeeps(k, l, s);
    if s.SettleStep? {
      CreditKeeps(l.deployments, s.relayer, s.allocations);
      SameFields(Credit(l.deployments, s.relayer, s.allocations).0, l.deployments);
    }
  }

  lemma {:induction false} SettleNowFair(k: Config, w: World, r: string)
    requires FairLedger(k, w.ledger)
    ensures FairLedger(k, WorldApply(k, w, SettleNow(r)).ledger)
  {
    hide Settle, Allocations, ActiveLots, Total, FairLedger;
    var total, lots := Pending(w.fees, r), ActiveLots(w.ledger.deployments, r);
    if total > 0 && lots != [] && Capital(lots) > 0 && k.bpPrecision > 0 {
      var allocations := Allocations(k, total, Capital(lots), lots);
      FairStep(k, w.ledger, SettleStep(r, Total(allocations), allocations));
    }
  }

  lemma {:induction false} FairMintsNothing(k: Config, w: World, r: string)
    requires FairLedger(k, w.ledger)
    ensures MintedBy(k, w, r) == 0
  {
    hide Allocations, ActiveLots, Total, InOrder;
    var lots := ActiveLots(w.ledger.deployments, r);
    if lots != [] && Capital(lots) > 0 && k.bpPrecision > 0 {
      LotsValid(w.ledger.deployments, r);
      assert CutsWithin(k, lots) by {
        assert forall i :: 0 <= i < |lots| ==> lots[i] in lots;
      }
      AllocationsBounded(k, Pending(w.fees, r), lots);
    }
  }

  /** Cuts within the precision never mint, so a run with fair cuts conserves. */
  lemma {:induction false} FairRun(k: Config, steps: seq<WorldStep>, r: string)
    requires forall i :: 0 <= i < |steps| ==> FairCut(k, steps[i])
    ensures FairLedger(k, WorldRun(k, steps).ledger) && Minted(k, steps, r) == 0
  {
    hide SettleRelayer, Apply, FairLedger, MintedBy;
    if steps == [] {
      EmptyFair(k);
    } else {
      var before, s := steps[..|steps| - 1], steps[|steps| - 1];
      FairRun(k, before, r);
      var w := WorldRun(k, before);
      FairMintsNothing(k, w, r);
      match s {
        case Contract(step) => FairStep(k, w.ledger, step);
        case Accrue(_, _) =>
        case SettleNow(q) => SettleNowFair(k, w, q);
      }
    }
  }

  lemma {:induction false} EmptyFair(k: Config)
    ensures FairLedger(k, EMPTY_LEDGER)
  {
  }

  // ----- a cut beyond precision -----

  const SAMPLE := Config(1, 10_000)
  const OVERCUT := [InitStep("r", 0), DeployStep("r", "b", 1, 20_000)]

  const LOT := Lot(0, Deployment("r", "b", 1, 20_000, 0, false))

  lemma {:induction false} OvercutRun()
    ensures Run(SAMPLE, OVERCUT) == Ledger(map["r" := Account(1, 1, 0, 0, true)], [LOT.deployment])
  {
    assert OVERCUT[..1] == [InitStep("r", 0)] && OVERCUT[..1][..0] == [];
    assert Run(SAMPLE, OVERCUT[..1]) == Ledger(map["r" := Account(0, 0, 0, 0, true)], []);
  }

  lemma {:induction false} OvercutSplit()
    ensures ActiveLots([LOT.deployment], "r") == [LOT] && Capital([LOT]) == 1
    ensures Allocations(SAMPLE, 100, 1, [LOT]) == [Allocation(0, 200)] && Total([Allocation(0, 200)]) == 200
  {
    assert [LOT.deployment][..0] == [] && [LOT][..0] == [] && [Allocation(0, 200)][..0] == [];
  }

  /** The contract accepts a cut of twice the precision; settling 100 then credits 200. */
  lemma {:induction false} OvercutMints()
    ensures var (m, after, o) := SettleRelayer(SAMPLE, Run(SAMPLE, OVERCUT), map["r" := 100], "r");
            o == Replied(Settled(200)) && Pending(after, "r") == 0
  {
    hide Run, ActiveLots, Capital, Allocations, Total;
    OvercutRun();
    OvercutSplit();
    assert [Allocation(0, 200)][1..] == [];
  }

  // ----- stake -----

  datatype Stake = Stake(total: nat, locked: int, slashed: int, slashCount: nat)

  function Available(s: Stake): int { s.total - s.locked - s.slashed }

  predicate Solvent(s: Stake) {
    s.locked >= 0 && s.slashed >= 0 && Available(s) >= 0
  }

  /** Stake needed to cover an amount, rounded down. */
  function Needed(ratio: real, amount: nat): nat
    requires ratio >= 0.0
  {
    (amount as real * ratio).Floor
  }

  function Locked(ratio: real, s: Stake, amount: nat): (Stake, bool)
    requires ratio >= 0.0
  {
    var needed := Needed(ratio, amount);
    if Available(s) < needed then (s, false) else (s.(locked := s.locked + needed), true)
  }

  function Released(ratio: real, s: Stake, amount: nat): Stake
    requires ratio >= 0.0
  {
    var left := s.locked - Needed(ratio, amount);
    s.(locked := if left > 0 then left else 0)
  }

  function Slashed(s: Stake, amount: nat): Stake {
    var room := s.total - s.slashed;
    var actual := if amount < room then amount else room;
    var left := s.locked - actual;
    Stake(s.total, if left > 0 then left else 0, s.slashed + actual, s.slashCount + 1)
  }

  datatype StakeStep =
    | Register(relayer: string, stake: nat)
    | Lock(relayer: string, amount: nat)
    | Release(relayer: string, amount: nat)
    | Slash(relayer: string, amount: nat)

  type Records = map<string, Stake>

  function StakeApply(ratio: real, rs: Records, s: StakeStep): Records
    requires ratio >= 0.0
  {
    match s
    case Register(r, stake) => rs[r := Stake(stake, 0, 0, 0)]
    case Lock(r, amount) => if r in rs then rs[r := Locked(ratio, rs[r], amount).0] else rs
    case Release(r, amount) => if r in rs then rs[r := Released(ratio, rs[r], amount)] else rs
    case Slash(r, amount) => if r in rs then rs[r := Slashed(rs[r], amount)] else rs
  }

  function StakeRun(ratio: real, steps: seq<StakeStep>): Records
    requires ratio >= 0.0
  {
    if steps == [] then map[] else StakeApply(ratio, StakeRun(ratio, steps[..|steps| - 1]), steps[|steps| - 1])
  }

  /** Over every run of registering, locking, releasing and slashing, available stake is
      never negative. */
  lemma {:induction false} StakeSolvent(ratio: real, steps: seq<StakeStep>)
    requires ratio >= 0.0
    ensures forall r :: r in StakeRun(ratio, steps) ==> Solvent(StakeRun(ratio, steps)[r])
  {
    hide Needed;
    if steps != [] { StakeSolvent(ratio, steps[..|steps| - 1]); }
  }

  /** Releasing undoes a lock that succeeded. */
  lemma {:induction false} ReleaseUndoesLock(ratio: real, s: Stake, amount: nat)
    requires ratio >= 0.0 && Solvent(s) && Locked(ratio, s, amount).1
    ensures Released(ratio, Locked(ratio, s, amount).0, amount) == s
  {
    hide Needed;
  }

  class StakeManager {
    const ratio: real
    var records: Records

    constructor (ratio: real)
      ensures this.ratio == ratio && records == map[]
    {
      this.ratio, records := ratio, map[];
    }

    method RegisterRelayer(relayer: string, stake: nat)
      requires ratio >= 0.0
      modifies this
      ensures records == StakeApply(ratio, old(records), Register(relayer, stake))
    {
      records := records[relayer := Stake(stake, 0, 0, 0)];
    }

    method LockStake(relayer: string, amount: nat) returns (ok: bool)
      requires ratio >= 0.0
      modifies this
      ensures records == StakeApply(ratio, old(records), Lock(relayer, amount))
      ensures ok <==> relayer in old(records) && Locked(ratio, old(records)[relayer], amount).1
    {
      hide Needed;
      if relayer !in records { return false; }
      var s := records[relayer];
      var needed := Needed(ratio, amount);
      if s.total - s.locked - s.slashed < needed {
        assert records == records[relayer := s];
        return false;
      }
      records := records[relayer := s.(locked := s.locked + needed)];
      return true;
    }

    method ReleaseStake(relayer: string, amount: nat)
      requires ratio >= 0.0
      modifies this
      ensures records == StakeApply(ratio, old(records), Release(relayer, amount))
    {
      if relayer in records {
        var s := records[relayer];
        var left := s.locked - Needed(ratio, amount);
        records := records[relayer := s.(locked := if left > 0 then left else 0)];
      }
    }

    method SlashStake(relayer: string, amount: nat)
      requires ratio >= 0.0
      modifies this
      ensures records == StakeApply(ratio, old(records), Slash(relayer, amount))
    {
      if relayer !in records { return; }
      var s := records[relayer];
      var room := s.total - s.slashed;
      var actual := if amount < room then amount else room;
      var left := s.locked - actual;
      records := records[relayer := Stake(s.total, if left > 0 then left else 0, s.slashed + actual, s.slashCount + 1)];
    }
  }
}

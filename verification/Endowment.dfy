/** The endowment contract: backers deploy capital to relayers, relayers credit fees, backers
    claim and withdraw. Deployment ids are positions in creation order. */
module Endowment {
  import opened Options

  datatype Config = Config(minDeploy: nat, bpPrecision: nat)

  datatype Account = Account(
    totalDeployed: int, activeDeployments: int, accumulatedFees: nat, defaultCutBp: nat, isActive: bool)

  datatype Deployment = Deployment(
    relayer: string, backer: string, amount: nat, cutBp: nat, fees: nat, withdrawn: bool)

  datatype Allocation = Allocation(id: nat, fee: nat)

  datatype Ledger = Ledger(registry: map<string, Account>, deployments: seq<Deployment>)

  const EMPTY_LEDGER := Ledger(map[], [])

  datatype Error =
    | AlreadyInitialized | InvalidBp | EndowmentNotFound | EndowmentInactive | InsufficientDeploy
    | AllocationMismatch | DeploymentNotFound | WrongRelayer | DeploymentWithdrawn
    | Unauthorized | AlreadyWithdrawn | NoFees

  datatype Reply =
    | Failed(error: Error) | Initialized | Deployed(id: nat)
    | Settled(total: nat) | Claimed(amount: nat) | Returned(total: nat)

  // ----- the operations -----

  function Initialize(k: Config, l: Ledger, relayer: string, cut: nat): (Ledger, Reply) {
    if relayer in l.registry then (l, Failed(AlreadyInitialized))
    else if cut > k.bpPrecision then (l, Failed(InvalidBp))
    else (l.(registry := l.registry[relayer := Account(0, 0, 0, cut, true)]), Initialized)
  }

  function Deploy(k: Config, l: Ledger, relayer: string, backer: string, amount: nat, cut: nat): (Ledger, Reply) {
    if relayer !in l.registry then (l, Failed(EndowmentNotFound))
    else if !l.registry[relayer].isActive then (l, Failed(EndowmentInactive))
    else if amount < k.minDeploy then (l, Failed(InsufficientDeploy))
    else
      var a := l.registry[relayer];
      var b := a.(totalDeployed := a.totalDeployed + amount, activeDeployments := a.activeDeployments + 1);
      (Ledger(l.registry[relayer := b],
              l.deployments + [Deployment(relayer, backer, amount, cut, 0, false)]),
       Deployed(|l.deployments|))
  }

  function Total(allocations: seq<Allocation>): nat {
    if allocations == [] then 0 else Total(allocations[..|allocations| - 1]) + allocations[|allocations| - 1].fee
  }

  function Refusal(ds: seq<Deployment>, relayer: string, a: Allocation): Option<Error> {
    if a.id >= |ds| then Some(DeploymentNotFound)
    else if ds[a.id].relayer != relayer then Some(WrongRelayer)
    else if ds[a.id].withdrawn then Some(DeploymentWithdrawn)
    else None
  }

  /** Credit the allocations in turn; what was credited before a refusal stays. */
  function Credit(ds: seq<Deployment>, relayer: string, allocations: seq<Allocation>): (seq<Deployment>, Option<Error>)
    decreases |allocations|
  {
    if allocations == [] then (ds, None)
    else
      var a := allocations[0];
      match Refusal(ds, relayer, a)
      case Some(e) => (ds, Some(e))
      case None => Credit(ds[a.id := ds[a.id].(fees := ds[a.id].fees + a.fee)], relayer, allocations[1..])
  }

  function Settle(l: Ledger, relayer: string, totalFees: nat, allocations: seq<Allocation>): (Ledger, Reply) {
    if relayer !in l.registry then (l, Failed(EndowmentNotFound))
    else if !l.registry[relayer].isActive then (l, Failed(EndowmentInactive))
    else if Total(allocations) != totalFees then (l, Failed(AllocationMismatch))
    else
      var (ds, e) := Credit(l.deployments, relayer, allocations);
      if e.Some? then (l.(deployments := ds), Failed(e.value))
      else
        var a := l.registry[relayer];
        (Ledger(l.registry[relayer := a.(accumulatedFees := a.accumulatedFees + totalFees)], ds), Settled(totalFees))
  }

  function BackerError(l: Ledger, id: nat, backer: string): Option<Error> {
    if id >= |l.deployments| then Some(DeploymentNotFound)
    else if l.deployments[id].backer != backer then Some(Unauthorized)
    else if l.deployments[id].withdrawn then Some(AlreadyWithdrawn)
    else None
  }

  function Claim(l: Ledger, id: nat, backer: string): (Ledger, Reply) {
    match BackerError(l, id, backer)
    case Some(e) => (l, Failed(e))
    case None =>
      if l.deployments[id].fees == 0 then (l, Failed(NoFees))
      else (l.(deployments := l.deployments[id := l.deployments[id].(fees := 0)]), Claimed(l.deployments[id].fees))
  }

  function Withdraw(l: Ledger, id: nat, backer: string): (Ledger, Reply) {
    match BackerError(l, id, backer)
    case Some(e) => (l, Failed(e))
    case None =>
      var d := l.deployments[id];
      var registry :=
        if d.relayer !in l.registry then l.registry
        else
          var a := l.registry[d.relayer];
          var b := a.(totalDeployed := a.totalDeployed - d.amount, activeDeployments := a.activeDeployments - 1);
          l.registry[d.relayer := b];
      (Ledger(registry, l.deployments[id := d.(withdrawn := true, fees := 0)]), Returned(d.amount + d.fees))
  }

  // ----- the mutable contract -----

  class EndowmentContract {
    const config: Config
    var registry: map<string, Account>
    var deployments: seq<Deployment>

    function View(): Ledger reads this { Ledger(registry, deployments) }

    constructor (config: Config)
      ensures View() == EMPTY_LEDGER && this.config == config
    {
      this.config := config;
      registry, deployments := map[], [];
    }

    method InitializeAccount(relayer: string, cut: nat) returns (reply: Reply)
      modifies this
      ensures (View(), reply) == Initialize(config, old(View()), relayer, cut)
    {
      if relayer in registry { return Failed(AlreadyInitialized); }
      if cut > config.bpPrecision { return Failed(InvalidBp); }
      registry := registry[relayer := Account(0, 0, 0, cut, true)];
      return Initialized;
    }

    method DeployCapital(relayer: string, backer: string, amount: nat, cut: nat) returns (reply: Reply)
      modifies this
      ensures (View(), reply) == Deploy(config, old(View()), relayer, backer, amount, cut)
    {
      if relayer !in registry { return Failed(EndowmentNotFound); }
      var account := registry[relayer];
      if !account.isActive { return Failed(EndowmentInactive); }
      if amount < config.minDeploy { return Failed(InsufficientDeploy); }
      var id := |deployments|;
      deployments := deployments + [Deployment(relayer, backer, amount, cut, 0, false)];
      registry := registry[relayer := account.(totalDeployed := account.totalDeployed + amount,
                                               activeDeployments := account.activeDeployments + 1)];
      return Deployed(id);
    }

    method SettleFees(relayer: string, totalFees: nat, allocations: seq<Allocation>) returns (reply: Reply)
      modifies this
      ensures (View(), reply) == Settle(old(View()), relayer, totalFees, allocations)
    {
      if relayer !in registry { return Failed(EndowmentNotFound); }
      if !registry[relayer].isActive { return Failed(EndowmentInactive); }
      var total := 0;
      for i := 0 to |allocations|
        invariant total == Total(allocations[..i])
      {
        assert allocations[..i + 1][..i] == allocations[..i];
        total := total + allocations[i].fee;
      }
      assert allocations[..|allocations|] == allocations;
      if total != totalFees { return Failed(AllocationMismatch); }
      for i := 0 to |allocations|
        invariant registry == old(registry)
        invariant Credit(deployments, relayer, allocations[i..]) == Credit(old(deployments), relayer, allocations)
      {
        var a := allocations[i];
        assert allocations[i..][1..] == allocations[i + 1..];
        if a.id >= |deployments| { return Failed(DeploymentNotFound); }
        var d := deployments[a.id];
        if d.relayer != relayer { return Failed(WrongRelayer); }
        if d.withdrawn { return Failed(DeploymentWithdrawn); }
        deployments := deployments[a.id := d.(fees := d.fees + a.fee)];
      }
      var account := registry[relayer];
      registry := registry[relayer := account.(accumulatedFees := account.accumulatedFees + totalFees)];
      return Settled(totalFees);
    }

    method ClaimFees(id: nat, backer: string) returns (reply: Reply)
      modifies this
      ensures (View(), reply) == Claim(old(View()), id, backer)
    {
      if id >= |deployments| { return Failed(DeploymentNotFound); }
      var d := deployments[id];
      if d.backer != backer { return Failed(Unauthorized); }
      if d.withdrawn { return Failed(AlreadyWithdrawn); }
      if d.fees == 0 { return Failed(NoFees); }
      deployments := deployments[id := d.(fees := 0)];
      return Claimed(d.fees);
    }

    method WithdrawDeployment(id: nat, backer: string) returns (reply: Reply)
      modifies this
      ensures (View(), reply) == Withdraw(old(View()), id, backer)
    {
      if id >= |deployments| { return Failed(DeploymentNotFound); }
      var d := deployments[id];
      if d.backer != backer { return Failed(Unauthorized); }
      if d.withdrawn { return Failed(AlreadyWithdrawn); }
      if d.relayer in registry {
        var account := registry[d.relayer];
        registry := registry[d.relayer := account.(totalDeployed := account.totalDeployed - d.amount,
                                                   activeDeployments := account.activeDeployments - 1)];
      }
      deployments := deployments[id := d.(withdrawn := true, fees := 0)];
      return Returned(d.amount + d.fees);
    }

    /** The relayer's active deployments, in creation order. */
    method GetActiveDeployments(relayer: string) returns (lots: seq<Lot>)
      ensures lots == ActiveLots(deployments, relayer)
    {
      lots := [];
      for i := 0 to |deployments|
        invariant lots == ActiveLots(deployments[..i], relayer)
      {
        assert deployments[..i + 1][..i] == deployments[..i];
        if IsActive(deployments[i], relayer) { lots := lots + [Lot(i, deployments[i])]; }
      }
      assert deployments[..|deployments|] == deployments;
    }

    method GetTotalDeployed(relayer: string) returns (total: nat)
      ensures total == TotalActive(deployments, relayer)
    {
      total := 0;
      for i := 0 to |deployments|
        invariant total == TotalActive(deployments[..i], relayer)
      {
        assert deployments[..i + 1][..i] == deployments[..i];
        if IsActive(deployments[i], relayer) { total := total + deployments[i].amount; }
      }
      assert deployments[..|deployments|] == deployments;
    }
  }

  // ----- recomputed counters -----

  predicate IsActive(d: Deployment, relayer: string) {
    d.relayer == relayer && !d.withdrawn
  }

  /** A deployment together with its id. */
  datatype Lot = Lot(id: nat, deployment: Deployment)

  function ActiveLots(ds: seq<Deployment>, relayer: string): seq<Lot> {
    if ds == [] then []
    else
      var before := ActiveLots(ds[..|ds| - 1], relayer);
      if IsActive(ds[|ds| - 1], relayer) then before + [Lot(|ds| - 1, ds[|ds| - 1])] else before
  }

  /** The recomputing getter: active capital of one relayer. */
  function TotalActive(ds: seq<Deployment>, relayer: string): nat {
    if ds == [] then 0
    else TotalActive(ds[..|ds| - 1], relayer) + (if IsActive(ds[|ds| - 1], relayer) then ds[|ds| - 1].amount else 0)
  }

  function CountActive(ds: seq<Deployment>, relayer: string): nat {
    if ds == [] then 0
    else CountActive(ds[..|ds| - 1], relayer) + (if IsActive(ds[|ds| - 1], relayer) then 1 else 0)
  }

  function Outstanding(ds: seq<Deployment>): nat {
    if ds == [] then 0 else Outstanding(ds[..|ds| - 1]) + ds[|ds| - 1].fees
  }

  /** The cached counters of every account equal the recomputed ones, every account is
      active, and every deployment belongs to an account. */
  predicate InOrder(l: Ledger) {
    && (forall r :: r in l.registry ==>
          && l.registry[r].isActive
          && l.registry[r].totalDeployed == TotalActive(l.deployments, r)
          && l.registry[r].activeDeployments == CountActive(l.deployments, r))
    && (forall i :: 0 <= i < |l.deployments| ==> l.deployments[i].relayer in l.registry)
  }

  /** What changing one deployment does to the recomputed figures. */
  lemma {:induction false} UpdateOne(ds: seq<Deployment>, i: nat, d: Deployment, r: string)
    requires i < |ds|
    ensures TotalActive(ds[i := d], r) + (if IsActive(ds[i], r) then ds[i].amount else 0) ==
            TotalActive(ds, r) + (if IsActive(d, r) then d.amount else 0)
    ensures CountActive(ds[i := d], r) + (if IsActive(ds[i], r) then 1 else 0) ==
            CountActive(ds, r) + (if IsActive(d, r) then 1 else 0)
    ensures Outstanding(ds[i := d]) + ds[i].fees == Outstanding(ds) + d.fees
  {
    var n := |ds| - 1;
    if i == n {
      assert ds[i := d][..n] == ds[..n];
    } else {
      UpdateOne(ds[..n], i, d, r);
      assert ds[i := d][..n] == ds[..n][i := d];
    }
  }

  /** Relayer, amount and state of every deployment are the same, fees aside. */
  predicate SameCapital(a: seq<Deployment>, b: seq<Deployment>) {
    |a| == |b| && forall i :: 0 <= i < |a| ==> a[i].(fees := 0) == b[i].(fees := 0)
  }

  lemma {:induction false} CreditKeeps(ds: seq<Deployment>, relayer: string, allocations: seq<Allocation>)
    ensures SameCapital(Credit(ds, relayer, allocations).0, ds)
    decreases |allocations|
  {
    if allocations != [] && Refusal(ds, relayer, allocations[0]).None? {
      var a := allocations[0];
      var next := ds[a.id := ds[a.id].(fees := ds[a.id].fees + a.fee)];
      CreditKeeps(next, relayer, allocations[1..]);
      assert SameCapital(next, ds);
    }
  }

  lemma {:induction false} SameFields(a: seq<Deployment>, b: seq<Deployment>)
    requires SameCapital(a, b)
    ensures forall i :: 0 <= i < |a| ==>
              && a[i].relayer == b[i].relayer && a[i].amount == b[i].amount
              && a[i].cutBp == b[i].cutBp && a[i].withdrawn == b[i].withdrawn
  {
    forall i | 0 <= i < |a|
      ensures a[i].relayer == b[i].relayer && a[i].amount == b[i].amount
      ensures a[i].cutBp == b[i].cutBp && a[i].withdrawn == b[i].withdrawn
    {
      assert a[i].(fees := 0) == b[i].(fees := 0);
    }
  }

  lemma {:induction false} SameCapitalCounts(a: seq<Deployment>, b: seq<Deployment>, r: string)
    requires SameCapital(a, b)
    ensures TotalActive(a, r) == TotalActive(b, r) && CountActive(a, r) == CountActive(b, r)
  {
    if a != [] {
      var n := |a| - 1;
      SameFields(a, b);
      SameCapitalCounts(a[..n], b[..n], r);
    }
  }

  // ----- runs -----

  datatype Step =
    | InitStep(relayer: string, cut: nat)
    | DeployStep(relayer: string, backer: string, amount: nat, cut: nat)
    | SettleStep(relayer: string, total: nat, allocations: seq<Allocation>)
    | ClaimStep(id: nat, backer: string)
    | WithdrawStep(id: nat, backer: string)

  function Apply(k: Config, l: Ledger, s: Step): (Ledger, Reply) {
    match s
    case InitStep(r, cut) => Initialize(k, l, r, cut)
    case DeployStep(r, b, amount, cut) => Deploy(k, l, r, b, amount, cut)
    case SettleStep(r, total, allocations) => Settle(l, r, total, allocations)
    case ClaimStep(id, b) => Claim(l, id, b)
    case WithdrawStep(id, b) => Withdraw(l, id, b)
  }

  function Run(k: Config, steps: seq<Step>): Ledger {
    if steps == [] then EMPTY_LEDGER else Apply(k, Run(k, steps[..|steps| - 1]), steps[|steps| - 1]).0
  }

  lemma {:induction false} InitKeeps(k: Config, l: Ledger, relayer: string, cut: nat)
    requires InOrder(l)
    ensures InOrder(Initialize(k, l, relayer, cut).0)
  {
    if relayer !in l.registry { NoCapital(l.deployments, relayer, l.registry.Keys); }
  }

  lemma {:induction false} NoCapital(ds: seq<Deployment>, relayer: string, known: set<string>)
    requires relayer !in known && forall i :: 0 <= i < |ds| ==> ds[i].relayer in known
    ensures TotalActive(ds, relayer) == 0 && CountActive(ds, relayer) == 0
  {
    if ds != [] { NoCapital(ds[..|ds| - 1], relayer, known); }
  }

  lemma {:induction false} DeployKeeps(k: Config, l: Ledger, relayer: string, backer: string, amount: nat, cut: nat)
    requires InOrder(l)
    ensures InOrder(Deploy(k, l, relayer, backer, amount, cut).0)
  {
    var d := Deployment(relayer, backer, amount, cut, 0, false);
    assert (l.deployments + [d])[..|l.deployments|] == l.deployments;
  }

  lemma {:induction false} SettleKeeps(l: Ledger, relayer: string, total: nat, allocations: seq<Allocation>)
    requires InOrder(l)
    ensures InOrder(Settle(l, relayer, total, allocations).0)
  {
    var ds := Credit(l.deployments, relayer, allocations).0;
    CreditKeeps(l.deployments, relayer, allocations);
    forall r | r in l.registry
      ensures TotalActive(ds, r) == TotalActive(l.deployments, r) && CountActive(ds, r) == CountActive(l.deployments, r)
    {
      SameCapitalCounts(ds, l.deployments, r);
    }
    SameFields(ds, l.deployments);
  }

  lemma {:induction false} ClaimKeeps(l: Ledger, id: nat, backer: string)
    requires InOrder(l)
    ensures InOrder(Claim(l, id, backer).0)
  {
    if BackerError(l, id, backer).None? {
      forall r | r in l.registry
        ensures var d := l.deployments[id].(fees := 0);
                && TotalActive(l.deployments[id := d], r) == TotalActive(l.deployments, r)
                && CountActive(l.deployments[id := d], r) == CountActive(l.deployments, r)
      {
        UpdateOne(l.deployments, id, l.deployments[id].(fees := 0), r);
      }
    }
  }

  lemma {:induction false} WithdrawKeeps(l: Ledger, id: nat, backer: string)
    requires InOrder(l)
    ensures InOrder(Withdraw(l, id, backer).0)
  {
    if BackerError(l, id, backer).None? {
      var d := l.deployments[id].(withdrawn := true, fees := 0);
      var m := Withdraw(l, id, backer).0;
      forall r | r in m.registry
        ensures m.registry[r].totalDeployed == TotalActive(m.deployments, r)
        ensures m.registry[r].activeDeployments == CountActive(m.deployments, r)
      {
        UpdateOne(l.deployments, id, d, r);
      }
    }
  }

  lemma {:induction false} StepKeeps(k: Config, l: Ledger, s: Step)
    requires InOrder(l)
    ensures InOrder(Apply(k, l, s).0)
  {
    match s {
      case InitStep(r, cut) => InitKeeps(k, l, r, cut);
      case DeployStep(r, b, amount, cut) => DeployKeeps(k, l, r, b, amount, cut);
      case SettleStep(r, total, allocations) => SettleKeeps(l, r, total, allocations);
      case ClaimStep(id, b) => ClaimKeeps(l, id, b);
      case WithdrawStep(id, b) => WithdrawKeeps(l, id, b);
    }
  }

  /** Over every run, cached totals and counts equal the recomputed ones. */
  lemma {:induction false} RunInOrder(k: Config, steps: seq<Step>)
    ensures InOrder(Run(k, steps))
  {
    hide Apply, InOrder;
    if steps == [] {
      StartInOrder();
    } else {
      RunInOrder(k, steps[..|steps| - 1]);
      StepKeeps(k, Run(k, steps[..|steps| - 1]), steps[|steps| - 1]);
    }
  }

  lemma {:induction false} StartInOrder()
    ensures InOrder(EMPTY_LEDGER)
  {
  }

  // ----- the flow of fees -----

  /** What a settlement actually credits: the allocations before the first refusal. */
  function Credited(ds: seq<Deployment>, relayer: string, allocations: seq<Allocation>): nat
    decreases |allocations|
  {
    if allocations == [] || Refusal(ds, relayer, allocations[0]).Some? then 0
    else
      var a := allocations[0];
      a.fee + Credited(ds[a.id := ds[a.id].(fees := ds[a.id].fees + a.fee)], relayer, allocations[1..])
  }

  lemma {:induction false} CreditFlow(ds: seq<Deployment>, relayer: string, allocations: seq<Allocation>)
    ensures Outstanding(Credit(ds, relayer, allocations).0) == Outstanding(ds) + Credited(ds, relayer, allocations)
    decreases |allocations|
  {
    if allocations != [] && Refusal(ds, relayer, allocations[0]).None? {
      var a := allocations[0];
      var d := ds[a.id].(fees := ds[a.id].fees + a.fee);
      UpdateOne(ds, a.id, d, relayer);
      CreditFlow(ds[a.id := d], relayer, allocations[1..]);
    }
  }

  lemma {:induction false} TotalFromFront(allocations: seq<Allocation>)
    requires allocations != []
    ensures Total(allocations) == allocations[0].fee + Total(allocations[1..])
  {
    var n := |allocations| - 1;
    if n == 0 {
      assert allocations[..0] == [] && allocations[1..] == [];
    } else {
      TotalFromFront(allocations[..n]);
      assert allocations[..n][1..] == allocations[1..][..n - 1];
    }
  }

  lemma {:induction false} AcceptedCredit(ds: seq<Deployment>, relayer: string, allocations: seq<Allocation>)
    requires Credit(ds, relayer, allocations).1.None?
    ensures Credited(ds, relayer, allocations) == Total(allocations)
    decreases |allocations|
  {
    if allocations != [] {
      var a := allocations[0];
      TotalFromFront(allocations);
      AcceptedCredit(ds[a.id := ds[a.id].(fees := ds[a.id].fees + a.fee)], relayer, allocations[1..]);
    }
  }

  function CreditedBy(l: Ledger, s: Step): nat {
    match s
    case SettleStep(r, total, allocations) =>
      if r !in l.registry || !l.registry[r].isActive || Total(allocations) != total then 0
      else Credited(l.deployments, r, allocations)
    case _ => 0
  }

  /** Fees a reply pays out; a withdrawal also returns the principal. */
  function FeesPaid(l: Ledger, s: Step, reply: Reply): nat {
    match reply
    case Claimed(amount) => amount
    case Returned(_) => if s.WithdrawStep? && s.id < |l.deployments| then l.deployments[s.id].fees else 0
    case _ => 0
  }

  /** No step creates or loses fees: outstanding fees change by what is credited and paid.
      A settlement that is refused midway keeps what it had credited. */
  lemma {:induction false} FeeFlow(k: Config, l: Ledger, s: Step)
    ensures var (m, reply) := Apply(k, l, s);
            Outstanding(m.deployments) + FeesPaid(l, s, reply) == Outstanding(l.deployments) + CreditedBy(l, s)
    ensures Apply(k, l, s).1.Settled? ==> CreditedBy(l, s) == Apply(k, l, s).1.total
  {
    match s {
      case InitStep(r, cut) =>
      case DeployStep(r, b, amount, cut) =>
        var d := Deployment(r, b, amount, cut, 0, false);
        assert (l.deployments + [d])[..|l.deployments|] == l.deployments;
      case SettleStep(r, total, allocations) =>
        CreditFlow(l.deployments, r, allocations);
        if Credit(l.deployments, r, allocations).1.None? { AcceptedCredit(l.deployments, r, allocations); }
      case ClaimStep(id, b) =>
        if BackerError(l, id, b).None? { UpdateOne(l.deployments, id, l.deployments[id].(fees := 0), b); }
      case WithdrawStep(id, b) =>
        if BackerError(l, id, b).None? {
          UpdateOne(l.deployments, id, l.deployments[id].(withdrawn := true, fees := 0), b);
        }
    }
  }

  function CreditedOver(k: Config, steps: seq<Step>): nat {
    if steps == [] then 0
    else CreditedOver(k, steps[..|steps| - 1]) + CreditedBy(Run(k, steps[..|steps| - 1]), steps[|steps| - 1])
  }

  function PaidOver(k: Config, steps: seq<Step>): nat {
    if steps == [] then 0
    else
      var l, s := Run(k, steps[..|steps| - 1]), steps[|steps| - 1];
      PaidOver(k, steps[..|steps| - 1]) + FeesPaid(l, s, Apply(k, l, s).1)
  }

  /** Over every run, fees credited equal fees paid out plus fees still outstanding. */
  lemma {:induction false} FeesConserved(k: Config, steps: seq<Step>)
    ensures CreditedOver(k, steps) == PaidOver(k, steps) + Outstanding(Run(k, steps).deployments)
  {
    hide Apply, CreditedBy, FeesPaid;
    if steps != [] {
      FeesConserved(k, steps[..|steps| - 1]);
      FeeFlow(k, Run(k, steps[..|steps| - 1]), steps[|steps| - 1]);
    }
  }
}

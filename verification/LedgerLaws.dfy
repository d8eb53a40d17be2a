/** The endowment ledger, the pro-rata split and the stake, operation by operation: every reply
    and its cause, what changes and what does not, and what two operations in a row undo. */
module LedgerLaws {
  import opened Options
  import opened Endowment
  import opened Relayer

  // ----- accounts and deployments -----

  /** An account is refused when there is one or the default cut exceeds the precision; a new one
      starts empty and active, and nothing else changes. */
  lemma {:induction false} InitExactly(k: Config, l: Ledger, r: string, cut: nat)
    ensures var (m, reply) := Initialize(k, l, r, cut);
            && (reply == Failed(AlreadyInitialized) <==> r in l.registry)
            && (reply == Failed(InvalidBp) <==> r !in l.registry && cut > k.bpPrecision)
            && (reply == Initialized <==> r !in l.registry && cut <= k.bpPrecision)
            && (reply != Initialized ==> m == l)
            && (reply == Initialized ==> r in m.registry && m.registry[r] == Account(0, 0, 0, cut, true))
            && m.deployments == l.deployments
            && forall q :: q != r ==>
                 (q in m.registry <==> q in l.registry) && (q in l.registry ==> m.registry[q] == l.registry[q])
  {
  }

  /** Same accounts, but for the cached counters of one. */
  ghost predicate OnlyCounters(l: Ledger, m: Ledger, r: string, amount: int, count: int) {
    && l.registry.Keys == m.registry.Keys
    && (forall q :: q in l.registry && q != r ==> m.registry[q] == l.registry[q])
    && (r in l.registry ==>
          && m.registry[r].totalDeployed == l.registry[r].totalDeployed + amount
          && m.registry[r].activeDeployments == l.registry[r].activeDeployments + count
          && m.registry[r].accumulatedFees == l.registry[r].accumulatedFees
          && m.registry[r].defaultCutBp == l.registry[r].defaultCutBp
          && m.registry[r].isActive == l.registry[r].isActive)
  }

  /** Capital is deployed exactly to a known, active account and from the minimum on; the new
      deployment gets the next id and the account's counters grow with it. */
  lemma {:induction false} DeployExactly(k: Config, l: Ledger, r: string, b: string, amount: nat, cut: nat)
    ensures var (m, reply) := Deploy(k, l, r, b, amount, cut);
            var known := r in l.registry;
            var active := known && l.registry[r].isActive;
            && (reply == Failed(EndowmentNotFound) <==> !known)
            && (reply == Failed(EndowmentInactive) <==> known && !active)
            && (reply == Failed(InsufficientDeploy) <==> active && amount < k.minDeploy)
            && (reply == Deployed(|l.deployments|) <==> active && amount >= k.minDeploy)
            && (reply.Failed? ==> m == l)
            && (reply.Deployed? ==>
                  && m.deployments == l.deployments + [Deployment(r, b, amount, cut, 0, false)]
                  && OnlyCounters(l, m, r, amount, 1))
  {
  }

  /** The one deployment `id` has these fees and this state; all others are as they were. */
  ghost predicate OnlyDeployment(l: Ledger, m: Ledger, id: nat, withdrawn: bool) {
    && id < |l.deployments| == |m.deployments|
    && m.deployments[id] == l.deployments[id].(fees := 0, withdrawn := withdrawn)
    && forall i :: 0 <= i < |l.deployments| && i != id ==> m.deployments[i] == l.deployments[i]
  }

  /** Only the backer of a live deployment with fees may claim, and gets exactly those. */
  lemma {:induction false} ClaimExactly(l: Ledger, id: nat, b: string)
    ensures var (m, reply) := Claim(l, id, b);
            var known := id < |l.deployments|;
            var ours := known && l.deployments[id].backer == b;
            var live := ours && !l.deployments[id].withdrawn;
            && (reply == Failed(DeploymentNotFound) <==> !known)
            && (reply == Failed(Unauthorized) <==> known && !ours)
            && (reply == Failed(AlreadyWithdrawn) <==> ours && !live)
            && (reply == Failed(NoFees) <==> live && l.deployments[id].fees == 0)
            && (reply.Claimed? <==> live && l.deployments[id].fees > 0)
            && (reply.Failed? ==> m == l)
            && (reply.Claimed? ==>
                  && reply.amount == l.deployments[id].fees && m.registry == l.registry
                  && OnlyDeployment(l, m, id, false))
  {
  }

  /** Only the backer of a live deployment may withdraw; principal and fees come back, and the
      account's counters shrink by what they had grown. */
  lemma {:induction false} WithdrawExactly(l: Ledger, id: nat, b: string)
    ensures var (m, reply) := Withdraw(l, id, b);
            var known := id < |l.deployments|;
            var ours := known && l.deployments[id].backer == b;
            var live := ours && !l.deployments[id].withdrawn;
            && (reply == Failed(DeploymentNotFound) <==> !known)
            && (reply == Failed(Unauthorized) <==> known && !ours)
            && (reply == Failed(AlreadyWithdrawn) <==> ours && !live)
            && (reply.Returned? <==> live)
            && (reply.Failed? ==> m == l)
            && (reply.Returned? ==>
                  && reply.total == l.deployments[id].amount + l.deployments[id].fees
                  && OnlyDeployment(l, m, id, true)
                  && OnlyCounters(l, m, l.deployments[id].relayer, -(l.deployments[id].amount as int), -1))
  {
  }

  /** Withdrawing right after deploying gives the amount back and restores every account; a
      second withdrawal fails. */
  lemma {:induction false} DeployWithdraw(k: Config, l: Ledger, r: string, b: string, amount: nat, cut: nat)
    requires Deploy(k, l, r, b, amount, cut).1.Deployed?
    ensures var m := Deploy(k, l, r, b, amount, cut).0;
            var (n, reply) := Withdraw(m, |l.deployments|, b);
            && reply == Returned(amount) && n.registry == l.registry
            && n.deployments[..|l.deployments|] == l.deployments
            && Withdraw(n, |l.deployments|, b).1 == Failed(AlreadyWithdrawn)
  {
  }

  // ----- settling on the contract -----

  /** Fees the allocations give to one deployment. */
  function FeesFor(allocations: seq<Allocation>, id: nat): nat {
    if allocations == [] then 0
    else (if allocations[0].id == id then allocations[0].fee else 0) + FeesFor(allocations[1..], id)
  }

  /** Allocation `i` is in order: a live deployment of the relayer. */
  predicate Accepts(ds: seq<Deployment>, r: string, a: Allocation) {
    a.id < |ds| && ds[a.id].relayer == r && !ds[a.id].withdrawn
  }

  /** Why an allocation is refused. */
  lemma {:induction false} RefusalExactly(ds: seq<Deployment>, r: string, a: Allocation)
    ensures Refusal(ds, r, a) == Some(DeploymentNotFound) <==> a.id >= |ds|
    ensures Refusal(ds, r, a) == Some(WrongRelayer) <==> a.id < |ds| && ds[a.id].relayer != r
    ensures Refusal(ds, r, a) == Some(DeploymentWithdrawn) <==>
            a.id < |ds| && ds[a.id].relayer == r && ds[a.id].withdrawn
    ensures Refusal(ds, r, a) == None <==> Accepts(ds, r, a)
  {
  }

  /** Allocations are credited up to the first that is not in order: each deployment gains
      exactly what those give it, and nothing else of it changes. */
  lemma {:induction false} CreditExactly(ds: seq<Deployment>, r: string, allocations: seq<Allocation>) returns (n: nat)
    ensures n <= |allocations| && forall i :: 0 <= i < n ==> Accepts(ds, r, allocations[i])
    ensures n < |allocations| ==> !Accepts(ds, r, allocations[n])
    ensures Credit(ds, r, allocations).1 == if n == |allocations| then None else Refusal(ds, r, allocations[n])
    ensures |Credit(ds, r, allocations).0| == |ds|
    ensures forall d :: 0 <= d < |ds| ==>
              Credit(ds, r, allocations).0[d] == ds[d].(fees := ds[d].fees + FeesFor(allocations[..n], d))
    decreases |allocations|
  {
    if allocations == [] || !Accepts(ds, r, allocations[0]) {
      n := 0;
    } else {
      var a, rest := allocations[0], allocations[1..];
      var next := ds[a.id := ds[a.id].(fees := ds[a.id].fees + a.fee)];
      assert forall i :: 0 <= i < |rest| ==> (Accepts(next, r, rest[i]) <==> Accepts(ds, r, rest[i]));
      assert forall i :: 0 <= i < |rest| ==> Refusal(next, r, rest[i]) == Refusal(ds, r, rest[i]);
      var k := CreditExactly(next, r, rest);
      n := k + 1;
      assert allocations[..n][1..] == rest[..k];
      assert forall i :: 1 <= i < |allocations| ==> allocations[i] == rest[i - 1];
    }
  }

  /** A settlement is refused for an unknown or inactive account, a total that is not the sum of
      the allocations, or an allocation out of order; only the last leaves credits behind. An
      accepted one adds the total to the account's lifetime fees. */
  lemma {:induction false} SettleExactly(l: Ledger, r: string, total: nat, allocations: seq<Allocation>)
    ensures var (m, reply) := Settle(l, r, total, allocations);
            var known := r in l.registry;
            var active := known && l.registry[r].isActive;
            var adds := Total(allocations) == total;
            var (ds, e) := Credit(l.deployments, r, allocations);
            && (reply == Failed(EndowmentNotFound) <==> !known)
            && (reply == Failed(EndowmentInactive) <==> known && !active)
            && (reply == Failed(AllocationMismatch) <==> active && !adds)
            && (reply == Settled(total) <==> active && adds && e == None)
            && (active && adds && e != None ==> reply == Failed(e.value) && m == l.(deployments := ds))
            && (!active || !adds ==> m == l)
            && (reply.Settled? ==>
                  && m.deployments == ds && m.registry.Keys == l.registry.Keys
                  && m.registry[r] == l.registry[r].(accumulatedFees := l.registry[r].accumulatedFees + total)
                  && forall q :: q in l.registry && q != r ==> m.registry[q] == l.registry[q])
  {
    hide Total;
    var n := CreditExactly(l.deployments, r, allocations);
    hide Credit;
  }

  lemma {:induction false} TotalExactly(allocations: seq<Allocation>)
    ensures allocations == [] ==> Total(allocations) == 0
    ensures allocations != [] ==> Total(allocations) == allocations[0].fee + Total(allocations[1..])
  {
    if allocations != [] { TotalFromFront(allocations); }
  }

  // ----- who takes part in a split -----

  /** The lots are the live deployments of the relayer, each with its id, in creation order. */
  lemma {:induction false} LotsExactly(ds: seq<Deployment>, r: string)
    ensures var lots := ActiveLots(ds, r);
            && (forall i :: 0 <= i < |lots| ==>
                  && lots[i].id < |ds| && lots[i].deployment == ds[lots[i].id]
                  && ds[lots[i].id].relayer == r && !ds[lots[i].id].withdrawn)
            && (forall i, j :: 0 <= i < j < |lots| ==> lots[i].id < lots[j].id)
            && (forall id: nat :: id < |ds| && ds[id].relayer == r && !ds[id].withdrawn ==>
                  Lot(id, ds[id]) in lots)
  {
    if ds != [] {
      var n := |ds| - 1;
      LotsExactly(ds[..n], r);
      var before, lots := ActiveLots(ds[..n], r), ActiveLots(ds, r);
      assert forall i :: 0 <= i < n ==> ds[..n][i] == ds[i];
      assert forall t :: t in before ==> t in lots;
    }
  }

  lemma {:induction false} FloorExactly(x: nat, d: nat)
    requires d > 0
    ensures (x / d) * d <= x < (x / d + 1) * d
  {
  }

  /** A share is rounded down twice: the part of the total in proportion to the capital, then the
      cut of that part. */
  lemma {:induction false} ShareExactly(k: Config, total: nat, deployed: nat, d: Deployment)
    requires k.bpPrecision > 0 && deployed > 0
    ensures exists part: nat ::
              && part * deployed <= total * d.amount < (part + 1) * deployed
              && var share := ShareOf(k, total, deployed, d);
                 share * k.bpPrecision <= part * d.cutBp < (share + 1) * k.bpPrecision
  {
    var part := total * d.amount / deployed;
    FloorExactly(total * d.amount, deployed);
    FloorExactly(part * d.cutBp, k.bpPrecision);
    assert part * deployed <= total * d.amount < (part + 1) * deployed;
  }

  /** The positive shares, one allocation per lot, in order. */
  function Shares(k: Config, total: nat, deployed: nat, lots: seq<Lot>): seq<Allocation>
    requires k.bpPrecision > 0 && deployed > 0
  {
    if lots == [] then []
    else
      var share := ShareOf(k, total, deployed, lots[0].deployment);
      (if share >= 1 then [Allocation(lots[0].id, share)] else []) + Shares(k, total, deployed, lots[1..])
  }

  lemma {:induction false} SharesNext(k: Config, total: nat, deployed: nat, lots: seq<Lot>, t: Lot)
    requires k.bpPrecision > 0 && deployed > 0
    ensures var share := ShareOf(k, total, deployed, t.deployment);
            Shares(k, total, deployed, lots + [t]) ==
            Shares(k, total, deployed, lots) + if share >= 1 then [Allocation(t.id, share)] else []
  {
    hide ShareOf;
    if lots == [] {
      assert lots + [t] == [t] && [t][1..] == [];
    } else {
      SharesNext(k, total, deployed, lots[1..], t);
      assert (lots + [t])[1..] == lots[1..] + [t];
    }
  }

  lemma {:induction false} AllocationsExactly(k: Config, total: nat, deployed: nat, lots: seq<Lot>)
    requires k.bpPrecision > 0 && deployed > 0
    ensures Allocations(k, total, deployed, lots) == Shares(k, total, deployed, lots)
  {
    hide ShareOf;
    if lots != [] {
      var n := |lots| - 1;
      AllocationsExactly(k, total, deployed, lots[..n]);
      SharesNext(k, total, deployed, lots[..n], lots[n]);
      assert lots[..n] + [lots[n]] == lots;
    }
  }

  /** The fees pending for one relayer are replaced; those of all others stay. */
  ghost predicate OnlyPending(f: Fees, g: Fees, r: string, left: nat) {
    && g.Keys == f.Keys && r in f && g[r] == left
    && forall q :: q in f && q != r ==> g[q] == f[q]
  }

  /** Settling does nothing without pending fees, drops them when nothing is deployed, divides by
      zero when what is deployed or the precision is zero, waits when every share rounds to zero, and
      otherwise sends the shares and keeps what rounding left over, whatever the contract says. */
  lemma {:induction false} SettlePendingExactly(k: Config, l: Ledger, f: Fees, r: string)
    ensures var (m, g, outcome) := SettleRelayer(k, l, f, r);
            var lots := ActiveLots(l.deployments, r);
            var owed := r in f && f[r] > 0;
            var sends := owed && lots != [] && Capital(lots) > 0 && k.bpPrecision > 0;
            && (!owed ==> m == l && g == f && outcome == Nothing)
            && (owed && lots == [] ==> m == l && OnlyPending(f, g, r, 0) && outcome == Nothing)
            && (outcome == DividedByZero <==> owed && lots != [] && (Capital(lots) == 0 || k.bpPrecision == 0))
            && (outcome == DividedByZero ==> m == l && g == f)
            && (sends ==>
                  var shares := Shares(k, f[r], Capital(lots), lots);
                  && (shares == [] ==> m == l && g == f && outcome == Nothing)
                  && (shares != [] ==>
                        && (m, outcome) == (Settle(l, r, Total(shares), shares).0,
                                            Replied(Settle(l, r, Total(shares), shares).1))
                        && OnlyPending(f, g, r, if Total(shares) < f[r] then f[r] - Total(shares) else 0)))
  {
    hide ActiveLots, Allocations, Shares, Settle, Total, Capital;
    var lots := ActiveLots(l.deployments, r);
    if Capital(lots) > 0 && k.bpPrecision > 0 { AllocationsExactly(k, Pending(f, r), Capital(lots), lots); }
  }

  /** The capital of the lots is their amounts added up. */
  lemma {:induction false} CapitalNext(lots: seq<Lot>, t: Lot)
    ensures Capital([]) == 0 && Capital(lots + [t]) == Capital(lots) + t.deployment.amount
  {
    assert (lots + [t])[..|lots|] == lots;
  }

  // ----- stake -----

  /** Locking succeeds exactly when the amount times the ratio, rounded down, is available, and
      locks that much. */
  lemma {:induction false} LockExactly(ratio: real, s: Stake, amount: nat) returns (needed: nat)
    requires ratio >= 0.0
    ensures needed as real <= amount as real * ratio < needed as real + 1.0
    ensures var (t, ok) := Locked(ratio, s, amount);
            && (ok <==> s.total - s.locked - s.slashed >= needed)
            && t == (if ok then s.(locked := s.locked + needed) else s)
  {
    needed := Needed(ratio, amount);
  }

  /** Slashing takes the amount or what is left of the total, unlocks as much but not below
      zero, and is counted. */
  lemma {:induction false} SlashExactly(s: Stake, amount: nat)
    requires s.slashed <= s.total
    ensures var t := Slashed(s, amount);
            && t.total == s.total && t.slashCount == s.slashCount + 1
            && (s.slashed + amount <= s.total ==> t.slashed == s.slashed + amount)
            && (s.slashed + amount >= s.total ==> t.slashed == s.total)
            && (t.locked == s.locked - (t.slashed - s.slashed) || (t.locked == 0 && s.locked <= t.slashed - s.slashed))
            && t.locked >= 0
  {
  }

  /** Releasing unlocks the amount times the ratio, rounded down, but not below zero. */
  lemma {:induction false} ReleaseExactly(ratio: real, s: Stake, amount: nat) returns (needed: nat)
    requires ratio >= 0.0
    ensures needed as real <= amount as real * ratio < needed as real + 1.0
    ensures var t := Released(ratio, s, amount);
            && t == s.(locked := t.locked)
            && (s.locked >= needed ==> t.locked == s.locked - needed)
            && (s.locked <= needed ==> t.locked == 0)
  {
    needed := Needed(ratio, amount);
  }

  /** Registering starts a clean record, also over an old one; the other operations change only
      the record they name and never create one. */
  lemma {:induction false} RecordsExactly(ratio: real, rs: Records, step: StakeStep)
    requires ratio >= 0.0
    ensures var after := StakeApply(ratio, rs, step);
            && (step.Register? ==>
                  step.relayer in after && after[step.relayer] == Stake(step.stake, 0, 0, 0))
            && (!step.Register? ==> after.Keys == rs.Keys)
            && (step.relayer in rs && step.Lock? ==>
                  after[step.relayer] == Locked(ratio, rs[step.relayer], step.amount).0)
            && (step.relayer in rs && step.Release? ==>
                  after[step.relayer] == Released(ratio, rs[step.relayer], step.amount))
            && (step.relayer in rs && step.Slash? ==> after[step.relayer] == Slashed(rs[step.relayer], step.amount))
            && (forall q :: q != step.relayer ==>
                  (q in after <==> q in rs) && (q in rs ==> after[q] == rs[q]))
  {
    hide Locked, Released, Slashed;
  }
}

/** Exactly when finality and the height survive, over every run from every state: no
    condition on the chain the run starts from or on the peer maps it is offered. */
module ChainExact {
  import opened Options
  import opened Words
  import opened ChainSpec
  import opened ChainProofs
  import VmCache

  // ----- one step -----

  /** The map a step offers for adoption, if it offers one. */
  function Offer(s: State, step: Step): Option<Chain> {
    match step
    case ReorgStep(peer) => Some(peer)
    case UncleStep =>
      var best := BestUncle(s, 0, 0, NO_BEST);
      if best.top > |s.blocks| then Some(best.chain) else None
    case _ => None
  }

  ghost predicate Adopts(r: Rules, s: State, step: Step) {
    Offer(s, step).Some? && Accepted(r, s.blocks, Offer(s, step).value).Some?
  }

  /** A step that adopts a map drops none of our final blocks: none is above the ancestor. */
  ghost predicate Spares(r: Rules, s: State, step: Step) {
    Adopts(r, s, step) ==>
      forall h :: h in s.blocks && h > CommonAncestor(s.blocks, Offer(s, step).value) ==> !Final(r.mode, s.blocks[h])
  }

  /** A step that adopts a map drops no more blocks above the ancestor than the map supplies. */
  ghost predicate Refills(r: Rules, s: State, step: Step) {
    Adopts(r, s, step) ==>
      var peer := Offer(s, step).value;
      var a := CommonAncestor(s.blocks, peer);
      |HeightsAbove(s.blocks, a)| <= |PeerHeights(peer, a, Top(peer.Keys))|
  }

  /** Connecting, from any state, leaves the chain alone or writes one block over nothing final. */
  lemma {:induction false} ConnectWrites(r: Rules, s: State, block: Block, uncles: seq<Block>)
    ensures var t, h := Connect(r, s, block, uncles).0, block.header.blob.height;
            t.blocks == s.blocks || (t.blocks == s.blocks[h := block] && !(h in s.blocks && Final(r.mode, s.blocks[h])))
  {
    hide VmCache.Probe, ValidateBlock, Final, HasHash, HashesAt, StaleHeights;
  }

  lemma {:induction false} UpdateSize(c: Chain, h: nat, b: Block)
    ensures |c[h := b]| >= |c|
  {
    assert c[h := b].Keys == c.Keys + {h};
    if h in c { assert c.Keys + {h} == c.Keys; }
  }

  lemma {:induction false} StepFinals(r: Rules, s: State, step: Step)
    ensures FinalsKept(r, s, Apply(r, s, step)) <==> Spares(r, s, step)
  {
    hide Connect, Reorg, Accepted, CommonAncestor, BestUncle, Final;
    match step {
      case ConnectStep(block, uncles) => ConnectWrites(r, s, block, uncles);
      case TakeStep(h) =>
      case ReorgStep(peer) => ReorgFinals(r, s, peer);
      case UncleStep => ReorgFinals(r, s, BestUncle(s, 0, 0, NO_BEST).chain);
      case VmStep(op) =>
    }
  }

  lemma {:induction false} StepHeight(r: Rules, s: State, step: Step)
    ensures |Apply(r, s, step).blocks| >= |s.blocks| <==> Refills(r, s, step)
  {
    hide Connect, Accepted, CommonAncestor, BestUncle, Final, PeerHeights, HeightsAbove, Adopt;
    match step {
      case ConnectStep(block, uncles) =>
        ConnectWrites(r, s, block, uncles);
        UpdateSize(s.blocks, block.header.blob.height, block);
      case TakeStep(h) =>
      case ReorgStep(peer) => ReorgHeight(r, s, peer);
      case UncleStep => ReorgHeight(r, s, BestUncle(s, 0, 0, NO_BEST).chain);
      case VmStep(op) =>
    }
  }

  // ----- every run -----

  ghost function At(r: Rules, s: State, steps: seq<Step>, i: nat): State
    requires i <= |steps|
  {
    Run(r, s, steps[..i])
  }

  ghost predicate SparesAt(r: Rules, s: State, steps: seq<Step>, i: nat)
    requires i < |steps|
  {
    Spares(r, At(r, s, steps, i), steps[i])
  }

  ghost predicate RefillsAt(r: Rules, s: State, steps: seq<Step>, i: nat)
    requires i < |steps|
  {
    Refills(r, At(r, s, steps, i), steps[i])
  }

  /** What was final at point `i` of the run is still there at point `j`. */
  ghost predicate FinalsStay(r: Rules, s: State, steps: seq<Step>, i: nat, j: nat)
    requires i <= j <= |steps|
  {
    FinalsKept(r, At(r, s, steps, i), At(r, s, steps, j))
  }

  ghost predicate HeightStays(r: Rules, s: State, steps: seq<Step>, i: nat, j: nat)
    requires i <= j <= |steps|
  {
    |At(r, s, steps, i).blocks| <= |At(r, s, steps, j).blocks|
  }

  lemma {:induction false} StepAt(r: Rules, s: State, steps: seq<Step>, i: nat)
    requires i < |steps|
    ensures FinalsStay(r, s, steps, i, i + 1) <==> SparesAt(r, s, steps, i)
    ensures HeightStays(r, s, steps, i, i + 1) <==> RefillsAt(r, s, steps, i)
  {
    hide Apply, Spares, Refills, FinalsKept;
    RunNext(r, s, steps, i);
    StepFinals(r, At(r, s, steps, i), steps[i]);
    StepHeight(r, At(r, s, steps, i), steps[i]);
  }

  lemma {:induction false} FinalsChain(r: Rules, s: State, t: State, u: State)
    requires FinalsKept(r, s, t) && FinalsKept(r, t, u)
    ensures FinalsKept(r, s, u)
  {
  }

  lemma {:induction false} SparedStretch(r: Rules, s: State, steps: seq<Step>, i: nat, j: nat)
    requires i <= j <= |steps| && forall k :: i <= k < j ==> SparesAt(r, s, steps, k)
    ensures FinalsStay(r, s, steps, i, j)
    decreases j
  {
    hide At, SparesAt;
    if i < j {
      SparedStretch(r, s, steps, i, j - 1);
      StepAt(r, s, steps, j - 1);
      FinalsChain(r, At(r, s, steps, i), At(r, s, steps, j - 1), At(r, s, steps, j));
    }
  }

  lemma {:induction false} RefilledStretch(r: Rules, s: State, steps: seq<Step>, i: nat, j: nat)
    requires i <= j <= |steps| && forall k :: i <= k < j ==> RefillsAt(r, s, steps, k)
    ensures HeightStays(r, s, steps, i, j)
    decreases j
  {
    hide At, RefillsAt;
    if i < j {
      RefilledStretch(r, s, steps, i, j - 1);
      StepAt(r, s, steps, j - 1);
    }
  }

  /** Finality over every run from every state: whatever is final at any point stays canonical
      at its height to the end, exactly when no adopted map forks below a final block. */
  lemma {:induction false} RunFinalsExactly(r: Rules, s: State, steps: seq<Step>)
    ensures (forall i, j :: 0 <= i <= j <= |steps| ==> FinalsStay(r, s, steps, i, j))
       <==> (forall i :: 0 <= i < |steps| ==> SparesAt(r, s, steps, i))
  {
    hide FinalsStay, SparesAt;
    if forall i :: 0 <= i < |steps| ==> SparesAt(r, s, steps, i) {
      forall i, j | 0 <= i <= j <= |steps|
        ensures FinalsStay(r, s, steps, i, j)
      {
        SparedStretch(r, s, steps, i, j);
      }
    } else {
      var i :| 0 <= i < |steps| && !SparesAt(r, s, steps, i);
      StepAt(r, s, steps, i);
    }
  }

  /** The height over every run from every state never falls exactly when every adopted map
      supplies at least as many blocks above its ancestor as it makes us drop. */
  lemma {:induction false} RunHeightExactly(r: Rules, s: State, steps: seq<Step>)
    ensures (forall i, j :: 0 <= i <= j <= |steps| ==> HeightStays(r, s, steps, i, j))
       <==> (forall i :: 0 <= i < |steps| ==> RefillsAt(r, s, steps, i))
  {
    hide HeightStays, RefillsAt;
    if forall i :: 0 <= i < |steps| ==> RefillsAt(r, s, steps, i) {
      forall i, j | 0 <= i <= j <= |steps|
        ensures HeightStays(r, s, steps, i, j)
      {
        RefilledStretch(r, s, steps, i, j);
      }
    } else {
      var i :| 0 <= i < |steps| && !RefillsAt(r, s, steps, i);
      StepAt(r, s, steps, i);
    }
  }

  /** In a valid state every filed step spares and refills, so a run that stays valid keeps
      both; uncle chains need no condition. */
  lemma {:induction false} FiledSpares(r: Rules, s: State, step: Step)
    requires Valid(r, s) && Filed(r, s, step)
    ensures Spares(r, s, step) && Refills(r, s, step)
  {
    hide Apply, Spares, Refills, Filed, Valid;
    StepKeeps(r, s, step);
    StepFinals(r, s, step);
    StepHeight(r, s, step);
  }
}

/** Any number of nodes that hand each other their canonical chains: they stay valid over every
    run, and syncing to the longest one makes them agree. */
module Network {
  import opened ChainSpec
  import opened ChainProofs
  import opened Convergence

  /** A node acts alone, or reorganises to the chain another node holds at that moment. */
  datatype NetStep = Local(node: nat, step: Step) | Sync(node: nat, peer: nat)

  ghost function NetApply(r: Rules, nodes: seq<State>, m: NetStep): seq<State> {
    match m
    case Local(i, step) => if i < |nodes| && !step.ReorgStep? then nodes[i := Apply(r, nodes[i], step)] else nodes
    case Sync(i, j) => if i < |nodes| && j < |nodes| then nodes[i := Reorg(r, nodes[i], nodes[j].blocks).0] else nodes
  }

  ghost function NetRun(r: Rules, nodes: seq<State>, moves: seq<NetStep>): seq<State> {
    if moves == [] then nodes else NetApply(r, NetRun(r, nodes, moves[..|moves| - 1]), moves[|moves| - 1])
  }

  ghost predicate AllValid(r: Rules, nodes: seq<State>) {
    forall i :: 0 <= i < |nodes| ==> Valid(r, nodes[i])
  }

  lemma {:induction false} NetStepKeeps(r: Rules, nodes: seq<State>, m: NetStep)
    requires AllValid(r, nodes)
    ensures var after := NetApply(r, nodes, m);
            && |after| == |nodes| && AllValid(r, after)
            && forall i :: 0 <= i < |nodes| ==> Keeps(r, nodes[i], after[i])
  {
    hide Apply, Reorg, Valid, Final, ValidChain, CommonAncestor;
    match m {
      case Local(i, step) =>
        if i < |nodes| && !step.ReorgStep? { StepKeeps(r, nodes[i], step); }
      case Sync(i, j) =>
        if i < |nodes| && j < |nodes| {
          ValidParts(r, nodes[j]);
          ValidKeyed(r, nodes[j].blocks);
          ReorgKeeps(r, nodes[i], nodes[j].blocks);
        }
    }
  }

  lemma {:induction false} ValidParts(r: Rules, s: State)
    requires Valid(r, s)
    ensures ValidChain(r, s.blocks)
  {
  }

  /** Nodes that only ever hand each other their canonical chains all stay valid, never get
      shorter and never lose a final block, whatever blocks they are fed; no side condition on
      the maps is left. */
  lemma {:induction false} StaysValid(r: Rules, nodes: seq<State>, moves: seq<NetStep>)
    requires AllValid(r, nodes)
    ensures |NetRun(r, nodes, moves)| == |nodes| && AllValid(r, NetRun(r, nodes, moves))
    ensures forall i :: 0 <= i < |nodes| ==> Keeps(r, nodes[i], NetRun(r, nodes, moves)[i])
  {
    hide NetApply, Valid, Final;
    if moves != [] {
      StaysValid(r, nodes, moves[..|moves| - 1]);
      NetStepKeeps(r, NetRun(r, nodes, moves[..|moves| - 1]), moves[|moves| - 1]);
    }
  }

  // ----- convergence -----

  /** Same height, no gaps, and the same hash at every height. */
  ghost predicate Agreed(s: State, t: State) {
    Dense(s.blocks) && |s.blocks| == |t.blocks| && forall h :: 1 <= h <= |t.blocks| ==> Agree(s.blocks, t.blocks, h)
  }

  /** Node `m` is strictly ahead of `i`, and no final block of `i` is in its way. */
  ghost predicate Ahead(r: Rules, nodes: seq<State>, m: nat, i: nat)
    requires m < |nodes| && i < |nodes|
  {
    |nodes[i].blocks| < |nodes[m].blocks| && Clear(r, nodes[i].blocks, nodes[m].blocks)
  }

  /** Whatever misfiled maps node `i` has adopted before, it may hold. */
  ghost predicate AllRooted(nodes: seq<State>) {
    forall i :: 0 <= i < |nodes| ==> Rooted(nodes[i].blocks)
  }

  /** Whatever happened to node `i`: once synced it agrees with the leader, until then it is
      as it was. */
  ghost predicate Settled(nodes: seq<State>, after: seq<State>, m: nat, i: nat, synced: bool)
    requires m < |nodes| && i < |nodes| == |after|
  {
    if synced && i != m then Agreed(after[i], nodes[m]) else after[i] == nodes[i]
  }

  lemma {:induction false} SyncSettles(r: Rules, nodes: seq<State>, s: State, m: nat, i: nat)
    requires AllRooted(nodes) && m < |nodes| && i < |nodes| && ValidChain(r, nodes[m].blocks)
    requires i != m ==> Ahead(r, nodes, m, i)
    requires s == nodes[i] || (i != m && Agreed(s, nodes[m]))
    ensures var t := Reorg(r, s, nodes[m].blocks).0;
            if i == m then t == nodes[m] else Agreed(t, nodes[m])
  {
    hide CommonAncestor, Fits, Adopt, Rooted, Clear;
    DenseTop(nodes[m].blocks);
    if s == nodes[i] && i != m {
      FromRooted(r, s, nodes[m].blocks);
    }
  }

  lemma {:induction false} SyncsSettle(r: Rules, nodes: seq<State>, m: nat, moves: seq<NetStep>)
    requires AllRooted(nodes) && m < |nodes| && ValidChain(r, nodes[m].blocks)
    requires forall i :: 0 <= i < |nodes| && i != m ==> Ahead(r, nodes, m, i)
    requires forall k :: 0 <= k < |moves| ==> moves[k].Sync? && moves[k].peer == m
    ensures |NetRun(r, nodes, moves)| == |nodes|
    ensures forall i: nat :: i < |nodes| ==> Settled(nodes, NetRun(r, nodes, moves), m, i, Sync(i, m) in moves)
  {
    hide Reorg, Ahead, Agreed, ValidChain, AllRooted;
    if moves != [] {
      var earlier, last := moves[..|moves| - 1], moves[|moves| - 1];
      SyncsSettle(r, nodes, m, earlier);
      var before := NetRun(r, nodes, earlier);
      assert moves == earlier + [last];
      assert Settled(nodes, before, m, m, Sync(m, m) in earlier);
      forall i: nat | i < |nodes|
        ensures Settled(nodes, NetRun(r, nodes, moves), m, i, Sync(i, m) in moves)
      {
        assert Settled(nodes, before, m, i, Sync(i, m) in earlier);
        if i == last.node { SyncSettles(r, nodes, before[i], m, i); }
      }
    }
  }

  /** When one node holds a valid chain strictly longer than every other, and no final block of
      the others is in its way, then after each has synced to it, in any order and however
      often, every node has its hash at every height. The others may have adopted any maps
      before: every chain a run can reach is rooted. */
  lemma {:induction false} Converges(r: Rules, nodes: seq<State>, m: nat, moves: seq<NetStep>)
    requires AllRooted(nodes) && m < |nodes| && ValidChain(r, nodes[m].blocks)
    requires forall i :: 0 <= i < |nodes| && i != m ==> Ahead(r, nodes, m, i) && Sync(i, m) in moves
    requires forall k :: 0 <= k < |moves| ==> moves[k].Sync? && moves[k].peer == m
    ensures |NetRun(r, nodes, moves)| == |nodes|
    ensures forall i :: 0 <= i < |nodes| ==> Agreed(NetRun(r, nodes, moves)[i], nodes[m])
  {
    hide NetRun, Ahead, Fits, AllRooted;
    SyncsSettle(r, nodes, m, moves);
    forall i: nat | i < |nodes|
      ensures Agreed(NetRun(r, nodes, moves)[i], nodes[m])
    {
      assert Settled(nodes, NetRun(r, nodes, moves), m, i, Sync(i, m) in moves);
    }
  }
}

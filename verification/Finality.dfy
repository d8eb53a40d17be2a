/** Finality in terms of header fields: which anchored blocks no run replaces, and which never
    stand in the way of a longer chain. */
module Finality {
  import opened Words
  import opened ChainSpec
  import opened ChainProofs
  import opened Convergence

  /** A block is final when the mode enforces it (always, or by bit 2 of its flags when
      signaled) and either anchor is set. */
  lemma {:induction false} FinalMeans(mode: FinalityMode, b: Block)
    ensures Final(mode, b) <==>
            && (mode == Always || (mode == Signaled && b.header.finalityFlags / 4 % 2 == 1))
            && (b.header.anchorTxId != Zero || b.header.anchorMoneroHeight != 0)
  {
  }

  /** Over every run of filed steps from a valid state, a canonical block anchored by either
      anchor stays at its height under Always, and under Signaled if its bit is set. */
  lemma {:induction false} AnchoredStays(r: Rules, s: State, steps: seq<Step>, n: nat, h: nat)
    requires Valid(r, s) && n <= |steps| && forall i :: 0 <= i < n ==> FiledAt(r, s, steps, i)
    requires h in s.blocks
    requires s.blocks[h].header.anchorTxId != Zero || s.blocks[h].header.anchorMoneroHeight != 0
    requires r.mode == Always || (r.mode == Signaled && s.blocks[h].header.finalityFlags / 4 % 2 == 1)
    ensures var t := Run(r, s, steps[..n]); h in t.blocks && t.blocks[h] == s.blocks[h]
  {
    hide Run, Valid, Final;
    RunKeeps(r, s, steps, n);
    FinalMeans(r.mode, s.blocks[h]);
  }

  /** After any run, one such block at a height a valid longer chain fills above the common
      ancestor stops it, and nothing changes. */
  lemma {:induction false} AnchoredStops(r: Rules, steps: seq<Step>, peer: Chain, h: nat)
    requires ValidChain(r, peer) && |peer| > |Run(r, GENESIS_STATE, steps).blocks|
    requires h in Run(r, GENESIS_STATE, steps).blocks
    requires CommonAncestor(Run(r, GENESIS_STATE, steps).blocks, peer) < h <= |peer|
    requires var header := Run(r, GENESIS_STATE, steps).blocks[h].header;
             && (header.anchorTxId != Zero || header.anchorMoneroHeight != 0)
             && (r.mode == Always || (r.mode == Signaled && header.finalityFlags / 4 % 2 == 1))
    ensures Reorg(r, Run(r, GENESIS_STATE, steps), peer) == (Run(r, GENESIS_STATE, steps), 0)
  {
    hide Run, Reorg, ValidChain, CommonAncestor, Final;
    AfterAnyRun(r, steps, peer);
    FinalMeans(r.mode, Run(r, GENESIS_STATE, steps).blocks[h]);
  }

  /** A block that stops nothing: the mode is native, or signaled without its bit, or neither
      anchor is set. */
  predicate Yields(mode: FinalityMode, header: Header) {
    || mode == Native
    || (mode == Signaled && header.finalityFlags / 4 % 2 == 0)
    || (header.anchorTxId == Zero && header.anchorMoneroHeight == 0)
  }

  /** After any run, blocks that yield never stop a valid longer chain. */
  lemma {:induction false} UnanchoredYields(r: Rules, steps: seq<Step>, peer: Chain)
    requires ValidChain(r, peer) && |peer| > |Run(r, GENESIS_STATE, steps).blocks|
    requires var own := Run(r, GENESIS_STATE, steps).blocks;
             forall h :: CommonAncestor(own, peer) < h <= |peer| && h in own ==> Yields(r.mode, own[h].header)
    ensures var (t, n) := Reorg(r, Run(r, GENESIS_STATE, steps), peer);
            n > 0 && |t.blocks| == |peer| && forall h :: 1 <= h <= |peer| ==> Agree(t.blocks, peer, h)
  {
    hide Run, Reorg, ValidChain, CommonAncestor, Final, Agree, Dense;
    var own := Run(r, GENESIS_STATE, steps).blocks;
    AfterAnyRun(r, steps, peer);
    forall h | CommonAncestor(own, peer) < h <= |peer| && h in own
      ensures !Final(r.mode, own[h])
    {
      FinalMeans(r.mode, own[h]);
    }
  }
}

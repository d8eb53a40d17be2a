/** Convergence after every run: whatever peer maps a node has adopted before, it adopts a
    valid longer chain exactly when no final block is in the way, and then agrees with it.

    A node that adopted misfiled maps may hold gaps and wrong links, but a block whose hash
    commits to one ancestor per height below it always sits on those ancestors. */
module Convergence {
  import opened Words
  import opened Retarget
  import opened ChainSpec
  import opened ChainProofs
  import VmCache

  // ----- what every run keeps -----

  /** The hash and its named ancestors carry the heights h, h - 1, .., 1. */
  predicate Proper(w: Word, h: nat)
    decreases h
  {
    w.Leaf? && w.blob.height == h >= 1 && (h > 1 ==> Proper(w.blob.previous, h - 1))
  }

  /** A proper block filed under its own height has its parent below it. */
  ghost predicate Rooted(c: Chain) {
    0 !in c && forall h {:trigger Follows(c, h)} :: h in c && h > 1 && Proper(BlockHash(c[h]), h) ==> Follows(c, h)
  }

  lemma {:induction false} ProperDown(c: Chain, h: nat, k: nat)
    requires Rooted(c) && 1 <= k <= h && h in c && Proper(BlockHash(c[h]), h)
    ensures k in c && Proper(BlockHash(c[k]), k)
    decreases h
  {
    if k < h {
      assert Follows(c, h);
      ProperDown(c, h - 1, k);
    }
  }

  /** A proper block at `h` leaves no key below it missing, so there are at least `h`. */
  lemma {:induction false} ProperSize(c: Chain, h: nat)
    requires Rooted(c) && h in c && Proper(BlockHash(c[h]), h)
    ensures h <= |c|
  {
    var low := UpTo(c, h);
    forall k | 1 <= k <= h
      ensures k in low
    {
      ProperDown(c, h, k);
    }
    SizeOf(low, h);
    SplitSize(c.Keys, low.Keys, HeightsAbove(c, h));
    assert |c| == |c.Keys| && |low| == |low.Keys|;
  }

  lemma {:induction false} ValidProper(r: Rules, c: Chain, h: nat)
    requires ValidChain(r, c) && 1 <= h <= |c|
    ensures h in c && Proper(BlockHash(c[h]), h)
    decreases h
  {
    assert Fits(r, c, h);
    if h > 1 { ValidProper(r, c, h - 1); }
  }

  lemma {:induction false} ValidRooted(r: Rules, c: Chain)
    requires ValidChain(r, c)
    ensures Rooted(c)
  {
    hide TargetAt;
    forall h | h in c && h > 1
      ensures Follows(c, h)
    {
      assert Fits(r, c, h);
    }
  }

  // ----- connecting -----

  lemma {:induction false} CanonicalOnTip(r: Rules, s: State, block: Block, uncles: seq<Block>)
    ensures var t := ConnectCanonical(r, s, block, uncles).0;
            || t.blocks == s.blocks
            || (t.blocks == s.blocks[|s.blocks| + 1 := block] && ValidateBlock(r, block, s.blocks).None?)
  {
    hide VmCache.Probe, TargetAt, Final, HashesAt, StaleHeights;
  }

  /** Connecting leaves the chain alone or puts one validated block next to the tip, which is
      there unless the chain is empty. */
  lemma {:induction false} ConnectOnTip(r: Rules, s: State, block: Block, uncles: seq<Block>)
    ensures var t, n := Connect(r, s, block, uncles).0, |s.blocks|;
            || t.blocks == s.blocks
            || (&& t.blocks == s.blocks[n + 1 := block]
                && ValidateBlock(r, block, s.blocks).None?
                && (n > 0 ==> n in s.blocks))
  {
    hide VmCache.Probe, ConnectCanonical, ValidateBlock, HasHash;
    CanonicalOnTip(r, s, block, uncles);
  }

  lemma {:induction false} ExtendRooted(r: Rules, c: Chain, b: Block)
    requires Rooted(c) && ValidateBlock(r, b, c).None? && (|c| > 0 ==> |c| in c)
    ensures Rooted(c[|c| + 1 := b])
  {
    hide TargetAt;
    var n := |c| + 1;
    var d := c[n := b];
    forall h | h in d && h > 1 && Proper(BlockHash(d[h]), h)
      ensures Follows(d, h)
    {
      if h != n {
        assert Follows(c, h);
        ProperSize(c, h);
      }
    }
  }

  // ----- adopting -----

  lemma {:induction false} AdoptRooted(r: Rules, own: Chain, peer: Chain)
    requires Rooted(own) && Accepted(r, own, peer).Some?
    ensures Rooted(Accepted(r, own, peer).value)
  {
    hide Accepted, CommonAncestor, Final;
    AcceptedOverlay(r, own, peer);
    var a, d := CommonAncestor(own, peer), Accepted(r, own, peer).value;
    forall h | h in d && h > 1 && Proper(BlockHash(d[h]), h)
      ensures Follows(d, h)
    {
      if h <= a {
        assert Follows(own, h);
      } else {
        AdoptedParent(r, own, peer, h);
      }
    }
  }

  lemma {:induction false} OverlaysAgree(
    c: Chain, d: Chain, base: Chain, peer: Chain, low: nat, mid: nat, top: nat, k: nat)
    requires IsOverlay(c, base, peer, low, mid) && IsOverlay(d, base, peer, low, top)
    requires k <= mid <= top && k in c
    ensures k in d && d[k] == c[k]
  {
  }

  /** An adopted block with its own height had its parent checked. */
  lemma {:induction false} AdoptedParent(r: Rules, own: Chain, peer: Chain, h: nat)
    requires 0 !in own && Accepted(r, own, peer).Some?
    requires CommonAncestor(own, peer) < h <= Top(peer.Keys) && 1 < h && h in peer && peer[h].header.blob.height == h
    ensures h in Accepted(r, own, peer).value && Follows(Accepted(r, own, peer).value, h)
  {
    hide Accepted, CommonAncestor, TargetAt, Final, UpTo;
    AcceptedOverlay(r, own, peer);
    var a, top, d := CommonAncestor(own, peer), Top(peer.Keys), Accepted(r, own, peer).value;
    var c := ScratchFull(r, own, peer, h);
    assert d[h] == peer[h];
    hide IsOverlay;
    OverlaysAgree(c, d, UpTo(own, a), peer, a + 1, h - 1, top, h - 1);
  }

  lemma {:induction false} ReorgRooted(r: Rules, s: State, peer: Chain)
    requires Rooted(s.blocks)
    ensures Rooted(Reorg(r, s, peer).0.blocks)
  {
    hide Accepted, Rooted, CommonAncestor, PeerHeights;
    if Accepted(r, s.blocks, peer).Some? { AdoptRooted(r, s.blocks, peer); }
  }

  /** Over every run with arbitrary peer maps. */
  lemma {:induction false} RunRooted(r: Rules, s: State, steps: seq<Step>)
    requires Rooted(s.blocks)
    ensures Rooted(Run(r, s, steps).blocks)
  {
    hide Rooted, Connect, Reorg, BestUncle;
    if steps != [] {
      var t := Run(r, s, steps[..|steps| - 1]);
      RunRooted(r, s, steps[..|steps| - 1]);
      match steps[|steps| - 1] {
        case ConnectStep(block, uncles) =>
          ConnectOnTip(r, t, block, uncles);
          if Connect(r, t, block, uncles).0.blocks != t.blocks { ExtendRooted(r, t.blocks, block); }
        case TakeStep(h) =>
        case ReorgStep(peer) => ReorgRooted(r, t, peer);
        case UncleStep => ReorgRooted(r, t, BestUncle(t, 0, 0, NO_BEST).chain);
        case VmStep(op) =>
      }
    }
  }

  // ----- the fork of a rooted and a valid chain -----

  lemma {:induction false} ScanShared(own: Chain, peer: Chain, h: nat, found: nat, last: nat)
    ensures var a := Ancestor(own, peer, h, found, last); a == found || Agree(own, peer, a)
    decreases last + 1 - h
  {
    if h <= last {
      ScanShared(own, peer, h + 1, found, last);
      ScanShared(own, peer, h + 1, h, last);
    }
  }

  /** A shared proper block means shared blocks all the way down. */
  lemma {:induction false} ProperAgree(c: Chain, d: Chain, h: nat, k: nat)
    requires Rooted(c) && Rooted(d) && 1 <= k <= h && Agree(c, d, h) && Proper(BlockHash(c[h]), h)
    ensures Agree(c, d, k)
    decreases h
  {
    if k < h {
      assert Follows(c, h) && Follows(d, h);
      ProperAgree(c, d, h - 1, k);
    }
  }

  lemma {:induction false} RootedFork(r: Rules, own: Chain, peer: Chain)
    requires Rooted(own) && ValidChain(r, peer)
    ensures var a := CommonAncestor(own, peer);
            && a <= |own| && a <= |peer| && (forall k :: 1 <= k <= a ==> Agree(own, peer, k))
            && Dense(UpTo(own, a)) && |UpTo(own, a)| == a
  {
    var a := CommonAncestor(own, peer);
    ScanShared(own, peer, 0, 0, Top(own.Keys));
    if a > 0 {
      hide CommonAncestor, Follows;
      ValidRooted(r, peer);
      ValidProper(r, peer, a);
      ProperSize(own, a);
      forall k | 1 <= k <= a
        ensures Agree(own, peer, k)
      {
        ProperAgree(own, peer, a, k);
      }
    }
    forall k | 1 <= k <= a
      ensures k in own
    {
      assert Agree(own, peer, k);
    }
    SizeOf(UpTo(own, a), a);
  }

  /** None of our blocks at the heights the peer would fill is final. */
  ghost predicate Clear(r: Rules, own: Chain, peer: Chain) {
    forall h :: CommonAncestor(own, peer) < h <= |peer| && h in own ==> !Final(r.mode, own[h])
  }

  /** A valid longer chain is accepted by a rooted one exactly when no final block of ours is
      at a height it fills above the common ancestor. */
  lemma {:induction false} RootedAccepts(r: Rules, own: Chain, peer: Chain)
    requires Rooted(own) && ValidChain(r, peer) && |peer| > |own|
    ensures Accepted(r, own, peer).Some? <==> Clear(r, own, peer)
  {
    hide Replay, CommonAncestor, Rooted, Fits, Final, UpTo, IsOverlay;
    var a := CommonAncestor(own, peer);
    DenseTop(peer);
    if Accepted(r, own, peer).Some? {
      AcceptedOverlay(r, own, peer);
    } else if Clear(r, own, peer) {
      RootedFork(r, own, peer);
      ScratchAgrees(own, peer, a);
      ReplayAccepts(r, own, peer, UpTo(own, a), a + 1);
    }
  }

  lemma {:induction false} ScratchAgrees(own: Chain, peer: Chain, a: nat)
    requires forall k :: 1 <= k <= a ==> Agree(own, peer, k)
    ensures forall k :: 1 <= k <= a ==> Agree(UpTo(own, a), peer, k)
  {
    forall k | 1 <= k <= a
      ensures Agree(UpTo(own, a), peer, k)
    {
      assert Agree(own, peer, k);
    }
  }

  lemma {:induction false} AdoptedAgrees(r: Rules, own: Chain, peer: Chain)
    requires Rooted(own) && ValidChain(r, peer) && Accepted(r, own, peer).Some?
    ensures var chain := Accepted(r, own, peer).value;
            Dense(chain) && |chain| == |peer| && forall h :: 1 <= h <= |peer| ==> Agree(chain, peer, h)
  {
    hide Accepted, CommonAncestor, Rooted, Fits, Final;
    var a, chain := CommonAncestor(own, peer), Accepted(r, own, peer).value;
    DenseTop(peer);
    AcceptedOverlay(r, own, peer);
    RootedFork(r, own, peer);
    ScratchAgrees(own, peer, a);
    forall h | 1 <= h <= |peer|
      ensures Agree(chain, peer, h)
    {
      if h <= a { assert Agree(UpTo(own, a), peer, h); }
    }
    SizeOf(chain, |peer|);
  }

  // ----- convergence -----

  /** From any state a run can reach: facing a valid, strictly longer chain, a node adopts it
      exactly when no final block of its own is at a height the chain fills above the common
      ancestor; its chain then has no gaps, the peer's height and the peer's hash at every
      height, whatever it held before. */
  lemma {:induction false} FromRooted(r: Rules, s: State, peer: Chain)
    requires Rooted(s.blocks) && ValidChain(r, peer) && |peer| > |s.blocks|
    ensures Reorg(r, s, peer).1 > 0 <==> Clear(r, s.blocks, peer)
    ensures Reorg(r, s, peer).1 > 0 ==>
              var t := Reorg(r, s, peer).0;
              Dense(t.blocks) && |t.blocks| == |peer| && forall h :: 1 <= h <= |peer| ==> Agree(t.blocks, peer, h)
    ensures Reorg(r, s, peer).1 == 0 ==> Reorg(r, s, peer).0 == s
  {
    hide Accepted, CommonAncestor, Rooted, ValidChain, Final, HeightsAbove, Agree, Clear;
    hide AddOwn, DropPeer, DropPeerSeen;
    ValidDense(r, peer);
    DenseTop(peer);
    RootedAccepts(r, s.blocks, peer);
    RootedFork(r, s.blocks, peer);
    ReorgShape(r, s, peer);
    if Accepted(r, s.blocks, peer).Some? { AdoptedAgrees(r, s.blocks, peer); }
  }

  /** After any run from the empty state, with arbitrary peer maps adopted on the way. */
  lemma {:induction false} AfterAnyRun(r: Rules, steps: seq<Step>, peer: Chain)
    requires ValidChain(r, peer) && |peer| > |Run(r, GENESIS_STATE, steps).blocks|
    ensures var s := Run(r, GENESIS_STATE, steps);
            var (t, n) := Reorg(r, s, peer);
            && (n > 0 <==> Clear(r, s.blocks, peer))
            && (n == 0 ==> t == s)
            && (n > 0 ==> Dense(t.blocks) && |t.blocks| == |peer|)
            && (n > 0 ==> forall h :: 1 <= h <= |peer| ==> Agree(t.blocks, peer, h))
  {
    hide Run, Reorg, ValidChain, Clear, Dense, Agree;
    RunRooted(r, GENESIS_STATE, steps);
    FromRooted(r, Run(r, GENESIS_STATE, steps), peer);
  }

  /** From a valid state nothing of ours is above the heights the peer fills. */
  lemma {:induction false} FromValid(r: Rules, s: State, peer: Chain)
    requires Valid(r, s) && ValidChain(r, peer) && |peer| > |s.blocks|
    ensures Reorg(r, s, peer).1 > 0 <==>
            forall h :: CommonAncestor(s.blocks, peer) < h <= |s.blocks| ==> !Final(r.mode, s.blocks[h])
    ensures Reorg(r, s, peer).1 > 0 ==>
              var t := Reorg(r, s, peer).0;
              |t.blocks| == |peer| && forall h :: 1 <= h <= |peer| ==> Agree(t.blocks, peer, h)
  {
    hide Reorg, CommonAncestor, Rooted, Fits, Final, Agree;
    ValidRooted(r, s.blocks);
    FromRooted(r, s, peer);
  }
}

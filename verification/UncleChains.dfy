/** When chains of stored candidates are adopted: exactly which pick of the scan succeeds, a
    condition under which every valid longer chain held as candidates leads to one, and a
    state in which such a chain is never tried. */
module UncleChains {
  import opened Options
  import opened Words
  import opened Retarget
  import opened ChainSpec
  import opened ChainProofs
  import Convergence
  import VmCache
  import MisfiledPeer

  // ----- accepting a map without gaps -----

  /** Below the ancestor the scan met no difference. */
  lemma {:induction false} ScanAgrees(own: Chain, peer: Chain, h: nat, found: nat, last: nat)
    requires found < h
    ensures var a := Ancestor(own, peer, h, found, last);
            forall k :: h <= k <= a && k in own && k in peer ==> BlockHash(own[k]) == BlockHash(peer[k])
    decreases last + 1 - h
  {
    if h <= last {
      if h !in own || h !in peer {
        ScanAgrees(own, peer, h + 1, found, last);
      } else if BlockHash(own[h]) == BlockHash(peer[h]) {
        ScanAgrees(own, peer, h + 1, h, last);
      }
    }
  }

  lemma {:induction false} AgreesBelow(own: Chain, peer: Chain)
    requires Dense(own)
    ensures forall k :: 1 <= k <= CommonAncestor(own, peer) && k in own && k in peer ==>
              BlockHash(own[k]) == BlockHash(peer[k])
  {
    ScanAgrees(own, peer, 1, 0, Top(own.Keys));
    assert CommonAncestor(own, peer) == Ancestor(own, peer, 1, 0, Top(own.Keys));
  }

  /** Validity of a chain without gaps is a matter of its hashes. */
  lemma {:induction false} SameHashes(r: Rules, c: Chain, d: Chain)
    requires ValidChain(r, c) && Dense(d) && |c| == |d|
    requires forall h :: 1 <= h <= |c| ==> Agree(c, d, h)
    ensures ValidChain(r, d)
  {
    hide Stamps;
    forall h | 1 <= h <= |d|
      ensures Fits(r, d, h)
    {
      assert Fits(r, c, h) && Agree(c, d, h);
      if h > 1 { assert Agree(c, d, h - 1); }
      AgreeStamps(c, d, h - 1);
    }
  }

  predicate NoFinalAbove(r: Rules, own: Chain, a: nat) {
    forall h :: h in own && h > a ==> !Final(r.mode, own[h])
  }

  /** A longer keyed map without gaps is accepted exactly when it is a valid chain and none of
      our blocks above the common ancestor is final. */
  lemma {:induction false} AcceptedIff(r: Rules, own: Chain, peer: Chain)
    requires ValidChain(r, own) && Dense(peer) && |peer| > |own| && KeyedAbove(peer, 0)
    ensures Accepted(r, own, peer).Some? <==>
            ValidChain(r, peer) && NoFinalAbove(r, own, CommonAncestor(own, peer))
  {
    hide Replay, CommonAncestor, Final, Fits, UpTo, IsOverlay, Agree;
    var a := CommonAncestor(own, peer);
    DenseTop(peer);
    if Accepted(r, own, peer).Some? {
      var chain := Accepted(r, own, peer).value;
      AcceptedKeyed(r, own, peer);
      AcceptedShape(r, own, peer);
      AcceptedHashes(r, own, peer);
      SameHashes(r, chain, peer);
    } else if ValidChain(r, peer) && NoFinalAbove(r, own, a) {
      Convergence.ValidRooted(r, own);
      Convergence.RootedAccepts(r, own, peer);
    }
  }

  lemma {:induction false} AcceptedHashes(r: Rules, own: Chain, peer: Chain)
    requires Dense(own) && Dense(peer) && Accepted(r, own, peer).Some?
    ensures forall h :: 1 <= h <= |peer| ==> Agree(Accepted(r, own, peer).value, peer, h)
  {
    hide Accepted, CommonAncestor, Final;
    DenseTop(peer);
    AcceptedShape(r, own, peer);
    AgreesBelow(own, peer);
  }

  // ----- key 0 plays no part -----

  /** The map from height 1 on. */
  function Trim(c: Chain): Chain {
    map k | k in c && k >= 1 :: c[k]
  }

  lemma {:induction false} TrimTop(c: Chain)
    ensures Top(Trim(c).Keys) == Top(c.Keys)
  {
    if Top(c.Keys) >= 1 { assert Top(c.Keys) in Trim(c).Keys; }
    if Top(Trim(c).Keys) >= 1 { assert Top(Trim(c).Keys) in c.Keys; }
  }

  lemma {:induction false} TrimScan(own: Chain, peer: Chain, h: nat, found: nat, last: nat)
    requires h >= 1
    ensures Ancestor(own, Trim(peer), h, found, last) == Ancestor(own, peer, h, found, last)
    decreases last + 1 - h
  {
    if h <= last {
      TrimScan(own, peer, h + 1, found, last);
      TrimScan(own, peer, h + 1, h, last);
    }
  }

  lemma {:induction false} TrimReplay(r: Rules, own: Chain, peer: Chain, scratch: Chain, h: nat, top: nat)
    requires h >= 1
    ensures Replay(r, own, Trim(peer), scratch, h, top) == Replay(r, own, peer, scratch, h, top)
    decreases top + 1 - h
  {
    hide ValidateBlock, Final;
    if h <= top {
      TrimReplay(r, own, peer, scratch, h + 1, top);
      if h in peer { TrimReplay(r, own, peer, scratch[h := peer[h]], h + 1, top); }
    }
  }

  lemma {:induction false} TrimAncestor(own: Chain, peer: Chain)
    requires 0 !in own
    ensures CommonAncestor(own, Trim(peer)) == CommonAncestor(own, peer)
  {
    hide Trim;
    TrimScan(own, peer, 1, 0, Top(own.Keys));
  }

  lemma {:induction false} TrimAccepted(r: Rules, own: Chain, peer: Chain)
    requires 0 !in own
    ensures CommonAncestor(own, Trim(peer)) == CommonAncestor(own, peer)
    ensures Accepted(r, own, Trim(peer)) == Accepted(r, own, peer)
  {
    hide Replay, Trim, UpTo, CommonAncestor;
    TrimTop(peer);
    TrimAncestor(own, peer);
    TrimReplay(r, own, peer, UpTo(own, CommonAncestor(own, peer)), CommonAncestor(own, peer) + 1, Top(peer.Keys));
  }

  // ----- the chain the scan picks -----

  lemma {:induction false} UncleChainDense(r: Rules, s: State, h: nat, start: Block)
    requires Valid(r, s) && start in Candidates(s, h) && h <= |s.blocks| + 1
    ensures var c := Trim(UncleChain(s, h, start));
            Dense(c) && |c| == UncleTop(s, h, start) && KeyedAbove(c, 0)
  {
    hide Climb, Stack, FirstChild, Fits;
    var climb := Climb(s.competing, h + 1, BlockHash(start));
    var c := Trim(UncleChain(s, h, start));
    forall k: nat
      ensures k in c <==> 1 <= k <= h + |climb|
    {
      StackAt(Below(s.blocks, h), h, [start] + climb, k);
    }
    SizeOf(c, h + |climb|);
    UncleChainKeyed(r, s, h, start);
  }

  /** Candidate `j` of height `k` is the start the scan settled on. */
  predicate Picked(s: State, k: nat, j: nat, best: Best) {
    && k <= |s.blocks| + 1 && j < |Candidates(s, k)|
    && best == Best(UncleChain(s, k, Candidates(s, k)[j]), UncleTop(s, k, Candidates(s, k)[j]))
  }

  lemma {:induction false} BestUncleFrom(s: State, h: nat, i: nat, best: Best)
    ensures var b := BestUncle(s, h, i, best); b == best || exists k: nat, j: nat :: Picked(s, k, j, b)
    decreases |s.blocks| + 2 - h, |Candidates(s, h)| - i
  {
    hide UncleTop, UncleChain;
    if h <= |s.blocks| + 1 {
      if i >= |Candidates(s, h)| {
        BestUncleFrom(s, h + 1, 0, best);
      } else {
        var next := Better(s, h, Candidates(s, h)[i], best);
        BestUncleFrom(s, h, i + 1, next);
        if next != best { assert Picked(s, h, i, next); }
      }
    }
  }

  /** Uncle chains are adopted exactly when the scan finds a longer one, the one it picks is
      a valid chain, and none of our blocks above its fork is final; we then have its hash at
      every height. */
  lemma {:induction false} UncleReorgIff(r: Rules, s: State)
    requires Valid(r, s)
    ensures var best := BestUncle(s, 0, 0, NO_BEST);
            ReorgFromUncles(r, s).1 > 0 <==>
              && best.top > |s.blocks|
              && ValidChain(r, Trim(best.chain))
              && NoFinalAbove(r, s.blocks, CommonAncestor(s.blocks, best.chain))
    ensures var best := BestUncle(s, 0, 0, NO_BEST);
            ReorgFromUncles(r, s).1 > 0 ==>
              var t := ReorgFromUncles(r, s).0;
              |t.blocks| == best.top && forall h :: 1 <= h <= best.top ==> Agree(t.blocks, best.chain, h)
  {
    hide Reorg, Accepted, CommonAncestor, BestUncle, Fits, Final, UncleChain, UncleTop, Candidates, Agree, NoFinalAbove;
    var best := BestUncle(s, 0, 0, NO_BEST);
    BestUncleFrom(s, 0, 0, NO_BEST);
    if best.top > |s.blocks| {
      var k: nat, j: nat :| Picked(s, k, j, best);
      UncleChainDense(r, s, k, Candidates(s, k)[j]);
      PickedReorg(r, s, best);
    }
  }

  lemma {:induction false} PickedReorg(r: Rules, s: State, best: Best)
    requires Valid(r, s) && best.top > |s.blocks|
    requires var c := Trim(best.chain); Dense(c) && |c| == best.top && KeyedAbove(c, 0)
    ensures Reorg(r, s, best.chain).1 > 0 <==>
              && ValidChain(r, Trim(best.chain))
              && NoFinalAbove(r, s.blocks, CommonAncestor(s.blocks, best.chain))
    ensures Reorg(r, s, best.chain).1 > 0 ==>
              var t := Reorg(r, s, best.chain).0;
              |t.blocks| == best.top && forall h :: 1 <= h <= best.top ==> Agree(t.blocks, best.chain, h)
  {
    hide Reorg, Adopt, Accepted, CommonAncestor, Fits, Final;
    var c := Trim(best.chain);
    TrimAccepted(r, s.blocks, best.chain);
    ReorgAdopts(r, s, best.chain);
    AcceptedIff(r, s.blocks, c);
    if Reorg(r, s, best.chain).1 > 0 {
      AcceptedHashes(r, s.blocks, c);
      AcceptedKeyed(r, s.blocks, c);
      DenseTop(c);
      forall h | 1 <= h <= best.top
        ensures Agree(Reorg(r, s, best.chain).0.blocks, best.chain, h)
      {
        assert Agree(Accepted(r, s.blocks, c).value, c, h);
      }
    }
  }

  // ----- the promise of the scan -----

  /** Every block of `v` above the fork is stored as a candidate of its height. */
  ghost predicate Held(s: State, v: Chain) {
    forall k :: CommonAncestor(s.blocks, v) < k && k in v ==> v[k] in Candidates(s, k)
  }

  /** No two stored candidates of a height name the same parent. */
  predicate OneChild(s: State) {
    forall k, x, y :: k in s.competing && x in s.competing[k] && y in s.competing[k] ==>
      (x.header.blob.previous == y.header.blob.previous ==> x == y)
  }

  /** Whatever chain the scan would build on a candidate, if it outgrows ours it is valid. */
  ghost predicate LongClimbsValid(r: Rules, s: State) {
    forall k: nat, b :: k <= |s.blocks| + 1 && b in Candidates(s, k) && UncleTop(s, k, b) > |s.blocks| ==>
      ValidChain(r, Trim(UncleChain(s, k, b)))
  }

  lemma {:induction false} OnlyChild(list: seq<Block>, parent: Word, child: Block)
    requires child in list && child.header.blob.previous == parent
    requires forall x :: x in list && x.header.blob.previous == parent ==> x == child
    ensures FirstChild(list, parent) == Some(child)
  {
    ChildIn(list, parent);
    if list[0].header.blob.previous != parent { OnlyChild(list[1..], parent, child); }
  }

  /** With one child per parent the climb from a held block follows the held chain to its end. */
  lemma {:induction false} ClimbReaches(r: Rules, s: State, v: Chain, k: nat)
    requires ValidChain(r, v) && OneChild(s) && 1 <= k <= |v|
    requires forall i :: k <= i <= |v| ==> v[i] in Candidates(s, i)
    ensures UncleTop(s, k, v[k]) >= |v|
    decreases |v| - k
  {
    if k < |v| {
      hide FirstChild, TargetAt;
      assert Fits(r, v, k + 1);
      assert v[k + 1] in Candidates(s, k + 1);
      OnlyChild(s.competing[k + 1], BlockHash(v[k]), v[k + 1]);
      ClimbReaches(r, s, v, k + 1);
    }
  }

  lemma {:induction false} HeldAbove(r: Rules, s: State, v: Chain)
    requires Valid(r, s) && ValidChain(r, v) && |v| > |s.blocks| && Held(s, v)
    ensures var a := CommonAncestor(s.blocks, v);
            a <= |s.blocks| && forall i :: a < i <= |v| ==> i in v && v[i] in Candidates(s, i)
  {
    hide CommonAncestor, Fits, Candidates, KeyedCandidates;
    ForkPoint(r, s.blocks, v);
  }

  /** A valid longer chain held as candidates makes the scan find one at least as long, when no
      parent has two stored children. */
  lemma {:induction false} HeldChainFound(r: Rules, s: State, v: Chain)
    requires Valid(r, s) && ValidChain(r, v) && |v| > |s.blocks| && Held(s, v) && OneChild(s)
    ensures BestUncle(s, 0, 0, NO_BEST).top >= |v|
  {
    hide BestUncle, UncleTop, CommonAncestor, ValidChain, Candidates, KeyedCandidates, OneChild, Held;
    var a := CommonAncestor(s.blocks, v);
    HeldAbove(r, s, v);
    ClimbReaches(r, s, v, a + 1);
    AllBeaten(s, a + 1, v[a + 1]);
  }

  lemma {:induction false} AllBeaten(s: State, k: nat, b: Block)
    requires k <= |s.blocks| + 1 && b in Candidates(s, k)
    ensures UncleTop(s, k, b) <= Max(|s.blocks|, BestUncle(s, 0, 0, NO_BEST).top)
  {
    hide BestUncle, UncleTop;
    var j: nat :| j < |Candidates(s, k)| && Candidates(s, k)[j] == b;
    BestUncleLongest(s, 0, 0, NO_BEST);
    assert Beaten(s, k, j, BestUncle(s, 0, 0, NO_BEST).top);
  }

  /** The promise: with one child per parent and no invalid stored chain that outgrows ours, a
      node holding a valid longer chain as candidates adopts a chain at least that long,
      exactly unless a final block of ours is above the fork. */
  lemma {:induction false} HeldChainAdopted(r: Rules, s: State, v: Chain)
    requires Valid(r, s) && ValidChain(r, v) && |v| > |s.blocks| && Held(s, v)
    requires OneChild(s) && LongClimbsValid(r, s)
    ensures ReorgFromUncles(r, s).1 > 0 <==>
            NoFinalAbove(r, s.blocks, CommonAncestor(s.blocks, BestUncle(s, 0, 0, NO_BEST).chain))
    ensures ReorgFromUncles(r, s).1 > 0 ==> |ReorgFromUncles(r, s).0.blocks| >= |v|
  {
    hide ReorgFromUncles, BestUncle, UncleTop, UncleChain, CommonAncestor;
    hide ValidChain, KeyedCandidates, Held, OneChild, NoFinalAbove;
    var best := BestUncle(s, 0, 0, NO_BEST);
    HeldChainFound(r, s, v);
    UncleReorgIff(r, s);
    BestUncleFrom(s, 0, 0, NO_BEST);
    var k: nat, j: nat :| Picked(s, k, j, best);
    assert Candidates(s, k)[j] in Candidates(s, k);
  }

  // ----- a held chain that is never tried -----

  const PICKY := NetworkRules((b: Blob) => if b.nonce == 7 then U32_MAX else 0, Native)

  const U2 := MisfiledPeer.OTHER2
  const V3 := MisfiledPeer.Sample(3, BlockHash(U2), INITIAL_TARGET, 240, 0, 0)
  const JUNK3 := MisfiledPeer.Sample(3, BlockHash(U2), INITIAL_TARGET, 240, 7, 0)

  const STUCK := State(
    map[1 := MisfiledPeer.B1, 2 := MisfiledPeer.B2], map[2 := [U2], 3 := [JUNK3, V3]], {}, VmCache.EMPTY, 2)

  const LONGER: Chain := map[1 := MisfiledPeer.B1, 2 := U2, 3 := V3]
  const SHADOW: Chain := map[1 := MisfiledPeer.B1, 2 := U2, 3 := JUNK3]

  lemma {:induction false} StuckValid()
    ensures Valid(PICKY, STUCK) && |STUCK.blocks| == 2
  {
    hide Walk;
    var c := STUCK.blocks;
    SizeOf(c, 2);
    assert Stamps(c, 1) == [0];
    MisfiledPeer.WalkOne();
    assert Fits(PICKY, c, 1) && Fits(PICKY, c, 2);
  }

  lemma {:induction false} LongerValid()
    ensures ValidChain(PICKY, LONGER) && |LONGER| == 3
  {
    hide Walk;
    var d := LONGER;
    SizeOf(d, 3);
    assert Stamps(d, 1) == [0];
    assert Stamps(d, 2) == [0, 120];
    MisfiledPeer.WalkOne();
    MisfiledPeer.WalkSteady();
    assert Fits(PICKY, d, 1) && Fits(PICKY, d, 2) && Fits(PICKY, d, 3);
  }

  lemma {:induction false} StuckClimbs()
    ensures UncleChain(STUCK, 2, U2) == SHADOW && UncleTop(STUCK, 2, U2) == 3
    ensures UncleTop(STUCK, 3, JUNK3) == 3 && UncleTop(STUCK, 3, V3) == 3
  {
    var up := STUCK.competing;
    assert FirstChild(up[3], BlockHash(U2)) == Some(JUNK3);
    assert forall w :: Climb(up, 4, w) == [];
    var climb := Climb(up, 3, BlockHash(U2));
    assert Climb(up, 4, BlockHash(JUNK3)) == [];
    assert climb == [JUNK3] + Climb(up, 4, BlockHash(JUNK3));
    var base: Chain := Below(STUCK.blocks, 2);
    var c := Stack(base, 2, [U2] + climb);
    forall k: nat
      ensures (k in c <==> k in SHADOW) && (k in c ==> c[k] == SHADOW[k])
    {
      StackAt(base, 2, [U2] + climb, k);
    }
    SameChain(c, SHADOW);
  }

  lemma {:induction false} StuckScan()
    ensures BestUncle(STUCK, 0, 0, NO_BEST) == Best(SHADOW, 3)
  {
    hide UncleChain, UncleTop;
    StuckValid();
    StuckClimbs();
    var s, best := STUCK, Best(SHADOW, 3);
    assert Candidates(s, 2) == [U2] && Candidates(s, 3) == [JUNK3, V3];
    assert Candidates(s, 0) == [] && Candidates(s, 1) == [];
    assert BestUncle(s, 4, 0, best) == best;
    assert BestUncle(s, 3, 2, best) == best;
    assert BestUncle(s, 3, 1, best) == best;
    assert BestUncle(s, 3, 0, best) == best;
    assert BestUncle(s, 2, 1, best) == best;
    assert BestUncle(s, 2, 0, NO_BEST) == best;
    assert BestUncle(s, 1, 0, NO_BEST) == best;
  }

  /** The first stored child shadows its sibling: a valid longer chain is held, and a
      reorganisation to it would succeed, but the scan picks the sibling that misses its
      target and nothing happens. */
  lemma {:induction false} ShadowedChild()
    ensures Valid(PICKY, STUCK) && ValidChain(PICKY, LONGER) && |LONGER| > |STUCK.blocks| && Held(STUCK, LONGER)
    ensures Reorg(PICKY, STUCK, LONGER).1 > 0
    ensures ReorgFromUncles(PICKY, STUCK) == (STUCK, 0)
  {
    hide Reorg, Accepted, BestUncle, CommonAncestor, ValidChain, KeyedCandidates, NoFinalAbove;
    StuckValid();
    LongerValid();
    StuckScan();
    StuckFork();
    ValidDense(PICKY, STUCK.blocks);
    Convergence.FromValid(PICKY, STUCK, LONGER);
    UncleReorgIff(PICKY, STUCK);
    ReorgAdopts(PICKY, STUCK, SHADOW);
    ShadowInvalid();
  }

  lemma {:induction false} ShadowInvalid()
    ensures !ValidChain(PICKY, Trim(SHADOW))
  {
    hide TargetAt;
    assert Trim(SHADOW) == SHADOW;
    SizeOf(SHADOW, 3);
    assert !Fits(PICKY, SHADOW, 3);
  }

  lemma {:induction false} StuckFork()
    ensures CommonAncestor(STUCK.blocks, LONGER) == 1
  {
    var own, peer := STUCK.blocks, LONGER;
    SizeOf(own, 2);
    DenseTop(own);
    assert Ancestor(own, peer, 2, 1, 2) == 1;
    assert Ancestor(own, peer, 1, 0, 2) == 1;
  }
}

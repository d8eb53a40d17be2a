/** A peer map that files a block under a height that is not its own. */
module MisfiledPeer {
  import opened Options
  import opened Words
  import opened Retarget
  import opened ChainSpec
  import opened ChainProofs
  import VmCache

  const EASY := NetworkRules((b: Blob) => 0, Always)

  function Sample(height: U64, previous: Word, target: U32, timestamp: U64, nonce: U64, anchor: nat): Block {
    Block(Header(Blob(1, previous, Zero, timestamp, target, nonce, height, Zero, Zero, Zero), 0, Zero, anchor), [])
  }

  const B1 := Sample(1, Zero, U32_MAX, 0, 0, 0)
  const B2 := Sample(2, BlockHash(B1), INITIAL_TARGET, 120, 0, 9)
  const B3 := Sample(3, BlockHash(B2), INITIAL_TARGET, 240, 0, 0)
  const OTHER2 := Sample(2, BlockHash(B1), INITIAL_TARGET, 120, 1, 0)

  const HONEST := State(map[1 := B1, 2 := B2, 3 := B3], map[], {}, VmCache.EMPTY, 3)

  /** A block of height 2 filed under height 4. */
  const MISFILED: Chain := map[1 := B1, 4 := OTHER2]

  lemma {:induction false} HonestValid()
    ensures Valid(EASY, HONEST)
  {
    hide Walk;
    var c := HONEST.blocks;
    SizeOf(c, 3);
    assert Stamps(c, 1) == [0];
    assert Stamps(c, 2) == [0, 120];
    WalkOne();
    WalkSteady();
    assert Fits(EASY, c, 1) && Fits(EASY, c, 2) && Fits(EASY, c, 3);
  }

  lemma {:induction false} WalkOne()
    ensures Walk([0]) == INITIAL_TARGET
  {
    assert [0][..0] == [];
  }

  lemma {:induction false} WalkSteady()
    ensures Walk([0, 120]) == INITIAL_TARGET
  {
    WalkOne();
    assert [0, 120][..1] == [0];
    assert TotalInterval([0, 120]) == 120;
    StepFixed(120);
  }

  /** Without keying, acceptance is no guarantee: one misfiled block is adopted, the heights
      get a gap, the height falls from 3 to 2 and a final block is lost. */
  lemma {:induction false} MisfiledAdopted()
    ensures Valid(EASY, HONEST) && Final(EASY.mode, HONEST.blocks[2])
    ensures var (t, n) := Reorg(EASY, HONEST, MISFILED);
            && n == 1
            && t.blocks == map[1 := B1, 4 := OTHER2]
            && |t.blocks| < |HONEST.blocks|
  {
    hide Replay, Ancestor, Fits, AddOwn, DropPeer, DropPeerSeen;
    HonestValid();
    MisfiledScan();
    MisfiledReplay();
    SizeOf(HONEST.blocks, 3);
  }

  lemma {:induction false} MisfiledScan()
    ensures var own := HONEST.blocks;
            && CommonAncestor(own, MISFILED) == 1 && UpTo(own, 1) == map[1 := B1]
            && Top(MISFILED.Keys) == 4 && PeerHeights(MISFILED, 1, 4) == {4}
  {
    var own, peer := HONEST.blocks, MISFILED;
    SizeOf(own, 3);
    DenseTop(own);
    assert 4 in peer.Keys;
    assert Ancestor(own, peer, 4, 1, 3) == 1;
    assert Ancestor(own, peer, 3, 1, 3) == 1;
    assert Ancestor(own, peer, 2, 1, 3) == 1;
    assert Ancestor(own, peer, 1, 0, 3) == 1;
  }

  lemma {:induction false} MisfiledReplay()
    ensures Replay(EASY, HONEST.blocks, MISFILED, map[1 := B1], 2, 4) == Some(map[1 := B1, 4 := OTHER2])
  {
    var own, peer := HONEST.blocks, MISFILED;
    var scratch: Chain := map[1 := B1];
    WalkOne();
    assert Stamps(scratch, 1) == [0];
    assert ValidateBlock(EASY, OTHER2, scratch).None?;
    assert Replay(EASY, own, peer, scratch[4 := OTHER2], 5, 4) == Some(scratch[4 := OTHER2]);
    assert Replay(EASY, own, peer, scratch, 4, 4) == Some(scratch[4 := OTHER2]);
    assert Replay(EASY, own, peer, scratch, 3, 4) == Some(scratch[4 := OTHER2]);
  }

  // ----- a reorganisation that returns 0 and still drops a block -----

  const STRAY := Sample(3, Zero, INITIAL_TARGET, 0, 0, 0)

  /** A second misfiled block: with nothing under key 2, its parent is never looked at. */
  const GAPPY: Chain := map[1 := B1, 4 := OTHER2, 6 := STRAY]

  lemma {:induction false} GappyScan()
    ensures var own := HONEST.blocks;
            && CommonAncestor(own, GAPPY) == 1 && UpTo(own, 1) == map[1 := B1]
            && Top(GAPPY.Keys) == 6 && PeerHeights(GAPPY, 1, 6) == {4, 6}
  {
    var own, peer := HONEST.blocks, GAPPY;
    SizeOf(own, 3);
    DenseTop(own);
    assert 6 in peer.Keys;
    assert Ancestor(own, peer, 4, 1, 3) == 1;
    assert Ancestor(own, peer, 3, 1, 3) == 1;
    assert Ancestor(own, peer, 2, 1, 3) == 1;
    assert Ancestor(own, peer, 1, 0, 3) == 1;
  }

  lemma {:induction false} GappyReplay()
    ensures Replay(EASY, HONEST.blocks, GAPPY, map[1 := B1], 2, 6) == Some(GAPPY)
  {
    hide Walk, Final;
    var own, peer := HONEST.blocks, GAPPY;
    var one: Chain, two: Chain := map[1 := B1], map[1 := B1, 4 := OTHER2];
    WalkOne();
    assert Stamps(one, 1) == [0];
    assert Stamps(two, 1) == [0];
    assert Stamps(two, 2) == [0];
    assert ValidateBlock(EASY, OTHER2, one).None?;
    assert |two| == 2;
    assert ValidateBlock(EASY, STRAY, two).None?;
    assert two[6 := STRAY] == GAPPY && one[4 := OTHER2] == two;
    assert Replay(EASY, own, peer, GAPPY, 7, 6) == Some(GAPPY);
    assert Replay(EASY, own, peer, two, 6, 6) == Some(GAPPY);
    assert Replay(EASY, own, peer, two, 5, 6) == Some(GAPPY);
    assert Replay(EASY, own, peer, one, 4, 6) == Some(GAPPY);
    assert Replay(EASY, own, peer, one, 3, 6) == Some(GAPPY);
  }

  lemma {:induction false} GappyAdopted()
    ensures Reorg(EASY, HONEST, GAPPY).0.blocks == GAPPY && Reorg(EASY, HONEST, GAPPY).1 == 2
  {
    hide Replay, Ancestor, AddOwn, DropPeer, DropPeerSeen;
    GappyScan();
    GappyReplay();
    SizeOf(HONEST.blocks, 3);
  }

  lemma {:induction false} QuietTops()
    ensures Top(GAPPY.Keys) == 6 && Top(MISFILED.Keys) == 4 && |GAPPY| == 3 && |MISFILED| == 2
  {
    assert 4 in MISFILED.Keys && 6 in GAPPY.Keys;
  }

  lemma {:induction false} QuietScan()
    ensures CommonAncestor(GAPPY, MISFILED) == 4
  {
    var own, peer := GAPPY, MISFILED;
    QuietTops();
    hide Top;
    assert Ancestor(own, peer, 7, 4, 6) == 4;
    assert Ancestor(own, peer, 6, 4, 6) == 4;
    assert Ancestor(own, peer, 5, 4, 6) == 4;
    assert Ancestor(own, peer, 4, 1, 6) == 4;
    assert Ancestor(own, peer, 3, 1, 6) == 4;
    assert Ancestor(own, peer, 2, 1, 6) == 4;
    assert Ancestor(own, peer, 1, 0, 6) == 4;
  }

  /** A count of 0 does not mean that nothing happened: after the gappy map was adopted, its
      own first part is offered; the count is 0, the chain shrinks from 3 blocks to 2 and the
      block filed under 6 becomes a candidate. */
  lemma {:induction false} QuietDrop()
    ensures var s := Reorg(EASY, HONEST, GAPPY).0;
            var (t, n) := Reorg(EASY, s, MISFILED);
            && n == 0 && t != s
            && |s.blocks| == 3 && |t.blocks| == 2
            && STRAY in Candidates(t, 6)
  {
    hide Replay, Ancestor, CommonAncestor, DropPeer, DropPeerSeen;
    GappyAdopted();
    QuietTops();
    QuietScan();
    assert UpTo(GAPPY, 4) == MISFILED && 6 in HeightsAbove(GAPPY, 4);
    var s := Reorg(EASY, HONEST, GAPPY).0;
    ReplayNothing(EASY, s.blocks, MISFILED, MISFILED, 5, 4);
    ReorgShape(EASY, s, MISFILED);
    AcceptedOverlay(EASY, s.blocks, MISFILED);
    var chain := Accepted(EASY, s.blocks, MISFILED).value;
    SameChain(chain, MISFILED);
    AdoptCandidates(s, chain, MISFILED, 4, 4, 6, STRAY);
  }

  // ----- a canonical block that stays a candidate -----

  const SIBLING2 := Sample(2, BlockHash(B1), INITIAL_TARGET, 120, 2, 0)

  /** Another block under key 4 and the same one under key 6. */
  const RESHUFFLED: Chain := map[1 := B1, 4 := SIBLING2, 6 := STRAY]

  lemma {:induction false} ReshuffledScan()
    ensures CommonAncestor(GAPPY, RESHUFFLED) == 1
  {
    var own, peer := GAPPY, RESHUFFLED;
    QuietTops();
    hide Top;
    assert Ancestor(own, peer, 4, 1, 6) == 1;
    assert Ancestor(own, peer, 3, 1, 6) == 1;
    assert Ancestor(own, peer, 2, 1, 6) == 1;
    assert Ancestor(own, peer, 1, 0, 6) == 1;
  }

  lemma {:induction false} ReshuffledReplay()
    ensures Replay(EASY, GAPPY, RESHUFFLED, map[1 := B1], 2, 6) == Some(RESHUFFLED)
  {
    hide Walk;
    var own, peer := GAPPY, RESHUFFLED;
    var one: Chain, two: Chain := map[1 := B1], map[1 := B1, 4 := SIBLING2];
    WalkOne();
    assert Stamps(one, 1) == [0];
    assert Stamps(two, 1) == [0];
    assert Stamps(two, 2) == [0];
    assert ValidateBlock(EASY, SIBLING2, one).None?;
    assert |two| == 2;
    assert ValidateBlock(EASY, STRAY, two).None?;
    assert two[6 := STRAY] == RESHUFFLED && one[4 := SIBLING2] == two;
    assert Replay(EASY, own, peer, RESHUFFLED, 7, 6) == Some(RESHUFFLED);
    assert Replay(EASY, own, peer, two, 6, 6) == Some(RESHUFFLED);
    assert Replay(EASY, own, peer, two, 5, 6) == Some(RESHUFFLED);
    assert Replay(EASY, own, peer, one, 4, 6) == Some(RESHUFFLED);
    assert Replay(EASY, own, peer, one, 3, 6) == Some(RESHUFFLED);
  }

  lemma {:induction false} ReshuffledTop()
    ensures Top(RESHUFFLED.Keys) == 6 && PeerHeights(RESHUFFLED, 1, 6) == {4, 6}
  {
    assert 6 in RESHUFFLED.Keys;
  }

  lemma {:induction false} ReshuffledAdopted(s: State)
    requires s.blocks == GAPPY
    ensures Accepted(EASY, s.blocks, RESHUFFLED) == Some(RESHUFFLED)
    ensures Reorg(EASY, s, RESHUFFLED).0.blocks == RESHUFFLED && Reorg(EASY, s, RESHUFFLED).1 == 2
  {
    hide Replay, Ancestor, CommonAncestor, AddOwn, DropPeer, DropPeerSeen, Top;
    QuietTops();
    ReshuffledScan();
    ReshuffledReplay();
    ReshuffledTop();
    assert UpTo(GAPPY, 1) == map[1 := B1];
  }

  /** On a chain with gaps an adopted block can be the one it replaces: the block under key 6
      is canonical and an uncle candidate at once. */
  lemma {:induction false} StillCandidate()
    ensures var s := Reorg(EASY, HONEST, GAPPY).0;
            var (t, n) := Reorg(EASY, s, RESHUFFLED);
            && n == 2 && 6 in t.blocks && t.blocks[6] == STRAY
            && HasHash(Candidates(t, 6), BlockHash(STRAY))
  {
    hide Reorg, Accepted, CommonAncestor, HasHash, Candidates;
    GappyAdopted();
    var s := Reorg(EASY, HONEST, GAPPY).0;
    ReshuffledScan();
    ReshuffledAdopted(s);
    AdoptedCandidates(EASY, s, RESHUFFLED, 6);
  }
}

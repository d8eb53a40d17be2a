/** Uncle candidates and the duplicate filter over every run, and exactly when a delivered
    block becomes canonical. */
module ChainCandidates {
  import opened Words
  import opened Retarget
  import opened ChainSpec
  import opened ChainProofs
  import VmCache

  // ----- acceptance -----

  /** No other task hashes on the machine this block needs, and if a stray connect does, nobody
      else holds it. */
  predicate MachineFree(s: State, block: Block) {
    VmCache.FreeFor(VmCache.Lookup(s.vm, block.header.blob.randomxKey), CONNECT_TASK)
  }

  /** A delivered block becomes canonical exactly when the machine is free, the chain with
      the block on top is valid, and the header has an uncle root just when uncles are
      passed. Candidates within the uncle depth of it survive, deeper ones are gone. */
  lemma {:induction false} CanonicalExactly(r: Rules, s: State, block: Block, uncles: seq<Block>)
    requires Valid(r, s)
    ensures Connect(r, s, block, uncles).1 == Canonical <==>
            && MachineFree(s, block)
            && ValidChain(r, s.blocks[|s.blocks| + 1 := block])
            && (block.header.blob.uncleRoot != Zero <==> uncles != [])
    ensures Connect(r, s, block, uncles).1 == Canonical ==>
            forall h: nat :: Candidates(Connect(r, s, block, uncles).0, h) ==
                        if h + MAX_UNCLE_DEPTH < |s.blocks| + 1 then [] else Candidates(s, h)
  {
    hide VmCache.Probe, VmCache.FreeFor, Final, TargetAt, HashesAt;
    var n := |s.blocks|;
    VmCache.ProbeGranted(s.vm, CONNECT_TASK, block.header.blob.randomxKey);
    ExtendValid(r, s.blocks, block);
    if ValidateBlock(r, block, s.blocks).None? {
      assert block.header.blob.height == n + 1;
    }
  }

  // ----- the duplicate filter -----

  /** Every remembered hash is that of a stored candidate. */
  ghost predicate SeenStored(s: State) {
    forall w :: w in s.seen ==> w.Leaf? && w in Hashes(Candidates(s, w.blob.height))
  }

  lemma {:induction false} HashIn(list: seq<Block>, b: Block)
    requires b in list
    ensures BlockHash(b) in Hashes(list)
  {
  }

  lemma {:induction false} StoreSeen(s: State, block: Block)
    requires SeenStored(s)
    ensures SeenStored(Store(s, block))
  {
    var t, h := Store(s, block), block.header.blob.height;
    assert block in Candidates(t, h);
    assert forall b :: b in Candidates(s, h) ==> b in Candidates(t, h);
  }

  /** Dropping whole heights together with their hashes keeps the filter honest. */
  lemma {:induction false} DropSeen(s: State, heights: set<nat>)
    requires SeenStored(s)
    ensures SeenStored(s.(competing := s.competing - heights, seen := s.seen - HashesAt(s.competing, heights)))
  {
    var t := s.(competing := s.competing - heights, seen := s.seen - HashesAt(s.competing, heights));
    forall w | w in t.seen
      ensures w.Leaf? && w in Hashes(Candidates(t, w.blob.height))
    {
      var h := w.blob.height;
      var b :| b in Candidates(s, h) && BlockHash(b) == w;
      assert h in heights ==> w in HashesAt(s.competing, heights);
    }
  }

  lemma {:induction false} AdoptSeen(s: State, chain: Chain, peer: Chain, a: nat, top: nat)
    requires SeenStored(s)
    ensures SeenStored(Adopt(s, chain, peer, a, top))
  {
    hide AddOwn, DropPeer;
    var t := Adopt(s, chain, peer, a, top);
    forall w | w in t.seen
      ensures w.Leaf? && w in Hashes(Candidates(t, w.blob.height))
    {
      var h := w.blob.height;
      var b :| b in Candidates(s, h) && BlockHash(b) == w;
      AdoptCandidates(s, chain, peer, a, top, h, b);
      HashIn(Candidates(t, h), b);
    }
  }

  lemma {:induction false} ReorgSeen(r: Rules, s: State, peer: Chain)
    requires SeenStored(s)
    ensures SeenStored(Reorg(r, s, peer).0)
  {
    hide Accepted, CommonAncestor, SeenStored, Adopt;
    var chain := Accepted(r, s.blocks, peer);
    if chain.Some? { AdoptSeen(s, chain.value, peer, CommonAncestor(s.blocks, peer), Top(peer.Keys)); }
  }

  lemma {:induction false} VmSeen(s: State, vm: VmCache.Cache)
    requires SeenStored(s)
    ensures SeenStored(s.(vm := vm))
  {
  }

  lemma {:induction false} TakeSeen(s: State, h: nat)
    requires SeenStored(s)
    ensures SeenStored(TakeCompeting(s, h).0)
  {
    DropSeen(s, {h});
    assert HashesAt(s.competing, {h}) == Hashes(Candidates(s, h));
  }

  lemma {:induction false} CanonicalSeen(s: State, chain: Chain, count: nat, height: nat)
    requires SeenStored(s)
    ensures SeenStored(DropStale(s.(blocks := chain, blockCount := count), height))
  {
    var t := s.(blocks := chain, blockCount := count);
    assert forall h :: Candidates(t, h) == Candidates(s, h);
    DropSeen(t, StaleHeights(s.competing, height - MAX_UNCLE_DEPTH));
  }

  lemma {:induction false} ConnectSeen(r: Rules, s: State, block: Block, uncles: seq<Block>)
    requires SeenStored(s)
    ensures SeenStored(Connect(r, s, block, uncles).0)
  {
    hide VmCache.Probe, ValidateBlock, Final, SeenStored, Store, DropStale, HasHash;
    var s1 := s.(vm := VmCache.Probe(s.vm, CONNECT_TASK, block.header.blob.randomxKey).0);
    VmSeen(s, s1.vm);
    StoreSeen(s, block);
    StoreSeen(s1, block);
    CanonicalSeen(s1, s.blocks[block.header.blob.height := block], s.blockCount + 1, block.header.blob.height);
  }

  /** Over every run, whatever peer maps are offered: a block refused as a duplicate really is
      among the stored candidates of its height. */
  lemma {:induction false} RunSeen(r: Rules, s: State, steps: seq<Step>)
    requires SeenStored(s)
    ensures SeenStored(Run(r, s, steps))
  {
    hide SeenStored, Connect, TakeCompeting, Reorg, BestUncle;
    if steps != [] {
      var t := Run(r, s, steps[..|steps| - 1]);
      RunSeen(r, s, steps[..|steps| - 1]);
      match steps[|steps| - 1] {
        case ConnectStep(block, uncles) => ConnectSeen(r, t, block, uncles);
        case TakeStep(h) => TakeSeen(t, h);
        case ReorgStep(peer) => ReorgSeen(r, t, peer);
        case UncleStep => ReorgSeen(r, t, BestUncle(t, 0, 0, NO_BEST).chain);
        case VmStep(op) => VmSeen(t, VmCache.Apply(t.vm, op));
      }
    }
  }
}

/** The mutable node: every method is proved to compute the matching function of
    `ChainSpec`, and connecting keeps the chain valid. */
module NodeChain {
  import opened Options
  import opened Words
  import opened Retarget
  import opened ChainSpec
  import opened ChainProofs
  import VmCache

  /** Imperative validation, in the order the checks are made. */
  method CheckBlock(pow: Blob -> U32, mode: FinalityMode, block: Block, chain: Chain) returns (e: Option<Invalid>)
    ensures e == ValidateBlock(NetworkRules(pow, mode), block, chain)
  {
    var blob := block.header.blob;
    if pow(blob) > blob.target { return Some(BadPow); }
    if blob.height != |chain| + 1 { return Some(BadHeight); }
    if blob.height > 1 && blob.height - 1 in chain {
      if blob.previous != BlockHash(chain[blob.height - 1]) { return Some(BadPrevious); }
    }
    var expected := GetNextWorkRequired(chain, blob.height);
    if blob.target != expected { return Some(BadTarget); }
    return None;
  }

  method LargestKey(keys: set<nat>) returns (top: nat)
    ensures top == Top(keys)
  {
    top := 0;
    var rest := keys;
    while rest != {}
      invariant rest <= keys
      invariant forall k :: k in keys && k !in rest ==> k <= top
      invariant top == 0 || top in keys
    {
      var k :| k in rest;
      if k > top { top := k; }
      rest := rest - {k};
    }
  }

  method FindAncestor(own: Chain, peer: Chain) returns (a: nat)
    ensures a == CommonAncestor(own, peer)
  {
    a := 0;
    var last := LargestKey(own.Keys);
    var h := 0;
    while h <= last
      invariant h <= last + 1
      invariant Ancestor(own, peer, h, a, last) == CommonAncestor(own, peer)
    {
      if h in own && h in peer {
        if BlockHash(own[h]) != BlockHash(peer[h]) { return; }
        a := h;
      }
      h := h + 1;
    }
  }

  method ReplayPeer(pow: Blob -> U32, mode: FinalityMode, own: Chain, peer: Chain, a: nat, top: nat)
    returns (chain: Option<Chain>)
    ensures chain == Replay(NetworkRules(pow, mode), own, peer, UpTo(own, a), a + 1, top)
  {
    ghost var r := NetworkRules(pow, mode);
    var scratch: Chain := map h | h in own && h <= a :: own[h];
    var h := a + 1;
    while h <= top
      invariant a + 1 <= h
      invariant Replay(r, own, peer, scratch, h, top) == Replay(r, own, peer, UpTo(own, a), a + 1, top)
    {
      hide ValidateBlock;
      if h in peer {
        var e := CheckBlock(pow, mode, peer[h], scratch);
        if e.Some? { return None; }
        if h in own && Final(mode, own[h]) { return None; }
        scratch := scratch[h := peer[h]];
      }
      h := h + 1;
    }
    return Some(scratch);
  }

  lemma {:induction false} ClimbNext(competing: map<nat, seq<Block>>, h: nat, parent: Word, up: seq<Block>)
    requires h in competing && FirstChild(competing[h], parent).Some?
    ensures var child := FirstChild(competing[h], parent).value;
            up + Climb(competing, h, parent) == (up + [child]) + Climb(competing, h + 1, BlockHash(child))
    ensures Above(competing, h + 1) < Above(competing, h)
  {
    assert h in Above(competing, h) && h !in Above(competing, h + 1);
  }

  lemma {:induction false} ClimbEnds(competing: map<nat, seq<Block>>, h: nat, parent: Word)
    requires h !in competing || FirstChild(competing[h], parent).None?
    ensures Climb(competing, h, parent) == []
  {
  }

  class Node {
    const pow: Blob -> U32
    const mode: FinalityMode
    const vmCache: VmCache.VMCache
    var blocks: Chain
    var competing: map<nat, seq<Block>>
    var competingSeen: set<Word>
    var connectLockHeld: bool
    var blockCount: nat

    function MyRules(): Rules { NetworkRules(pow, mode) }

    function View(): State reads this, vmCache {
      State(blocks, competing, competingSeen, vmCache.View(), blockCount)
    }

    constructor (pow: Blob -> U32, mode: FinalityMode)
      ensures View() == GENESIS_STATE && !connectLockHeld
      ensures Valid(MyRules(), View())
      ensures fresh(vmCache)
    {
      this.pow, this.mode := pow, mode;
      vmCache := new VmCache.VMCache();
      blocks, competing, competingSeen, connectLockHeld, blockCount := map[], map[], {}, false, 0;
      new;
      StartValid(MyRules());
    }

    /** Guarded access to the machine of one key, as validation takes it. */
    method Probe(key: Word) returns (ok: bool)
      modifies vmCache
      ensures (vmCache.View(), ok) == VmCache.Probe(old(vmCache.View()), CONNECT_TASK, key)
    {
      ok := vmCache.GetVm(CONNECT_TASK, key);
      if ok {
        var _ := vmCache.StartHash(CONNECT_TASK, key);
        vmCache.StopHash(CONNECT_TASK, key);
        vmCache.ReleaseVm(CONNECT_TASK, key);
      }
    }

    method StoreCandidate(block: Block)
      modifies this`competing, this`competingSeen
      ensures View() == Store(old(View()), block)
    {
      var h := block.header.blob.height;
      competing := competing[h := (if h in competing then competing[h] else []) + [block]];
      competingSeen := competingSeen + {BlockHash(block)};
    }

    method IsUncleParent(h: nat, parent: Word) returns (found: bool)
      ensures found == HasHash(Candidates(View(), h), parent)
    {
      var list := if h in competing then competing[h] else [];
      for i := 0 to |list|
        invariant forall j :: 0 <= j < i ==> BlockHash(list[j]) != parent
      {
        if BlockHash(list[i]) == parent { return true; }
      }
      return false;
    }

    /** Forget the hashes of a list of candidates. */
    method Forget(list: seq<Block>)
      modifies this`competingSeen
      ensures competingSeen == old(competingSeen) - Hashes(list)
    {
      for i := 0 to |list|
        invariant competingSeen == old(competingSeen) - Hashes(list[..i])
      {
        assert Hashes(list[..i + 1]) == Hashes(list[..i]) + {BlockHash(list[i])};
        competingSeen := competingSeen - {BlockHash(list[i])};
      }
      assert list[..|list|] == list;
    }

    method CleanStale(height: nat)
      modifies this`competing, this`competingSeen
      ensures View() == DropStale(old(View()), height)
    {
      ghost var was := competing;
      var stale := set h | h in competing && h < height - MAX_UNCLE_DEPTH;
      ghost var all := stale;
      while stale != {}
        invariant stale <= all <= was.Keys
        invariant competing == was - (all - stale)
        invariant competingSeen == old(competingSeen) - HashesAt(was, all - stale)
        decreases |stale|
      {
        var h :| h in stale;
        assert all - (stale - {h}) == (all - stale) + {h};
        assert HashesAt(was, (all - stale) + {h}) == HashesAt(was, all - stale) + Hashes(was[h]);
        Forget(competing[h]);
        competing := competing - {h};
        stale := stale - {h};
      }
      assert all - stale == all;
    }

    method ConnectBlock(block: Block, uncles: seq<Block>) returns (outcome: Outcome)
      modifies this, vmCache
      ensures old(connectLockHeld) ==> outcome == Raised && View() == old(View())
      ensures !old(connectLockHeld) ==> (View(), outcome) == Connect(MyRules(), old(View()), block, uncles)
      ensures connectLockHeld == old(connectLockHeld)
      ensures old(Valid(MyRules(), View())) ==> Valid(MyRules(), View())
    {
      if old(Valid(MyRules(), View())) { ConnectValid(MyRules(), View(), block, uncles); }
      if connectLockHeld { return Raised; }
      connectLockHeld := true;
      outcome := ConnectLocked(block, uncles);
      connectLockHeld := false;
    }

    method ConnectLocked(block: Block, uncles: seq<Block>) returns (outcome: Outcome)
      modifies this`blocks, this`competing, this`competingSeen, this`blockCount, vmCache
      ensures (View(), outcome) == Connect(MyRules(), old(View()), block, uncles)
    {
      hide VmCache.Probe, TargetAt, HasHash;
      var n := |blocks|;
      var blob := block.header.blob;
      if blob.height == n {
        var free := Probe(blob.randomxKey);
        if !free || pow(blob) > blob.target { return Rejected; }
        if BlockHash(block) in competingSeen { return Rejected; }
        StoreCandidate(block);
        return Competing;
      }
      if n > 0 {
        if n !in blocks { return Raised; }
        if blob.previous != BlockHash(blocks[n]) {
          var found := IsUncleParent(n, blob.previous);
          if found {
            if BlockHash(block) !in competingSeen { StoreCandidate(block); }
            return Competing;
          }
        }
      }
      outcome := Extend(block, uncles);
    }

    method Extend(block: Block, uncles: seq<Block>) returns (outcome: Outcome)
      modifies this`blocks, this`competing, this`competingSeen, this`blockCount, vmCache
      ensures (View(), outcome) == ConnectCanonical(MyRules(), old(View()), block, uncles)
    {
      hide VmCache.Probe, ValidateBlock, Final, HashesAt;
      var h := block.header.blob.height;
      var free := Probe(block.header.blob.randomxKey);
      if !free { return Rejected; }
      var e := CheckBlock(pow, mode, block, blocks);
      if e.Some? { return Rejected; }
      if (block.header.blob.uncleRoot != Zero) != (|uncles| > 0) { return Raised; }
      if h in blocks && Final(mode, blocks[h]) { return Rejected; }
      blocks := blocks[h := block];
      blockCount := blockCount + 1;
      CleanStale(h);
      return Canonical;
    }

    method TakeCompetingBlocks(h: nat) returns (taken: seq<Block>)
      modifies this`competing, this`competingSeen
      ensures (View(), taken) == TakeCompeting(old(View()), h)
    {
      taken := if h in competing then competing[h] else [];
      competing := competing - {h};
      Forget(taken);
    }

    /** The peer blocks about to become canonical stop being candidates. */
    method DropPeerCandidates(peer: Chain, a: nat, top: nat)
      modifies this`competing, this`competingSeen
      ensures competing == DropPeer(old(competing), peer, a, top)
      ensures competingSeen == old(competingSeen) - DropPeerSeen(old(competing), peer, a, top)
    {
      hide DropPeer, DropPeerSeen, Without;
      ghost var was := competing;
      DropPeerNone(was, peer, a, a);
      var h := a + 1;
      while h <= top
        invariant a + 1 <= h
        invariant h <= top + 1 || h == a + 1
        invariant competing == DropPeer(was, peer, a, h - 1)
        invariant competingSeen == old(competingSeen) - DropPeerSeen(was, peer, a, h - 1)
      {
        if h in peer && h in competing {
          var w := BlockHash(peer[h]);
          competing := competing[h := Without(competing[h], w)];
          competingSeen := competingSeen - {w};
          if competing[h] == [] { competing := competing - {h}; }
        }
        DropPeerNext(was, peer, a, h);
        h := h + 1;
      }
      if top <= a { DropPeerNone(was, peer, a, top); }
    }

    /** Our blocks above the ancestor leave the chain and join the candidates. */
    method Disconnect(a: nat)
      modifies this`blocks, this`competing
      ensures blocks == UpTo(old(blocks), a)
      ensures competing == AddOwn(old(competing), old(blocks), a)
    {
      ghost var own, was := blocks, competing;
      var last := LargestKey(blocks.Keys);
      hide AddOwn, UpTo, Top;
      AddOwnNone(was, own, a);
      var h := a + 1;
      while h <= last
        invariant a + 1 <= h
        invariant forall k :: k in blocks <==> k in own && (k <= a || k >= h)
        invariant forall k :: k in blocks ==> blocks[k] == own[k]
        invariant competing == AddOwn(was, UpTo(own, h - 1), a)
      {
        AddOwnNext(was, own, a, h);
        if h in blocks {
          competing := competing[h := if h in competing then competing[h] + [blocks[h]] else [blocks[h]]];
          blocks := blocks - {h};
        }
        h := h + 1;
      }
      IsUpTo(blocks, own, a);
      AddOwnAll(was, own, a, h - 1);
    }

    /** Put the peer blocks of heights a+1..top on the chain. */
    method ConnectPeer(peer: Chain, a: nat, top: nat) returns (count: nat)
      modifies this`blocks
      ensures IsOverlay(blocks, old(blocks), peer, a + 1, top)
      ensures count == |PeerHeights(peer, a, top)|
    {
      count := 0;
      var h := a + 1;
      assert PeerHeights(peer, a, a) == {};
      while h <= top
        invariant a + 1 <= h
        invariant h <= top + 1 || h == a + 1
        invariant IsOverlay(blocks, old(blocks), peer, a + 1, h - 1)
        invariant count == |PeerHeights(peer, a, h - 1)|
      {
        if h in peer {
          assert PeerHeights(peer, a, h) == PeerHeights(peer, a, h - 1) + {h};
          blocks := blocks[h := peer[h]];
          count := count + 1;
        } else {
          assert PeerHeights(peer, a, h) == PeerHeights(peer, a, h - 1);
        }
        h := h + 1;
      }
      assert PeerHeights(peer, a, h - 1) == PeerHeights(peer, a, top);
    }

    method ReorgToHeavierChain(peer: Chain) returns (count: nat)
      modifies this`blocks, this`competing, this`competingSeen
      ensures (View(), count) == Reorg(MyRules(), old(View()), peer)
    {
      hide Replay, CommonAncestor, DropPeer, AddOwn, DropPeerSeen, PeerHeights, UpTo, IsOverlay, Final, NetworkRules;
      hide Reorg, Top;
      ghost var s := View();
      var top := LargestKey(peer.Keys);
      ReorgCases(MyRules(), s, peer);
      if top <= |blocks| { return 0; }
      var a := FindAncestor(blocks, peer);
      var chain := ReplayPeer(pow, mode, blocks, peer, a, top);
      if chain.None? { return 0; }
      ReplayResult(MyRules(), blocks, peer, UpTo(blocks, a), a + 1, top);
      DropPeerCandidates(peer, a, top);
      Disconnect(a);
      count := ConnectPeer(peer, a, top);
      OverlayUnique(blocks, chain.value, UpTo(s.blocks, a), peer, a + 1, top);
    }

    /** The chain through one candidate, built downward and then upward. */
    method BuildUncleChain(h: nat, start: Block) returns (chain: Chain, top: nat)
      ensures chain == UncleChain(View(), h, start)
      ensures top == UncleTop(View(), h, start)
    {
      chain := map k | k in blocks && 1 <= k < h :: blocks[k];
      assert chain == Below(blocks, h);
      ghost var base := chain;
      chain := chain[h := start];
      top := h;
      var parent := BlockHash(start);
      ghost var picked := [start];
      ghost var all := picked + Climb(competing, h + 1, parent);
      hide Stack, FirstChild, Climb, Above, Below;
      StackOne(base, h, start);
      while top + 1 in competing
        invariant top + 1 == h + |picked|
        invariant chain == Stack(base, h, picked)
        invariant all == picked + Climb(competing, top + 1, parent)
        decreases Above(competing, top + 1)
      {
        var child := FirstChild(competing[top + 1], parent);
        if child.None? { break; }
        ClimbNext(competing, top + 1, parent, picked);
        StackNext(base, h, picked, child.value);
        chain := chain[top + 1 := child.value];
        parent := BlockHash(child.value);
        picked := picked + [child.value];
        top := top + 1;
      }
      ClimbEnds(competing, top + 1, parent);
      assert all == picked;
    }

    /** Every block from `low + 1` to `top` names its predecessor as parent. */
    method IsContinuous(chain: Chain, low: nat, top: nat) returns (ok: bool)
      requires low in chain
      ensures ok <==> forall h :: low < h <= top ==> Follows(chain, h)
    {
      var h := low + 1;
      while h <= top
        invariant low + 1 <= h && (h <= top + 1 || h == low + 1)
        invariant h - 1 in chain
        invariant forall k :: low < k < h ==> Follows(chain, k)
      {
        assert Follows(chain, h) <==> h in chain && chain[h].header.blob.previous == BlockHash(chain[h - 1]);
        if h !in chain { return false; }
        if chain[h].header.blob.previous != BlockHash(chain[h - 1]) { return false; }
        h := h + 1;
      }
      return true;
    }

    method TryReorgFromUncleChains() returns (count: nat)
      modifies this`blocks, this`competing, this`competingSeen
      ensures (View(), count) == ReorgFromUncles(MyRules(), old(View()))
    {
      hide UncleChain, UncleTop, Reorg;
      ghost var s := View();
      var n := |blocks|;
      var best := NO_BEST;
      var h := 0;
      while h <= n + 1
        invariant h <= n + 2
        invariant View() == s
        invariant BestUncle(s, h, 0, best) == BestUncle(s, 0, 0, NO_BEST)
      {
        var list := if h in competing then competing[h] else [];
        var i := 0;
        while i < |list|
          invariant i <= |list|
          invariant View() == s
          invariant BestUncle(s, h, i, best) == BestUncle(s, 0, 0, NO_BEST)
        {
          var chain, top := BuildUncleChain(h, list[i]);
          if top > n && top > best.top {
            UncleChainContinuous(s, h, list[i]);
            var ok := IsContinuous(chain, h, top);
            if ok { best := Best(chain, top); }
          }
          i := i + 1;
        }
        h := h + 1;
      }
      if best.top > n {
        count := ReorgToHeavierChain(best.chain);
      } else {
        count := 0;
      }
    }
  }

  // ----- single steps of the loops above -----

  /** The three ways a reorganisation can go. */
  lemma {:induction false} ReorgCases(r: Rules, s: State, peer: Chain)
    ensures var a, top := CommonAncestor(s.blocks, peer), Top(peer.Keys);
            var chain := Replay(r, s.blocks, peer, UpTo(s.blocks, a), a + 1, top);
            Reorg(r, s, peer) ==
              if top <= |s.blocks| || chain.None? then (s, 0)
              else (Adopt(s, chain.value, peer, a, top), |PeerHeights(peer, a, top)|)
  {
    hide Adopt, Replay, CommonAncestor, PeerHeights, UpTo;
  }

  lemma {:induction false} DropPeerNone(was: map<nat, seq<Block>>, peer: Chain, a: nat, top: nat)
    requires top <= a
    ensures DropPeer(was, peer, a, top) == was && DropPeerSeen(was, peer, a, top) == {}
  {
    hide Without;
  }

  lemma {:induction false} DropPeerNext(was: map<nat, seq<Block>>, peer: Chain, a: nat, h: nat)
    requires a < h
    ensures var before := DropPeer(was, peer, a, h - 1);
            DropPeer(was, peer, a, h) ==
              if h in peer && h in before then
                var left := Without(before[h], BlockHash(peer[h]));
                if left == [] then before - {h} else before[h := left]
              else before
    ensures DropPeerSeen(was, peer, a, h) ==
              DropPeerSeen(was, peer, a, h - 1) + (if h in peer && h in was then {BlockHash(peer[h])} else {})
    ensures h in was <==> h in DropPeer(was, peer, a, h - 1)
  {
    hide Without;
  }

  lemma {:induction false} IsUpTo(c: Chain, own: Chain, a: nat)
    requires forall h :: h in c <==> h in own && h <= a
    requires forall h :: h in c ==> c[h] == own[h]
    ensures c == UpTo(own, a)
  {
    SameChain(c, UpTo(own, a));
  }

  lemma {:induction false} AddOwnNone(was: map<nat, seq<Block>>, own: Chain, a: nat)
    ensures AddOwn(was, UpTo(own, a), a) == was
  {
    assert HeightsAbove(UpTo(own, a), a) == {};
  }

  lemma {:induction false} AddOwnAll(was: map<nat, seq<Block>>, own: Chain, a: nat, n: nat)
    requires forall h :: h in own ==> h <= n
    ensures AddOwn(was, UpTo(own, n), a) == AddOwn(was, own, a)
  {
    SameChain(UpTo(own, n), own);
  }

  lemma {:induction false} AddOwnNext(was: map<nat, seq<Block>>, own: Chain, a: nat, h: nat)
    requires a < h
    ensures var before := AddOwn(was, UpTo(own, h - 1), a);
            AddOwn(was, UpTo(own, h), a) ==
              if h in own then before[h := if h in before then before[h] + [own[h]] else [own[h]]] else before
  {
    if h in own {
      assert HeightsAbove(UpTo(own, h), a) == HeightsAbove(UpTo(own, h - 1), a) + {h};
    } else {
      SameChain(UpTo(own, h), UpTo(own, h - 1));
    }
  }

  lemma {:induction false} StackNext(base: Chain, h: nat, blocks: seq<Block>, b: Block)
    ensures Stack(base, h, blocks + [b]) == Stack(base, h, blocks)[h + |blocks| := b]
  {
    assert (blocks + [b])[..|blocks|] == blocks;
  }

  lemma {:induction false} StackOne(base: Chain, h: nat, b: Block)
    ensures Stack(base, h, [b]) == base[h := b]
  {
    assert [b][..0] == [];
  }

  /** The continuity check made on a finished uncle chain always succeeds. */
  lemma {:induction false} UncleChainContinuous(s: State, h: nat, start: Block)
    ensures var chain := UncleChain(s, h, start);
            && h in chain
            && forall k :: h < k <= UncleTop(s, h, start) ==> Follows(chain, k)
  {
    hide Stack, Climb, FirstChild;
    var chain := UncleChain(s, h, start);
    var base, climb := Below(s.blocks, h), Climb(s.competing, h + 1, BlockHash(start));
    ClimbLinked(s.competing, h + 1, BlockHash(start));
    StackAt(base, h, [start] + climb, h);
    forall k | h < k <= UncleTop(s, h, start)
      ensures Follows(chain, k)
    {
      StackAt(base, h, [start] + climb, k - 1);
      StackAt(base, h, [start] + climb, k);
      assert OnPath(s.competing, h + 1, BlockHash(start), climb, k - h - 1);
    }
  }
}

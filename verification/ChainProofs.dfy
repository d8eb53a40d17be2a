/** Theorems about every run of a node: the canonical chain stays valid, finality is never
    undone, and two valid chains converge. */
module ChainProofs {
  import opened Words
  import opened Retarget
  import opened ChainSpec
  import VmCache

  // ----- what a valid chain is -----

  /** The heights are exactly 1..n. */
  ghost predicate Dense(c: Chain) {
    forall h :: h in c <==> 1 <= h <= |c|
  }

  /** A block fits its place: height, parent link, proof of work, and genesis-walk target. */
  predicate Fits(r: Rules, c: Chain, h: nat) {
    && h in c
    && c[h].header.blob.height == h
    && (h > 1 ==> Follows(c, h))
    && MeetsTarget(r, c[h])
    && c[h].header.blob.target == TargetAt(r.retarget, c, h)
  }

  ghost predicate ValidChain(r: Rules, c: Chain) {
    Dense(c) && forall h {:trigger Fits(r, c, h)} :: 1 <= h <= |c| ==> Fits(r, c, h)
  }

  predicate KeyedCandidates(competing: map<nat, seq<Block>>) {
    forall h, b :: h in competing && b in competing[h] ==> b.header.blob.height == h
  }

  ghost predicate Valid(r: Rules, s: State) {
    ValidChain(r, s.blocks) && KeyedCandidates(s.competing)
  }

  /** Every block above `a` is filed under its own height. */
  predicate KeyedAbove(peer: Chain, a: nat) {
    forall h :: h in peer && h > a ==> peer[h].header.blob.height == h
  }

  /** A peer map that is about to be adopted files its new blocks under their own heights.
      Every other step, and every peer map that is refused, meets this. */
  ghost predicate Filed(r: Rules, s: State, step: Step) {
    step.ReorgStep? ==>
      KeyedAbove(step.peer, CommonAncestor(s.blocks, step.peer)) || Accepted(r, s.blocks, step.peer).None?
  }

  /** Every final block of `s` is still where it was. */
  ghost predicate FinalsKept(r: Rules, s: State, t: State) {
    forall h :: h in s.blocks && Final(r.mode, s.blocks[h]) ==> h in t.blocks && t.blocks[h] == s.blocks[h]
  }

  /** The chain of `t` is no shorter than that of `s` and still has its final blocks. */
  ghost predicate Keeps(r: Rules, s: State, t: State) {
    |t.blocks| >= |s.blocks| && FinalsKept(r, s, t)
  }

  /** Both chains have a block at `h`, with the same hash. */
  predicate Agree(c: Chain, d: Chain, h: nat) {
    h in c && h in d && BlockHash(c[h]) == BlockHash(d[h])
  }

  // ----- chains and their prefixes -----

  lemma {:induction false} SameChain(c: Chain, d: Chain)
    requires forall h :: h in c <==> h in d
    requires forall h :: h in c ==> c[h] == d[h]
    ensures c == d
  {
  }

  lemma {:induction false} FitsFrame(r: Rules, c: Chain, d: Chain, h: nat)
    requires h >= 1 && Fits(r, c, h)
    requires forall k :: 1 <= k <= h ==> k in c && k in d && c[k] == d[k]
    ensures Fits(r, d, h)
  {
    StampsAgree(c, d, h - 1);
  }

  lemma {:induction false} PrefixValid(r: Rules, c: Chain, a: nat)
    requires ValidChain(r, c) && a <= |c|
    ensures ValidChain(r, UpTo(c, a)) && |UpTo(c, a)| == a
  {
    var d := UpTo(c, a);
    SizeOf(d, a);
    forall h | 1 <= h <= a
      ensures Fits(r, d, h)
    {
      assert Fits(r, c, h);
      FitsFrame(r, c, d, h);
    }
  }

  /** Validation accepts exactly the blocks that keep the chain valid on top of it. */
  lemma {:induction false} ExtendValid(r: Rules, c: Chain, b: Block)
    requires ValidChain(r, c)
    ensures ValidateBlock(r, b, c).None? <==> ValidChain(r, c[|c| + 1 := b])
    ensures |c[|c| + 1 := b]| == |c| + 1
  {
    hide Stamps;
    var n := |c| + 1;
    var d := c[n := b];
    SizeOf(d, n);
    StampsAgree(c, d, n - 1);
    forall h | 1 <= h < n
      ensures Fits(r, d, h)
    {
      assert Fits(r, c, h);
      FitsFrame(r, c, d, h);
    }
    assert ValidateBlock(r, b, c).None? <==> Fits(r, d, n);
  }

  lemma {:induction false} DenseTop(c: Chain)
    requires Dense(c)
    ensures Top(c.Keys) == |c|
  {
    if |c| > 0 { assert |c| in c.Keys; }
  }

  lemma {:induction false} ValidKeyed(r: Rules, c: Chain)
    requires ValidChain(r, c)
    ensures KeyedAbove(c, 0)
  {
    forall h | h in c
      ensures c[h].header.blob.height == h
    {
      assert Fits(r, c, h);
    }
  }

  // ----- the common ancestor -----

  lemma {:induction false} AncestorScan(own: Chain, peer: Chain, h: nat, found: nat)
    requires Dense(own) && found < h
    ensures var a := Ancestor(own, peer, h, found, |own|);
            && (a == found || (h <= a <= |own| && a in peer && BlockHash(own[a]) == BlockHash(peer[a])))
            && (h <= a + 1 <= |own| && a + 1 in peer ==> BlockHash(own[a + 1]) != BlockHash(peer[a + 1]))
    decreases |own| + 1 - h
  {
    if h <= |own| {
      if h !in peer { AncestorScan(own, peer, h + 1, found); }
      else if BlockHash(own[h]) == BlockHash(peer[h]) { AncestorScan(own, peer, h + 1, h); }
    }
  }

  lemma {:induction false} AncestorBound(own: Chain, peer: Chain)
    requires Dense(own)
    ensures var a := CommonAncestor(own, peer);
            && a <= |own|
            && (a > 0 ==> a in peer && BlockHash(own[a]) == BlockHash(peer[a]))
            && (a < |own| && a + 1 in peer ==> BlockHash(own[a + 1]) != BlockHash(peer[a + 1]))
  {
    DenseTop(own);
    AncestorScan(own, peer, 1, 0);
  }

  /** Hash links carry agreement at one height down to every lower height. */
  lemma {:induction false} AgreeBelow(r: Rules, c: Chain, d: Chain, low: nat, h: nat)
    requires ValidChain(r, c) && ValidChain(r, d)
    requires 1 <= low <= h <= |c| && h <= |d|
    requires BlockHash(c[h]) == BlockHash(d[h])
    ensures forall k :: low <= k <= h ==> BlockHash(c[k]) == BlockHash(d[k])
    decreases h
  {
    if low < h {
      assert Fits(r, c, h) && Fits(r, d, h);
      AgreeBelow(r, c, d, low, h - 1);
    }
  }

  // ----- replaying a peer chain -----

  ghost predicate IsOverlay(c: Chain, base: Chain, peer: Chain, h: nat, top: nat) {
    && (forall k :: k in c <==> k in base || (h <= k <= top && k in peer))
    && (forall k :: k in c ==> c[k] == if h <= k <= top && k in peer then peer[k] else base[k])
  }

  lemma {:induction false} OverlayUnique(c: Chain, d: Chain, base: Chain, peer: Chain, h: nat, top: nat)
    requires IsOverlay(c, base, peer, h, top) && IsOverlay(d, base, peer, h, top)
    ensures c == d
  {
    SameChain(c, d);
  }

  lemma {:induction false} ReplayResult(r: Rules, own: Chain, peer: Chain, scratch: Chain, h: nat, top: nat)
    requires Replay(r, own, peer, scratch, h, top).Some?
    ensures IsOverlay(Replay(r, own, peer, scratch, h, top).value, scratch, peer, h, top)
    ensures forall k :: h <= k <= top && k in peer && k in own ==> !Final(r.mode, own[k])
    decreases top + 1 - h
  {
    hide ValidateBlock, Final;
    if h <= top {
      ReplayResult(r, own, peer, if h in peer then scratch[h := peer[h]] else scratch, h + 1, top);
    }
  }

  /** Past a gap, a block filed under its own height never validates. */
  lemma {:induction false} ReplayStuck(r: Rules, own: Chain, peer: Chain, scratch: Chain, h: nat, top: nat)
    requires |scratch| + 1 < h <= top && top in peer && KeyedAbove(peer, h - 1)
    ensures Replay(r, own, peer, scratch, h, top).None?
    decreases top + 1 - h
  {
    if h !in peer { ReplayStuck(r, own, peer, scratch, h + 1, top); }
  }

  lemma {:induction false} ReplayKeyed(r: Rules, own: Chain, peer: Chain, scratch: Chain, h: nat, top: nat)
    requires ValidChain(r, scratch) && |scratch| + 1 == h <= top + 1
    requires top >= h ==> top in peer
    requires KeyedAbove(peer, h - 1)
    requires Replay(r, own, peer, scratch, h, top).Some?
    ensures forall k :: h <= k <= top ==> k in peer
    ensures ValidChain(r, Replay(r, own, peer, scratch, h, top).value)
    ensures |Replay(r, own, peer, scratch, h, top).value| == top
    decreases top + 1 - h
  {
    if h <= top {
      if h !in peer { ReplayStuck(r, own, peer, scratch, h + 1, top); }
      ExtendValid(r, scratch, peer[h]);
      ReplayKeyed(r, own, peer, scratch[h := peer[h]], h + 1, top);
    }
  }

  // ----- candidates through a reorganisation -----

  lemma {:induction false} WithoutMembers(list: seq<Block>, w: Word)
    ensures forall b :: b in Without(list, w) <==> b in list && BlockHash(b) != w
  {
    if list != [] {
      WithoutMembers(list[..|list| - 1], w);
      assert list == list[..|list| - 1] + [list[|list| - 1]];
    }
  }

  lemma {:induction false} AdoptCandidates(s: State, chain: Chain, peer: Chain, a: nat, top: nat, h: nat, b: Block)
    ensures b in Candidates(Adopt(s, chain, peer, a, top), h) <==>
            || (h in s.blocks && h > a && b == s.blocks[h])
            || (b in Candidates(s, h) && (h in peer && a < h <= top ==> BlockHash(b) != BlockHash(peer[h])))
  {
    if h in s.competing && h in peer { WithoutMembers(s.competing[h], BlockHash(peer[h])); }
  }

  // ----- what is accepted -----

  /** What acceptance builds from any two maps: our blocks up to the ancestor with the peer's
      blocks above it, none of which takes the place of a final block. */
  lemma {:induction false} AcceptedOverlay(r: Rules, own: Chain, peer: Chain)
    requires Accepted(r, own, peer).Some?
    ensures var a, top, chain := CommonAncestor(own, peer), Top(peer.Keys), Accepted(r, own, peer).value;
            && |own| < top && top in peer
            && IsOverlay(chain, UpTo(own, a), peer, a + 1, top)
            && forall h :: a < h <= top && h in peer && h in own ==> !Final(r.mode, own[h])
  {
    hide Final, Replay, CommonAncestor, IsOverlay, UpTo;
    var a := CommonAncestor(own, peer);
    ReplayResult(r, own, peer, UpTo(own, a), a + 1, Top(peer.Keys));
  }

  lemma {:induction false} AcceptedShape(r: Rules, own: Chain, peer: Chain)
    requires Dense(own) && Accepted(r, own, peer).Some?
    ensures var a, top, chain := CommonAncestor(own, peer), Top(peer.Keys), Accepted(r, own, peer).value;
            && a <= |own| < top && top in peer
            && IsOverlay(chain, UpTo(own, a), peer, a + 1, top)
            && forall h :: a < h <= top && h in peer && h in own ==> !Final(r.mode, own[h])
  {
    hide Final, Accepted, CommonAncestor, IsOverlay, UpTo;
    AncestorBound(own, peer);
    AcceptedOverlay(r, own, peer);
  }

  /** A keyed peer that is accepted supplies every height above the ancestor, and the chain
      grows to the peer's height. */
  lemma {:induction false} AcceptedKeyed(r: Rules, own: Chain, peer: Chain)
    requires ValidChain(r, own) && Accepted(r, own, peer).Some?
    requires KeyedAbove(peer, CommonAncestor(own, peer))
    ensures ValidChain(r, Accepted(r, own, peer).value)
    ensures |Accepted(r, own, peer).value| == Top(peer.Keys) > |own|
    ensures forall h :: CommonAncestor(own, peer) < h <= Top(peer.Keys) ==> h in peer
  {
    hide Replay, CommonAncestor, ValidChain, Dense, Final, IsOverlay, UpTo;
    var a := CommonAncestor(own, peer);
    ValidDense(r, own);
    AcceptedShape(r, own, peer);
    PrefixValid(r, own, a);
    ReplayKeyed(r, own, peer, UpTo(own, a), a + 1, Top(peer.Keys));
  }

  /** The accepted chain is valid exactly when the peer's blocks above the ancestor are filed
      under their own heights. */
  lemma {:induction false} AcceptedValid(r: Rules, own: Chain, peer: Chain)
    requires ValidChain(r, own) && Accepted(r, own, peer).Some?
    ensures ValidChain(r, Accepted(r, own, peer).value) <==> KeyedAbove(peer, CommonAncestor(own, peer))
  {
    hide Accepted, CommonAncestor;
    var a, chain := CommonAncestor(own, peer), Accepted(r, own, peer).value;
    if KeyedAbove(peer, a) {
      AcceptedKeyed(r, own, peer);
    } else {
      AcceptedShape(r, own, peer);
      var h :| h in peer && h > a && peer[h].header.blob.height != h;
      assert chain[h] == peer[h];
      assert !Fits(r, chain, h);
    }
  }

  // ----- one reorganisation -----

  /** From any state: a reorganisation counts blocks exactly when it adopts a peer that goes
      beyond the ancestor. One that returns 0 changes the state exactly when the peer's top
      exceeds our height, the ancestor is at or above that top, and we hold blocks above it. */
  lemma {:induction false} ReorgShape(r: Rules, s: State, peer: Chain)
    ensures var (t, n) := Reorg(r, s, peer);
            var a, top := CommonAncestor(s.blocks, peer), Top(peer.Keys);
            && (n > 0 <==> Accepted(r, s.blocks, peer).Some? && a < top)
            && (n == 0 ==> (t != s <==> top > |s.blocks| && a >= top && HeightsAbove(s.blocks, a) != {}))
  {
    hide Final, CommonAncestor, IsOverlay, AddOwn, DropPeer, DropPeerSeen, UpTo, Replay;
    var a, top := CommonAncestor(s.blocks, peer), Top(peer.Keys);
    if Accepted(r, s.blocks, peer).Some? {
      AcceptedOverlay(r, s.blocks, peer);
      if a < top {
        TopConnected(peer, a);
      } else {
        assert PeerHeights(peer, a, top) == {};
        AdoptNothing(s, Accepted(r, s.blocks, peer).value, peer, a, top);
      }
    } else if top > |s.blocks| && a >= top {
      ReplayNothing(r, s.blocks, peer, UpTo(s.blocks, a), a + 1, top);
    }
  }

  lemma {:induction false} ReplayNothing(r: Rules, own: Chain, peer: Chain, scratch: Chain, h: nat, top: nat)
    requires h > top
    ensures Replay(r, own, peer, scratch, h, top).Some?
  {
  }

  lemma {:induction false} AdoptNothing(s: State, chain: Chain, peer: Chain, a: nat, top: nat)
    requires top <= a && IsOverlay(chain, UpTo(s.blocks, a), peer, a + 1, top)
    ensures Adopt(s, chain, peer, a, top) != s <==> HeightsAbove(s.blocks, a) != {}
  {
    hide Without;
    if HeightsAbove(s.blocks, a) == {} {
      assert forall h :: h in s.blocks ==> h <= a by {
        assert forall h :: h in s.blocks && h > a ==> h in HeightsAbove(s.blocks, a);
      }
      SameChain(chain, s.blocks);
      assert DropPeer(s.competing, peer, a, top) == s.competing;
      assert AddOwn(s.competing, s.blocks, a) == s.competing;
      assert DropPeerSeen(s.competing, peer, a, top) == {};
    } else {
      var h :| h in HeightsAbove(s.blocks, a);
      assert h !in chain;
    }
  }

  /** From a chain without gaps, a reorganisation that returns 0 changed nothing and any
      other connected an accepted chain. */
  lemma {:induction false} ReorgAdopts(r: Rules, s: State, peer: Chain)
    requires Dense(s.blocks)
    ensures var (t, n) := Reorg(r, s, peer);
            var chain := Accepted(r, s.blocks, peer);
            && (n > 0 <==> chain.Some?)
            && (n == 0 ==> t == s)
            && (n > 0 ==> t == Adopt(s, chain.value, peer, CommonAncestor(s.blocks, peer), Top(peer.Keys)))
            && (n > 0 ==> t.blocks == chain.value)
  {
    hide Accepted, CommonAncestor, PeerHeights, IsOverlay, AddOwn, DropPeer, DropPeerSeen, Final;
    if Accepted(r, s.blocks, peer).Some? {
      AcceptedShape(r, s.blocks, peer);
      TopConnected(peer, CommonAncestor(s.blocks, peer));
    }
  }

  lemma {:induction false} TopConnected(peer: Chain, a: nat)
    requires a < Top(peer.Keys)
    ensures |PeerHeights(peer, a, Top(peer.Keys))| > 0
  {
    assert Top(peer.Keys) in PeerHeights(peer, a, Top(peer.Keys));
  }

  /** From any state and for any peer map: every final block survives exactly when the map is
      refused or none of our blocks above the common ancestor is final. */
  lemma {:induction false} ReorgFinals(r: Rules, s: State, peer: Chain)
    ensures FinalsKept(r, s, Reorg(r, s, peer).0) <==>
            || Accepted(r, s.blocks, peer).None?
            || forall h :: h in s.blocks && h > CommonAncestor(s.blocks, peer) ==> !Final(r.mode, s.blocks[h])
  {
    hide Accepted, CommonAncestor, Final, AddOwn, DropPeer, DropPeerSeen;
    if Accepted(r, s.blocks, peer).Some? {
      AcceptedOverlay(r, s.blocks, peer);
      var a, chain := CommonAncestor(s.blocks, peer), Accepted(r, s.blocks, peer).value;
      assert Reorg(r, s, peer).0.blocks == chain;
      forall h | h in s.blocks && h > a && Final(r.mode, s.blocks[h])
        ensures h !in chain
      {
      }
    }
  }

  lemma {:induction false} SplitSize(all: set<nat>, low: set<nat>, high: set<nat>)
    requires forall k :: k in all <==> k in low || k in high
    requires forall k :: k in low ==> k !in high
    ensures |all| == |low| + |high|
  {
    assert all == low + high && low !! high;
  }

  lemma {:induction false} OverlaySize(chain: Chain, own: Chain, peer: Chain, a: nat, top: nat)
    requires IsOverlay(chain, UpTo(own, a), peer, a + 1, top)
    ensures |chain| + |HeightsAbove(own, a)| == |own| + |PeerHeights(peer, a, top)|
  {
    var low := UpTo(own, a).Keys;
    SplitSize(chain.Keys, low, PeerHeights(peer, a, top));
    SplitSize(own.Keys, low, HeightsAbove(own, a));
    assert |chain| == |chain.Keys| && |own| == |own.Keys|;
  }

  /** From any state and for any peer map: adopting it trades our blocks above the ancestor
      for the counted ones. */
  lemma {:induction false} ReorgHeight(r: Rules, s: State, peer: Chain)
    ensures var (t, n) := Reorg(r, s, peer);
            if Accepted(r, s.blocks, peer).None? then t == s && n == 0
            else |t.blocks| + |HeightsAbove(s.blocks, CommonAncestor(s.blocks, peer))| == |s.blocks| + n
  {
    hide Accepted, CommonAncestor, Final, AddOwn, DropPeer, DropPeerSeen, IsOverlay, UpTo, HeightsAbove, PeerHeights;
    if Accepted(r, s.blocks, peer).Some? {
      AcceptedOverlay(r, s.blocks, peer);
      OverlaySize(Accepted(r, s.blocks, peer).value, s.blocks, peer, CommonAncestor(s.blocks, peer), Top(peer.Keys));
    }
  }

  /** On a chain without gaps that makes the new height the ancestor plus the count. */
  lemma {:induction false} ReorgHeightDense(r: Rules, s: State, peer: Chain)
    requires Dense(s.blocks)
    ensures var (t, n) := Reorg(r, s, peer);
            |t.blocks| == if n == 0 then |s.blocks| else CommonAncestor(s.blocks, peer) + n
  {
    hide Reorg, Accepted, CommonAncestor, HeightsAbove;
    var a := CommonAncestor(s.blocks, peer);
    ReorgHeight(r, s, peer);
    ReorgAdopts(r, s, peer);
    AncestorBound(s.blocks, peer);
    DenseAbove(s.blocks, a);
  }

  lemma {:induction false} DenseAbove(own: Chain, a: nat)
    requires Dense(own) && a <= |own|
    ensures |HeightsAbove(own, a)| == |own| - a
  {
    var low := UpTo(own, a);
    SizeOf(low, a);
    SplitSize(own.Keys, low.Keys, HeightsAbove(own, a));
    assert |own| == |own.Keys| && |low| == |low.Keys|;
  }

  lemma {:induction false} ReorgKeyedCandidates(r: Rules, s: State, peer: Chain)
    requires Valid(r, s)
    ensures KeyedCandidates(Reorg(r, s, peer).0.competing)
  {
    hide Reorg, Adopt, Accepted, CommonAncestor, Follows, TargetAt;
    var t := Reorg(r, s, peer).0;
    ReorgAdopts(r, s, peer);
    forall h, b | h in t.competing && b in t.competing[h]
      ensures b.header.blob.height == h
    {
      if Reorg(r, s, peer).1 > 0 {
        var chain := Accepted(r, s.blocks, peer).value;
        AdoptCandidates(s, chain, peer, CommonAncestor(s.blocks, peer), Top(peer.Keys), h, b);
        assert h in s.blocks ==> Fits(r, s.blocks, h);
      }
    }
  }

  /** An accepted reorganisation leaves a valid state exactly when the peer's blocks above
      the ancestor are filed under their own heights. */
  lemma {:induction false} ReorgValid(r: Rules, s: State, peer: Chain)
    requires Valid(r, s)
    ensures var (t, n) := Reorg(r, s, peer);
            Valid(r, t) <==> n == 0 || KeyedAbove(peer, CommonAncestor(s.blocks, peer))
  {
    hide Reorg, Adopt, Accepted, CommonAncestor, ValidChain, KeyedCandidates, KeyedAbove;
    ReorgKeyedCandidates(r, s, peer);
    ValidDense(r, s.blocks);
    ReorgAdopts(r, s, peer);
    if Reorg(r, s, peer).1 > 0 { AcceptedValid(r, s.blocks, peer); }
  }

  lemma {:induction false} ValidDense(r: Rules, c: Chain)
    requires ValidChain(r, c)
    ensures Dense(c)
  {
  }

  /** An adopted keyed peer supplies every height above the ancestor and the chain is then as
      high as the peer's; at and below the ancestor nothing changes. */
  lemma {:induction false} ReorgLonger(r: Rules, s: State, peer: Chain)
    requires Valid(r, s) && Reorg(r, s, peer).1 > 0
    requires KeyedAbove(peer, CommonAncestor(s.blocks, peer))
    ensures var t := Reorg(r, s, peer).0;
            && ValidChain(r, t.blocks)
            && |t.blocks| == Top(peer.Keys) > |s.blocks|
    ensures forall h :: CommonAncestor(s.blocks, peer) < h <= Top(peer.Keys) ==>
              h in peer && h in Reorg(r, s, peer).0.blocks && Reorg(r, s, peer).0.blocks[h] == peer[h]
    ensures forall h :: 1 <= h <= CommonAncestor(s.blocks, peer) ==>
              h in s.blocks && h in Reorg(r, s, peer).0.blocks && Reorg(r, s, peer).0.blocks[h] == s.blocks[h]
  {
    hide Reorg, Adopt, Accepted, CommonAncestor, Fits, Final;
    ReorgAdopts(r, s, peer);
    AcceptedKeyed(r, s.blocks, peer);
    AcceptedShape(r, s.blocks, peer);
  }

  /** Final blocks survive: an accepted keyed reorganisation starts above all of them. */
  lemma {:induction false} ReorgFinal(r: Rules, s: State, peer: Chain, h: nat)
    requires Valid(r, s) && KeyedAbove(peer, CommonAncestor(s.blocks, peer))
    requires h in s.blocks && Final(r.mode, s.blocks[h])
    ensures var t := Reorg(r, s, peer).0; h in t.blocks && t.blocks[h] == s.blocks[h]
  {
    hide Reorg, Adopt, Accepted, CommonAncestor, Fits, Final;
    ReorgAdopts(r, s, peer);
    if Reorg(r, s, peer).1 > 0 {
      ReorgLonger(r, s, peer);
      AcceptedShape(r, s.blocks, peer);
    }
  }

  /** A set of `n` numbers from 1..n is all of them. */
  lemma {:induction false} FullRange(keys: set<nat>, n: nat)
    requires |keys| == n && forall k :: k in keys ==> 1 <= k <= n
    ensures forall k :: 1 <= k <= n ==> k in keys
  {
    if n > 0 {
      if n in keys {
        FullRange(keys - {n}, n - 1);
      } else {
        RangeBound(keys, n - 1);
      }
    }
  }

  lemma {:induction false} RangeBound(keys: set<nat>, n: nat)
    requires forall k :: k in keys ==> 1 <= k <= n
    ensures |keys| <= n
  {
    if n > 0 {
      RangeBound(keys - {n}, n - 1);
      assert |keys| <= |keys - {n}| + 1;
    } else {
      assert keys == {};
    }
  }

  /** The scratch chain a replayed block was validated on. */
  lemma {:induction false} ReplayChecked(r: Rules, own: Chain, peer: Chain, scratch: Chain, h: nat, top: nat, k: nat)
    returns (c: Chain)
    requires Replay(r, own, peer, scratch, h, top).Some? && 1 <= h <= k <= top && k in peer
    ensures IsOverlay(c, scratch, peer, h, k - 1) && ValidateBlock(r, peer[k], c).None?
    decreases top + 1 - h
  {
    hide ValidateBlock, Final;
    if h == k {
      c := scratch;
    } else {
      c := ReplayChecked(r, own, peer, if h in peer then scratch[h := peer[h]] else scratch, h + 1, top, k);
    }
  }

  /** An accepted peer block that carries the height it is filed under was validated on a
      scratch chain with as many blocks as heights below it, hence without a gap. */
  lemma {:induction false} ScratchFull(r: Rules, own: Chain, peer: Chain, h: nat) returns (c: Chain)
    requires 0 !in own && Accepted(r, own, peer).Some?
    requires CommonAncestor(own, peer) < h <= Top(peer.Keys) && h in peer && peer[h].header.blob.height == h
    ensures IsOverlay(c, UpTo(own, CommonAncestor(own, peer)), peer, CommonAncestor(own, peer) + 1, h - 1)
    ensures ValidateBlock(r, peer[h], c).None? && forall k :: 1 <= k < h ==> k in c
  {
    hide Replay, CommonAncestor, TargetAt, Final;
    var a := CommonAncestor(own, peer);
    c := ReplayChecked(r, own, peer, UpTo(own, a), a + 1, Top(peer.Keys), h);
    FullRange(c.Keys, h - 1);
  }

  /** If that block has the hash of ours, its parent has the hash of ours too. */
  lemma {:induction false} ParentShared(r: Rules, own: Chain, peer: Chain, h: nat)
    requires ValidChain(r, own) && Accepted(r, own, peer).Some?
    requires CommonAncestor(own, peer) + 1 < h <= Top(peer.Keys) && h in own && h in peer
    requires BlockHash(own[h]) == BlockHash(peer[h])
    ensures h - 1 in own && h - 1 in peer && BlockHash(own[h - 1]) == BlockHash(peer[h - 1])
  {
    hide Accepted, CommonAncestor, TargetAt;
    assert Fits(r, own, h);
    var c := ScratchFull(r, own, peer, h);
    assert h - 1 in c && c[h - 1] == peer[h - 1];
  }

  lemma {:induction false} NoneShared(r: Rules, own: Chain, peer: Chain, h: nat)
    requires ValidChain(r, own) && Accepted(r, own, peer).Some?
    requires CommonAncestor(own, peer) < h <= Top(peer.Keys) && h in own && h in peer
    ensures BlockHash(own[h]) != BlockHash(peer[h])
  {
    hide Accepted, CommonAncestor;
    AncestorBound(own, peer);
    if BlockHash(own[h]) == BlockHash(peer[h]) && h > CommonAncestor(own, peer) + 1 {
      ParentShared(r, own, peer, h);
      NoneShared(r, own, peer, h - 1);
    }
  }

  /** From any state, after the adoption of any peer map, at every height above the ancestor:
      the block disconnected is an uncle candidate, and the block now canonical is one exactly
      when it has the hash of the block it replaced. */
  lemma {:induction false} AdoptedCandidates(r: Rules, s: State, peer: Chain, h: nat)
    requires Accepted(r, s.blocks, peer).Some? && h > CommonAncestor(s.blocks, peer)
    ensures var t := Reorg(r, s, peer).0;
            && (h in s.blocks ==> s.blocks[h] in Candidates(t, h))
            && (h in t.blocks ==>
                  (HasHash(Candidates(t, h), BlockHash(t.blocks[h])) <==>
                   h in s.blocks && BlockHash(s.blocks[h]) == BlockHash(t.blocks[h])))
  {
    hide Adopt, Accepted, CommonAncestor, Final, Candidates;
    var a, top, chain := CommonAncestor(s.blocks, peer), Top(peer.Keys), Accepted(r, s.blocks, peer).value;
    var t := Reorg(r, s, peer).0;
    AcceptedOverlay(r, s.blocks, peer);
    assert t == Adopt(s, chain, peer, a, top) && t.blocks == chain by { AdoptBlocks(s, chain, peer, a, top); }
    if h in s.blocks {
      AdoptCandidates(s, chain, peer, a, top, h, s.blocks[h]);
      var i :| 0 <= i < |Candidates(t, h)| && Candidates(t, h)[i] == s.blocks[h];
    }
    if h in t.blocks {
      assert h <= top && h in peer && t.blocks[h] == peer[h];
      forall i | 0 <= i < |Candidates(t, h)|
        ensures BlockHash(Candidates(t, h)[i]) == BlockHash(t.blocks[h]) ==>
                  h in s.blocks && Candidates(t, h)[i] == s.blocks[h]
      {
        AdoptCandidates(s, chain, peer, a, top, h, Candidates(t, h)[i]);
      }
    }
  }

  lemma {:induction false} AdoptBlocks(s: State, chain: Chain, peer: Chain, a: nat, top: nat)
    ensures Adopt(s, chain, peer, a, top).blocks == chain
  {
  }

  /** From a valid state no block is canonical and a candidate at once: at every height above
      the ancestor the block now canonical is no candidate and the one disconnected is. */
  lemma {:induction false} ReorgCandidates(r: Rules, s: State, peer: Chain, h: nat)
    requires Valid(r, s) && Reorg(r, s, peer).1 > 0 && h > CommonAncestor(s.blocks, peer)
    ensures var t := Reorg(r, s, peer).0;
            && (h in t.blocks ==> !HasHash(Candidates(t, h), BlockHash(t.blocks[h])))
            && (h in s.blocks ==> s.blocks[h] in Candidates(t, h))
  {
    hide Reorg, Adopt, Accepted, CommonAncestor, Fits, Final, Candidates, HasHash;
    ReorgAdopts(r, s, peer);
    AcceptedShape(r, s.blocks, peer);
    AdoptedCandidates(r, s, peer, h);
    if h in s.blocks && h in peer && h <= Top(peer.Keys) { NoneShared(r, s.blocks, peer, h); }
  }

  // ----- convergence -----

  /** On two valid chains the scan finds the fork point: agreement at and below it,
      disagreement at every shared height above it. */
  lemma {:induction false} ForkPoint(r: Rules, own: Chain, peer: Chain)
    requires ValidChain(r, own) && ValidChain(r, peer)
    ensures var a := CommonAncestor(own, peer);
            && a <= |own| && a <= |peer|
            && (forall h :: 1 <= h <= a ==> BlockHash(own[h]) == BlockHash(peer[h]))
            && (forall h :: a < h <= |own| && h <= |peer| ==> BlockHash(own[h]) != BlockHash(peer[h]))
  {
    var a := CommonAncestor(own, peer);
    AncestorBound(own, peer);
    if a > 0 { AgreeBelow(r, own, peer, 1, a); }
    forall h | a < h <= |own| && h <= |peer|
      ensures BlockHash(own[h]) != BlockHash(peer[h])
    {
      if BlockHash(own[h]) == BlockHash(peer[h]) {
        AgreeBelow(r, own, peer, a + 1, h);
        assert false;
      }
    }
  }

  lemma {:induction false} AcceptsNext(r: Rules, peer: Chain, scratch: Chain, h: nat)
    requires ValidChain(r, peer) && Dense(scratch) && |scratch| + 1 == h <= |peer|
    requires forall k :: 1 <= k < h ==> Agree(scratch, peer, k)
    ensures ValidateBlock(r, peer[h], scratch).None?
  {
    hide Stamps;
    assert Fits(r, peer, h);
    if h > 1 { assert Agree(scratch, peer, h - 1); }
    AgreeStamps(scratch, peer, h - 1);
  }

  lemma {:induction false} AgreeStamps(c: Chain, d: Chain, n: nat)
    requires forall k :: 1 <= k <= n ==> Agree(c, d, k)
    ensures Stamps(c, n) == Stamps(d, n)
  {
    hide Stamps;
    forall k | 1 <= k <= n
      ensures k in c && k in d && c[k].header.blob.timestamp == d[k].header.blob.timestamp
    {
      assert Agree(c, d, k);
    }
    StampsAgree(c, d, n);
  }

  /** A valid peer chain replays on any dense scratch chain that agrees with it so far,
      unless one of our final blocks is in the way. */
  lemma {:induction false} ReplayAccepts(r: Rules, own: Chain, peer: Chain, scratch: Chain, h: nat)
    requires ValidChain(r, peer) && Dense(scratch) && |scratch| + 1 == h <= |peer| + 1
    requires forall k :: 1 <= k < h ==> Agree(scratch, peer, k)
    requires forall k :: h <= k <= |peer| && k in own ==> !Final(r.mode, own[k])
    ensures Replay(r, own, peer, scratch, h, |peer|).Some?
    decreases |peer| + 1 - h
  {
    hide ValidateBlock, Fits, Final;
    if h <= |peer| {
      AcceptsNext(r, peer, scratch, h);
      var next := scratch[h := peer[h]];
      SizeOf(next, h);
      forall k | 1 <= k < h + 1
        ensures Agree(next, peer, k)
      {
        if k < h { assert Agree(scratch, peer, k); }
      }
      ReplayAccepts(r, own, peer, next, h + 1);
    }
  }

  // ----- uncle chains -----

  lemma {:induction false} ChildIn(list: seq<Block>, parent: Word)
    ensures FirstChild(list, parent).Some? ==>
              FirstChild(list, parent).value in list && FirstChild(list, parent).value.header.blob.previous == parent
  {
    if list != [] { ChildIn(list[1..], parent); }
  }

  /** Position `i` of a climb from height `h` is a candidate linked to its predecessor. */
  predicate OnPath(competing: map<nat, seq<Block>>, h: nat, parent: Word, climb: seq<Block>, i: nat) {
    && i < |climb| && h + i in competing && climb[i] in competing[h + i]
    && climb[i].header.blob.previous == (if i == 0 then parent else BlockHash(climb[i - 1]))
  }

  /** A climb is a hash-linked run of candidates on consecutive heights. */
  lemma {:induction false} ClimbLinked(competing: map<nat, seq<Block>>, h: nat, parent: Word)
    ensures forall i :: 0 <= i < |Climb(competing, h, parent)| ==>
              OnPath(competing, h, parent, Climb(competing, h, parent), i)
    decreases Above(competing, h)
  {
    if h in competing {
      ChildIn(competing[h], parent);
      var child := FirstChild(competing[h], parent);
      if child.Some? {
        assert h in Above(competing, h) && h !in Above(competing, h + 1);
        var up := BlockHash(child.value);
        var rest := Climb(competing, h + 1, up);
        var climb := Climb(competing, h, parent);
        assert climb == [child.value] + rest;
        ClimbLinked(competing, h + 1, up);
        forall i | 0 <= i < |climb|
          ensures OnPath(competing, h, parent, climb, i)
        {
          if i > 0 { assert OnPath(competing, h + 1, up, rest, i - 1); }
        }
      }
    }
  }

  /** What a stack holds at one height. */
  lemma {:induction false} StackAt(base: Chain, h: nat, blocks: seq<Block>, k: nat)
    ensures var chain := Stack(base, h, blocks);
            if h <= k < h + |blocks| then k in chain && chain[k] == blocks[k - h]
            else (k in chain <==> k in base) && (k in chain ==> chain[k] == base[k])
  {
    if blocks != [] { StackAt(base, h, blocks[..|blocks| - 1], k); }
  }

  lemma {:induction false} UncleChainKeyed(r: Rules, s: State, h: nat, start: Block)
    requires Valid(r, s) && start in Candidates(s, h)
    ensures KeyedAbove(UncleChain(s, h, start), 0)
  {
    hide Climb, FirstChild, Follows, TargetAt, Stack;
    ClimbLinked(s.competing, h + 1, BlockHash(start));
    var climb := Climb(s.competing, h + 1, BlockHash(start));
    var c := UncleChain(s, h, start);
    forall k | k in c && k > 0
      ensures c[k].header.blob.height == k
    {
      StackAt(Below(s.blocks, h), h, [start] + climb, k);
      if h < k <= h + |climb| {
        assert OnPath(s.competing, h + 1, BlockHash(start), climb, k - h - 1);
      } else if k < h {
        assert Fits(r, s.blocks, k);
      }
    }
  }

  /** Candidate `j` of height `k` does not start a chain longer than both ours and `top`. */
  predicate Beaten(s: State, k: nat, j: nat, top: nat) {
    j < |Candidates(s, k)| ==> UncleTop(s, k, Candidates(s, k)[j]) <= Max(|s.blocks|, top)
  }

  lemma {:induction false} BestUncleKeyed(r: Rules, s: State, h: nat, i: nat, best: Best)
    requires Valid(r, s) && KeyedAbove(best.chain, 0)
    ensures KeyedAbove(BestUncle(s, h, i, best).chain, 0)
    decreases |s.blocks| + 2 - h, |Candidates(s, h)| - i
  {
    if h <= |s.blocks| + 1 {
      if i >= |Candidates(s, h)| {
        BestUncleKeyed(r, s, h + 1, 0, best);
      } else {
        UncleChainKeyed(r, s, h, Candidates(s, h)[i]);
        BestUncleKeyed(r, s, h, i + 1, Better(s, h, Candidates(s, h)[i], best));
      }
    }
  }

  /** The scan ends with a top at least that of every first-child climb it starts, or finds no
      climb above our height. */
  lemma {:induction false} BestUncleLongest(s: State, h: nat, i: nat, best: Best)
    ensures var b := BestUncle(s, h, i, best);
            && b.top >= best.top
            && (b == best || b.top > |s.blocks|)
    ensures forall k: nat, j: nat :: h <= k <= |s.blocks| + 1 && (k == h ==> i <= j) ==>
              Beaten(s, k, j, BestUncle(s, h, i, best).top)
    decreases |s.blocks| + 2 - h, |Candidates(s, h)| - i
  {
    hide UncleTop, UncleChain;
    if h <= |s.blocks| + 1 {
      if i >= |Candidates(s, h)| {
        BestUncleLongest(s, h + 1, 0, best);
      } else {
        var next := Better(s, h, Candidates(s, h)[i], best);
        BestUncleLongest(s, h, i + 1, next);
        assert Beaten(s, h, i, next.top);
      }
    }
  }

  // ----- one step -----

  lemma {:induction false} StoreKeyed(s: State, block: Block)
    requires KeyedCandidates(s.competing)
    ensures KeyedCandidates(Store(s, block).competing)
  {
    var h := block.header.blob.height;
    assert forall b :: b in Candidates(s, h) + [block] ==> b in Candidates(s, h) || b == block;
  }

  lemma {:induction false} ConnectCanonicalValid(r: Rules, s: State, block: Block, uncles: seq<Block>)
    requires Valid(r, s)
    ensures var (t, o) := ConnectCanonical(r, s, block, uncles);
            && Valid(r, t)
            && t.blocks == (if o.Canonical? then s.blocks[|s.blocks| + 1 := block] else s.blocks)
            && |t.blocks| == |s.blocks| + (if o.Canonical? then 1 else 0)
  {
    hide VmCache.Probe, Fits, TargetAt, Final, HashesAt;
    ExtendValid(r, s.blocks, block);
  }

  /** Connecting leaves the chain alone or adds the one block on top of it. */
  lemma {:induction false} ConnectValid(r: Rules, s: State, block: Block, uncles: seq<Block>)
    requires Valid(r, s)
    ensures var (t, o) := Connect(r, s, block, uncles);
            && Valid(r, t)
            && t.blocks == (if o.Canonical? then s.blocks[|s.blocks| + 1 := block] else s.blocks)
            && |t.blocks| == |s.blocks| + (if o.Canonical? then 1 else 0)
  {
    hide VmCache.Probe, ConnectCanonical, Fits, HasHash;
    StoreKeyed(s, block);
    StoreKeyed(s.(vm := VmCache.Probe(s.vm, CONNECT_TASK, block.header.blob.randomxKey).0), block);
    ConnectCanonicalValid(r, s, block, uncles);
  }

  lemma {:induction false} ConnectKeeps(r: Rules, s: State, block: Block, uncles: seq<Block>)
    requires Valid(r, s)
    ensures var t := Connect(r, s, block, uncles).0; Valid(r, t) && Keeps(r, s, t)
  {
    hide Connect, Final, Fits, KeyedCandidates;
    ConnectValid(r, s, block, uncles);
  }

  lemma {:induction false} TakeKeeps(r: Rules, s: State, h: nat)
    requires Valid(r, s)
    ensures var t := TakeCompeting(s, h).0; Valid(r, t) && Keeps(r, s, t)
  {
    hide ValidChain, Hashes;
  }

  lemma {:induction false} VmKeeps(r: Rules, s: State, vm: VmCache.Cache)
    requires Valid(r, s)
    ensures var t := s.(vm := vm); Valid(r, t) && Keeps(r, s, t)
  {
    hide ValidChain;
  }

  lemma {:induction false} ReorgKeeps(r: Rules, s: State, peer: Chain)
    requires Valid(r, s) && Filed(r, s, ReorgStep(peer))
    ensures var t := Reorg(r, s, peer).0; Valid(r, t) && Keeps(r, s, t)
  {
    hide Reorg, Accepted, CommonAncestor, Final, Fits, KeyedCandidates;
    ReorgValid(r, s, peer);
    ReorgAdopts(r, s, peer);
    if Reorg(r, s, peer).1 > 0 {
      ReorgLonger(r, s, peer);
      forall h | h in s.blocks && Final(r.mode, s.blocks[h])
        ensures var t := Reorg(r, s, peer).0; h in t.blocks && t.blocks[h] == s.blocks[h]
      {
        ReorgFinal(r, s, peer, h);
      }
    }
  }

  /** A filed step keeps the state valid, never lowers the height, and never moves a
      final block. */
  lemma {:induction false} StepKeeps(r: Rules, s: State, step: Step)
    requires Valid(r, s) && Filed(r, s, step)
    ensures var t := Apply(r, s, step); Valid(r, t) && Keeps(r, s, t)
  {
    hide Valid, Keeps, Connect, TakeCompeting, Reorg, BestUncle, CommonAncestor, Accepted;
    match step {
      case ConnectStep(block, uncles) => ConnectKeeps(r, s, block, uncles);
      case TakeStep(h) => TakeKeeps(r, s, h);
      case ReorgStep(peer) => ReorgKeeps(r, s, peer);
      case UncleStep =>
        BestUncleKeyed(r, s, 0, 0, NO_BEST);
        ReorgKeeps(r, s, BestUncle(s, 0, 0, NO_BEST).chain);
        VmKeeps(r, s, s.vm);
      case VmStep(op) => VmKeeps(r, s, VmCache.Apply(s.vm, op));
    }
  }

  // ----- every run -----

  /** Step `i` of a run was filed in the state it met. */
  ghost predicate FiledAt(r: Rules, s: State, steps: seq<Step>, i: nat)
    requires i < |steps|
  {
    Filed(r, Run(r, s, steps[..i]), steps[i])
  }

  ghost predicate ValidAfter(r: Rules, s: State, steps: seq<Step>, i: nat)
    requires i <= |steps|
  {
    Valid(r, Run(r, s, steps[..i]))
  }

  lemma {:induction false} RunNext(r: Rules, s: State, steps: seq<Step>, i: nat)
    requires i < |steps|
    ensures Run(r, s, steps[..i + 1]) == Apply(r, Run(r, s, steps[..i]), steps[i])
  {
    assert steps[..i + 1][..i] == steps[..i];
  }

  /** Over every interleaving of filed steps, from any valid state: the chain is valid, the
      height never falls, and a final block is never replaced. */
  lemma {:induction false} RunKeeps(r: Rules, s: State, steps: seq<Step>, n: nat)
    requires Valid(r, s) && n <= |steps|
    requires forall i :: 0 <= i < n ==> FiledAt(r, s, steps, i)
    ensures ValidAfter(r, s, steps, n) && Keeps(r, s, Run(r, s, steps[..n]))
  {
    hide Apply, Valid, Filed, Final;
    if n > 0 {
      RunKeeps(r, s, steps, n - 1);
      assert FiledAt(r, s, steps, n - 1);
      RunNext(r, s, steps, n - 1);
      StepKeeps(r, Run(r, s, steps[..n - 1]), steps[n - 1]);
    }
  }

  /** Arbitrary peer maps included, a run stays valid throughout exactly when every step of
      it was filed. */
  lemma {:induction false} RunValidExactly(r: Rules, s: State, steps: seq<Step>)
    requires Valid(r, s)
    ensures (forall i :: 0 <= i <= |steps| ==> ValidAfter(r, s, steps, i))
       <==> (forall i :: 0 <= i < |steps| ==> FiledAt(r, s, steps, i))
  {
    if forall i :: 0 <= i < |steps| ==> FiledAt(r, s, steps, i) {
      forall i | 0 <= i <= |steps|
        ensures ValidAfter(r, s, steps, i)
      {
        RunKeeps(r, s, steps, i);
      }
    } else {
      var i :| 0 <= i < |steps| && !FiledAt(r, s, steps, i);
      if ValidAfter(r, s, steps, i) {
        UnfiledBreaks(r, Run(r, s, steps[..i]), steps[i]);
        RunNext(r, s, steps, i);
        assert !ValidAfter(r, s, steps, i + 1);
      }
    }
  }

  lemma {:induction false} UnfiledBreaks(r: Rules, s: State, step: Step)
    requires Valid(r, s) && !Filed(r, s, step)
    ensures !Valid(r, Apply(r, s, step))
  {
    hide Reorg, Accepted, CommonAncestor, KeyedAbove;
    ReorgAdopts(r, s, step.peer);
    ReorgValid(r, s, step.peer);
  }

  lemma {:induction false} StartValid(r: Rules)
    ensures Valid(r, GENESIS_STATE)
  {
  }
}

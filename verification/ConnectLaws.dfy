/** Connecting a block, outcome by outcome and from any state: when each outcome happens and
    what it does to the chain, the candidates, the duplicate filter and the block count. */
module ConnectLaws {
  import opened Options
  import opened Words
  import opened Retarget
  import opened ChainSpec
  import opened ChainCandidates

  // ----- why a block is invalid -----

  /** The work is checked first, then the height, then the parent where it is known, then the
      target; each reason is given exactly when its check is the first to fail. */
  lemma {:induction false} InvalidReasons(r: Rules, block: Block, chain: Chain)
    ensures var blob := block.header.blob;
            var n := |chain|;
            var worked, next := r.pow(blob) <= blob.target, blob.height == n + 1;
            var linked := n >= 1 && n in chain ==> blob.previous == BlockHash(chain[n]);
            var demanded := if n == 0 then 0xFFFF_FFFF else r.retarget(Stamps(chain, n));
            && (ValidateBlock(r, block, chain) == Some(BadPow) <==> !worked)
            && (ValidateBlock(r, block, chain) == Some(BadHeight) <==> worked && !next)
            && (ValidateBlock(r, block, chain) == Some(BadPrevious) <==> worked && next && !linked)
            && (ValidateBlock(r, block, chain) == Some(BadTarget) <==>
                  worked && next && linked && blob.target != demanded)
            && (ValidateBlock(r, block, chain) == None <==> worked && next && linked && blob.target == demanded)
  {
    hide Stamps;
  }

  // ----- what stays -----

  /** Chain, candidates, duplicate filter and block count are as they were. */
  ghost predicate Untouched(s: State, t: State) {
    s.blocks == t.blocks && s.competing == t.competing && s.seen == t.seen && s.blockCount == t.blockCount
  }

  /** The block is one more candidate of its height, last in line, and its hash is remembered;
      nothing else changes. */
  ghost predicate Stored(s: State, t: State, block: Block) {
    var h := block.header.blob.height;
    && t.blocks == s.blocks && t.blockCount == s.blockCount
    && Candidates(t, h) == Candidates(s, h) + [block]
    && (forall k: nat :: k != h ==> Candidates(t, k) == Candidates(s, k))
    && (forall w :: w in t.seen <==> w in s.seen || w == BlockHash(block))
  }

  // ----- a block of our own height -----

  /** A block of our own height is stored as competing exactly when its machine is free, it meets
      its target and its hash is not remembered; otherwise it is rejected and only the machine
      cache may change. */
  lemma {:induction false} CompetingExactly(r: Rules, s: State, block: Block, uncles: seq<Block>)
    requires block.header.blob.height == |s.blocks|
    ensures var (t, o) := Connect(r, s, block, uncles);
            var kept := && MachineFree(s, block)
                        && r.pow(block.header.blob) <= block.header.blob.target
                        && BlockHash(block) !in s.seen;
            && (kept ==> o == Competing && Stored(s, t, block))
            && (!kept ==> o == Rejected && Untouched(s, t))
  {
    hide VmCache.Probe, VmCache.FreeFor;
    VmCache.ProbeGranted(s.vm, CONNECT_TASK, block.header.blob.randomxKey);
  }

  // ----- a block that builds on a candidate -----

  /** The block's height is not ours, our tip exists and is not its parent, and some candidate
      of our height is. */
  predicate ExtendsUncle(s: State, block: Block) {
    var n, blob := |s.blocks|, block.header.blob;
    && blob.height != n && n >= 1 && n in s.blocks
    && blob.previous != BlockHash(s.blocks[n])
    && exists i :: 0 <= i < |Candidates(s, n)| && BlockHash(Candidates(s, n)[i]) == blob.previous
  }

  /** Such a block is answered as competing without any check of its work; it is stored exactly
      when its hash is not remembered, and the machine cache is left alone. */
  lemma {:induction false} ExtensionExactly(r: Rules, s: State, block: Block, uncles: seq<Block>)
    requires ExtendsUncle(s, block)
    ensures var (t, o) := Connect(r, s, block, uncles);
            && o == Competing && t.vm == s.vm
            && (BlockHash(block) !in s.seen ==> Stored(s, t, block))
            && (BlockHash(block) in s.seen ==> Untouched(s, t))
  {
    hide ConnectCompeting, ConnectCanonical;
  }

  // ----- everything else -----

  /** A chain without a block at its own height raises on any other block. */
  lemma {:induction false} MissingTipRaises(r: Rules, s: State, block: Block, uncles: seq<Block>)
    requires |s.blocks| >= 1 && |s.blocks| !in s.blocks && block.header.blob.height != |s.blocks|
    ensures Connect(r, s, block, uncles) == (s, Raised)
  {
    hide ConnectCompeting, ConnectCanonical;
  }

  /** The block takes the canonical path. */
  predicate OnCanonicalPath(s: State, block: Block) {
    var n := |s.blocks|;
    block.header.blob.height != n && (n >= 1 ==> n in s.blocks) && !ExtendsUncle(s, block)
  }

  predicate RootMatches(block: Block, uncles: seq<Block>) {
    block.header.blob.uncleRoot != Zero <==> |uncles| > 0
  }

  /** On the canonical path: rejected when the machine is taken or validation fails, raised when
      the uncle root does not fit the uncles passed, rejected when a final block is in the
      place, and otherwise written and counted. */
  lemma {:induction false} CanonicalPath(r: Rules, s: State, block: Block, uncles: seq<Block>)
    requires OnCanonicalPath(s, block)
    ensures var (t, o) := Connect(r, s, block, uncles);
            var h := block.header.blob.height;
            var checked := MachineFree(s, block) && ValidateBlock(r, block, s.blocks) == None;
            var blocked := h in s.blocks && Final(r.mode, s.blocks[h]);
            && (o == Raised <==> checked && !RootMatches(block, uncles))
            && (o == Canonical <==> checked && RootMatches(block, uncles) && !blocked)
            && (o == Rejected <==> !checked || (RootMatches(block, uncles) && blocked))
            && (o != Canonical ==> Untouched(s, t))
            && (o == Canonical ==> t.blocks == s.blocks[h := block] && t.blockCount == s.blockCount + 1)
  {
    hide VmCache.Probe, VmCache.FreeFor, ConnectCompeting, ValidateBlock, Final, DropStale;
    VmCache.ProbeGranted(s.vm, CONNECT_TASK, block.header.blob.randomxKey);
    assert HasHash(Candidates(s, |s.blocks|), block.header.blob.previous) <==>
           exists i :: 0 <= i < |Candidates(s, |s.blocks|)|
             && BlockHash(Candidates(s, |s.blocks|)[i]) == block.header.blob.previous;
    StaleBooks(s.(vm := VmCache.Probe(s.vm, CONNECT_TASK, block.header.blob.randomxKey).0,
                  blocks := s.blocks[block.header.blob.height := block], blockCount := s.blockCount + 1),
               block.header.blob.height);
  }

  lemma {:induction false} StaleBooks(s: State, height: nat)
    ensures DropStale(s, height).blocks == s.blocks && DropStale(s, height).blockCount == s.blockCount
  {
    hide HashesAt, StaleHeights;
  }

  /** A candidate with this hash is stored more than six heights below `height`. */
  ghost predicate StoredDeep(s: State, height: nat, w: Word) {
    exists h: nat, b :: h + 6 < height && b in Candidates(s, h) && BlockHash(b) == w
  }

  /** Connecting a canonical block keeps the candidates up to six heights below it and forgets
      exactly the hashes of the deeper ones. */
  lemma {:induction false} CanonicalCleans(r: Rules, s: State, block: Block, uncles: seq<Block>)
    requires OnCanonicalPath(s, block) && Connect(r, s, block, uncles).1 == Canonical
    ensures var t, height := Connect(r, s, block, uncles).0, block.header.blob.height;
            && (forall h: nat :: Candidates(t, h) == if h + 6 < height then [] else Candidates(s, h))
            && (forall w :: w in t.seen <==> w in s.seen && !StoredDeep(s, height, w))
  {
    hide VmCache.Probe, ConnectCompeting, ValidateBlock, Final;
    var t := Connect(r, s, block, uncles).0;
    var height: nat := block.header.blob.height;
    var stale := StaleHeights(s.competing, height - 6);
    assert t.seen == s.seen - HashesAt(s.competing, stale);
    forall w
      ensures w in HashesAt(s.competing, stale) <==> StoredDeep(s, height, w)
    {
      DeepHashes(s, height, w);
    }
  }

  lemma {:induction false} DeepHashes(s: State, height: nat, w: Word)
    ensures w in HashesAt(s.competing, StaleHeights(s.competing, height - 6)) <==> StoredDeep(s, height, w)
  {
    if StoredDeep(s, height, w) {
      var h: nat, b :| h + 6 < height && b in Candidates(s, h) && BlockHash(b) == w;
      assert h in StaleHeights(s.competing, height - 6);
    }
    if w in HashesAt(s.competing, StaleHeights(s.competing, height - 6)) {
      var h, b :|
        h in StaleHeights(s.competing, height - 6) && h in s.competing && b in s.competing[h] && BlockHash(b) == w;
      assert b in Candidates(s, h);
    }
  }

  // ----- taking the candidates of a height -----

  /** The candidates of a height are handed out in order; then there are none, exactly their
      hashes are forgotten, and nothing else changes. */
  lemma {:induction false} TakeExactly(s: State, h: nat)
    ensures var (t, taken) := TakeCompeting(s, h);
            && taken == Candidates(s, h) && Candidates(t, h) == []
            && (forall k: nat :: k != h ==> Candidates(t, k) == Candidates(s, k))
            && (forall w :: w in t.seen <==>
                  w in s.seen && forall i :: 0 <= i < |taken| ==> BlockHash(taken[i]) != w)
            && t.blocks == s.blocks && t.blockCount == s.blockCount && t.vm == s.vm
  {
    var (t, taken) := TakeCompeting(s, h);
    forall w
      ensures w in Hashes(taken) <==> exists i :: 0 <= i < |taken| && BlockHash(taken[i]) == w
    {
      if w in Hashes(taken) {
        var b :| b in taken && BlockHash(b) == w;
        var i :| 0 <= i < |taken| && taken[i] == b;
      }
      if exists i :: 0 <= i < |taken| && BlockHash(taken[i]) == w {
        var i :| 0 <= i < |taken| && BlockHash(taken[i]) == w;
        assert taken[i] in taken;
      }
    }
  }
}

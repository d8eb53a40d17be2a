/** Reorganisation from any state and for any peer map, without following the loops: where the
    ancestor is, when a map is accepted and what is built, what becomes of candidates and the
    duplicate filter, and which uncle chain is picked. */
module ReorgLaws {
  import opened Words
  import opened ChainSpec
  import opened ChainProofs

  // ----- the ancestor -----

  predicate Shared(own: Chain, peer: Chain, h: nat) {
    h in own && h in peer
  }

  /** Both chains have a block at `h` and the blocks differ. */
  predicate Split(own: Chain, peer: Chain, h: nat) {
    Shared(own, peer, h) && !Agree(own, peer, h)
  }

  lemma {:induction false} ScanExactly(own: Chain, peer: Chain, h: nat, found: nat, last: nat)
    requires found < h && forall k :: k in own ==> k <= last
    ensures var a := Ancestor(own, peer, h, found, last);
            && (a == found || (h <= a && Agree(own, peer, a)))
            && (forall k :: h <= k <= a && Shared(own, peer, k) ==> Agree(own, peer, k))
            && (forall b :: b >= h && b > a && Shared(own, peer, b) ==>
                  exists d :: h <= d <= b && a < d && Split(own, peer, d))
    decreases last + 1 - h
  {
    if h <= last {
      if h !in own || h !in peer {
        ScanExactly(own, peer, h + 1, found, last);
      } else if BlockHash(own[h]) == BlockHash(peer[h]) {
        ScanExactly(own, peer, h + 1, h, last);
      } else {
        assert Split(own, peer, h);
      }
    }
  }

  /** The common ancestor is 0 or a shared height with equal hashes, no shared height up to it
      differs, and below every shared height above it some shared height above it differs. */
  lemma {:induction false} AncestorExactly(own: Chain, peer: Chain)
    requires 0 !in own
    ensures var a := CommonAncestor(own, peer);
            && (a == 0 || Agree(own, peer, a))
            && (forall k :: 0 <= k <= a && Shared(own, peer, k) ==> Agree(own, peer, k))
            && (forall b :: b > a && Shared(own, peer, b) ==> exists d :: a < d <= b && Split(own, peer, d))
  {
    ScanExactly(own, peer, 1, 0, Top(own.Keys));
    assert CommonAncestor(own, peer) == Ancestor(own, peer, 1, 0, Top(own.Keys));
    hide Ancestor, CommonAncestor;
  }

  lemma {:induction false} ScanInPeer(own: Chain, peer: Chain, h: nat, found: nat, last: nat)
    ensures var a := Ancestor(own, peer, h, found, last); a == found || a in peer
    decreases last + 1 - h
  {
    if h <= last {
      ScanInPeer(own, peer, h + 1, found, last);
      ScanInPeer(own, peer, h + 1, h, last);
    }
  }

  lemma {:induction false} AncestorBelowTop(own: Chain, peer: Chain)
    ensures CommonAncestor(own, peer) <= Top(peer.Keys)
  {
    ScanInPeer(own, peer, 0, 0, Top(own.Keys));
    hide Ancestor;
  }

  // ----- acceptance -----

  /** Our blocks up to `a` with the peer's blocks above it and below `h`. */
  function Built(own: Chain, peer: Chain, a: nat, h: nat): Chain {
    map k | k in own.Keys + peer.Keys && ((k in own && k <= a) || (k in peer && a < k < h)) ::
      if k <= a then own[k] else peer[k]
  }

  /** The peer's block at `h` validates on what is built below it and replaces nothing final. */
  predicate Passes(r: Rules, own: Chain, peer: Chain, a: nat, h: nat)
    requires h in peer
  {
    ValidateBlock(r, peer[h], Built(own, peer, a, h)).None? && !(h in own && Final(r.mode, own[h]))
  }

  lemma {:induction false} BuiltStart(own: Chain, peer: Chain, a: nat)
    ensures Built(own, peer, a, a + 1) == UpTo(own, a)
  {
    SameChain(Built(own, peer, a, a + 1), UpTo(own, a));
  }

  lemma {:induction false} BuiltNext(own: Chain, peer: Chain, a: nat, h: nat)
    requires h > a
    ensures Built(own, peer, a, h + 1) ==
            if h in peer then Built(own, peer, a, h)[h := peer[h]] else Built(own, peer, a, h)
  {
    var c, d := Built(own, peer, a, h), Built(own, peer, a, h + 1);
    SameChain(d, if h in peer then c[h := peer[h]] else c);
  }

  lemma {:induction false} ReplayExactly(r: Rules, own: Chain, peer: Chain, a: nat, h: nat, top: nat)
    requires a < h <= top + 1
    ensures var done := Replay(r, own, peer, Built(own, peer, a, h), h, top);
            && (done.Some? <==> forall k :: h <= k <= top && k in peer ==> Passes(r, own, peer, a, k))
            && (done.Some? ==> done.value == Built(own, peer, a, top + 1))
    decreases top + 1 - h
  {
    hide ValidateBlock, Final, Built;
    if h <= top {
      BuiltNext(own, peer, a, h);
      ReplayExactly(r, own, peer, a, h + 1, top);
    }
  }

  /** A peer map is accepted exactly when its top exceeds our size and each of its blocks above
      the ancestor validates on what is built below it and replaces nothing final; what is built
      is our blocks up to the ancestor with all of them. */
  lemma {:induction false} AcceptedExactly(r: Rules, own: Chain, peer: Chain)
    ensures var a, top := CommonAncestor(own, peer), Top(peer.Keys);
            && (Accepted(r, own, peer).Some? <==>
                  top > |own| && forall h :: a < h <= top && h in peer ==> Passes(r, own, peer, a, h))
            && (Accepted(r, own, peer).Some? ==> Accepted(r, own, peer).value == Built(own, peer, a, top + 1))
  {
    hide Replay, CommonAncestor, Passes, Built, UpTo, Top;
    AncestorBelowTop(own, peer);
    var a, top := CommonAncestor(own, peer), Top(peer.Keys);
    BuiltStart(own, peer, a);
    ReplayExactly(r, own, peer, a, a + 1, top);
  }

  // ----- candidates and the duplicate filter -----

  /** The blocks of a list with another hash, in order. */
  function Others(list: seq<Block>, w: Word): seq<Block> {
    if list == [] then []
    else (if BlockHash(list[0]) != w then [list[0]] else []) + Others(list[1..], w)
  }

  lemma {:induction false} OthersConcat(a: seq<Block>, b: seq<Block>, w: Word)
    ensures Others(a + b, w) == Others(a, w) + Others(b, w)
  {
    if a == [] {
      assert a + b == b;
    } else {
      var head := if BlockHash(a[0]) != w then [a[0]] else [];
      OthersConcat(a[1..], b, w);
      assert (a + b)[1..] == a[1..] + b;
      assert Others(a, w) == head + Others(a[1..], w) && Others(a + b, w) == head + Others(a[1..] + b, w);
    }
  }

  lemma {:induction false} WithoutOthers(list: seq<Block>, w: Word)
    ensures Without(list, w) == Others(list, w)
  {
    if list != [] {
      var before, b := list[..|list| - 1], list[|list| - 1];
      WithoutOthers(before, w);
      OthersConcat(before, [b], w);
      assert before + [b] == list;
    }
  }

  /** After an adoption the candidates of a height are the old ones, less those with the hash of
      the block now canonical there, followed by our own block if it was disconnected. */
  lemma {:induction false} CandidatesExactly(r: Rules, s: State, peer: Chain, h: nat)
    requires Accepted(r, s.blocks, peer).Some?
    ensures var t, a := Reorg(r, s, peer).0, CommonAncestor(s.blocks, peer);
            var kept := if h > a && h in peer then Others(Candidates(s, h), BlockHash(peer[h])) else Candidates(s, h);
            Candidates(t, h) == kept + if h in s.blocks && h > a then [s.blocks[h]] else []
  {
    hide Accepted, CommonAncestor, Without, Others;
    var a, top := CommonAncestor(s.blocks, peer), Top(peer.Keys);
    assert h in peer ==> h in peer.Keys;
    if h in peer && h in s.competing { WithoutOthers(s.competing[h], BlockHash(peer[h])); }
    if h in peer { OthersNone(BlockHash(peer[h])); }
  }

  lemma {:induction false} OthersNone(w: Word)
    ensures Others([], w) == []
  {
  }

  /** An adopted peer block at a height that has candidates carries this hash. */
  ghost predicate AdoptedOver(s: State, peer: Chain, w: Word) {
    exists h :: h > CommonAncestor(s.blocks, peer) && h in peer && h in s.competing && BlockHash(peer[h]) == w
  }

  /** An adoption forgets exactly the hashes of adopted blocks at heights that had candidates; it
      touches neither the machine cache nor the count of connected blocks. */
  lemma {:induction false} ForgetsExactly(r: Rules, s: State, peer: Chain)
    requires Accepted(r, s.blocks, peer).Some?
    ensures var t := Reorg(r, s, peer).0;
            && (forall w :: w in t.seen <==> w in s.seen && !AdoptedOver(s, peer, w))
            && t.vm == s.vm && t.blockCount == s.blockCount
  {
    hide Accepted, CommonAncestor, AddOwn, DropPeer;
    assert forall h :: h in peer ==> h in peer.Keys;
  }

  // ----- which uncle chain is picked -----

  /** `child` is the first of the list that names `parent`. */
  predicate IsFirstChild(list: seq<Block>, parent: Word, child: Block) {
    exists j :: 0 <= j < |list| && list[j] == child && child.header.blob.previous == parent
                && forall i :: 0 <= i < j ==> list[i].header.blob.previous != parent
  }

  predicate NoChild(list: seq<Block>, parent: Word) {
    forall i :: 0 <= i < |list| ==> list[i].header.blob.previous != parent
  }

  lemma {:induction false} FirstChildExactly(list: seq<Block>, parent: Word)
    ensures FirstChild(list, parent).Some? ==> IsFirstChild(list, parent, FirstChild(list, parent).value)
    ensures FirstChild(list, parent).None? <==> NoChild(list, parent)
  {
    if list != [] {
      var rest := list[1..];
      FirstChildExactly(rest, parent);
      if list[0].header.blob.previous != parent {
        if FirstChild(rest, parent).Some? {
          var child := FirstChild(rest, parent).value;
          var j :| 0 <= j < |rest| && rest[j] == child && child.header.blob.previous == parent
                   && forall i :: 0 <= i < j ==> rest[i].header.blob.previous != parent;
          assert list[j + 1] == child;
          assert forall i :: 0 <= i < j + 1 ==> list[i].header.blob.previous != parent by {
            assert forall i :: 1 <= i < j + 1 ==> list[i] == rest[i - 1];
          }
        } else {
          assert forall i :: 1 <= i < |list| ==> list[i] == rest[i - 1];
        }
      } else {
        assert list[0] == FirstChild(list, parent).value;
      }
    }
  }

  function ParentOf(parent: Word, climb: seq<Block>, i: nat): Word
    requires i <= |climb|
  {
    if i == 0 then parent else BlockHash(climb[i - 1])
  }

  predicate FirstAt(competing: map<nat, seq<Block>>, h: nat, parent: Word, climb: seq<Block>, i: nat) {
    i < |climb| && h + i in competing && IsFirstChild(competing[h + i], ParentOf(parent, climb, i), climb[i])
  }

  /** A climb takes the first stored child at every height and ends where there is none. */
  lemma {:induction false} ClimbExactly(competing: map<nat, seq<Block>>, h: nat, parent: Word)
    ensures var climb := Climb(competing, h, parent);
            && (forall i :: 0 <= i < |climb| ==> FirstAt(competing, h, parent, climb, i))
            && (h + |climb| in competing ==> NoChild(competing[h + |climb|], ParentOf(parent, climb, |climb|)))
    decreases Above(competing, h)
  {
    if h in competing {
      FirstChildExactly(competing[h], parent);
      var child := FirstChild(competing[h], parent);
      if child.Some? {
        assert h in Above(competing, h) && h !in Above(competing, h + 1);
        hide FirstChild, IsFirstChild, NoChild;
        var up := BlockHash(child.value);
        var rest := Climb(competing, h + 1, up);
        var climb := [child.value] + rest;
        ClimbExactly(competing, h + 1, up);
        forall i | 0 <= i < |climb|
          ensures FirstAt(competing, h, parent, climb, i)
        {
          if i > 0 {
            assert FirstAt(competing, h + 1, up, rest, i - 1);
            assert ParentOf(parent, climb, i) == ParentOf(up, rest, i - 1);
          }
        }
        assert ParentOf(parent, climb, |climb|) == ParentOf(up, rest, |rest|);
      }
    }
  }

  /** Position (k, j) comes before (h, i) in scan order. */
  predicate Before(k: nat, j: nat, h: nat, i: nat) {
    k < h || (k == h && j < i)
  }

  predicate Scanned(s: State, k: nat, j: nat) {
    k <= |s.blocks| + 1 && j < |Candidates(s, k)|
  }

  function TopAt(s: State, k: nat, j: nat): nat
    requires Scanned(s, k, j)
  {
    UncleTop(s, k, Candidates(s, k)[j])
  }

  /** The scan from (h, i) keeps what it has, or takes the first candidate of its part with the
      greatest top above our height and above what it had. */
  lemma {:induction false} BestUncleExactly(s: State, h: nat, i: nat, best: Best)
    ensures var b := BestUncle(s, h, i, best);
            || b == best
            || (b.top > best.top && b.top > |s.blocks| && exists k: nat, j: nat :: PickedFirst(s, h, i, k, j, b))
    decreases |s.blocks| + 2 - h, |Candidates(s, h)| - i
  {
    hide UncleTop, UncleChain;
    if h <= |s.blocks| + 1 {
      if i >= |Candidates(s, h)| {
        BestUncleExactly(s, h + 1, 0, best);
        var b := BestUncle(s, h + 1, 0, best);
        if b != best {
          var k: nat, j: nat :| PickedFirst(s, h + 1, 0, k, j, b);
          assert PickedFirst(s, h, i, k, j, b);
        }
      } else {
        var next := Better(s, h, Candidates(s, h)[i], best);
        BestUncleExactly(s, h, i + 1, next);
        var b := BestUncle(s, h, i + 1, next);
        if b == next {
          if next != best { assert PickedFirst(s, h, i, h, i, next); }
        } else {
          var k: nat, j: nat :| PickedFirst(s, h, i + 1, k, j, b);
          assert TopAt(s, h, i) < b.top;
          assert PickedFirst(s, h, i, k, j, b);
        }
      }
    }
  }

  /** The pick is the chain at (k, j), and every candidate scanned before it from (h, i) on has
      a smaller top. */
  ghost predicate PickedFirst(s: State, h: nat, i: nat, k: nat, j: nat, b: Best) {
    && Scanned(s, k, j) && !Before(k, j, h, i)
    && b == Best(UncleChain(s, k, Candidates(s, k)[j]), TopAt(s, k, j))
    && forall k2: nat, j2: nat :: Scanned(s, k2, j2) && !Before(k2, j2, h, i) && Before(k2, j2, k, j) ==>
         TopAt(s, k2, j2) < b.top
  }
}

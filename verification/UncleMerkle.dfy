/** The Merkle commitment to a block's uncles: the tree with its last node duplicated on odd
    layers, inclusion proofs, and the full uncle check. */
module UncleMerkle {
  import opened Words
  import Emission

  datatype Uncle = Uncle(header: Header, pinAccepted: bool, pinConfirmed: int)

  datatype UncleProof = UncleProof(header: Header, powHash: Word, path: seq<Word>, position: int)

  function LeavesOf(uncles: seq<Uncle>): seq<Word> {
    seq(|uncles|, i requires 0 <= i < |uncles| => HashOf(uncles[i].header))
  }

  // ----- the tree -----

  /** The layer above: neighbours are paired, an odd last node with itself. */
  function Up(s: seq<Word>): (u: seq<Word>)
    ensures |u| == (|s| + 1) / 2
    ensures forall i :: 0 <= i < |u| ==> u[i] == Node(s[2 * i], s[if 2 * i + 1 < |s| then 2 * i + 1 else 2 * i])
  {
    if s == [] then []
    else if |s| % 2 == 1 then Up(s[..|s| - 1]) + [Node(s[|s| - 1], s[|s| - 1])]
    else Up(s[..|s| - 2]) + [Node(s[|s| - 2], s[|s| - 1])]
  }

  function Root(s: seq<Word>): Word
    requires s != []
    decreases |s|
  {
    if |s| == 1 then s[0] else Root(Up(s))
  }

  function MerkleRoot(s: seq<Word>): Word {
    if s == [] then Zero else Root(s)
  }

  function Sibling(s: seq<Word>, pos: nat): Word
    requires pos < |s|
  {
    s[if pos % 2 == 1 then pos - 1 else if pos + 1 < |s| then pos + 1 else |s| - 1]
  }

  function Path(s: seq<Word>, pos: nat): seq<Word>
    requires pos < |s|
    decreases |s|
  {
    if |s| == 1 then [] else [Sibling(s, pos)] + Path(Up(s), pos / 2)
  }

  lemma {:induction false} PathStep(s: seq<Word>, pos: nat)
    requires pos < |s| && |s| > 1
    ensures pos / 2 < |Up(s)| && Path(s, pos) == [Sibling(s, pos)] + Path(Up(s), pos / 2)
  {
    hide Up, Sibling;
  }

  lemma {:induction false} SiblingIndex(s: seq<Word>, pos: nat)
    requires pos < |s|
    ensures pos % 2 == 1 ==> Sibling(s, pos) == s[pos - 1]
    ensures pos % 2 == 0 ==> Sibling(s, pos) == s[if pos + 1 < |s| then pos + 1 else |s| - 1]
  {
  }

  function Fold(w: Word, pos: int, path: seq<Word>): Word
    decreases |path|
  {
    if path == [] then w
    else Fold(if pos % 2 == 0 then Node(w, path[0]) else Node(path[0], w), pos / 2, path[1..])
  }

  /** Number of layers above `n` leaves. */
  function Depth(n: nat): nat
    decreases n
  {
    if n <= 1 then 0 else 1 + Depth((n + 1) / 2)
  }

  // ----- the builder -----

  method BuildUncleMerkle(uncles: seq<Uncle>) returns (root: Word, proofs: seq<UncleProof>)
    ensures root == MerkleRoot(LeavesOf(uncles))
    ensures proofs == BuiltProofs(uncles)
  {
    hide Up, Path;
    if uncles == [] { return Zero, []; }
    var leaves := LeavesOf(uncles);
    ghost var original := leaves;
    var layers := [leaves];
    while |leaves| > 1
      invariant leaves != [] && |layers| >= 1 && layers[|layers| - 1] == leaves
      invariant layers[0] == original
      invariant Tower(layers)
      invariant Root(leaves) == Root(original)
      decreases |leaves|
    {
      var next := PairUp(leaves);
      leaves := next;
      ghost var before := layers;
      layers := layers + [leaves];
      forall k | 0 <= k < |layers| - 1
        ensures Stacked(layers, k)
      {
        if k < |before| - 1 { assert Stacked(before, k); }
      }
    }
    root := leaves[0];
    proofs := [];
    for i := 0 to |uncles|
      invariant |proofs| == i
      invariant forall j :: 0 <= j < i ==> proofs[j] == BuiltProof(uncles, j)
    {
      var path := WalkLayers(layers, i);
      proofs := proofs + [UncleProof(uncles[i].header, HashOf(uncles[i].header), path, i)];
    }
  }

  /** One layer, built pair by pair after padding an odd one. */
  method PairUp(leaves: seq<Word>) returns (next: seq<Word>)
    requires leaves != []
    ensures next == Up(leaves)
  {
    var padded := if |leaves| % 2 == 1 then leaves + [leaves[|leaves| - 1]] else leaves;
    next := [];
    var i := 0;
    while i < |padded|
      invariant 0 <= i <= |padded| && i % 2 == 0 && |next| == i / 2
      invariant forall k :: 0 <= k < |next| ==> next[k] == Node(padded[2 * k], padded[2 * k + 1])
    {
      next := next + [Node(padded[i], padded[i + 1])];
      i := i + 2;
    }
  }

  predicate Stacked(layers: seq<seq<Word>>, k: nat) {
    k + 1 < |layers| && |layers[k]| > 1 && layers[k + 1] == Up(layers[k])
  }

  /** Each layer is the one above the previous. */
  predicate Tower(layers: seq<seq<Word>>) {
    forall k {:trigger Stacked(layers, k)} :: 0 <= k < |layers| - 1 ==> Stacked(layers, k)
  }

  method WalkLayers(layers: seq<seq<Word>>, i: nat) returns (path: seq<Word>)
    requires layers != [] && Tower(layers) && |layers[|layers| - 1]| == 1
    requires i < |layers[0]|
    ensures path == Path(layers[0], i)
  {
    hide Up, Sibling, Path;
    path := [];
    assert path + Path(layers[0], i) == Path(layers[0], i);
    var pos: nat := i;
    for k := 0 to |layers| - 1
      invariant pos < |layers[k]|
      invariant path + Path(layers[k], pos) == Path(layers[0], i)
    {
      assert Stacked(layers, k);
      var layer := layers[k];
      var sibling := if pos % 2 == 1 then pos - 1 else pos + 1;
      if sibling >= |layer| { sibling := |layer| - 1; }
      SiblingIndex(layer, pos);
      PathStep(layer, pos);
      path := path + [layer[sibling]];
      pos := pos / 2;
    }
    PathEnd(layers[|layers| - 1], pos);
  }

  lemma {:induction false} PathEnd(s: seq<Word>, pos: nat)
    requires pos < |s| == 1
    ensures Path(s, pos) == []
  {
  }

  function BuiltProof(uncles: seq<Uncle>, i: nat): UncleProof
    requires i < |uncles|
  {
    UncleProof(uncles[i].header, HashOf(uncles[i].header), Path(LeavesOf(uncles), i), i)
  }

  function BuiltProofs(uncles: seq<Uncle>): seq<UncleProof> {
    seq(|uncles|, i requires 0 <= i < |uncles| => BuiltProof(uncles, i))
  }

  // ----- the verifier -----

  predicate ProofHolds(pow: Blob -> U32, proof: UncleProof, root: Word, target: nat) {
    && proof.powHash == HashOf(proof.header)
    && pow(proof.header.blob) <= target
    && |proof.path| <= MAX_UNCLE_DEPTH
    && Fold(HashOf(proof.header), proof.position, proof.path) == root
  }

  method VerifyUncleProof(pow: Blob -> U32, proof: UncleProof, root: Word, target: nat) returns (ok: bool)
    ensures ok == ProofHolds(pow, proof, root, target)
  {
    if HashOf(proof.header) != proof.powHash { return false; }
    if pow(proof.header.blob) > target { return false; }
    if |proof.path| > MAX_UNCLE_DEPTH { return false; }
    var current, pos := HashOf(proof.header), proof.position;
    for k := 0 to |proof.path|
      invariant Fold(current, pos, proof.path[k..]) == Fold(HashOf(proof.header), proof.position, proof.path)
    {
      assert proof.path[k..][1..] == proof.path[k + 1..];
      current := if pos % 2 == 0 then Node(current, proof.path[k]) else Node(proof.path[k], current);
      pos := pos / 2;
    }
    return current == root;
  }

  // ----- completeness -----

  lemma {:induction false} PathFolds(s: seq<Word>, i: nat)
    requires i < |s|
    ensures Fold(s[i], i, Path(s, i)) == Root(s)
    ensures |Path(s, i)| == Depth(|s|)
    decreases |s|
  {
    hide Up;
    if |s| > 1 {
      var path := Path(s, i);
      PathFolds(Up(s), i / 2);
      assert path[1..] == Path(Up(s), i / 2);
      assert Up(s)[i / 2] == if i % 2 == 0 then Node(s[i], path[0]) else Node(path[0], s[i]);
    }
  }

  function Quotient(x: nat, d: nat): nat
    requires d > 0
  {
    x / d
  }

  function Pow2(d: nat): (p: nat)
    ensures p >= 1
  {
    if d == 0 then 1 else 2 * Pow2(d - 1)
  }

  /** Six layers carry at most 64 leaves. */
  lemma {:induction false} DepthBound(n: nat, d: nat)
    ensures Depth(n) <= d <==> n <= Pow2(d)
    decreases d
  {
    if d > 0 && n > 1 { DepthBound((n + 1) / 2, d - 1); }
  }

  lemma {:induction false} SixtyFour(n: nat)
    ensures Depth(n) <= MAX_UNCLE_DEPTH <==> n <= 64
  {
    DepthBound(n, 6);
    assert Pow2(6) == 64 by { assert Pow2(3) == 8; assert Pow2(5) == 4 * Pow2(3); }
  }

  /** One built proof, against any target. */
  lemma {:induction false} BuiltProofIff(pow: Blob -> U32, uncles: seq<Uncle>, i: nat, target: nat)
    requires i < |uncles|
    ensures ProofHolds(pow, BuiltProof(uncles, i), MerkleRoot(LeavesOf(uncles)), target) <==>
            |uncles| <= 64 && pow(uncles[i].header.blob) <= target
  {
    hide Root, Path, Fold, Depth;
    PathFolds(LeavesOf(uncles), i);
    SixtyFour(|uncles|);
  }

  /** The proofs the builder makes verify, each against its uncle's own target, exactly when
      there are at most 64 uncles and each meets its target. */
  lemma {:induction false} BuiltProofsHold(pow: Blob -> U32, uncles: seq<Uncle>)
    requires uncles != []
    ensures forall i :: 0 <= i < |uncles| ==>
              BuiltProofs(uncles)[i].header == uncles[i].header && BuiltProofs(uncles)[i].position == i
    ensures (forall i :: 0 <= i < |uncles| ==>
               ProofHolds(pow, BuiltProofs(uncles)[i], MerkleRoot(LeavesOf(uncles)), uncles[i].header.blob.target))
       <==> && |uncles| <= 64
            && forall i :: 0 <= i < |uncles| ==> pow(uncles[i].header.blob) <= uncles[i].header.blob.target
  {
    hide ProofHolds, MerkleRoot, LeavesOf;
    var root := MerkleRoot(LeavesOf(uncles));
    forall i | 0 <= i < |uncles|
      ensures ProofHolds(pow, BuiltProofs(uncles)[i], root, uncles[i].header.blob.target) <==>
              |uncles| <= 64 && pow(uncles[i].header.blob) <= uncles[i].header.blob.target
    {
      BuiltProofIff(pow, uncles, i, uncles[i].header.blob.target);
    }
    if |uncles| > 64 { assert !ProofHolds(pow, BuiltProofs(uncles)[0], root, uncles[0].header.blob.target); }
  }

  // ----- soundness -----

  /** The leaf digests a word was built from. */
  function Leaves(w: Word): set<Word>
    decreases w
  {
    match w
    case Node(l, r) => Leaves(l) + Leaves(r)
    case Leaf(_) => {w}
    case _ => {}
  }

  lemma {:induction false} FoldKeeps(w: Word, pos: int, path: seq<Word>)
    ensures Leaves(w) <= Leaves(Fold(w, pos, path))
    decreases |path|
  {
    if path != [] {
      FoldKeeps(if pos % 2 == 0 then Node(w, path[0]) else Node(path[0], w), pos / 2, path[1..]);
    }
  }

  function AllLeaves(s: seq<Word>): set<Word> {
    set i, w | 0 <= i < |s| && w in Leaves(s[i]) :: w
  }

  lemma {:induction false} RootLeaves(s: seq<Word>)
    requires s != []
    ensures Leaves(Root(s)) <= AllLeaves(s)
    decreases |s|
  {
    hide Up;
    if |s| > 1 {
      RootLeaves(Up(s));
      forall w | w in AllLeaves(Up(s))
        ensures w in AllLeaves(s)
      {
        var i :| 0 <= i < |Up(s)| && w in Leaves(Up(s)[i]);
        var l, r := 2 * i, if 2 * i + 1 < |s| then 2 * i + 1 else 2 * i;
        assert Up(s)[i] == Node(s[l], s[r]);
        assert w in Leaves(s[l]) || w in Leaves(s[r]);
      }
    }
  }

  /** Any proof that verifies against a built root names a header of the list, whatever its
      path and position say, and carries that header's hash and enough work; an empty list has
      none. */
  lemma {:induction false} ProofSound(pow: Blob -> U32, uncles: seq<Uncle>, proof: UncleProof, target: nat)
    requires ProofHolds(pow, proof, MerkleRoot(LeavesOf(uncles)), target)
    ensures exists i :: 0 <= i < |uncles| && uncles[i].header.blob == proof.header.blob
    ensures proof.powHash == Leaf(proof.header.blob) && pow(proof.header.blob) <= target && |proof.path| <= 6
  {
    var leaves := LeavesOf(uncles);
    var w := HashOf(proof.header);
    FoldKeeps(w, proof.position, proof.path);
    assert w in Leaves(MerkleRoot(leaves));
    RootLeaves(leaves);
    var i :| 0 <= i < |leaves| && w in Leaves(leaves[i]);
    assert leaves[i] == HashOf(uncles[i].header);
  }

  lemma {:induction false} FoldInjective(v: Word, w: Word, pos: int, a: seq<Word>, b: seq<Word>)
    requires |a| == |b| && Fold(v, pos, a) == Fold(w, pos, b)
    ensures v == w && a == b
    decreases |a|
  {
    if a != [] {
      FoldInjective(if pos % 2 == 0 then Node(v, a[0]) else Node(a[0], v),
                    if pos % 2 == 0 then Node(w, b[0]) else Node(b[0], w), pos / 2, a[1..], b[1..]);
      assert a == [a[0]] + a[1..] && b == [b[0]] + b[1..];
    }
  }

  /** Under one root, a position and a path length admit one header and one path. */
  lemma {:induction false} ProofUnique(pow: Blob -> U32, root: Word, a: UncleProof, s: nat, b: UncleProof, t: nat)
    requires ProofHolds(pow, a, root, s) && ProofHolds(pow, b, root, t)
    requires a.position == b.position && |a.path| == |b.path|
    ensures a.header.blob == b.header.blob && a.path == b.path && a.powHash == b.powHash
  {
    FoldInjective(HashOf(a.header), HashOf(b.header), a.position, a.path, b.path);
  }

  // ----- the shape of the tree -----

  lemma {:induction false} UpConcat(a: seq<Word>, b: seq<Word>)
    requires |a| % 2 == 0
    ensures Up(a + b) == Up(a) + Up(b)
  {
    hide Up;
    var n := |a| / 2;
    assert |Up(a + b)| == |Up(a) + Up(b)|;
    forall i | 0 <= i < |Up(a + b)|
      ensures Up(a + b)[i] == (Up(a) + Up(b))[i]
    {
      if i >= n { assert (a + b)[2 * i] == b[2 * (i - n)]; }
    }
  }

  /** One leaf is its own root, and two equally large halves of a power of two join under one
      node, left before right. */
  lemma {:induction false} HalvesJoin(a: seq<Word>, b: seq<Word>, k: nat)
    requires |a| == |b| == Pow2(k)
    ensures k == 0 ==> Root(a) == a[0]
    ensures Root(a + b) == Node(Root(a), Root(b))
    decreases k
  {
    hide Up;
    if k == 0 {
      assert Up(a + b) == [Node(a[0], b[0])];
      assert Root(a + b) == Root(Up(a + b));
    } else {
      UpConcat(a, b);
      HalvesJoin(Up(a), Up(b), k - 1);
    }
  }

  /** From three leaves on, an odd list has the root of the list with its last leaf repeated. */
  lemma {:induction false} OddRepeatsLast(s: seq<Word>)
    requires |s| >= 3 && |s| % 2 == 1
    ensures Root(s) == Root(s + [s[|s| - 1]])
  {
    var x := s[|s| - 1];
    var a := s[..|s| - 1];
    assert s == a + [x] && s + [x] == a + [x, x];
    UpConcat(a, [x]);
    UpConcat(a, [x, x]);
    assert Up([x]) == Up([x, x]);
  }

  /** No uncles are committed to by zero bytes, and some uncles never are. */
  lemma {:induction false} EmptyRoot(s: seq<Word>)
    requires LeafWords(s)
    ensures MerkleRoot(s) == Zero <==> s == []
  {
    if s != [] { RootLeafy(s); }
  }

  // ----- binding -----

  /** The layer below: every node split into its two children. */
  function Down(s: seq<Word>): (d: seq<Word>)
    requires AllNodes(s)
    ensures |d| == 2 * |s|
    ensures forall i :: 0 <= i < |s| ==> d[2 * i] == s[i].left && d[2 * i + 1] == s[i].right
  {
    if s == [] then [] else Down(s[..|s| - 1]) + [s[|s| - 1].left, s[|s| - 1].right]
  }

  /** `full` starts with `s`, and beyond it only repeats elements of `s`. */
  predicate Padded(full: seq<Word>, s: seq<Word>) {
    s <= full && forall i :: |s| <= i < |full| ==> full[i] in s
  }

  lemma {:induction false} DownPadded(full: seq<Word>, s: seq<Word>)
    requires s != [] && Padded(full, Up(s))
    ensures AllNodes(full) && Padded(Down(full), s)
  {
    hide Up, Down;
    var u := Up(s);
    forall i | 0 <= i < |full|
      ensures full[i].Node? && full[i].left in s && full[i].right in s
    {
      if i >= |u| {
        var j :| 0 <= j < |u| && u[j] == full[i];
      } else {
        assert full[i] == u[i];
      }
    }
    var d := Down(full);
    forall k | 0 <= k < |d|
      ensures d[k] in s && (k < |s| ==> d[k] == s[k])
    {
      var i := k / 2;
      assert d[2 * i] == full[i].left && d[2 * i + 1] == full[i].right;
      assert k == 2 * i || k == 2 * i + 1;
      if k < |s| { assert full[i] == u[i]; }
    }
    assert |s| <= 2 * |u| <= |d|;
  }

  predicate AllNodes(s: seq<Word>) {
    forall i :: 0 <= i < |s| ==> s[i].Node?
  }

  /** The words `d` layers below `w`, left to right; nothing where the tree is shallower. */
  function Layer(w: Word, d: nat): seq<Word>
    decreases d
  {
    if d == 0 then [w]
    else
      var upper := Layer(w, d - 1);
      if AllNodes(upper) then Down(upper) else []
  }

  /** The root expands to the leaves followed by repeats of them. */
  lemma {:induction false} RootExpands(s: seq<Word>)
    requires s != []
    ensures Padded(Layer(Root(s), Depth(|s|)), s)
    decreases |s|
  {
    hide Up, Down, Padded;
    if |s| == 1 {
      PaddedSelf(s);
      assert Layer(Root(s), 0) == s;
    } else {
      RootExpands(Up(s));
      DownPadded(Layer(Root(s), Depth(|Up(s)|)), s);
    }
  }

  lemma {:induction false} PaddedSelf(s: seq<Word>)
    ensures Padded(s, s)
  {
  }

  /** Layers of nodes on the leftmost way down. */
  function LeftDepth(w: Word): nat
    decreases w
  {
    if w.Node? then 1 + LeftDepth(w.left) else 0
  }

  lemma {:induction false} RootDepth(s: seq<Word>)
    requires s != []
    ensures LeftDepth(Root(s)) == Depth(|s|) + LeftDepth(s[0])
    decreases |s|
  {
    if |s| > 1 { RootDepth(Up(s)); }
  }

  predicate Distinct(s: seq<Word>) {
    forall i, j :: 0 <= i < j < |s| ==> s[i] != s[j]
  }

  /** A longer list with the same padding repeats an element. */
  lemma {:induction false} PaddedRepeats(full: seq<Word>, s: seq<Word>, t: seq<Word>)
    requires Padded(full, s) && Padded(full, t) && |s| < |t|
    ensures !Distinct(t)
  {
    var k := |s|;
    assert full[k] in s;
    var i :| 0 <= i < |s| && s[i] == full[k];
    assert t[i] == full[i] && t[k] == full[k];
  }

  predicate LeafWords(s: seq<Word>) {
    forall i :: 0 <= i < |s| ==> s[i].Leaf?
  }

  /** Without repeats, a root determines its leaves and their order. */
  lemma {:induction false} RootBinding(s: seq<Word>, t: seq<Word>)
    requires LeafWords(s) && LeafWords(t) && Distinct(s) && Distinct(t)
    requires MerkleRoot(s) == MerkleRoot(t)
    ensures s == t
  {
    hide Root, Depth, Layer;
    if s != [] { RootDepth(s); RootLeafy(s); }
    if t != [] { RootDepth(t); RootLeafy(t); }
    if s != [] && t != [] {
      RootExpands(s);
      RootExpands(t);
      var full := Layer(Root(s), Depth(|s|));
      if |s| < |t| { PaddedRepeats(full, s, t); }
      if |t| < |s| { PaddedRepeats(full, t, s); }
    }
  }

  lemma {:induction false} RootLeafy(s: seq<Word>)
    requires s != []
    ensures |s| == 1 ==> Root(s) == s[0]
    ensures |s| > 1 ==> Root(s).Node?
    decreases |s|
  {
    if |s| > 1 { RootLeafy(Up(s)); }
  }

  // ----- the full uncle check -----

  predicate RecentEnough(u: Uncle, height: nat) {
    1 <= height - u.header.blob.height <= MAX_UNCLE_DEPTH
  }

  /** An accepted pin is the base reward halved once per level of depth. */
  predicate PinDerived(u: Uncle, height: nat)
    requires RecentEnough(u, height)
  {
    u.pinAccepted ==> u.pinConfirmed == Quotient(Emission.SteppedReward(height), Pow2(height - u.header.blob.height))
  }

  predicate UnclesOk(pow: Blob -> U32, header: Header, uncles: seq<Uncle>, proofs: seq<UncleProof>, height: nat) {
    && MerkleRoot(LeavesOf(uncles)) == header.blob.uncleRoot
    && |uncles| <= |proofs|
    && (forall i :: 0 <= i < |uncles| ==>
          ProofHolds(pow, proofs[i], header.blob.uncleRoot, uncles[i].header.blob.target))
    && (forall i :: 0 <= i < |uncles| ==> RecentEnough(uncles[i], height))
    && (forall i :: 0 <= i < |uncles| ==> PinDerived(uncles[i], height))
    && Distinct(LeavesOf(uncles))
  }

  method CheckUncles(pow: Blob -> U32, header: Header, uncles: seq<Uncle>, proofs: seq<UncleProof>, height: nat)
    returns (ok: bool)
    ensures ok == UnclesOk(pow, header, uncles, proofs, height)
  {
    hide MerkleRoot, ProofHolds, BuiltProofs, PinDerived, RecentEnough;
    var root, _ := BuildUncleMerkle(uncles);
    if root != header.blob.uncleRoot { return false; }
    for i := 0 to |uncles|
      invariant i <= |proofs|
      invariant forall j :: 0 <= j < i ==> ProofHolds(pow, proofs[j], root, uncles[j].header.blob.target)
    {
      if i >= |proofs| { return false; }
      var holds := VerifyUncleProof(pow, proofs[i], header.blob.uncleRoot, uncles[i].header.blob.target);
      if !holds { return false; }
    }
    for i := 0 to |uncles|
      invariant forall j :: 0 <= j < i ==> RecentEnough(uncles[j], height)
    {
      if !RecentEnough(uncles[i], height) { return false; }
    }
    for i := 0 to |uncles|
      invariant forall j :: 0 <= j < i ==> PinDerived(uncles[j], height)
    {
      if !PinDerived(uncles[i], height) { return false; }
    }
    ok := AllDifferent(LeavesOf(uncles));
  }

  method AllDifferent(hashes: seq<Word>) returns (ok: bool)
    ensures ok == Distinct(hashes)
  {
    var seen: set<Word> := {};
    for i := 0 to |hashes|
      invariant forall w :: w in seen <==> w in hashes[..i]
      invariant Distinct(hashes[..i])
    {
      if hashes[i] in seen {
        var j :| 0 <= j < i && hashes[j] == hashes[i];
        return false;
      }
      seen := seen + {hashes[i]};
      assert hashes[..i + 1] == hashes[..i] + [hashes[i]];
    }
    assert hashes[..|hashes|] == hashes;
    return true;
  }

  /** The header commits to its uncles: two lists that both pass for one header are the same
      headers in the same order. */
  lemma {:induction false} UncleBinding(pow: Blob -> U32, header: Header, a: seq<Uncle>, pa: seq<UncleProof>, ha: nat,
                     b: seq<Uncle>, pb: seq<UncleProof>, hb: nat)
    requires UnclesOk(pow, header, a, pa, ha) && UnclesOk(pow, header, b, pb, hb)
    ensures |a| == |b|
    ensures forall i :: 0 <= i < |a| ==> a[i].header.blob == b[i].header.blob
  {
    RootBinding(LeavesOf(a), LeavesOf(b));
    assert |LeavesOf(a)| == |a| && |LeavesOf(b)| == |b|;
    forall i | 0 <= i < |a|
      ensures a[i].header.blob == b[i].header.blob
    {
      assert LeavesOf(a)[i] == LeavesOf(b)[i];
    }
  }

  /** Proof i names the header of uncle i. */
  predicate Aligned(uncles: seq<Uncle>, proofs: seq<UncleProof>) {
    forall i :: 0 <= i < |uncles| && i < |proofs| ==> proofs[i].header.blob == uncles[i].header.blob
  }

  /** Accepted uncles meet their own targets when the proofs are aligned with them. */
  lemma {:induction false} AlignedWork(
    pow: Blob -> U32, header: Header, uncles: seq<Uncle>, proofs: seq<UncleProof>, height: nat)
    requires UnclesOk(pow, header, uncles, proofs, height) && Aligned(uncles, proofs)
    ensures forall i :: 0 <= i < |uncles| ==> pow(uncles[i].header.blob) <= uncles[i].header.blob.target
  {
    forall i | 0 <= i < |uncles|
      ensures pow(uncles[i].header.blob) <= uncles[i].header.blob.target
    {
      assert ProofHolds(pow, proofs[i], header.blob.uncleRoot, uncles[i].header.blob.target);
    }
  }

  // ----- what acceptance amounts to -----

  /** A tree all of whose branches end after exactly `d` nodes. */
  predicate Uniform(w: Word, d: nat)
    decreases d
  {
    if d == 0 then !w.Node? else w.Node? && Uniform(w.left, d - 1) && Uniform(w.right, d - 1)
  }

  lemma {:induction false} RootUniform(s: seq<Word>, d: nat)
    requires s != [] && forall i :: 0 <= i < |s| ==> Uniform(s[i], d)
    ensures Uniform(Root(s), d + Depth(|s|))
    decreases |s|
  {
    hide Up;
    if |s| > 1 {
      forall i | 0 <= i < |Up(s)|
        ensures Uniform(Up(s)[i], d + 1)
      {
        assert Up(s)[i] == Node(s[2 * i], s[if 2 * i + 1 < |s| then 2 * i + 1 else 2 * i]);
      }
      RootUniform(Up(s), d + 1);
    }
  }

  lemma {:induction false} FoldUniform(w: Word, pos: int, path: seq<Word>, d: nat)
    requires Uniform(Fold(w, pos, path), d)
    ensures |path| <= d && Uniform(w, d - |path|)
    decreases |path|
  {
    if path != [] {
      FoldUniform(if pos % 2 == 0 then Node(w, path[0]) else Node(path[0], w), pos / 2, path[1..], d);
    }
  }

  /** A verifying proof is exactly as long as the tree is deep. */
  lemma {:induction false} ProofLength(pow: Blob -> U32, uncles: seq<Uncle>, proof: UncleProof, target: nat)
    requires uncles != [] && ProofHolds(pow, proof, MerkleRoot(LeavesOf(uncles)), target)
    ensures |proof.path| == Depth(|uncles|)
  {
    hide Root, Fold, Depth, Up;
    var leaves := LeavesOf(uncles);
    RootUniform(leaves, 0);
    FoldUniform(HashOf(proof.header), proof.position, proof.path, Depth(|leaves|));
  }

  /** Some uncle's work meets the target of uncle `i`. */
  predicate SomeWork(pow: Blob -> U32, uncles: seq<Uncle>, i: nat)
    requires i < |uncles|
  {
    exists j :: 0 <= j < |uncles| && pow(uncles[j].header.blob) <= uncles[i].header.blob.target
  }

  /** The conditions of the check that no proof takes part in: root, depth from 1 to 6, pins of
      the reward halved once per level, no header twice. */
  predicate ListOk(header: Header, uncles: seq<Uncle>, height: nat) {
    && MerkleRoot(LeavesOf(uncles)) == header.blob.uncleRoot
    && (forall i :: 0 <= i < |uncles| ==> 1 <= height - uncles[i].header.blob.height <= 6)
    && (forall i :: 0 <= i < |uncles| && uncles[i].pinAccepted ==>
          uncles[i].pinConfirmed ==
            Quotient(Emission.SteppedReward(height), Pow2(height - uncles[i].header.blob.height)))
    && (forall i, j :: 0 <= i < j < |uncles| ==> uncles[i].header.blob != uncles[j].header.blob)
  }

  lemma {:induction false} DistinctHeaders(uncles: seq<Uncle>)
    ensures Distinct(LeavesOf(uncles)) <==>
            forall i, j :: 0 <= i < j < |uncles| ==> uncles[i].header.blob != uncles[j].header.blob
  {
    var leaves := LeavesOf(uncles);
    assert forall i :: 0 <= i < |uncles| ==> leaves[i] == Leaf(uncles[i].header.blob);
    if Distinct(leaves) {
      forall i, j | 0 <= i < j < |uncles|
        ensures uncles[i].header.blob != uncles[j].header.blob
      {
        assert leaves[i] != leaves[j];
      }
    }
  }

  /** With given proofs, a list passes exactly when it is in order, each uncle has a proof, and
      proof i verifies against the target of uncle i; proofs beyond the last uncle are ignored. */
  lemma {:induction false} CheckExactly(
    pow: Blob -> U32, header: Header, uncles: seq<Uncle>, proofs: seq<UncleProof>, height: nat)
    ensures UnclesOk(pow, header, uncles, proofs, height) <==>
            && ListOk(header, uncles, height) && |proofs| >= |uncles|
            && forall i :: 0 <= i < |uncles| ==>
                 ProofHolds(pow, proofs[i], header.blob.uncleRoot, uncles[i].header.blob.target)
  {
    hide MerkleRoot, LeavesOf, ProofHolds, Distinct, Quotient;
    DistinctHeaders(uncles);
    if ListOk(header, uncles, height) {
      forall i | 0 <= i < |uncles|
        ensures RecentEnough(uncles[i], height) && PinDerived(uncles[i], height)
      {
      }
    }
    if UnclesOk(pow, header, uncles, proofs, height) {
      forall i | 0 <= i < |uncles|
        ensures 1 <= height - uncles[i].header.blob.height <= 6
        ensures uncles[i].pinAccepted ==>
                  uncles[i].pinConfirmed ==
                    Quotient(Emission.SteppedReward(height), Pow2(height - uncles[i].header.blob.height))
      {
        assert RecentEnough(uncles[i], height) && PinDerived(uncles[i], height);
      }
    }
  }

  /** Proof i is never compared with uncle i, so a list can be made to pass exactly when it
      is well formed, has at most 64 uncles, and every target is met by some uncle of the
      list, not necessarily the one it belongs to. */
  lemma {:induction false} AcceptableIff(pow: Blob -> U32, header: Header, uncles: seq<Uncle>, height: nat)
    ensures (exists proofs :: UnclesOk(pow, header, uncles, proofs, height)) <==>
            && ListOk(header, uncles, height)
            && |uncles| <= 64
            && forall i :: 0 <= i < |uncles| ==> SomeWork(pow, uncles, i)
  {
    hide ListOk, UnclesOk, ProofHolds, SomeWork;
    if ListOk(header, uncles, height) && |uncles| <= 64 && forall i :: 0 <= i < |uncles| ==> SomeWork(pow, uncles, i) {
      RootOf(header, uncles, height);
      var proofs := BorrowedProofs(pow, header, uncles, |uncles|);
      CheckExactly(pow, header, uncles, proofs, height);
      assert UnclesOk(pow, header, uncles, proofs, height);
    }
    forall proofs | UnclesOk(pow, header, uncles, proofs, height)
      ensures ListOk(header, uncles, height) && |uncles| <= 64
      ensures forall i :: 0 <= i < |uncles| ==> SomeWork(pow, uncles, i)
    {
      CheckExactly(pow, header, uncles, proofs, height);
      AcceptedWork(pow, header, uncles, proofs, height);
    }
  }

  lemma {:induction false} RootOf(header: Header, uncles: seq<Uncle>, height: nat)
    requires ListOk(header, uncles, height)
    ensures MerkleRoot(LeavesOf(uncles)) == header.blob.uncleRoot
  {
  }

  lemma {:induction false} AcceptedWork(
    pow: Blob -> U32, header: Header, uncles: seq<Uncle>, proofs: seq<UncleProof>, height: nat)
    requires UnclesOk(pow, header, uncles, proofs, height)
    ensures |uncles| <= 64 && forall i :: 0 <= i < |uncles| ==> SomeWork(pow, uncles, i)
  {
    forall i | 0 <= i < |uncles|
      ensures SomeWork(pow, uncles, i)
    {
      assert ProofHolds(pow, proofs[i], header.blob.uncleRoot, uncles[i].header.blob.target);
      ProofSound(pow, uncles, proofs[i], uncles[i].header.blob.target);
      var j :| 0 <= j < |uncles| && uncles[j].header.blob == proofs[i].header.blob;
    }
    if uncles != [] {
      assert ProofHolds(pow, proofs[0], header.blob.uncleRoot, uncles[0].header.blob.target);
      ProofLength(pow, uncles, proofs[0], uncles[0].header.blob.target);
      SixtyFour(|uncles|);
    }
  }

  lemma {:induction false} BorrowedProofs(pow: Blob -> U32, header: Header, uncles: seq<Uncle>, n: nat)
    returns (proofs: seq<UncleProof>)
    requires n <= |uncles| <= 64 && MerkleRoot(LeavesOf(uncles)) == header.blob.uncleRoot
    requires forall i :: 0 <= i < |uncles| ==> SomeWork(pow, uncles, i)
    ensures |proofs| == n
    ensures forall i :: 0 <= i < n ==> ProofHolds(pow, proofs[i], header.blob.uncleRoot, uncles[i].header.blob.target)
  {
    hide MerkleRoot, LeavesOf;
    if n == 0 {
      proofs := [];
    } else {
      var rest := BorrowedProofs(pow, header, uncles, n - 1);
      assert SomeWork(pow, uncles, n - 1);
      var j: nat :| j < |uncles| && pow(uncles[j].header.blob) <= uncles[n - 1].header.blob.target;
      BuiltProofIff(pow, uncles, j, uncles[n - 1].header.blob.target);
      proofs := rest + [BuiltProof(uncles, j)];
    }
  }

  // An accepted list one of whose uncles misses its own target: its proof slot holds the
  // proof of the other uncle.

  function SampleHeader(nonce: U64, target: U32, uncleRoot: Word, height: U64): Header {
    Header(Blob(1, Zero, Zero, 0, target, nonce, height, uncleRoot, Zero, Zero), 0, Zero, 0)
  }

  function SamplePow(b: Blob): U32 {
    b.nonce % 0x1_0000_0000
  }

  const GOOD := Uncle(SampleHeader(0, 3, Zero, 1), false, 0)
  const LAZY := Uncle(SampleHeader(9, 3, Zero, 1), false, 0)
  const REFERRER := SampleHeader(0, 0, Node(HashOf(GOOD.header), HashOf(LAZY.header)), 2)

  lemma {:induction false} BorrowedProofAccepted()
    ensures SamplePow(LAZY.header.blob) > LAZY.header.blob.target
    ensures exists proofs :: UnclesOk(SamplePow, REFERRER, [GOOD, LAZY], proofs, 2)
  {
    var uncles := [GOOD, LAZY];
    assert LeavesOf(uncles) == [HashOf(GOOD.header), HashOf(LAZY.header)];
    assert Root(LeavesOf(uncles)) == Root([REFERRER.blob.uncleRoot]) by {
      assert Up(LeavesOf(uncles)) == [REFERRER.blob.uncleRoot];
    }
    assert ListOk(REFERRER, uncles, 2);
    forall i | 0 <= i < |uncles|
      ensures SomeWork(SamplePow, uncles, i)
    {
      assert SamplePow(uncles[0].header.blob) <= uncles[i].header.blob.target;
    }
    AcceptableIff(SamplePow, REFERRER, uncles, 2);
  }
}

/** What one node does to its chain state, as functions on values. `NodeChain.dfy` holds
    the mutable object proved to compute them; `ChainProofs.dfy` holds the theorems. */
module ChainSpec {
  import opened Options
  import opened Words
  import opened Retarget
  import VmCache

  const CONNECT_TASK := "connect_block"
  const FINALITY_SIGNALED: nat := 4

  // ----- finality -----

  datatype FinalityMode = Native | Always | Signaled

  predicate ShouldEnforce(mode: FinalityMode, flags: U8) {
    match mode
    case Native => false
    case Always => true
    case Signaled => flags / FINALITY_SIGNALED % 2 == 1
  }

  /** An anchored block the mode enforces: nothing may replace it. */
  predicate Final(mode: FinalityMode, existing: Block) {
    && ShouldEnforce(mode, existing.header.finalityFlags)
    && (existing.header.anchorTxId != Zero || existing.header.anchorMoneroHeight != 0)
  }

  // ----- state -----

  /** The proof-of-work value is any function of the mining blob, and the target in force
      after some blocks any function of their timestamps in height order. */
  datatype Rules = Rules(pow: Blob -> U32, mode: FinalityMode, retarget: seq<nat> -> nat)

  /** The rules of the network: its own retargeting walk. */
  function NetworkRules(pow: Blob -> U32, mode: FinalityMode): Rules {
    Rules(pow, mode, Walk)
  }

  datatype State = State(
    blocks: Chain, competing: map<nat, seq<Block>>, seen: set<Word>, vm: VmCache.Cache, blockCount: nat)

  const GENESIS_STATE := State(map[], map[], {}, VmCache.EMPTY, 0)

  datatype Outcome = Canonical | Competing | Rejected | Raised

  // ----- validation -----

  /** The block at `h` names the block at `h - 1` as its parent. */
  predicate Follows(chain: Chain, h: nat) {
    h >= 1 && h in chain && h - 1 in chain && chain[h].header.blob.previous == BlockHash(chain[h - 1])
  }

  datatype Invalid = BadPow | BadHeight | BadPrevious | BadTarget

  predicate MeetsTarget(r: Rules, b: Block) {
    r.pow(b.header.blob) <= b.header.blob.target
  }

  function ValidateBlock(r: Rules, block: Block, chain: Chain): Option<Invalid> {
    var blob := block.header.blob;
    if !MeetsTarget(r, block) then Some(BadPow)
    else if blob.height != |chain| + 1 then Some(BadHeight)
    else if blob.height > 1 && blob.height - 1 in chain && blob.previous != BlockHash(chain[blob.height - 1]) then
      Some(BadPrevious)
    else if blob.target != TargetAt(r.retarget, chain, blob.height) then Some(BadTarget)
    else None
  }

  // ----- connecting a block -----

  predicate HasHash(list: seq<Block>, w: Word) {
    exists i :: 0 <= i < |list| && BlockHash(list[i]) == w
  }

  function Candidates(s: State, h: nat): seq<Block> {
    if h in s.competing then s.competing[h] else []
  }

  function Store(s: State, block: Block): State {
    var h := block.header.blob.height;
    s.(competing := s.competing[h := Candidates(s, h) + [block]], seen := s.seen + {BlockHash(block)})
  }

  function ConnectCompeting(r: Rules, s: State, block: Block): (State, Outcome) {
    var (vm, ok) := VmCache.Probe(s.vm, CONNECT_TASK, block.header.blob.randomxKey);
    var s1 := s.(vm := vm);
    if !ok || !MeetsTarget(r, block) || BlockHash(block) in s.seen then (s1, Rejected)
    else (Store(s1, block), Competing)
  }

  function Hashes(list: seq<Block>): set<Word> {
    set b | b in list :: BlockHash(b)
  }

  function HashesAt(competing: map<nat, seq<Block>>, heights: set<nat>): set<Word> {
    set h, b | h in heights && h in competing && b in competing[h] :: BlockHash(b)
  }

  function StaleHeights(competing: map<nat, seq<Block>>, bound: int): set<nat> {
    set h | h in competing && h < bound
  }

  /** Drop the candidates deeper than an uncle may be, and forget their hashes. */
  function DropStale(s: State, height: nat): State {
    var stale := StaleHeights(s.competing, height - MAX_UNCLE_DEPTH);
    s.(competing := s.competing - stale, seen := s.seen - HashesAt(s.competing, stale))
  }

  function ConnectCanonical(r: Rules, s: State, block: Block, uncles: seq<Block>): (State, Outcome) {
    var h := block.header.blob.height;
    var (vm, ok) := VmCache.Probe(s.vm, CONNECT_TASK, block.header.blob.randomxKey);
    var s1 := s.(vm := vm);
    if !ok || ValidateBlock(r, block, s.blocks).Some? then (s1, Rejected)
    else if (block.header.blob.uncleRoot != Zero) != (|uncles| > 0) then (s1, Raised)
    else if h in s.blocks && Final(r.mode, s.blocks[h]) then (s1, Rejected)
    else (DropStale(s1.(blocks := s.blocks[h := block], blockCount := s.blockCount + 1), h), Canonical)
  }

  /** The one insertion path. A chain with no block at its own height raises. */
  function Connect(r: Rules, s: State, block: Block, uncles: seq<Block>): (State, Outcome) {
    var n := |s.blocks|;
    var blob := block.header.blob;
    if blob.height == n then ConnectCompeting(r, s, block)
    else if n > 0 && n !in s.blocks then (s, Raised)
    else if n > 0 && blob.previous != BlockHash(s.blocks[n]) && HasHash(Candidates(s, n), blob.previous) then
      (if BlockHash(block) in s.seen then s else Store(s, block), Competing)
    else ConnectCanonical(r, s, block, uncles)
  }

  function TakeCompeting(s: State, h: nat): (State, seq<Block>) {
    (s.(competing := s.competing - {h}, seen := s.seen - Hashes(Candidates(s, h))), Candidates(s, h))
  }

  // ----- reorganisation -----

  /** The largest key, 0 for no keys. */
  ghost function Top(keys: set<nat>): (top: nat)
    ensures keys == {} ==> top == 0
    ensures keys != {} ==> top in keys
    ensures forall k :: k in keys ==> k <= top
  {
    if keys == {} then 0
    else
      var k :| k in keys;
      var rest := Top(keys - {k});
      assert keys == (keys - {k}) + {k};
      if k > rest then k else rest
  }

  /** Scan our heights upward from `h` to `last` for the last one the peer shares; a height
      the peer lacks is skipped, a differing one ends the scan. */
  function Ancestor(own: Chain, peer: Chain, h: nat, found: nat, last: nat): nat
    decreases last + 1 - h
  {
    if h > last then found
    else if h !in own || h !in peer then Ancestor(own, peer, h + 1, found, last)
    else if BlockHash(own[h]) == BlockHash(peer[h]) then Ancestor(own, peer, h + 1, h, last)
    else found
  }

  ghost function CommonAncestor(own: Chain, peer: Chain): nat {
    Ancestor(own, peer, 0, 0, Top(own.Keys))
  }

  function UpTo(own: Chain, a: int): Chain {
    map h | h in own && h <= a :: own[h]
  }

  /** Validate the peer blocks of heights h..top on a scratch chain. */
  function Replay(r: Rules, own: Chain, peer: Chain, scratch: Chain, h: nat, top: nat): Option<Chain>
    decreases top + 1 - h
  {
    if h > top then Some(scratch)
    else if h !in peer then Replay(r, own, peer, scratch, h + 1, top)
    else if ValidateBlock(r, peer[h], scratch).Some? then None
    else if h in own && Final(r.mode, own[h]) then None
    else Replay(r, own, peer, scratch[h := peer[h]], h + 1, top)
  }

  function Without(list: seq<Block>, w: Word): seq<Block> {
    if list == [] then []
    else
      var rest := Without(list[..|list| - 1], w);
      var b := list[|list| - 1];
      if BlockHash(b) == w then rest else rest + [b]
  }

  /** Candidates once the peer blocks of heights a+1..top are no longer candidates. */
  function DropPeer(competing: map<nat, seq<Block>>, peer: Chain, a: nat, top: nat): map<nat, seq<Block>> {
    map h | h in competing && (a < h <= top && h in peer ==> Without(competing[h], BlockHash(peer[h])) != []) ::
      if a < h <= top && h in peer then Without(competing[h], BlockHash(peer[h])) else competing[h]
  }

  function DropPeerSeen(competing: map<nat, seq<Block>>, peer: Chain, a: nat, top: nat): set<Word> {
    set h | h in competing && h in peer && a < h <= top :: BlockHash(peer[h])
  }

  function HeightsAbove(own: Chain, a: nat): set<nat> {
    set h | h in own && h > a
  }

  /** Candidates once our own blocks above `a` have joined them. */
  function AddOwn(competing: map<nat, seq<Block>>, own: Chain, a: nat): map<nat, seq<Block>> {
    map h | h in competing.Keys + HeightsAbove(own, a) ::
      if h !in HeightsAbove(own, a) then competing[h]
      else if h in competing then competing[h] + [own[h]] else [own[h]]
  }

  function PeerHeights(peer: Chain, a: nat, top: nat): set<nat> {
    set h | h in peer && a < h <= top
  }

  /** Switch to `chain`: the peer blocks of heights a+1..top stop being candidates and our
      own blocks above `a` become candidates. */
  function Adopt(s: State, chain: Chain, peer: Chain, a: nat, top: nat): State {
    s.(blocks := chain,
       competing := AddOwn(DropPeer(s.competing, peer, a, top), s.blocks, a),
       seen := s.seen - DropPeerSeen(s.competing, peer, a, top))
  }

  /** The chain we would have after adopting the peer's, if it is longer and every block of
      it above the common ancestor is accepted. */
  ghost function Accepted(r: Rules, own: Chain, peer: Chain): Option<Chain> {
    var a := CommonAncestor(own, peer);
    if Top(peer.Keys) <= |own| then None
    else Replay(r, own, peer, UpTo(own, a), a + 1, Top(peer.Keys))
  }

  /** Adopt the peer's chain if it is accepted; the count is the number of blocks connected. */
  ghost function Reorg(r: Rules, s: State, peer: Chain): (State, nat) {
    var a := CommonAncestor(s.blocks, peer);
    match Accepted(r, s.blocks, peer)
    case None => (s, 0)
    case Some(chain) =>
      (Adopt(s, chain, peer, a, Top(peer.Keys)), |PeerHeights(peer, a, Top(peer.Keys))|)
  }

  // ----- uncle chains -----

  function FirstChild(list: seq<Block>, parent: Word): Option<Block> {
    if list == [] then None
    else if list[0].header.blob.previous == parent then Some(list[0])
    else FirstChild(list[1..], parent)
  }

  function Above(competing: map<nat, seq<Block>>, h: nat): set<nat> {
    set k | k in competing && k >= h
  }

  /** Follow parent links upward through the candidates from height `h`. */
  function Climb(competing: map<nat, seq<Block>>, h: nat, parent: Word): seq<Block>
    decreases Above(competing, h)
  {
    if h !in competing then []
    else match FirstChild(competing[h], parent)
      case None => []
      case Some(b) =>
        assert h in Above(competing, h) && h !in Above(competing, h + 1);
        [b] + Climb(competing, h + 1, BlockHash(b))
  }

  /** Put a run of blocks on consecutive heights from `h`. */
  function Stack(base: Chain, h: nat, blocks: seq<Block>): Chain {
    if blocks == [] then base
    else Stack(base, h, blocks[..|blocks| - 1])[h + |blocks| - 1 := blocks[|blocks| - 1]]
  }

  function Below(own: Chain, h: nat): Chain {
    map k | k in own && 1 <= k < h :: own[k]
  }

  /** The chain through one candidate: our blocks below it, its descendants above it. */
  function UncleChain(s: State, h: nat, start: Block): Chain {
    var climb := Climb(s.competing, h + 1, BlockHash(start));
    Stack(Below(s.blocks, h), h, [start] + climb)
  }

  function UncleTop(s: State, h: nat, start: Block): nat {
    h + |Climb(s.competing, h + 1, BlockHash(start))|
  }

  datatype Best = Best(chain: Chain, top: nat)

  function Better(s: State, h: nat, start: Block, best: Best): Best {
    var top := UncleTop(s, h, start);
    if top > |s.blocks| && top > best.top then Best(UncleChain(s, h, start), top) else best
  }

  /** Scan the candidates from position `i` of height `h` upward; strictly longer wins. */
  function BestUncle(s: State, h: nat, i: nat, best: Best): Best
    decreases |s.blocks| + 2 - h, |Candidates(s, h)| - i
  {
    if h > |s.blocks| + 1 then best
    else if i >= |Candidates(s, h)| then BestUncle(s, h + 1, 0, best)
    else BestUncle(s, h, i + 1, Better(s, h, Candidates(s, h)[i], best))
  }

  const NO_BEST := Best(map[], 0)

  ghost function ReorgFromUncles(r: Rules, s: State): (State, nat) {
    var best := BestUncle(s, 0, 0, NO_BEST);
    if best.top > |s.blocks| then Reorg(r, s, best.chain) else (s, 0)
  }

  // ----- runs -----

  datatype Step =
    | ConnectStep(block: Block, uncles: seq<Block>)
    | TakeStep(height: nat)
    | ReorgStep(peer: Chain)
    | UncleStep
    | VmStep(op: VmCache.Op)

  ghost function Apply(r: Rules, s: State, step: Step): State {
    match step
    case ConnectStep(block, uncles) => Connect(r, s, block, uncles).0
    case TakeStep(h) => TakeCompeting(s, h).0
    case ReorgStep(peer) => Reorg(r, s, peer).0
    case UncleStep => ReorgFromUncles(r, s).0
    case VmStep(op) => s.(vm := VmCache.Apply(s.vm, op))
  }

  ghost function Run(r: Rules, s: State, steps: seq<Step>): State {
    if steps == [] then s else Apply(r, Run(r, s, steps[..|steps| - 1]), steps[|steps| - 1])
  }
}

/** The incremental chain: a windowed difficulty accumulator, accumulated work and the
    coinbase split, against the walk from genesis of `ChainProofs`. */
module ChainModel {
  import opened Options
  import opened Words
  import opened Retarget
  import opened ChainSpec
  import opened ChainProofs
  import opened UncleMerkle
  import Emission

  // ----- the accumulator -----

  datatype Consensus = Consensus(target: nat, stamps: seq<nat>, work: nat)

  const FRESH := Consensus(INITIAL_TARGET, [], 0)

  function Demanded(c: Consensus, height: nat): nat {
    if height <= 1 then U32_MAX else c.target
  }

  function BlockWork(target: nat): nat {
    if target == 0 then 0 else U32_MAX / target
  }

  function Recorded(c: Consensus, timestamp: nat): Consensus {
    c.(stamps := (if |c.stamps| >= TIMESTAMP_WINDOW then c.stamps[1..] else c.stamps) + [timestamp])
  }

  function Adjusted(c: Consensus): Consensus {
    c.(target := Adjust(c.stamps, c.target))
  }

  function Worked(c: Consensus, target: nat): Consensus {
    c.(work := c.work + BlockWork(target))
  }

  /** What one block does to the accumulator. */
  function Advance(c: Consensus, blob: Blob): Consensus {
    Worked(Adjusted(Recorded(c, blob.timestamp)), blob.target)
  }

  class PoWConsensus {
    var target: nat
    var timestamps: seq<nat>
    var accumulatedWork: nat

    function View(): Consensus reads this { Consensus(target, timestamps, accumulatedWork) }

    constructor ()
      ensures View() == FRESH
    {
      target, timestamps, accumulatedWork := INITIAL_TARGET, [], 0;
    }

    method RecordBlock(timestamp: nat)
      modifies this`timestamps
      ensures View() == Recorded(old(View()), timestamp)
    {
      if |timestamps| >= TIMESTAMP_WINDOW { timestamps := timestamps[1..]; }
      timestamps := timestamps + [timestamp];
    }

    method AdjustTarget() returns (clamped: nat)
      modifies this`target
      ensures View() == Adjusted(old(View())) && clamped == target
    {
      clamped := ComputeAdjustment(timestamps, target);
      target := clamped;
    }

    method AddWork(t: nat)
      modifies this`accumulatedWork
      ensures View() == Worked(old(View()), t)
    {
      if t != 0 { accumulatedWork := accumulatedWork + U32_MAX / t; }
    }
  }

  // ----- the chain -----

  /** A tracked commitment: the coinbase of a height, or an uncle's pin paid at a height. */
  datatype Note = CoinbaseNote(height: nat) | UncleNote(uncle: Word, pin: int, height: nat)

  datatype View = View(
    consensus: Consensus, height: nat, blocks: Chain, hashes: map<nat, Word>, notes: map<Note, nat>)

  const EMPTY_VIEW := View(FRESH, 0, map[], map[], map[])

  datatype Verdict = Connected | Refused(reason: Invalid) | OverMint | NoTip

  function CheckHeader(pow: Blob -> U32, block: Block, expected: nat, height: nat, previous: Option<Word>)
    : Option<Invalid>
  {
    var blob := block.header.blob;
    if pow(blob) > blob.target then Some(BadPow)
    else if blob.target != expected then Some(BadTarget)
    else if blob.height != height + 1 then Some(BadHeight)
    else if previous.Some? && blob.previous != previous.value then Some(BadPrevious)
    else None
  }

  function TipHash(v: View): Option<Word> {
    if v.height > 0 && v.height in v.blocks then Some(BlockHash(v.blocks[v.height])) else None
  }

  /** The last transaction that pays a positive reward, as reward and declared note value. */
  function Coinbase(txs: seq<Transaction>): (int, Option<int>) {
    if txs == [] then (0, None)
    else if txs[|txs| - 1].reward > 0 then (txs[|txs| - 1].reward, txs[|txs| - 1].effectiveValue)
    else Coinbase(txs[..|txs| - 1])
  }

  function BaseReward(txs: seq<Transaction>): int { Coinbase(txs).0 }

  /** What the spendable coinbase note commits to; an undeclared value means the full base. */
  function NoteValue(txs: seq<Transaction>): int {
    if Coinbase(txs).1.None? then BaseReward(txs) else Coinbase(txs).1.value
  }

  predicate PaysPin(u: Uncle) { u.pinAccepted && u.pinConfirmed > 0 }

  function Pins(uncles: seq<Uncle>): int {
    if uncles == [] then 0
    else Pins(uncles[..|uncles| - 1]) + (if PaysPin(uncles[|uncles| - 1]) then uncles[|uncles| - 1].pinConfirmed else 0)
  }

  function UncleNotes(notes: map<Note, nat>, uncles: seq<Uncle>, h: nat): map<Note, nat> {
    if uncles == [] then notes
    else
      var u := uncles[|uncles| - 1];
      var before := UncleNotes(notes, uncles[..|uncles| - 1], h);
      if PaysPin(u) then before[UncleNote(HashOf(u.header), u.pinConfirmed, h) := h] else before
  }

  function TrackedNotes(notes: map<Note, nat>, block: Block, uncles: seq<Uncle>): map<Note, nat> {
    var h := block.header.blob.height;
    UncleNotes(if BaseReward(block.transactions) > 0 then notes[CoinbaseNote(h) := h] else notes, uncles, h)
  }

  predicate NoOverMint(block: Block, uncles: seq<Uncle>) {
    BaseReward(block.transactions) > 0 ==>
      NoteValue(block.transactions) + Pins(uncles) == BaseReward(block.transactions)
  }

  /** The block, its hash and its notes are written before the mint is checked; the
      accumulator moves only after it. */
  function Written(v: View, block: Block, uncles: seq<Uncle>): View {
    var h := block.header.blob.height;
    v.(blocks := v.blocks[h := block], height := h, hashes := v.hashes[h := BlockHash(block)],
       notes := TrackedNotes(v.notes, block, uncles))
  }

  function ConnectModel(pow: Blob -> U32, v: View, block: Block, uncles: seq<Uncle>): (View, Verdict) {
    var blob := block.header.blob;
    if v.height > 0 && v.height !in v.blocks then (v, NoTip)
    else match CheckHeader(pow, block, Demanded(v.consensus, blob.height), v.height, TipHash(v))
      case Some(e) => (v, Refused(e))
      case None =>
        var w := Written(v, block, uncles);
        if NoOverMint(block, uncles) then (w.(consensus := Advance(v.consensus, blob)), Connected) else (w, OverMint)
  }

  class ChainState {
    const pow: Blob -> U32
    const consensus: PoWConsensus
    var height: nat
    var blocks: Chain
    var blockHashes: map<nat, Word>
    var commitmentSet: map<Note, nat>

    function Now(): View reads this, consensus {
      View(consensus.View(), height, blocks, blockHashes, commitmentSet)
    }

    constructor (pow: Blob -> U32)
      ensures Now() == EMPTY_VIEW && fresh(consensus)
    {
      this.pow := pow;
      consensus := new PoWConsensus();
      height, blocks, blockHashes, commitmentSet := 0, map[], map[], map[];
    }

    /** The coinbase of a block; its note is tracked. */
    method ReadCoinbase(h: nat, txs: seq<Transaction>) returns (base: int, effective: Option<int>)
      modifies this`commitmentSet
      ensures (base, effective) == Coinbase(txs)
      ensures commitmentSet == if base > 0 then old(commitmentSet)[CoinbaseNote(h) := h] else old(commitmentSet)
    {
      base, effective := 0, None;
      for i := 0 to |txs|
        invariant (base, effective) == Coinbase(txs[..i])
        invariant commitmentSet == if base > 0 then old(commitmentSet)[CoinbaseNote(h) := h] else old(commitmentSet)
      {
        assert txs[..i + 1][..i] == txs[..i];
        if txs[i].reward > 0 {
          base, effective := txs[i].reward, txs[i].effectiveValue;
          commitmentSet := commitmentSet[CoinbaseNote(h) := h];
        }
      }
      assert txs[..|txs|] == txs;
    }

    method PayUncles(h: nat, uncles: seq<Uncle>) returns (total: int, pins: seq<int>)
      modifies this`commitmentSet
      ensures total == Pins(uncles) == Sum(pins)
      ensures commitmentSet == UncleNotes(old(commitmentSet), uncles, h)
    {
      total, pins := 0, [];
      for i := 0 to |uncles|
        invariant total == Pins(uncles[..i]) == Sum(pins)
        invariant commitmentSet == UncleNotes(old(commitmentSet), uncles[..i], h)
      {
        var u := uncles[i];
        assert uncles[..i + 1][..i] == uncles[..i];
        if u.pinAccepted && u.pinConfirmed > 0 {
          total := total + u.pinConfirmed;
          assert (pins + [u.pinConfirmed])[..|pins|] == pins;
          pins := pins + [u.pinConfirmed];
          commitmentSet := commitmentSet[UncleNote(HashOf(u.header), u.pinConfirmed, h) := h];
        }
      }
      assert uncles[..|uncles|] == uncles;
    }

    method ConnectBlock(block: Block, uncles: seq<Uncle>) returns (verdict: Verdict)
      modifies this, consensus
      ensures (Now(), verdict) == ConnectModel(pow, old(Now()), block, uncles)
    {
      hide Adjust, CheckHeader, Coinbase, UncleNotes, Pins;
      var blob := block.header.blob;
      var previous: Option<Word> := None;
      if height > 0 {
        if height !in blocks { return NoTip; }
        previous := Some(BlockHash(blocks[height]));
      }
      var expected := if blob.height <= 1 then U32_MAX else consensus.target;
      var refusal := CheckHeader(pow, block, expected, height, previous);
      if refusal.Some? { return Refused(refusal.value); }
      var h := blob.height;
      blocks := blocks[h := block];
      height := h;
      blockHashes := blockHashes[h := BlockHash(block)];
      var base, effective := ReadCoinbase(h, block.transactions);
      var total, pins := PayUncles(h, uncles);
      var split := VerifyUncleSplit(base, base - total, pins);
      assert split;
      var note := if effective.None? then base else effective.value;
      if base > 0 && note + total != base { return OverMint; }
      consensus.RecordBlock(blob.timestamp);
      var _ := consensus.AdjustTarget();
      consensus.AddWork(blob.target);
      return Connected;
    }
  }

  function Sum(xs: seq<int>): int {
    if xs == [] then 0 else Sum(xs[..|xs| - 1]) + xs[|xs| - 1]
  }

  method VerifyUncleSplit(base: int, canonical: int, pins: seq<int>) returns (ok: bool)
    ensures ok <==> canonical + Sum(pins) == base
  {
    var total := 0;
    for i := 0 to |pins|
      invariant total == Sum(pins[..i])
    {
      assert pins[..i + 1][..i] == pins[..i];
      total := total + pins[i];
    }
    assert pins[..|pins|] == pins;
    return canonical + total == base;
  }

  // ----- the accumulator is the walk from genesis -----

  function TotalWork(blocks: Chain, n: nat): nat
    requires forall h :: 1 <= h <= n ==> h in blocks
  {
    if n == 0 then 0 else TotalWork(blocks, n - 1) + BlockWork(blocks[n].header.blob.target)
  }

  /** The accumulator agrees with the chain it was fed, and the chain is valid under the
      network rules. */
  ghost predicate InStep(pow: Blob -> U32, v: View) {
    && v.height == |v.blocks|
    && ValidChain(NetworkRules(pow, Native), v.blocks)
    && v.consensus.stamps == Last(Stamps(v.blocks, v.height), TIMESTAMP_WINDOW)
    && v.consensus.target == Walk(Stamps(v.blocks, v.height))
    && v.consensus.work == TotalWork(v.blocks, v.height)
  }

  /** Both header checks accept the same blocks. */
  lemma {:induction false} ChecksAgree(pow: Blob -> U32, v: View, block: Block)
    requires InStep(pow, v)
    ensures CheckHeader(pow, block, Demanded(v.consensus, block.header.blob.height), v.height, TipHash(v)).None? <==>
            ValidateBlock(NetworkRules(pow, Native), block, v.blocks).None?
  {
    hide Walk, Fits;
  }

  lemma {:induction false} WorkFrame(c: Chain, d: Chain, n: nat)
    requires forall h :: 1 <= h <= n ==> h in c && h in d && c[h] == d[h]
    ensures TotalWork(c, n) == TotalWork(d, n)
  {
    if n > 0 { WorkFrame(c, d, n - 1); }
  }

  lemma {:induction false} WindowGrows(s: seq<nat>, t: nat)
    ensures var w := Last(s, TIMESTAMP_WINDOW);
            Last(s + [t], TIMESTAMP_WINDOW) == (if |w| >= TIMESTAMP_WINDOW then w[1..] else w) + [t]
  {
  }

  lemma {:induction false} AdvanceInStep(c: Consensus, blocks: Chain, n: nat, block: Block)
    requires forall h :: 1 <= h <= n ==> h in blocks
    requires c.stamps == Last(Stamps(blocks, n), TIMESTAMP_WINDOW) && c.target == Walk(Stamps(blocks, n))
    requires c.work == TotalWork(blocks, n)
    ensures var d := blocks[n + 1 := block];
            var e := Advance(c, block.header.blob);
            && e.stamps == Last(Stamps(d, n + 1), TIMESTAMP_WINDOW)
            && e.target == Walk(Stamps(d, n + 1))
            && e.work == TotalWork(d, n + 1)
  {
    hide Adjust;
    var d := blocks[n + 1 := block];
    var s, t := Stamps(blocks, n), block.header.blob.timestamp;
    StampsAgree(blocks, d, n);
    StampsDense(d, n);
    assert Stamps(d, n + 1) == s + [t];
    assert (s + [t])[..|s|] == s;
    WindowGrows(s, t);
    WorkFrame(blocks, d, n);
  }

  /** A connected block keeps the accumulator in step. */
  lemma {:induction false} ConnectInStep(pow: Blob -> U32, v: View, block: Block, uncles: seq<Uncle>)
    requires InStep(pow, v) && ConnectModel(pow, v, block, uncles).1 == Connected
    ensures InStep(pow, ConnectModel(pow, v, block, uncles).0)
    ensures ConnectModel(pow, v, block, uncles).0.height == v.height + 1
  {
    hide Walk, Fits, TotalWork, Advance, NoOverMint, TrackedNotes, ValidateBlock;
    ChecksAgree(pow, v, block);
    ExtendValid(NetworkRules(pow, Native), v.blocks, block);
    AdvanceInStep(v.consensus, v.blocks, v.height, block);
  }

  // ----- runs of successful connects -----

  datatype Delivery = Delivery(block: Block, uncles: seq<Uncle>)

  function RunModel(pow: Blob -> U32, run: seq<Delivery>): View {
    if run == [] then EMPTY_VIEW
    else ConnectModel(pow, RunModel(pow, run[..|run| - 1]), run[|run| - 1].block, run[|run| - 1].uncles).0
  }

  predicate AllConnect(pow: Blob -> U32, run: seq<Delivery>) {
    run == [] ||
    (AllConnect(pow, run[..|run| - 1]) &&
     ConnectModel(pow, RunModel(pow, run[..|run| - 1]), run[|run| - 1].block, run[|run| - 1].uncles).1 == Connected)
  }

  /** Over every run of successful connects the fast accumulator refines the walk. */
  lemma {:induction false} RunInStep(pow: Blob -> U32, run: seq<Delivery>)
    requires AllConnect(pow, run)
    ensures InStep(pow, RunModel(pow, run)) && RunModel(pow, run).height == |run|
  {
    hide InStep, ConnectModel;
    if run == [] {
      EmptyInStep(pow);
    } else {
      var last := run[|run| - 1];
      RunInStep(pow, run[..|run| - 1]);
      ConnectInStep(pow, RunModel(pow, run[..|run| - 1]), last.block, last.uncles);
    }
  }

  /** What every delivery keeps, over-minting ones included: no gaps, a legal live target, and
      never more work than the chain holds. */
  ghost predicate Tracks(v: View) {
    && v.height == |v.blocks| && Dense(v.blocks)
    && MIN_TARGET <= v.consensus.target <= MAX_TARGET
    && v.consensus.work <= TotalWork(v.blocks, v.height)
  }

  /** Work of the chain the accumulator has not counted. */
  ghost function Lag(v: View): nat
    requires Tracks(v)
  {
    TotalWork(v.blocks, v.height) - v.consensus.work
  }

  lemma {:induction false} WriteWork(blocks: Chain, block: Block)
    requires Dense(blocks)
    ensures var d := blocks[|blocks| + 1 := block];
            && Dense(d) && |d| == |blocks| + 1
            && TotalWork(d, |d|) == TotalWork(blocks, |blocks|) + BlockWork(block.header.blob.target)
  {
    var n := |blocks|;
    var d := blocks[n + 1 := block];
    SizeOf(d, n + 1);
    WorkFrame(blocks, d, n);
  }

  lemma {:induction false} WorkPositive(target: nat)
    requires MIN_TARGET <= target <= U32_MAX
    ensures BlockWork(target) >= 1
  {
    DivAtLeast(U32_MAX, target, 1);
  }

  /** A delivery adds to the lag exactly the work of a block that over-mints, which is positive. */
  lemma {:induction false} DeliveryLag(pow: Blob -> U32, v: View, block: Block, uncles: seq<Uncle>)
    requires Tracks(v)
    ensures var (w, verdict) := ConnectModel(pow, v, block, uncles);
            && Tracks(w)
            && Lag(w) == Lag(v) + (if verdict == OverMint then BlockWork(block.header.blob.target) else 0)
            && (verdict == OverMint ==> BlockWork(block.header.blob.target) >= 1)
  {
    hide TotalWork, BlockWork, Adjust, NoOverMint, TrackedNotes, Dense;
    var (w, verdict) := ConnectModel(pow, v, block, uncles);
    if verdict == Connected || verdict == OverMint {
      WriteWork(v.blocks, block);
      AdjustRange(Recorded(v.consensus, block.header.blob.timestamp).stamps, v.consensus.target);
      WorkPositive(block.header.blob.target);
    }
  }

  function VerdictOf(pow: Blob -> U32, run: seq<Delivery>): Verdict
    requires run != []
  {
    ConnectModel(pow, RunModel(pow, run[..|run| - 1]), run[|run| - 1].block, run[|run| - 1].uncles).1
  }

  /** No delivery of the run over-mints; any may be refused. */
  predicate NeverOverMints(pow: Blob -> U32, run: seq<Delivery>) {
    run == [] || (NeverOverMints(pow, run[..|run| - 1]) && VerdictOf(pow, run) != OverMint)
  }

  lemma {:induction false} RunLag(pow: Blob -> U32, run: seq<Delivery>)
    ensures var v := RunModel(pow, run); Tracks(v) && (Lag(v) == 0 <==> NeverOverMints(pow, run))
  {
    hide ConnectModel, Tracks, Lag;
    if run == [] {
      EmptyLag();
    } else {
      var last := run[|run| - 1];
      RunLag(pow, run[..|run| - 1]);
      DeliveryLag(pow, RunModel(pow, run[..|run| - 1]), last.block, last.uncles);
    }
  }

  lemma {:induction false} EmptyLag()
    ensures Tracks(EMPTY_VIEW) && Lag(EMPTY_VIEW) == 0
  {
  }

  /** Over every run, whatever its verdicts: the accumulator is in step with the walk from
      genesis exactly when no delivery over-minted, and otherwise it has counted strictly less
      work than the chain holds. */
  lemma {:induction false} RunInStepExactly(pow: Blob -> U32, run: seq<Delivery>)
    ensures var v := RunModel(pow, run);
            && Tracks(v)
            && (InStep(pow, v) <==> NeverOverMints(pow, run))
            && (!NeverOverMints(pow, run) ==> v.consensus.work < TotalWork(v.blocks, v.height))
  {
    hide RunModel, Dense, ValidChain, Walk, TotalWork;
    RunLag(pow, run);
    if NeverOverMints(pow, run) { CleanInStep(pow, run); }
  }

  const GREEDY := Block(BARE.header, [Transaction(5, Some(6))])

  /** A refused mint leaves the block on the chain and the accumulator where it was. */
  lemma {:induction false} OverMintStays()
    ensures var pow, run := (b: Blob) => 0, [Delivery(GREEDY, [])];
            !NeverOverMints(pow, run) && RunModel(pow, run).height == 1 && RunModel(pow, run).consensus == FRESH
  {
    var pow, run := (b: Blob) => 0, [Delivery(GREEDY, [])];
    assert run[..0] == [] && GREEDY.transactions[..0] == [];
    assert Coinbase(GREEDY.transactions) == (5, Some(6)) && Pins([]) == 0;
    assert RunModel(pow, run[..0]) == EMPTY_VIEW;
  }

  lemma {:induction false} CleanInStep(pow: Blob -> U32, run: seq<Delivery>)
    requires NeverOverMints(pow, run)
    ensures InStep(pow, RunModel(pow, run))
  {
    hide InStep, Written, NoOverMint, Advance, CheckHeader;
    if run == [] {
      EmptyInStep(pow);
    } else {
      var before, last := RunModel(pow, run[..|run| - 1]), run[|run| - 1];
      CleanInStep(pow, run[..|run| - 1]);
      if VerdictOf(pow, run) == Connected { ConnectInStep(pow, before, last.block, last.uncles); }
    }
  }

  /** After every run of successful connects the live target is the one the walk from genesis
      demands next, and exactly the blocks that full validation accepts pass the header check. */
  lemma {:induction false} RunChecksAgree(pow: Blob -> U32, run: seq<Delivery>, block: Block)
    requires AllConnect(pow, run)
    ensures var v := RunModel(pow, run);
            && Demanded(v.consensus, |run| + 1) == TargetAt(Walk, v.blocks, |run| + 1)
            && var expected := Demanded(v.consensus, block.header.blob.height);
               (CheckHeader(pow, block, expected, v.height, TipHash(v)).None? <==>
                ValidateBlock(NetworkRules(pow, Native), block, v.blocks).None?)
  {
    hide Walk, RunModel, AllConnect, CheckHeader, ValidateBlock, Fits, TotalWork;
    RunInStep(pow, run);
    ChecksAgree(pow, RunModel(pow, run), block);
  }

  lemma {:induction false} EmptyInStep(pow: Blob -> U32)
    ensures InStep(pow, EMPTY_VIEW)
  {
  }

  // ----- coinbase conservation -----

  function Bases(run: seq<Delivery>): int {
    if run == [] then 0 else Bases(run[..|run| - 1]) + BaseReward(run[|run| - 1].block.transactions)
  }

  function NotesPaid(run: seq<Delivery>): int {
    if run == [] then 0 else NotesPaid(run[..|run| - 1]) + NoteValue(run[|run| - 1].block.transactions)
  }

  function PinsPaid(run: seq<Delivery>): int {
    if run == [] then 0 else PinsPaid(run[..|run| - 1]) + Pins(run[|run| - 1].uncles)
  }

  /** A block without a rewarding transaction that still pays a pin. */
  predicate Unfunded(d: Delivery) {
    BaseReward(d.block.transactions) <= 0 && Pins(d.uncles) > 0
  }

  lemma {:induction false} CoinbaseShape(txs: seq<Transaction>)
    ensures BaseReward(txs) >= 0
    ensures BaseReward(txs) == 0 ==> NoteValue(txs) == 0
  {
    if txs != [] { CoinbaseShape(txs[..|txs| - 1]); }
  }

  lemma {:induction false} PinsNonNegative(uncles: seq<Uncle>)
    ensures Pins(uncles) >= 0
  {
    if uncles != [] { PinsNonNegative(uncles[..|uncles| - 1]); }
  }

  /** Over every run of successful connects, notes plus pins cover the base rewards, and
      match them exactly when no block pays a pin without a coinbase. */
  lemma {:induction false} MintConserved(pow: Blob -> U32, run: seq<Delivery>)
    requires AllConnect(pow, run)
    ensures NotesPaid(run) + PinsPaid(run) >= Bases(run)
    ensures NotesPaid(run) + PinsPaid(run) == Bases(run) <==> forall i :: 0 <= i < |run| ==> !Unfunded(run[i])
  {
    hide CheckHeader, Coinbase, Pins, Advance, TrackedNotes, NoteValue, BaseReward, RunModel;
    if run != [] {
      var before, last := run[..|run| - 1], run[|run| - 1];
      MintConserved(pow, before);
      CoinbaseShape(last.block.transactions);
      PinsNonNegative(last.uncles);
      assert forall i :: 0 <= i < |before| ==> before[i] == run[i];
    }
  }

  const PINNED := Uncle(Header(Blob(1, Zero, Zero, 0, 0, 0, 0, Zero, Zero, Zero), 0, Zero, 0), true, 5)
  const BARE: Block := Block(Header(Blob(1, Zero, Zero, 0, U32_MAX, 0, 1, Zero, Zero, Zero), 0, Zero, 0), [])

  /** A first block without a coinbase connects although it pays a pin of 5. */
  lemma {:induction false} UnfundedConnects()
    ensures var run := [Delivery(BARE, [PINNED])];
            AllConnect((b: Blob) => 0, run) && Bases(run) == 0 && NotesPaid(run) + PinsPaid(run) == 5
  {
    var run := [Delivery(BARE, [PINNED])];
    assert run[..0] == [] && [PINNED][..0] == [];
    assert Pins([PINNED]) == 5;
    assert RunModel((b: Blob) => 0, run[..0]) == EMPTY_VIEW;
  }

  // ----- the uncle split -----

  function CreateUncle(header: Header, depth: nat, base: nat): Uncle {
    Uncle(header, false, PinAt(base, if depth < MAX_UNCLE_DEPTH then depth else MAX_UNCLE_DEPTH))
  }

  function Rewards(uncles: seq<Uncle>): seq<int> {
    seq(|uncles|, i requires 0 <= i < |uncles| => if uncles[i].pinAccepted then uncles[i].pinConfirmed else 0)
  }

  /** Accepted pins come out of the base reward, nothing else does. */
  method ComputeReward(base: int, uncles: seq<Uncle>) returns (canonical: int, rewards: seq<int>)
    ensures rewards == Rewards(uncles)
    ensures |rewards| == |uncles| && forall i :: 0 <= i < |uncles| ==>
              rewards[i] == if uncles[i].pinAccepted then uncles[i].pinConfirmed else 0
    ensures canonical + Sum(rewards) == base
  {
    rewards := [];
    var total := 0;
    for i := 0 to |uncles|
      invariant rewards == Rewards(uncles[..i])
      invariant total == Sum(rewards)
    {
      var reward := if uncles[i].pinAccepted then uncles[i].pinConfirmed else 0;
      assert Rewards(uncles[..i + 1]) == Rewards(uncles[..i]) + [reward];
      assert (rewards + [reward])[..|rewards|] == rewards;
      rewards := rewards + [reward];
      total := total + reward;
    }
    assert uncles[..|uncles|] == uncles;
    canonical := base - total;
  }

  function PinAt(base: nat, depth: nat): nat { Quotient(base, Pow2(depth)) }

  function PinsAt(base: nat, depths: seq<nat>): nat {
    if depths == [] then 0 else PinsAt(base, depths[..|depths| - 1]) + PinAt(base, depths[|depths| - 1])
  }

  predicate DistinctDepths(depths: seq<nat>, k: nat) {
    && (forall i :: 0 <= i < |depths| ==> 1 <= depths[i] <= k)
    && (forall i, j :: 0 <= i < j < |depths| ==> depths[i] != depths[j])
  }

  lemma {:induction false} PinsAtConcat(base: nat, a: seq<nat>, b: seq<nat>)
    ensures PinsAt(base, a + b) == PinsAt(base, a) + PinsAt(base, b)
  {
    if b == [] {
      assert a + b == a;
    } else {
      PinsAtConcat(base, a, b[..|b| - 1]);
      assert (a + b)[..|a + b| - 1] == a + b[..|b| - 1];
    }
  }

  lemma {:induction false} HalvedTwice(base: nat, k: nat)
    requires k >= 1
    ensures 2 * PinAt(base, k) <= PinAt(base, k - 1)
  {
    var p, q := Pow2(k - 1), PinAt(base, k);
    assert Pow2(k) == 2 * p;
    assert (2 * q) * p <= base;
    DivAtLeast(base, p, 2 * q);
  }

  lemma {:induction false} DivAtLeast(x: nat, d: nat, q: nat)
    requires d > 0 && q * d <= x
    ensures q <= x / d
  {
    var r := x / d;
    if r + 1 <= q { MulMonotone(d, r + 1, q); }
  }

  lemma {:induction false} WithoutDepth(depths: seq<nat>, i: nat, k: nat)
    requires k >= 1 && i < |depths| && depths[i] == k && DistinctDepths(depths, k)
    ensures DistinctDepths(depths[..i] + depths[i + 1..], k - 1)
  {
    var rest := depths[..i] + depths[i + 1..];
    assert forall j :: 0 <= j < |rest| ==> rest[j] == depths[if j < i then j else j + 1];
  }

  lemma {:induction false} PinsAtRemove(base: nat, depths: seq<nat>, i: nat)
    requires i < |depths|
    ensures PinsAt(base, depths) == PinsAt(base, depths[..i] + depths[i + 1..]) + PinAt(base, depths[i])
  {
    var a, d, b := depths[..i], [depths[i]], depths[i + 1..];
    assert depths == (a + d) + b;
    PinsAtConcat(base, a + d, b);
    PinsAtConcat(base, a, d);
    PinsAtConcat(base, a, b);
    assert d[..0] == [];
  }

  lemma {:induction false} DropDepth(base: nat, depths: seq<nat>, k: nat) returns (rest: seq<nat>)
    requires k >= 1 && k in depths && DistinctDepths(depths, k)
    ensures DistinctDepths(rest, k - 1) && PinsAt(base, depths) == PinsAt(base, rest) + PinAt(base, k)
  {
    hide PinAt, PinsAt;
    var i :| 0 <= i < |depths| && depths[i] == k;
    rest := depths[..i] + depths[i + 1..];
    WithoutDepth(depths, i, k);
    PinsAtRemove(base, depths, i);
  }

  /** Pins at distinct depths 1..k leave at least the base halved k times. */
  lemma {:induction false} DistinctDepthShare(base: nat, depths: seq<nat>, k: nat)
    requires DistinctDepths(depths, k)
    ensures PinsAt(base, depths) + PinAt(base, k) <= base
    decreases k
  {
    if k == 0 {
      assert depths == [];
    } else {
      hide PinAt, PinsAt;
      HalvedTwice(base, k);
      var rest := depths;
      if k in depths { rest := DropDepth(base, depths, k); }
      DistinctDepthShare(base, rest, k - 1);
    }
  }

  /** Each accepted uncle carries the pin of one created at its depth; rejected ones carry
      anything. */
  predicate PinnedAt(uncles: seq<Uncle>, base: nat, depths: seq<nat>) {
    |uncles| == |depths| && forall i :: 0 <= i < |uncles| && uncles[i].pinAccepted ==>
      uncles[i].pinConfirmed == CreateUncle(uncles[i].header, depths[i], base).pinConfirmed
  }

  /** The depths of the accepted uncles, in order. */
  function AcceptedDepths(uncles: seq<Uncle>, depths: seq<nat>): seq<nat>
    requires |uncles| == |depths|
  {
    if uncles == [] then []
    else
      var n := |uncles| - 1;
      AcceptedDepths(uncles[..n], depths[..n]) + (if uncles[n].pinAccepted then [depths[n]] else [])
  }

  lemma {:induction false} RewardsNext(uncles: seq<Uncle>, n: nat)
    requires n + 1 == |uncles|
    ensures Sum(Rewards(uncles)) ==
            Sum(Rewards(uncles[..n])) + if uncles[n].pinAccepted then uncles[n].pinConfirmed else 0
  {
    assert Rewards(uncles)[..n] == Rewards(uncles[..n]);
  }

  lemma {:induction false} PinsAtNext(base: nat, depths: seq<nat>, d: nat)
    ensures PinsAt(base, depths + [d]) == PinsAt(base, depths) + PinAt(base, d)
  {
    hide PinAt;
    assert (depths + [d])[..|depths|] == depths;
  }

  /** One more uncle adds the same to the accepted pins and to the pins at accepted depths. */
  lemma {:induction false} AcceptedNext(uncles: seq<Uncle>, base: nat, depths: seq<nat>, n: nat)
    requires PinnedAt(uncles, base, depths) && n + 1 == |uncles|
    requires forall d :: d in AcceptedDepths(uncles, depths) ==> d <= 6
    ensures forall d :: d in AcceptedDepths(uncles[..n], depths[..n]) ==> d <= 6
    ensures PinsAt(base, AcceptedDepths(uncles, depths)) ==
            PinsAt(base, AcceptedDepths(uncles[..n], depths[..n]))
            + if uncles[n].pinAccepted then uncles[n].pinConfirmed else 0
    ensures uncles[n].pinAccepted ==> uncles[n].pinConfirmed >= 0
  {
    hide PinAt, PinsAt;
    var before, all := AcceptedDepths(uncles[..n], depths[..n]), AcceptedDepths(uncles, depths);
    assert forall d :: d in before ==> d in all;
    if uncles[n].pinAccepted {
      assert all == before + [depths[n]] && depths[n] in all;
      PinsAtNext(base, before, depths[n]);
    } else {
      assert all == before;
    }
  }

  lemma {:induction false} AcceptedPins(uncles: seq<Uncle>, base: nat, depths: seq<nat>)
    requires PinnedAt(uncles, base, depths)
    requires forall d :: d in AcceptedDepths(uncles, depths) ==> d <= 6
    ensures Sum(Rewards(uncles)) == Pins(uncles) == PinsAt(base, AcceptedDepths(uncles, depths))
  {
    if uncles != [] {
      var n := |uncles| - 1;
      AcceptedNext(uncles, base, depths, n);
      RewardsNext(uncles, n);
      hide Sum, Rewards, PinsAt, AcceptedDepths;
      AcceptedPins(uncles[..n], base, depths[..n]);
    }
  }

  /** When the accepted uncles of a list are at distinct depths in 1..6, whatever the rejected
      ones carry, the canonical share is at least 1/64 of the base. */
  lemma {:induction false} CanonicalShare(uncles: seq<Uncle>, base: nat, depths: seq<nat>)
    requires PinnedAt(uncles, base, depths) && DistinctDepths(AcceptedDepths(uncles, depths), 6)
    ensures base - Pins(uncles) == base - Sum(Rewards(uncles)) >= base / 64
  {
    var accepted := AcceptedDepths(uncles, depths);
    AcceptedPins(uncles, base, depths);
    DistinctDepthShare(base, accepted, 6);
    assert Pow2(6) == 64 by { assert Pow2(3) == 8; assert Pow2(5) == 4 * Pow2(3); }
  }

  /** In a connected block with such uncles the spendable coinbase note itself is worth at
      least 1/64 of the base. */
  lemma {:induction false} ConnectedShare(pow: Blob -> U32, v: View, block: Block, uncles: seq<Uncle>, depths: seq<nat>)
    requires ConnectModel(pow, v, block, uncles).1 == Connected && BaseReward(block.transactions) > 0
    requires PinnedAt(uncles, BaseReward(block.transactions), depths)
    requires DistinctDepths(AcceptedDepths(uncles, depths), 6)
    ensures NoteValue(block.transactions) == BaseReward(block.transactions) - Pins(uncles)
    ensures NoteValue(block.transactions) >= BaseReward(block.transactions) / 64
  {
    hide CheckHeader, Coinbase, Pins, Advance, TrackedNotes, PinnedAt, DistinctDepths, AcceptedDepths;
    CanonicalShare(uncles, BaseReward(block.transactions), depths);
  }

  // ----- uncles that passed the check -----

  /** Accepted uncles come from different heights. */
  predicate DistinctHeights(uncles: seq<Uncle>) {
    forall i, j :: 0 <= i < j < |uncles| && uncles[i].pinAccepted && uncles[j].pinAccepted ==>
      uncles[i].header.blob.height != uncles[j].header.blob.height
  }

  function DepthOf(u: Uncle, height: nat): nat
    requires RecentEnough(u, height)
  {
    height - u.header.blob.height
  }

  function DepthsAt(uncles: seq<Uncle>, height: nat): seq<nat>
    requires forall i :: 0 <= i < |uncles| ==> RecentEnough(uncles[i], height)
  {
    seq(|uncles|, i requires 0 <= i < |uncles| => DepthOf(uncles[i], height))
  }

  lemma {:induction false} AcceptedFrom(uncles: seq<Uncle>, depths: seq<nat>, d: nat)
    requires |uncles| == |depths| && d in AcceptedDepths(uncles, depths)
    ensures exists i :: 0 <= i < |uncles| && uncles[i].pinAccepted && depths[i] == d
  {
    var n := |uncles| - 1;
    if d in AcceptedDepths(uncles[..n], depths[..n]) {
      AcceptedFrom(uncles[..n], depths[..n], d);
      var i :| 0 <= i < n && uncles[..n][i].pinAccepted && depths[..n][i] == d;
      assert uncles[i].pinAccepted && depths[i] == d;
    } else {
      assert uncles[n].pinAccepted && depths[n] == d;
    }
  }

  lemma {:induction false} HeightsGiveDepths(uncles: seq<Uncle>, height: nat)
    requires DistinctHeights(uncles) && forall i :: 0 <= i < |uncles| ==> RecentEnough(uncles[i], height)
    ensures DistinctDepths(AcceptedDepths(uncles, DepthsAt(uncles, height)), 6)
  {
    if uncles != [] {
      var n := |uncles| - 1;
      var depths := DepthsAt(uncles, height);
      HeightsGiveDepths(uncles[..n], height);
      assert DepthsAt(uncles[..n], height) == depths[..n];
      var before := AcceptedDepths(uncles[..n], depths[..n]);
      forall j | 0 <= j < |before| && uncles[n].pinAccepted
        ensures before[j] != depths[n]
      {
        AcceptedFrom(uncles[..n], depths[..n], before[j]);
      }
    }
  }

  /** A connected block whose base is the scheduled reward and whose uncles pass the uncle
      check, at most one accepted per height, leaves its miner at least 1/64 of the reward. */
  lemma {:induction false} CheckedShare(
    pow: Blob -> U32, v: View, block: Block, uncles: seq<Uncle>, proofs: seq<UncleProof>)
    requires ConnectModel(pow, v, block, uncles).1 == Connected
    requires UnclesOk(pow, block.header, uncles, proofs, block.header.blob.height) && DistinctHeights(uncles)
    requires BaseReward(block.transactions) == Emission.SteppedReward(block.header.blob.height) > 0
    ensures NoteValue(block.transactions) >= Emission.SteppedReward(block.header.blob.height) / 64
  {
    hide ConnectModel, MerkleRoot, ProofHolds, Coinbase, Emission.SteppedReward;
    var height := block.header.blob.height;
    var depths := DepthsAt(uncles, height);
    HeightsGiveDepths(uncles, height);
    forall i | 0 <= i < |uncles| && uncles[i].pinAccepted
      ensures uncles[i].pinConfirmed == PinAt(BaseReward(block.transactions), depths[i])
    {
      assert RecentEnough(uncles[i], height) && PinDerived(uncles[i], height);
    }
    ConnectedShare(pow, v, block, uncles, depths);
  }
}

/** The incremental chain, delivery by delivery and from any state: each verdict and its cause
    in terms of the block's fields, the notes and hashes it leaves, and the arithmetic of work
    and pins. */
module ChainModelLaws {
  import opened Words
  import opened ChainSpec
  import opened UncleMerkle
  import opened ChainModel

  // ----- the coinbase and the pins -----

  /** Transaction `i` is the last that pays a positive reward. */
  predicate IsCoinbase(txs: seq<Transaction>, i: nat) {
    i < |txs| && txs[i].reward > 0 && forall j :: i < j < |txs| ==> txs[j].reward <= 0
  }

  /** The value a transaction's note commits to: the declared one, or its reward. */
  function Committed(tx: Transaction): int {
    match tx.effectiveValue
    case Some(value) => value
    case None => tx.reward
  }

  /** Base reward and note come from the last rewarding transaction; without one both are 0. */
  lemma {:induction false} CoinbaseExactly(txs: seq<Transaction>)
    ensures || ((forall j :: 0 <= j < |txs| ==> txs[j].reward <= 0) && BaseReward(txs) == 0 == NoteValue(txs))
            || (exists i: nat ::
                  IsCoinbase(txs, i) && BaseReward(txs) == txs[i].reward && NoteValue(txs) == Committed(txs[i]))
  {
    if txs != [] {
      var n := |txs| - 1;
      var before := txs[..n];
      if txs[n].reward > 0 {
        assert IsCoinbase(txs, n);
      } else {
        CoinbaseExactly(before);
        if i: nat :|
          IsCoinbase(before, i) && BaseReward(before) == before[i].reward && NoteValue(before) == Committed(before[i])
        {
          assert IsCoinbase(txs, i);
        }
      }
    }
  }

  lemma {:induction false} CoinbaseUnique(txs: seq<Transaction>, i: nat)
    requires IsCoinbase(txs, i)
    ensures BaseReward(txs) == txs[i].reward && NoteValue(txs) == Committed(txs[i])
  {
    CoinbaseExactly(txs);
    hide BaseReward, NoteValue;
    var k: nat :| IsCoinbase(txs, k) && BaseReward(txs) == txs[k].reward && NoteValue(txs) == Committed(txs[k]);
    assert k == i;
  }

  /** The pins paid, summed from the front. */
  function PaidFrom(uncles: seq<Uncle>): int {
    if uncles == [] then 0
    else
      (if uncles[0].pinAccepted && uncles[0].pinConfirmed > 0 then uncles[0].pinConfirmed else 0)
      + PaidFrom(uncles[1..])
  }

  lemma {:induction false} PinsExactly(uncles: seq<Uncle>)
    ensures Pins(uncles) == PaidFrom(uncles)
  {
    if uncles != [] {
      var n := |uncles| - 1;
      PinsExactly(uncles[..n]);
      PaidNext(uncles[..n], uncles[n]);
      assert uncles[..n] + [uncles[n]] == uncles;
    }
  }

  lemma {:induction false} PaidNext(uncles: seq<Uncle>, u: Uncle)
    ensures PaidFrom(uncles + [u]) ==
            PaidFrom(uncles) + if u.pinAccepted && u.pinConfirmed > 0 then u.pinConfirmed else 0
  {
    if uncles == [] {
      assert uncles + [u] == [u] && [u][1..] == [];
    } else {
      PaidNext(uncles[1..], u);
      assert (uncles + [u])[1..] == uncles[1..] + [u];
    }
  }

  // ----- verdicts -----

  /** The header checks, in order: work, target, height, parent. */
  lemma {:induction false} RefusalExactly(pow: Blob -> U32, v: View, block: Block, uncles: seq<Uncle>)
    requires v.height >= 1 ==> v.height in v.blocks
    ensures var blob := block.header.blob;
            var worked := pow(blob) <= blob.target;
            var aimed := blob.target == if blob.height <= 1 then 0xFFFF_FFFF else v.consensus.target;
            var next := blob.height == v.height + 1;
            var linked := v.height >= 1 ==> blob.previous == Leaf(v.blocks[v.height].header.blob);
            var verdict := ConnectModel(pow, v, block, uncles).1;
            && (verdict == Refused(BadPow) <==> !worked)
            && (verdict == Refused(BadTarget) <==> worked && !aimed)
            && (verdict == Refused(BadHeight) <==> worked && aimed && !next)
            && (verdict == Refused(BadPrevious) <==> worked && aimed && next && !linked)
            && (verdict == Connected || verdict == OverMint <==> worked && aimed && next && linked)
  {
    hide Written, NoOverMint, Advance;
  }

  /** A chain without a block at its height raises before any check; a refused block changes
      nothing. */
  lemma {:induction false} RefusedUnchanged(pow: Blob -> U32, v: View, block: Block, uncles: seq<Uncle>)
    ensures var (w, verdict) := ConnectModel(pow, v, block, uncles);
            && (verdict == NoTip <==> v.height >= 1 && v.height !in v.blocks)
            && (verdict == NoTip || verdict.Refused? ==> w == v)
  {
    hide Written, NoOverMint, Advance, CheckHeader;
  }

  /** A block that passes the header checks over-mints exactly when it has a coinbase whose note
      and the pins paid do not add up to its reward. */
  lemma {:induction false} MintExactly(pow: Blob -> U32, v: View, block: Block, uncles: seq<Uncle>)
    requires ConnectModel(pow, v, block, uncles).1 in {Connected, OverMint}
    ensures var txs := block.transactions;
            ConnectModel(pow, v, block, uncles).1 == OverMint <==>
            exists i: nat :: IsCoinbase(txs, i) && Committed(txs[i]) + PaidFrom(uncles) != txs[i].reward
  {
    hide Written, Advance, CheckHeader, BaseReward, NoteValue;
    var txs := block.transactions;
    PinsExactly(uncles);
    CoinbaseExactly(txs);
    if i: nat :| IsCoinbase(txs, i) { CoinbaseUnique(txs, i); }
  }

  // ----- what a written block leaves -----

  /** The notes one block adds: its coinbase, if any transaction pays, and every paid pin. */
  ghost predicate AddsNote(block: Block, uncles: seq<Uncle>, note: Note) {
    var h := block.header.blob.height;
    || (note == CoinbaseNote(h) && exists i: nat :: IsCoinbase(block.transactions, i))
    || (exists u :: u in uncles && u.pinAccepted && u.pinConfirmed > 0
                    && note == UncleNote(Leaf(u.header.blob), u.pinConfirmed, h))
  }

  lemma {:induction false} UncleNotesExactly(notes: map<Note, nat>, uncles: seq<Uncle>, h: nat, note: Note)
    ensures var adds := exists u :: u in uncles && u.pinAccepted && u.pinConfirmed > 0
                                    && note == UncleNote(Leaf(u.header.blob), u.pinConfirmed, h);
            && (note in UncleNotes(notes, uncles, h) <==> note in notes || adds)
            && (note in UncleNotes(notes, uncles, h) ==>
                  UncleNotes(notes, uncles, h)[note] == if adds then h else notes[note])
  {
    if uncles != [] {
      var n := |uncles| - 1;
      UncleNotesExactly(notes, uncles[..n], h, note);
      assert forall u :: u in uncles <==> u in uncles[..n] || u == uncles[n];
    }
  }

  /** A written block is filed with its hash under its height, and exactly its notes are added,
      each under that height; only a connected one moves the accumulator. */
  lemma {:induction false} WrittenExactly(pow: Blob -> U32, v: View, block: Block, uncles: seq<Uncle>, note: Note)
    requires ConnectModel(pow, v, block, uncles).1 in {Connected, OverMint}
    ensures var (w, verdict) := ConnectModel(pow, v, block, uncles);
            var h := block.header.blob.height;
            && w.height == h && w.blocks == v.blocks[h := block]
            && w.hashes == v.hashes[h := Leaf(block.header.blob)]
            && (note in w.notes <==> note in v.notes || AddsNote(block, uncles, note))
            && (note in w.notes ==> w.notes[note] == if AddsNote(block, uncles, note) then h else v.notes[note])
            && (verdict == OverMint ==> w.consensus == v.consensus)
  {
    hide CheckHeader, NoOverMint, Advance, BaseReward, UncleNotes;
    var h, txs := block.header.blob.height, block.transactions;
    CoinbaseExactly(txs);
    if i: nat :| IsCoinbase(txs, i) { CoinbaseUnique(txs, i); }
    UncleNotesExactly(if BaseReward(txs) > 0 then v.notes[CoinbaseNote(h) := h] else v.notes, uncles, h, note);
  }

  ghost predicate HashesFiled(v: View) {
    && (forall h: nat :: h in v.hashes <==> h in v.blocks)
    && (forall h: nat :: h in v.blocks ==> v.hashes[h] == BlockHash(v.blocks[h]))
  }

  /** Over every run, hashes are kept for exactly the heights that have a block, and are theirs. */
  lemma {:induction false} HashesMatch(pow: Blob -> U32, run: seq<Delivery>)
    ensures HashesFiled(RunModel(pow, run))
  {
    if run != [] {
      hide ConnectModel;
      var before, last := RunModel(pow, run[..|run| - 1]), run[|run| - 1];
      HashesMatch(pow, run[..|run| - 1]);
      RefusedUnchanged(pow, before, last.block, last.uncles);
      if ConnectModel(pow, before, last.block, last.uncles).1 in {Connected, OverMint} {
        WrittenExactly(pow, before, last.block, last.uncles, CoinbaseNote(0));
      }
    }
  }

  // ----- work and pins -----

  /** A block's work is the number of times its target goes into the largest one; a zero target
      carries none. */
  lemma {:induction false} WorkExactly(target: nat)
    ensures target == 0 ==> BlockWork(target) == 0
    ensures target >= 1 ==> BlockWork(target) * target <= 0xFFFF_FFFF < (BlockWork(target) + 1) * target
  {
  }

  lemma {:induction false} QuotientExactly(x: nat, d: nat)
    requires d > 0
    ensures Quotient(x, d) * d <= x < (Quotient(x, d) + 1) * d
  {
  }

  /** A created uncle keeps its header, is not accepted yet, and carries the base halved once per
      level, six times at most, rounded down. */
  lemma {:induction false} CreatedExactly(header: Header, depth: nat, base: nat)
    ensures var u := CreateUncle(header, depth, base);
            var halves := Pow2(if depth < 6 then depth else 6);
            && u.header == header && !u.pinAccepted
            && u.pinConfirmed * halves <= base < (u.pinConfirmed + 1) * halves
  {
    QuotientExactly(base, Pow2(if depth < 6 then depth else 6));
  }
}

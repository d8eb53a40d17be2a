/** Values shared by every consensus module: 32-byte words, headers and blocks.

    Hashing is a free algebra. A leaf digest hashes a mining blob and a node digest
    hashes two 32-byte words; the two input lengths differ, so a leaf is never a node.
    `Raw` stands for 32 bytes that are nobody's digest, `Zero` for 32 zero bytes. */
module Words {
  import opened Options

  type U8 = x: nat | x < 0x100
  type U32 = x: nat | x < 0x1_0000_0000
  type U64 = x: nat | x < 0x1_0000_0000_0000_0000

  datatype Word = Zero | Raw(id: nat) | Leaf(blob: Blob) | Node(left: Word, right: Word)

  /** The header fields that are hashed, in the order the blob lays them out. */
  datatype Blob = Blob(
    version: U8, previous: Word, merkleRoot: Word, timestamp: U64, target: U32, nonce: U64,
    height: U64, uncleRoot: Word, randomxKey: Word, miner: Word)

  /** A header is its blob plus the finality fields, which no hash covers. */
  datatype Header = Header(
    blob: Blob, finalityFlags: U8, anchorTxId: Word, anchorMoneroHeight: nat)

  datatype Transaction = Transaction(reward: int, effectiveValue: Option<int>)

  datatype Block = Block(header: Header, transactions: seq<Transaction>)

  /** The canonical chain of a node: height to block. */
  type Chain = map<nat, Block>

  /** How many heights back an uncle may be, and how deep its proof. */
  const MAX_UNCLE_DEPTH: nat := 6

  function HashOf(h: Header): Word {
    Leaf(h.blob)
  }

  function BlockHash(b: Block): Word {
    HashOf(b.header)
  }

  /** A map on exactly the heights 1..n has n entries. */
  lemma {:induction false} SizeOf(c: Chain, n: nat)
    requires forall h :: h in c <==> 1 <= h <= n
    ensures |c| == n
  {
    if n > 0 {
      var d := c - {n};
      SizeOf(d, n - 1);
      assert c.Keys == d.Keys + {n};
    } else {
      assert c == map[];
    }
  }
}

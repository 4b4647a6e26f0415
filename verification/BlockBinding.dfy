/** What the hash and the signature of a block bind of its transactions. */
module BlockBinding {
  import opened Bytes
  import opened Crypto
  import opened TxBlocks
  import opened Merkle
  import opened MerkleTwins
  import opened Blocks

  /** The hashes the Merkle tree of a block is built over. */
  function TxNames(c: Codec, txs: seq<TxBlock>): (r: seq<Hash>)
    ensures |r| == |txs|
  {
    seq(|txs|, i requires 0 <= i < |txs| => TxHash(c, txs[i]))
  }

  lemma TxRoot(c: Codec, txs: seq<TxBlock>)
    ensures ItemsRoot(c, TxItems(c, txs)) == Root(c.crypto.sha3, Leaves(c.crypto.sha3, TxNames(c, txs)))
  {
    hide Root, Leaves;
    var items := TxItems(c, txs);
    assert seq(|items|, i requires 0 <= i < |items| => c.crypto.sha3(items[i])) == TxNames(c, txs);
  }

  /** The roots of a finalized block: each over the twice-hashed transactions of its own kind, in order. */
  lemma FinalizedRoots(c: Codec, b: Block)
    requires Finalized(c, b)
    ensures var h := c.crypto.sha3;
            && b.txMerkleRoot
            == Root(h, seq(|b.txs|, i requires 0 <= i < |b.txs| => h(h(c.encodeTx(b.txs[i])))))
            && b.validatorMerkleRoot
            == Root(h, seq(|b.txValidators|, i requires 0 <= i < |b.txValidators| =>
                             h(h(c.encodeValidator(b.txValidators[i])))))
  {
    hide Root;
    var h := c.crypto.sha3;
    var items, others := TxItems(c, b.txs), ValidatorItems(c, b.txValidators);
    assert Leaves(h, seq(|items|, i requires 0 <= i < |items| => h(items[i])))
        == seq(|b.txs|, i requires 0 <= i < |b.txs| => h(h(c.encodeTx(b.txs[i]))));
    assert Leaves(h, seq(|others|, i requires 0 <= i < |others| => h(others[i])))
        == seq(|b.txValidators|, i requires 0 <= i < |b.txValidators| => h(h(c.encodeValidator(b.txValidators[i]))));
  }

  /** Other transactions under the same header, key and signature. */
  function WithTxs(b: Block, txs: seq<TxBlock>): Block {
    b.(txs := txs)
  }

  /** The header does not look at the transactions themselves, so only their root is checked. */
  lemma FinalizedByRoot(c: Codec, b: Block, txs: seq<TxBlock>)
    requires Finalized(c, b)
    ensures BlockHash(c, WithTxs(b, txs)) == BlockHash(c, b)
    ensures Finalized(c, WithTxs(b, txs)) <==> ItemsRoot(c, TxItems(c, txs)) == ItemsRoot(c, TxItems(c, b.txs))
  {
    hide ItemsRoot, VerifySig;
    assert Header(WithTxs(b, txs)) == Header(b);
  }

  /**
   * A block with two transactions or more always has a double: the first two swapped, the same hash, the same
   * signature, and every check passes.
   */
  lemma SwappedDouble(c: Codec, b: Block)
    requires Finalized(c, b) && |b.txs| >= 2
    ensures var double := WithTxs(b, SwapFirst(b.txs));
            Finalized(c, double) && BlockHash(c, double) == BlockHash(c, b) && double.validatorSig == b.validatorSig
  {
    hide Finalized, ItemsRoot, Root, Leaves;
    FinalizedByRoot(c, b, SwapFirst(b.txs));
    TxRoot(c, b.txs);
    TxRoot(c, SwapFirst(b.txs));
    SwapKeepsRoot(c.crypto.sha3, TxNames(c, b.txs));
    assert TxNames(c, SwapFirst(b.txs)) == SwapFirst(TxNames(c, b.txs));
  }

  /**
   * Which transactions a signed header stands for, exactly: those whose tree of hashes is the block's up to swapping
   * siblings, as long as nothing hashed in either tree collides.
   */
  lemma HeaderBindsExactly(c: Codec, b: Block, txs: seq<TxBlock>, inputs: set<Bytes>)
    requires Finalized(c, b) && b.txs != [] && txs != [] && CollisionFree(c.crypto.sha3, inputs)
    requires InputsIn(c.crypto.sha3, TreeOf(TxNames(c, b.txs)), inputs)
    requires InputsIn(c.crypto.sha3, TreeOf(TxNames(c, txs)), inputs)
    ensures Finalized(c, WithTxs(b, txs)) <==> Twins(TreeOf(TxNames(c, b.txs)), TreeOf(TxNames(c, txs)))
  {
    hide Finalized, ItemsRoot, Root, Leaves, TreeOf, InputsIn, CollisionFree;
    FinalizedByRoot(c, b, txs);
    TxRoot(c, b.txs);
    TxRoot(c, txs);
    RootsEqualExactly(c.crypto.sha3, TxNames(c, b.txs), TxNames(c, txs), inputs);
  }
}

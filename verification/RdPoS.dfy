/** The rdPoS engine of a node: the validator mempool, block validation and the round change. */
module RdPoS {
  import opened Bytes
  import opened Crypto
  import opened RandomGen
  import opened Leader
  import opened Round
  import opened TxValidators
  import opened Blocks

  type Mempool = map<Hash, TxValidator>

  // ---------------------------------------------------------------- the validator mempool

  /** `a` is one of `list[1]` to `list[m]`. */
  ghost predicate Participates(list: seq<Address>, m: nat, a: Address) {
    exists i :: 1 <= i <= m && i < |list| && list[i] == a
  }

  function SenderKeys(mempool: Mempool, a: Address): set<Hash> {
    set h | h in mempool && mempool[h].from == a
  }

  /**
   * What becomes of the mempool when a transaction arrives, and whether it was welcome; `None` when a functor is
   * read past the end of its data.
   */
  ghost function AddTx(hash: TxValidator -> Hash, mempool: Mempool, list: seq<Address>, m: nat, latestHeight: nat,
                       tx: TxValidator): Option<(bool, Mempool)>
  {
    if hash(tx) in mempool then Some((true, mempool))
    else if tx.nHeight != latestHeight + 1 || !Participates(list, m, tx.from) then Some((false, mempool))
    else if SenderKeys(mempool, tx.from) == {} then Some((true, mempool[hash(tx) := tx]))
    else if |SenderKeys(mempool, tx.from)| > 1 then Some((false, mempool))
    else if !Readable(mempool, tx) then None
    else if NewFunctor(mempool, tx) then Some((true, mempool[hash(tx) := tx]))
    else Some((false, mempool))
  }

  /** The mempool after a transaction arrived, whatever the answer to it. */
  ghost function Arrived(hash: TxValidator -> Hash, mempool: Mempool, list: seq<Address>, m: nat, latestHeight: nat,
                         tx: TxValidator): Mempool
  {
    var r := AddTx(hash, mempool, list, m, latestHeight, tx);
    if r.None? then mempool else r.value.1
  }

  /** `tx` and what its sender has pending are long enough to have functors. */
  ghost predicate Readable(mempool: Mempool, tx: TxValidator) {
    Functor(tx).Some? && forall h :: h in SenderKeys(mempool, tx.from) ==> Functor(mempool[h]).Some?
  }

  /** None of the sender's transactions has the functor of `tx`. */
  ghost predicate NewFunctor(mempool: Mempool, tx: TxValidator) {
    forall h :: h in SenderKeys(mempool, tx.from) ==> Functor(mempool[h]) != Functor(tx)
  }

  /** What holds of the mempool at every moment. */
  ghost predicate MempoolValid(hash: TxValidator -> Hash, mempool: Mempool, list: seq<Address>, m: nat,
                               latestHeight: nat) {
    && (forall h :: h in mempool ==>
          && h == hash(mempool[h])
          && mempool[h].nHeight == latestHeight + 1
          && Participates(list, m, mempool[h].from))
    && (forall h, k :: h in mempool && k in mempool && h != k && mempool[h].from == mempool[k].from ==>
          Functor(mempool[h]).Some? && Functor(mempool[h]) != Functor(mempool[k]))
    && (forall a :: |SenderKeys(mempool, a)| <= 2)
  }

  lemma SenderKeysGrow(mempool: Mempool, h: Hash, tx: TxValidator, a: Address)
    requires h !in mempool
    ensures SenderKeys(mempool[h := tx], a) == SenderKeys(mempool, a) + if tx.from == a then {h} else {}
  {
  }

  lemma EmptyMempoolValid(hash: TxValidator -> Hash, list: seq<Address>, m: nat, height: nat)
    ensures MempoolValid(hash, map[], list, m, height)
  {
    forall a | true
      ensures |SenderKeys(map[], a)| <= 2
    {
      assert SenderKeys(map[], a) == {};
    }
  }

  /** Adding a transaction keeps the mempool valid, whatever the transaction. */
  lemma AddTxKeepsValid(hash: TxValidator -> Hash, mempool: Mempool, list: seq<Address>, m: nat, latestHeight: nat,
                        tx: TxValidator)
    requires MempoolValid(hash, mempool, list, m, latestHeight)
    ensures MempoolValid(hash, Arrived(hash, mempool, list, m, latestHeight, tx), list, m, latestHeight)
  {
    hide MempoolValid, Functor;
    var after := Arrived(hash, mempool, list, m, latestHeight, tx);
    if after != mempool {
      InsertKeepsValid(hash, mempool, list, m, latestHeight, tx);
    }
  }

  lemma InsertKeepsValid(hash: TxValidator -> Hash, mempool: Mempool, list: seq<Address>, m: nat, latestHeight: nat,
                         tx: TxValidator)
    requires MempoolValid(hash, mempool, list, m, latestHeight) && hash(tx) !in mempool
    requires tx.nHeight == latestHeight + 1 && Participates(list, m, tx.from)
    requires |SenderKeys(mempool, tx.from)| <= 1
    requires SenderKeys(mempool, tx.from) == {} || (Readable(mempool, tx) && NewFunctor(mempool, tx))
    ensures MempoolValid(hash, mempool[hash(tx) := tx], list, m, latestHeight)
  {
    hide Functor, Participates;
    var after := mempool[hash(tx) := tx];
    forall a | true
      ensures |SenderKeys(after, a)| <= 2
    {
      SenderKeysGrow(mempool, hash(tx), tx, a);
    }
    forall h, k | h in after && k in after && h != k && after[h].from == after[k].from
      ensures Functor(after[h]).Some? && Functor(after[h]) != Functor(after[k])
    {
      if h == hash(tx) {
        assert k in SenderKeys(mempool, tx.from);
      } else if k == hash(tx) {
        assert h in SenderKeys(mempool, tx.from);
      }
    }
  }

  /**
   * What is welcome, exactly: a transaction that is pending already, or that can be added to a valid mempool and leave
   * it valid. A welcome one is pending afterwards, any other changes nothing.
   */
  lemma WelcomeExactly(hash: TxValidator -> Hash, mempool: Mempool, list: seq<Address>, m: nat, latestHeight: nat,
                       tx: TxValidator)
    requires MempoolValid(hash, mempool, list, m, latestHeight)
    ensures var r, added := AddTx(hash, mempool, list, m, latestHeight, tx), mempool[hash(tx) := tx];
            r.Some? ==>
              && (r.value.0 <==> hash(tx) in mempool || MempoolValid(hash, added, list, m, latestHeight))
              && r.value.1 == (if r.value.0 && hash(tx) !in mempool then added else mempool)
  {
    if hash(tx) !in mempool {
      var added := mempool[hash(tx) := tx];
      if AddTx(hash, mempool, list, m, latestHeight, tx) == Some((true, added)) {
        AddTxKeepsValid(hash, mempool, list, m, latestHeight, tx);
      } else if MempoolValid(hash, added, list, m, latestHeight) {
        WelcomeIfValid(hash, mempool, list, m, latestHeight, tx);
      }
    }
  }

  lemma WelcomeIfValid(hash: TxValidator -> Hash, mempool: Mempool, list: seq<Address>, m: nat, latestHeight: nat,
                       tx: TxValidator)
    requires hash(tx) !in mempool && MempoolValid(hash, mempool[hash(tx) := tx], list, m, latestHeight)
    ensures AddTx(hash, mempool, list, m, latestHeight, tx) == Some((true, mempool[hash(tx) := tx]))
  {
    hide Functor, Participates;
    var added, mine := mempool[hash(tx) := tx], SenderKeys(mempool, tx.from);
    assert tx.nHeight == latestHeight + 1 && Participates(list, m, tx.from) by {
      assert hash(tx) in added;
    }
    SenderKeysGrow(mempool, hash(tx), tx, tx.from);
    assert |mine| <= 1 by {
      assert |SenderKeys(added, tx.from)| <= 2;
    }
    forall h | h in mine
      ensures Functor(mempool[h]).Some? && Functor(tx).Some? && Functor(mempool[h]) != Functor(tx)
    {
      assert added[h] == mempool[h] && added[hash(tx)] == tx;
    }
  }

  /** The keys whose senders are among `list[1]` to `list[i]`. */
  ghost function KeysUpTo(mempool: Mempool, list: seq<Address>, i: nat): set<Hash>
    requires i < |list|
  {
    set h | h in mempool && exists j :: 1 <= j <= i && list[j] == mempool[h].from
  }

  lemma KeysUpToStep(mempool: Mempool, list: seq<Address>, i: nat)
    requires 1 <= i < |list|
    ensures |KeysUpTo(mempool, list, i)| <= |KeysUpTo(mempool, list, i - 1)| + |SenderKeys(mempool, list[i])|
  {
    var before, mine := KeysUpTo(mempool, list, i - 1), SenderKeys(mempool, list[i]);
    assert KeysUpTo(mempool, list, i) == before + mine;
    assert |before + mine| <= |before| + |mine|;
  }

  lemma {:induction false} KeysUpToBound(mempool: Mempool, list: seq<Address>, i: nat, each: nat)
    requires i < |list|
    requires forall a :: |SenderKeys(mempool, a)| <= each
    ensures |KeysUpTo(mempool, list, i)| <= i * each
    decreases i
  {
    if i == 0 {
      assert KeysUpTo(mempool, list, 0) == {};
    } else {
      KeysUpToBound(mempool, list, i - 1, each);
      KeysUpToStep(mempool, list, i);
      assert i * each == (i - 1) * each + each;
    }
  }

  /** A valid mempool never holds more than two transactions per participant. */
  lemma MempoolBound(hash: TxValidator -> Hash, mempool: Mempool, list: seq<Address>, m: nat, latestHeight: nat)
    requires m < |list| && MempoolValid(hash, mempool, list, m, latestHeight)
    ensures |mempool| <= 2 * m
  {
    KeysUpToBound(mempool, list, m, 2);
    forall h | h in mempool
      ensures h in KeysUpTo(mempool, list, m)
    {
      assert Participates(list, m, mempool[h].from);
    }
    assert KeysUpTo(mempool, list, m) == mempool.Keys;
    assert |mempool.Keys| == |mempool|;
  }

  lemma {:induction false} KeysUpToShort(mempool: Mempool, list: seq<Address>, i: nat, each: nat, j: nat)
    requires 1 <= j <= i < |list|
    requires forall a :: |SenderKeys(mempool, a)| <= each
    requires |SenderKeys(mempool, list[j])| < each
    ensures |KeysUpTo(mempool, list, i)| < i * each
    decreases i
  {
    if j == i {
      KeysUpToBound(mempool, list, i - 1, each);
    } else {
      KeysUpToShort(mempool, list, i - 1, each, j);
    }
    KeysUpToStep(mempool, list, i);
    assert i * each == (i - 1) * each + each;
  }

  /** Pigeonhole: a mempool that is full at `each` transactions per sender holds `each` of every participant. */
  lemma FullMempoolCovers(mempool: Mempool, list: seq<Address>, m: nat, each: nat, j: nat)
    requires 1 <= j <= m < |list|
    requires forall h :: h in mempool ==> Participates(list, m, mempool[h].from)
    requires forall a :: |SenderKeys(mempool, a)| <= each
    requires |mempool| >= m * each
    ensures |SenderKeys(mempool, list[j])| == each
  {
    forall h | h in mempool
      ensures h in KeysUpTo(mempool, list, m)
    {
      assert Participates(list, m, mempool[h].from);
    }
    assert KeysUpTo(mempool, list, m) == mempool.Keys;
    assert |mempool.Keys| == |mempool|;
    if |SenderKeys(mempool, list[j])| < each {
      KeysUpToShort(mempool, list, m, each, j);
      assert false;
    }
  }

  // ---------------------------------------------------------------- block validation

  ghost predicate DistinctHashes(hash: TxValidator -> Hash, txs: seq<TxValidator>, n: nat)
    requires n <= |txs|
  {
    forall i, j :: 0 <= i < j < n ==> hash(txs[i]) != hash(txs[j])
  }

  /** When a block is accepted for the round ordered by `list`. */
  ghost predicate AcceptsBlock(crypto: Crypto, hash: TxValidator -> Hash, list: seq<Address>, m: nat, b: Block) {
    && |list| > m
    && b.finalized
    && ToAddress(crypto, b.validatorPubKey) == list[0]
    && PairsValid(crypto.sha3, list, m, b.txValidators)
    && SameHeight(b.txValidators, b.nHeight)
    && DistinctHashes(hash, b.txValidators, m)
  }

  /** An accepted block draws its randomness from m committed seeds, one of each participant. */
  lemma AcceptedRandomness(crypto: Crypto, hash: TxValidator -> Hash, list: seq<Address>, m: nat, b: Block)
    requires AcceptsBlock(crypto, hash, list, m, b)
    requires b.blockRandomness == Randomness(crypto.sha3, b.txValidators)
    ensures b.blockRandomness == if m == 0 then Zeros(32) else crypto.sha3(Concat(Seeds(m, b.txValidators)))
    ensures forall i :: 0 <= i < m ==> Committed(crypto.sha3, list, m, b.txValidators, i)
  {
    RoundRandomness(crypto.sha3, list, m, b.txValidators);
  }

  /** A block that was decoded and accepted draws its randomness from m committed seeds. */
  lemma DecodedRandomness(codec: Codec, s: Bytes, hash: TxValidator -> Hash, list: seq<Address>, m: nat, b: Block)
    requires Blocks.Parse(codec, s) == Some(b) && AcceptsBlock(codec.crypto, hash, list, m, b)
    ensures b.blockRandomness == if m == 0 then Zeros(32) else codec.crypto.sha3(Concat(Seeds(m, b.txValidators)))
    ensures forall i :: 0 <= i < m ==> Committed(codec.crypto.sha3, list, m, b.txValidators, i)
  {
    hide Blocks.Parse, AcceptsBlock, Randomness, Committed;
    ParsedIsFinalized(codec, s);
    AcceptedLengths(codec.crypto, hash, list, m, b);
    AcceptedRandomness(codec.crypto, hash, list, m, b);
  }

  lemma AcceptedLengths(crypto: Crypto, hash: TxValidator -> Hash, list: seq<Address>, m: nat, b: Block)
    requires AcceptsBlock(crypto, hash, list, m, b)
    ensures |b.txValidators| == 2 * m && m < |list|
  {
  }

  /** One pair in the bytes of its two transactions: who sent them, what they are, and that one opens the other. */
  predicate PairInBytes(sha3: Bytes -> Hash, list: seq<Address>, m: nat, txs: seq<TxValidator>, i: nat)
    requires i < m < |list| && |txs| == 2 * m
  {
    var commitment, seed := txs[i], txs[i + m];
    && commitment.from == list[i + 1] && |commitment.data| == 36
    && seed.from == list[i + 1] && |seed.data| == 36
    && FromBigEndian(commitment.data[..4]) == 0xcfffe746 && FromBigEndian(seed.data[..4]) == 0x6fc5a2d6
    && commitment.data[4..] == sha3(seed.data[4..])
  }

  /** Exactly which blocks are accepted, in the fields of the block and the bytes of its validator transactions. */
  lemma AcceptsExactly(crypto: Crypto, hash: TxValidator -> Hash, list: seq<Address>, m: nat, b: Block)
    requires m < |list|
    ensures AcceptsBlock(crypto, hash, list, m, b) <==>
              && b.finalized && ToAddress(crypto, b.validatorPubKey) == list[0]
              && |b.txValidators| == 2 * m
              && (forall i :: 0 <= i < 2 * m ==> b.txValidators[i].nHeight == b.nHeight)
              && (forall i :: 0 <= i < m ==> PairInBytes(crypto.sha3, list, m, b.txValidators, i))
              && (forall i, j :: 0 <= i < j < m ==> hash(b.txValidators[i]) != hash(b.txValidators[j]))
  {
    hide ToAddress, FromBigEndian, FunctionOf;
    var txs := b.txValidators;
    if |txs| == 2 * m {
      forall i | 0 <= i < m
        ensures PairValid(crypto.sha3, list, m, txs, i) <==> PairInBytes(crypto.sha3, list, m, txs, i)
      {
        FunctionExactly(txs[i]);
        FunctionExactly(txs[i + m]);
      }
    }
  }

  /** The map from commitments to seeds: under the hash of a commitment, the position of its pair. */
  type Pairs = map<Hash, nat>

  /** The map built from the first `n` commitments: their hashes are its keys. */
  ghost predicate PairsOf(hash: TxValidator -> Hash, txs: seq<TxValidator>, n: nat, pairs: Pairs)
    requires n <= |txs|
  {
    && (forall i :: 0 <= i < n ==> hash(txs[i]) in pairs)
    && (forall h :: h in pairs ==> pairs[h] < n && hash(txs[pairs[h]]) == h)
  }

  /** Collect commitments and seeds pairwise, stopping at the first one out of order. */
  method CollectPairs(hash: TxValidator -> Hash, list: seq<Address>, m: nat, txs: seq<TxValidator>)
    returns (ok: bool, pairs: Pairs)
    requires m < |list| && |txs| == 2 * m
    ensures ok <==> Ordered(list, m, txs, m)
    ensures ok ==> PairsOf(hash, txs, m, pairs)
  {
    pairs := map[];
    for i := 0 to m
      invariant Ordered(list, m, txs, i)
      invariant PairsOf(hash, txs, i, pairs)
    {
      if txs[i].from != list[i + 1] || txs[i + m].from != list[i + 1] {
        assert !InOrder(list, m, txs, i);
        return false, pairs;
      }
      var h := hash(txs[i]);
      if h !in pairs {
        pairs := pairs[h := i];
      }
    }
    ok := true;
  }

  function Hashes(hash: TxValidator -> Hash, txs: seq<TxValidator>, m: nat): (r: seq<Hash>)
    requires m <= |txs|
    ensures |r| == m
  {
    seq(m, i requires 0 <= i < m => hash(txs[i]))
  }

  lemma KeysAreHashes(hash: TxValidator -> Hash, txs: seq<TxValidator>, m: nat, pairs: Pairs)
    requires m <= |txs| && PairsOf(hash, txs, m, pairs)
    ensures pairs.Keys == set h | h in Hashes(hash, txs, m)
  {
    var keys := Hashes(hash, txs, m);
    forall h | h in pairs.Keys
      ensures h in keys
    {
      assert keys[pairs[h]] == h;
    }
  }

  /** The map has one entry per commitment exactly when no two commitments have the same hash. */
  lemma SizeMeansDistinct(hash: TxValidator -> Hash, txs: seq<TxValidator>, m: nat, pairs: Pairs)
    requires m <= |txs| && PairsOf(hash, txs, m, pairs)
    ensures |pairs| == m <==> DistinctHashes(hash, txs, m)
  {
    KeysAreHashes(hash, txs, m, pairs);
    assert |pairs| == |pairs.Keys|;
    SizeIffDistinct(Hashes(hash, txs, m));
    DistinctHashesAlike(hash, txs, m);
  }

  lemma DistinctHashesAlike(hash: TxValidator -> Hash, txs: seq<TxValidator>, m: nat)
    requires m <= |txs|
    ensures DistinctHashes(hash, txs, m) <==> Distinct(Hashes(hash, txs, m))
  {
    var keys := Hashes(hash, txs, m);
    if Distinct(keys) {
      forall i, j | 0 <= i < j < m
        ensures hash(txs[i]) != hash(txs[j])
      {
        assert keys[i] != keys[j];
      }
    }
  }

  lemma SizeIffDistinct<T>(s: seq<T>)
    ensures |set a | a in s| == |s| <==> Distinct(s)
  {
    if Distinct(s) {
      DistinctSize(s);
    } else {
      var i, j :| 0 <= i < j < |s| && s[i] == s[j];
      RepeatedSize(s, i, j);
    }
  }

  lemma {:induction false} SeqSetBound<T>(s: seq<T>)
    ensures |set a | a in s| <= |s|
  {
    if s != [] {
      SeqSetBound(s[1..]);
      assert (set a | a in s) == (set a | a in s[1..]) + {s[0]};
    }
  }

  lemma RepeatedSize<T>(s: seq<T>, i: nat, j: nat)
    requires i < j < |s| && s[i] == s[j]
    ensures |set a | a in s| < |s|
  {
    var rest := s[..j] + s[j + 1..];
    SeqSetBound(rest);
    assert rest[i] == s[j];
    assert (set a | a in s) == set a | a in rest by {
      forall a | a in s
        ensures a in rest
      {
        var k :| 0 <= k < |s| && s[k] == a;
        assert k < j ==> rest[k] == a;
        assert k > j ==> rest[k - 1] == a;
      }
    }
  }

  ghost predicate Ordered(list: seq<Address>, m: nat, txs: seq<TxValidator>, n: nat)
    requires n <= m < |list| && |txs| == 2 * m
  {
    forall i :: 0 <= i < n ==> InOrder(list, m, txs, i)
  }

  ghost predicate InOrder(list: seq<Address>, m: nat, txs: seq<TxValidator>, i: nat)
    requires i < m < |list| && |txs| == 2 * m
  {
    txs[i].from == list[i + 1] && txs[i + m].from == list[i + 1]
  }

  lemma OutOfOrder(sha3: Bytes -> Hash, list: seq<Address>, m: nat, txs: seq<TxValidator>)
    requires m < |list| && |txs| == 2 * m && !Ordered(list, m, txs, m)
    ensures !PairsValid(sha3, list, m, txs)
  {
    var i :| 0 <= i < m && !InOrder(list, m, txs, i);
    assert !PairValid(sha3, list, m, txs, i);
  }

  ghost predicate AllOpen(sha3: Bytes -> Hash, txs: seq<TxValidator>, m: nat, pairs: Pairs)
    requires |txs| == 2 * m
  {
    forall h :: h in pairs ==> OpenUnder(sha3, txs, m, pairs, h)
  }

  ghost predicate OpenUnder(sha3: Bytes -> Hash, txs: seq<TxValidator>, m: nat, pairs: Pairs, h: Hash)
    requires |txs| == 2 * m && h in pairs
  {
    pairs[h] < m && Opens(sha3, txs[pairs[h]], txs[pairs[h] + m])
  }

  /** Check every pair of the map, in whatever order the map yields them. */
  method CheckPairs(sha3: Bytes -> Hash, txs: seq<TxValidator>, m: nat, pairs: Pairs) returns (ok: bool)
    requires |txs| == 2 * m && forall h :: h in pairs ==> pairs[h] < m
    ensures ok <==> AllOpen(sha3, txs, m, pairs)
  {
    var todo := pairs.Keys;
    while todo != {}
      invariant todo <= pairs.Keys
      invariant forall h :: h in pairs && h !in todo ==> OpenUnder(sha3, txs, m, pairs, h)
      decreases todo
    {
      var h :| h in todo;
      var opens := CheckPair(sha3, txs, m, pairs, h);
      if !opens {
        return false;
      }
      todo := todo - {h};
    }
    ok := true;
  }

  /** Check the commitment stored under `h` against its seed. */
  method CheckPair(sha3: Bytes -> Hash, txs: seq<TxValidator>, m: nat, pairs: Pairs, h: Hash) returns (opens: bool)
    requires |txs| == 2 * m && h in pairs && pairs[h] < m
    ensures opens <==> OpenUnder(sha3, txs, m, pairs, h)
  {
    var hashTx, seedTx := txs[pairs[h]], txs[pairs[h] + m];
    if FunctionOf(hashTx) == Invalid || FunctionOf(seedTx) == Invalid {
      return false;
    }
    if hashTx.from != seedTx.from {
      return false;
    }
    if FunctionOf(hashTx) != RandomHash || FunctionOf(seedTx) != RandomSeed {
      return false;
    }
    opens := |Body(hashTx)| == 32 && |Body(seedTx)| == 32 && sha3(Body(seedTx)) == Body(hashTx);
  }

  /** The size of the map is what ensures that checking the map checks every pair of the block. */
  lemma MapCoversPairs(sha3: Bytes -> Hash, hash: TxValidator -> Hash, list: seq<Address>, m: nat,
                       txs: seq<TxValidator>, pairs: Pairs)
    requires m < |list| && |txs| == 2 * m
    requires Ordered(list, m, txs, m) && PairsOf(hash, txs, m, pairs) && DistinctHashes(hash, txs, m)
    ensures AllOpen(sha3, txs, m, pairs) <==> PairsValid(sha3, list, m, txs)
  {
    if AllOpen(sha3, txs, m, pairs) {
      OpenMeansValid(sha3, hash, list, m, txs, pairs);
    }
    if PairsValid(sha3, list, m, txs) {
      ValidMeansOpen(sha3, hash, list, m, txs, pairs);
    }
  }

  lemma PositionOf(hash: TxValidator -> Hash, m: nat, txs: seq<TxValidator>, pairs: Pairs, i: nat)
    requires i < m <= |txs| && PairsOf(hash, txs, m, pairs) && DistinctHashes(hash, txs, m)
    ensures hash(txs[i]) in pairs && pairs[hash(txs[i])] == i
  {
    SameHashSameIndex(hash, txs, m, i, pairs[hash(txs[i])]);
  }

  lemma OpenMeansValid(sha3: Bytes -> Hash, hash: TxValidator -> Hash, list: seq<Address>, m: nat,
                       txs: seq<TxValidator>, pairs: Pairs)
    requires m < |list| && |txs| == 2 * m
    requires Ordered(list, m, txs, m) && PairsOf(hash, txs, m, pairs) && DistinctHashes(hash, txs, m)
    requires AllOpen(sha3, txs, m, pairs)
    ensures PairsValid(sha3, list, m, txs)
  {
    forall i | 0 <= i < m
      ensures PairValid(sha3, list, m, txs, i)
    {
      PositionOf(hash, m, txs, pairs, i);
      OpenAt(sha3, list, m, txs, pairs, hash(txs[i]));
    }
  }

  lemma OpenAt(sha3: Bytes -> Hash, list: seq<Address>, m: nat, txs: seq<TxValidator>, pairs: Pairs, h: Hash)
    requires m < |list| && |txs| == 2 * m && h in pairs
    requires Ordered(list, m, txs, m) && AllOpen(sha3, txs, m, pairs)
    ensures pairs[h] < m && PairValid(sha3, list, m, txs, pairs[h])
  {
    assert OpenUnder(sha3, txs, m, pairs, h);
    assert InOrder(list, m, txs, pairs[h]);
  }

  lemma ValidMeansOpen(sha3: Bytes -> Hash, hash: TxValidator -> Hash, list: seq<Address>, m: nat,
                       txs: seq<TxValidator>, pairs: Pairs)
    requires m < |list| && |txs| == 2 * m
    requires PairsOf(hash, txs, m, pairs) && PairsValid(sha3, list, m, txs)
    ensures AllOpen(sha3, txs, m, pairs)
  {
    forall h | h in pairs
      ensures OpenUnder(sha3, txs, m, pairs, h)
    {
      assert PairValid(sha3, list, m, txs, pairs[h]);
    }
  }

  lemma SameHashSameIndex(hash: TxValidator -> Hash, txs: seq<TxValidator>, m: nat, i: nat, j: nat)
    requires i < m && j < m <= |txs| && DistinctHashes(hash, txs, m)
    requires hash(txs[i]) == hash(txs[j])
    ensures i == j
  {
  }

  // ---------------------------------------------------------------- the engine

  class Engine {
    const crypto: Crypto
    const hash: TxValidator -> Hash
    const minValidators: nat
    var validators: seq<Address>
    var randomList: seq<Address>
    var validatorMempool: Mempool
    var bestRandomSeed: Hash
    const randomGen: RandomGen

    /** The round is the one drawn from `randomness`, and the mempool belongs to it. */
    ghost predicate Valid(randomness: Hash, latestHeight: nat)
      reads this
    {
      && minValidators < |validators|
      && Ascending(validators)
      && bestRandomSeed == randomness
      && randomList == RandomList(crypto.sha3, validators, randomness)
      && randomGen.sha3 == crypto.sha3
      && MempoolValid(hash, validatorMempool, randomList, minValidators, latestHeight)
    }

    /** Starting up: load the validators and draw the round from the latest block. */
    constructor (crypto: Crypto, hash: TxValidator -> Hash, minValidators: nat, entries: seq<Address>, latest: Block)
      requires minValidators < |set a | a in entries|
      ensures this.crypto == crypto && this.hash == hash && this.minValidators == minValidators
      ensures fresh(randomGen)
      ensures forall a :: a in validators <==> a in entries
      ensures validatorMempool == map[]
      ensures Valid(latest.blockRandomness, latest.nHeight)
    {
      this.crypto := crypto;
      this.hash := hash;
      this.minValidators := minValidators;
      var loaded := LoadValidators(entries);
      this.validators := loaded;
      this.bestRandomSeed := latest.blockRandomness;
      this.validatorMempool := map[];
      this.randomList := loaded;
      this.randomGen := new RandomGen(crypto.sha3, ZERO_HASH);
      new;
      AscendingSize(loaded, entries);
      DrawRound(latest.blockRandomness);
    }

    /** Reorder the validators with a new seed. */
    method DrawRound(seed: Hash)
      requires randomGen.sha3 == crypto.sha3
      modifies this`randomList, randomGen
      ensures randomList == RandomList(crypto.sha3, validators, seed)
    {
      randomGen.SetSeed(seed);
      var list := new Address[|validators|](i requires 0 <= i < |validators| reads this => validators[i]);
      assert list[..] == validators;
      randomGen.ShuffleInPlace(list);
      randomList := list[..];
    }

    /** Process a block: the round of the next height is drawn from its randomness. */
    method ProcessBlock(b: Block, ghost randomness: Hash, ghost latestHeight: nat) returns (r: Option<Hash>)
      requires Valid(randomness, latestHeight)
      modifies this`randomList, this`validatorMempool, this`bestRandomSeed, randomGen
      ensures r == if b.finalized then Some(b.blockRandomness) else None
      ensures b.finalized ==> Valid(b.blockRandomness, b.nHeight) && validatorMempool == map[]
      ensures !b.finalized ==> Valid(randomness, latestHeight) && validatorMempool == old(validatorMempool)
    {
      if !b.finalized {
        return None;
      }
      validatorMempool := map[];
      bestRandomSeed := b.blockRandomness;
      DrawRound(bestRandomSeed);
      r := Some(bestRandomSeed);
    }

    /** A validator transaction arrives; `None` when a functor is read past the end of its data. */
    method AddValidatorTx(tx: TxValidator, latestHeight: nat, ghost randomness: Hash) returns (r: Option<bool>)
      requires Valid(randomness, latestHeight)
      modifies this`validatorMempool
      ensures Valid(randomness, latestHeight)
      ensures var spec := AddTx(hash, old(validatorMempool), randomList, minValidators, latestHeight, tx);
              if r.None? then spec.None? && validatorMempool == old(validatorMempool)
              else spec == Some((r.value, validatorMempool))
    {
      hide MempoolValid, Participates, Lists, Functor;
      AddTxKeepsValid(hash, validatorMempool, randomList, minValidators, latestHeight, tx);
      if hash(tx) in validatorMempool {
        return Some(true);
      }
      if tx.nHeight != latestHeight + 1 {
        return Some(false);
      }
      var participates := IsParticipant(tx.from);
      if !participates {
        return Some(false);
      }
      var keys, txs := SameSender(validatorMempool, tx.from, SenderKeys(validatorMempool, tx.from));
      ListedSize(validatorMempool, SenderKeys(validatorMempool, tx.from), keys, txs);
      if |txs| == 0 {
        validatorMempool := validatorMempool[hash(tx) := tx];
        return Some(true);
      } else if |txs| == 1 {
        if Functor(txs[0]).None? || Functor(tx).None? {
          return None;
        }
        if Functor(txs[0]) == Functor(tx) {
          return Some(false);
        }
        validatorMempool := validatorMempool[hash(tx) := tx];
      } else {
        return Some(false);
      }
      r := Some(true);
    }

    /** Validate a block for the current round. */
    method ValidateBlock(b: Block) returns (ok: bool)
      requires minValidators < |randomList|
      ensures ok <==> AcceptsBlock(crypto, hash, randomList, minValidators, b)
    {
      if !b.finalized {
        return false;
      }
      if ToAddress(crypto, b.validatorPubKey) != randomList[0] {
        return false;
      }
      if |b.txValidators| != 2 * minValidators {
        return false;
      }
      var i := 0;
      while i < |b.txValidators|
        invariant i <= |b.txValidators|
        invariant forall k :: 0 <= k < i ==> b.txValidators[k].nHeight == b.nHeight
      {
        if b.txValidators[i].nHeight != b.nHeight {
          return false;
        }
        i := i + 1;
      }
      var ordered, pairs := CollectPairs(hash, randomList, minValidators, b.txValidators);
      if !ordered {
        OutOfOrder(crypto.sha3, randomList, minValidators, b.txValidators);
        return false;
      }
      SizeMeansDistinct(hash, b.txValidators, minValidators, pairs);
      if |pairs| != minValidators {
        return false;
      }
      ok := CheckPairs(crypto.sha3, b.txValidators, minValidators, pairs);
      MapCoversPairs(crypto.sha3, hash, randomList, minValidators, b.txValidators, pairs);
    }

    method IsParticipant(a: Address) returns (participates: bool)
      requires minValidators < |randomList|
      ensures participates <==> Participates(randomList, minValidators, a)
    {
      participates := false;
      for i := 1 to minValidators + 1
        invariant participates <==> exists j :: 1 <= j < i && randomList[j] == a
      {
        if a == randomList[i] {
          participates := true;
        }
      }
    }
  }

  /** `txs` are the transactions under exactly these keys, each key taken once. */
  ghost predicate Lists(mempool: Mempool, mine: set<Hash>, keys: seq<Hash>, txs: seq<TxValidator>) {
    && |keys| == |txs| && multiset(keys) == multiset(mine)
    && forall i :: 0 <= i < |txs| ==> keys[i] in mempool && mempool[keys[i]] == txs[i]
  }

  lemma ListsNext(mempool: Mempool, mine: set<Hash>, todo: set<Hash>, h: Hash, keys: seq<Hash>, txs: seq<TxValidator>)
    requires Lists(mempool, mine - todo, keys, txs) && h in todo && h in mempool
    ensures if h in mine then Lists(mempool, mine - (todo - {h}), keys + [h], txs + [mempool[h]])
            else Lists(mempool, mine - (todo - {h}), keys, txs)
  {
    if h in mine {
      assert mine - (todo - {h}) == (mine - todo) + {h};
      assert multiset(keys + [h]) == multiset(keys) + multiset{h};
    } else {
      assert mine - (todo - {h}) == mine - todo;
    }
  }

  /** The transactions of one sender, each once, in the order the map happens to yield them. */
  method SameSender(mempool: Mempool, a: Address, ghost mine: set<Hash>)
    returns (ghost keys: seq<Hash>, txs: seq<TxValidator>)
    requires forall h :: h in mine <==> h in mempool && mempool[h].from == a
    ensures Lists(mempool, mine, keys, txs) && |txs| == |mine|
    ensures forall i :: 0 <= i < |txs| ==> txs[i].from == a
  {
    hide Lists;
    keys, txs := [], [];
    var todo := mempool.Keys;
    assert mine - todo == {};
    assert Lists(mempool, {}, [], []) by {
      NothingListed(mempool);
    }
    while todo != {}
      invariant todo <= mempool.Keys && Lists(mempool, mine - todo, keys, txs)
      invariant forall i :: 0 <= i < |txs| ==> txs[i].from == a
      decreases todo
    {
      var h :| h in todo;
      ListsNext(mempool, mine, todo, h, keys, txs);
      if mempool[h].from == a {
        txs := txs + [mempool[h]];
        keys := keys + [h];
      }
      todo := todo - {h};
    }
    assert mine - todo == mine;
    ListedSize(mempool, mine, keys, txs);
  }

  lemma NothingListed(mempool: Mempool)
    ensures Lists(mempool, {}, [], [])
  {
  }

  lemma ListedSize(mempool: Mempool, mine: set<Hash>, keys: seq<Hash>, txs: seq<TxValidator>)
    requires Lists(mempool, mine, keys, txs)
    ensures |txs| == |mine| && (|txs| == 1 ==> mine == {keys[0]} && mempool[keys[0]] == txs[0])
  {
    assert |multiset(keys)| == |keys| && |multiset(mine)| == |mine|;
    if |txs| == 1 {
      assert keys[0] in multiset(keys);
      OnlyMember(mine, keys[0]);
    }
  }

  lemma OnlyMember<T>(s: set<T>, x: T)
    requires |s| == 1 && x in s
    ensures s == {x}
  {
    assert |s - {x}| == 0;
  }

  lemma AscendingSize(s: seq<Address>, entries: seq<Address>)
    requires Ascending(s) && forall a :: a in s <==> a in entries
    ensures |s| == |set a | a in entries|
  {
    AscendingDistinct(s);
    DistinctSize(s);
    assert (set a | a in entries) == set a | a in s;
  }

  lemma {:induction false} DistinctSize<T>(s: seq<T>)
    requires Distinct(s)
    ensures |set a | a in s| == |s|
  {
    if s != [] {
      DistinctSize(s[1..]);
      assert (set a | a in s) == (set a | a in s[1..]) + {s[0]};
    }
  }
}

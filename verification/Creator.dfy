/** How the creator of a round assembles, signs and proposes its block. */
module Creator {
  import opened Bytes
  import opened Crypto
  import opened RandomGen
  import opened Leader
  import opened TxBlocks
  import opened TxValidators
  import opened Round
  import opened Blocks
  import opened Accounts
  import opened Ledger
  import M = Mempool
  import RdPoS
  import State

  /** A transaction of `a` with this functor. */
  predicate Fits(tx: TxValidator, a: Address, functor: Bytes) {
    tx.from == a && Functor(tx) == Some(functor)
  }

  ghost predicate Offers(mempool: RdPoS.Mempool, a: Address, functor: Bytes) {
    exists h :: h in mempool && Fits(mempool[h], a, functor)
  }

  /** Every participant has a transaction with this functor in the mempool. */
  ghost predicate Ready(mempool: RdPoS.Mempool, list: seq<Address>, m: nat, functor: Bytes)
    requires m < |list|
  {
    forall j :: 1 <= j <= m ==> Offers(mempool, list[j], functor)
  }

  /** The i-th transaction is one of participant i + 1 with this functor. */
  ghost predicate Picked(mempool: RdPoS.Mempool, list: seq<Address>, functor: Bytes, txs: seq<TxValidator>) {
    |txs| < |list| && forall i :: 0 <= i < |txs| ==> PickedAt(mempool, list, functor, txs, i)
  }

  ghost predicate PickedAt(mempool: RdPoS.Mempool, list: seq<Address>, functor: Bytes, txs: seq<TxValidator>, i: nat)
    requires i < |txs| < |list|
  {
    txs[i] in mempool.Values && Fits(txs[i], list[i + 1], functor)
  }

  /** What a search ends with: what it looked for, nothing, or a read past the end of some data. */
  datatype Search<T> = Found(value: T) | Absent | PastEnd

  /** What `a` has pending is long enough to have functors. */
  ghost predicate Legible(mempool: RdPoS.Mempool, a: Address) {
    forall h :: h in mempool && mempool[h].from == a ==> Functor(mempool[h]).Some?
  }

  /** One pass over the mempool, in whatever order the map yields it. */
  method FindTx(mempool: RdPoS.Mempool, a: Address, functor: Bytes) returns (r: Search<TxValidator>)
    ensures r.Found? ==> r.value in mempool.Values && Fits(r.value, a, functor)
    ensures r.Absent? ==> !Offers(mempool, a, functor) && Legible(mempool, a)
    ensures r.PastEnd? ==> !Legible(mempool, a)
  {
    var todo := mempool.Keys;
    while todo != {}
      invariant todo <= mempool.Keys
      invariant forall h :: h in mempool && h !in todo && mempool[h].from == a ==>
                  Functor(mempool[h]).Some? && Functor(mempool[h]) != Some(functor)
      decreases todo
    {
      var h :| h in todo;
      if mempool[h].from == a {
        if Functor(mempool[h]).None? {
          return PastEnd;
        }
        if Functor(mempool[h]) == Some(functor) {
          assert h in mempool;
          return Found(mempool[h]);
        }
      }
      todo := todo - {h};
    }
    r := Absent;
  }

  /**
   * Pass over the mempool until every participant's transaction has been picked. `Absent` stands for the loop that
   * never ends: a pass that finds nothing is repeated on the same copy of the mempool.
   */
  method Assemble(mempool: RdPoS.Mempool, list: seq<Address>, m: nat, functor: Bytes)
    returns (r: Search<seq<TxValidator>>)
    requires m < |list|
    ensures r.Found? ==> Ready(mempool, list, m, functor)
    ensures r.Found? ==> |r.value| == m && Picked(mempool, list, functor, r.value)
    ensures r.Absent? ==> !Ready(mempool, list, m, functor)
    ensures r.PastEnd? ==> exists j :: 1 <= j <= m && !Legible(mempool, list[j])
  {
    var txs := [];
    var i := 1;
    while |txs| != m
      invariant i == |txs| + 1 && |txs| <= m && Picked(mempool, list, functor, txs)
      invariant forall j :: 1 <= j < i ==> Offers(mempool, list[j], functor)
      decreases m - |txs|
    {
      var found := FindTx(mempool, list[i], functor);
      if found.PastEnd? {
        return PastEnd;
      }
      if found.Absent? {
        return Absent;
      }
      PickNext(mempool, list, functor, txs, found.value);
      txs := txs + [found.value];
      i := i + 1;
    }
    r := Found(txs);
  }

  lemma PickNext(mempool: RdPoS.Mempool, list: seq<Address>, functor: Bytes, txs: seq<TxValidator>, tx: TxValidator)
    requires Picked(mempool, list, functor, txs) && |txs| + 1 < |list|
    requires tx in mempool.Values && Fits(tx, list[|txs| + 1], functor)
    ensures Picked(mempool, list, functor, txs + [tx])
  {
    var more := txs + [tx];
    forall i | 0 <= i < |more|
      ensures PickedAt(mempool, list, functor, more, i)
    {
      assert i < |txs| ==> PickedAt(mempool, list, functor, txs, i);
    }
  }

  // ---------------------------------------------------------------- a full mempool is ready

  /** Only commitments and seeds are pending. */
  ghost predicate OnlyRoundTxs(mempool: RdPoS.Mempool) {
    forall h :: h in mempool ==>
      Functor(mempool[h]) == Some(HASH_FUNCTOR) || Functor(mempool[h]) == Some(SEED_FUNCTOR)
  }

  lemma TwoKeys(s: set<Hash>) returns (h: Hash, k: Hash)
    requires |s| == 2
    ensures h in s && k in s && h != k
  {
    h :| h in s;
    assert |s - {h}| == 1;
    k :| k in s - {h};
  }

  lemma NoThirdKey(s: set<Hash>, h: Hash, k: Hash, l: Hash)
    requires |s| <= 2 && h in s && k in s && l in s && h != k
    ensures l == h || l == k
  {
    assert |s - {h}| <= 1 && k in s - {h};
    assert |s - {h} - {k}| == 0;
  }

  /**
   * The creator waits for 2m transactions. Then every participant's commitment and seed are there if and only if
   * nothing else is pending.
   */
  lemma FullMempoolIsReady(hash: TxValidator -> Hash, mempool: RdPoS.Mempool, list: seq<Address>, m: nat, height: nat)
    requires m < |list| && RdPoS.MempoolValid(hash, mempool, list, m, height) && |mempool| >= 2 * m
    ensures Ready(mempool, list, m, HASH_FUNCTOR) && Ready(mempool, list, m, SEED_FUNCTOR) <==> OnlyRoundTxs(mempool)
  {
    if OnlyRoundTxs(mempool) {
      forall j | 1 <= j <= m
        ensures Offers(mempool, list[j], HASH_FUNCTOR) && Offers(mempool, list[j], SEED_FUNCTOR)
      {
        RdPoS.FullMempoolCovers(mempool, list, m, 2, j);
        BothOffered(hash, mempool, list, m, height, list[j]);
      }
    }
    if Ready(mempool, list, m, HASH_FUNCTOR) && Ready(mempool, list, m, SEED_FUNCTOR) {
      forall h | h in mempool
        ensures Functor(mempool[h]) == Some(HASH_FUNCTOR) || Functor(mempool[h]) == Some(SEED_FUNCTOR)
      {
        NothingElseOffered(hash, mempool, list, m, height, h);
      }
    }
  }

  lemma BothOffered(hash: TxValidator -> Hash, mempool: RdPoS.Mempool, list: seq<Address>, m: nat, height: nat,
                    a: Address)
    requires RdPoS.MempoolValid(hash, mempool, list, m, height) && OnlyRoundTxs(mempool)
    requires |RdPoS.SenderKeys(mempool, a)| == 2
    ensures Offers(mempool, a, HASH_FUNCTOR) && Offers(mempool, a, SEED_FUNCTOR)
  {
    var h, k := TwoKeys(RdPoS.SenderKeys(mempool, a));
    assert Functor(mempool[h]) != Functor(mempool[k]);
    assert Fits(mempool[h], a, Functor(mempool[h]).value) && Fits(mempool[k], a, Functor(mempool[k]).value);
  }

  lemma NothingElseOffered(hash: TxValidator -> Hash, mempool: RdPoS.Mempool, list: seq<Address>, m: nat, height: nat,
                           h: Hash)
    requires m < |list| && RdPoS.MempoolValid(hash, mempool, list, m, height) && h in mempool
    requires Ready(mempool, list, m, HASH_FUNCTOR) && Ready(mempool, list, m, SEED_FUNCTOR)
    ensures Functor(mempool[h]) == Some(HASH_FUNCTOR) || Functor(mempool[h]) == Some(SEED_FUNCTOR)
  {
    var a := mempool[h].from;
    assert RdPoS.Participates(list, m, a);
    assert Offers(mempool, a, HASH_FUNCTOR) && Offers(mempool, a, SEED_FUNCTOR);
    var k :| k in mempool && Fits(mempool[k], a, HASH_FUNCTOR);
    var l :| l in mempool && Fits(mempool[l], a, SEED_FUNCTOR);
    NoThirdKey(RdPoS.SenderKeys(mempool, a), k, l, h);
  }

  /** In a full mempool no data is too short for a functor, so the assembly never reads past the end of any. */
  lemma FullMempoolLegible(hash: TxValidator -> Hash, mempool: RdPoS.Mempool, list: seq<Address>, m: nat, height: nat,
                           j: nat)
    requires 1 <= j <= m < |list| && RdPoS.MempoolValid(hash, mempool, list, m, height) && |mempool| >= 2 * m
    ensures Legible(mempool, list[j])
  {
    RdPoS.FullMempoolCovers(mempool, list, m, 2, j);
    var k, l := TwoKeys(RdPoS.SenderKeys(mempool, list[j]));
    forall h | h in mempool && mempool[h].from == list[j]
      ensures Functor(mempool[h]).Some?
    {
      assert k != h || l != h;
    }
  }

  /** A validator transaction that names neither function of the protocol; its signature fields are in range. */
  function Foreign(from: Address, last: Byte, height: U64): TxValidator {
    TxValidator(from, [0, 0, 0, last], 1, height, 37, 1, 1)
  }

  lemma ForeignFunctor(from: Address, last: Byte, height: U64)
    ensures Functor(Foreign(from, last, height)) == Some([0, 0, 0, last])
    ensures [0, 0, 0, last] != HASH_FUNCTOR && [0, 0, 0, last] != SEED_FUNCTOR
  {
    assert Foreign(from, last, height).data[..4] == [0, 0, 0, last];
    assert [0, 0, 0, last][0] != HASH_FUNCTOR[0] && [0, 0, 0, last][0] != SEED_FUNCTOR[0];
  }

  lemma FirstArrives(hash: TxValidator -> Hash, pool: RdPoS.Mempool, list: seq<Address>, m: nat, height: nat,
                     x: TxValidator)
    requires hash(x) !in pool && x.nHeight == height + 1 && RdPoS.Participates(list, m, x.from)
    requires RdPoS.SenderKeys(pool, x.from) == {}
    ensures RdPoS.Arrived(hash, pool, list, m, height, x) == pool[hash(x) := x]
  {
  }

  lemma SecondArrives(hash: TxValidator -> Hash, pool: RdPoS.Mempool, list: seq<Address>, m: nat, height: nat,
                      x: TxValidator, y: TxValidator)
    requires hash(y) !in pool && y.nHeight == height + 1 && RdPoS.Participates(list, m, y.from)
    requires RdPoS.SenderKeys(pool, y.from) == {hash(x)} && hash(x) in pool && pool[hash(x)] == x
    requires Functor(x).Some? && Functor(y).Some? && Functor(x) != Functor(y)
    ensures RdPoS.Arrived(hash, pool, list, m, height, y) == pool[hash(y) := y]
  {
    hide Functor;
    assert |RdPoS.SenderKeys(pool, y.from)| == 1;
  }

  /** The mempool after participants 1 to `j` have each sent two transactions with other functors. */
  ghost function Stuffed(hash: TxValidator -> Hash, list: seq<Address>, m: nat, height: nat, j: nat): RdPoS.Mempool
    requires j < |list| && height + 1 < LIMIT64
  {
    if j == 0 then map[]
    else
      var x, y := Foreign(list[j], 0, height + 1), Foreign(list[j], 1, height + 1);
      RdPoS.Arrived(hash, RdPoS.Arrived(hash, Stuffed(hash, list, m, height, j - 1), list, m, height, x),
                    list, m, height, y)
  }

  /** `tx` is one of the transactions of participants 1 to `j`. */
  ghost predicate ForeignUpTo(list: seq<Address>, height: U64, j: nat, tx: TxValidator)
    requires j < |list|
  {
    exists i :: 1 <= i <= j && (tx == Foreign(list[i], 0, height) || tx == Foreign(list[i], 1, height))
  }

  /** Different transactions of this kind have different hashes. */
  ghost predicate ForeignApart(hash: TxValidator -> Hash, list: seq<Address>, m: nat, height: U64)
    requires m < |list|
  {
    forall t, u :: ForeignUpTo(list, height, m, t) && ForeignUpTo(list, height, m, u) && hash(t) == hash(u) ==> t == u
  }

  ghost predicate StuffedOk(hash: TxValidator -> Hash, pool: RdPoS.Mempool, list: seq<Address>, m: nat, height: nat,
                            j: nat)
    requires j <= m < |list| && height + 1 < LIMIT64
  {
    && RdPoS.MempoolValid(hash, pool, list, m, height) && |pool| == 2 * j
    && forall h :: h in pool ==> h == hash(pool[h]) && ForeignUpTo(list, height + 1, j, pool[h])
  }

  lemma NewcomerUnknown(hash: TxValidator -> Hash, pool: RdPoS.Mempool, list: seq<Address>, m: nat, height: nat, j: nat,
                        last: Byte)
    requires 1 <= j <= m < |list| && height + 1 < LIMIT64 && Distinct(list) && ForeignApart(hash, list, m, height + 1)
    requires last <= 1 && StuffedOk(hash, pool, list, m, height, j - 1)
    ensures hash(Foreign(list[j], last, height + 1)) !in pool && RdPoS.SenderKeys(pool, list[j]) == {}
    ensures ForeignUpTo(list, height + 1, j, Foreign(list[j], last, height + 1))
    ensures ForeignUpTo(list, height + 1, m, Foreign(list[j], last, height + 1))
  {
    hide RdPoS.MempoolValid;
    var tx := Foreign(list[j], last, height + 1);
    assert ForeignUpTo(list, height + 1, m, tx) by {
      assert tx == Foreign(list[j], 0, height + 1) || tx == Foreign(list[j], 1, height + 1);
    }
    forall h | h in pool
      ensures pool[h].from != list[j] && h != hash(tx)
    {
      var i :| 1 <= i <= j - 1
               && (pool[h] == Foreign(list[i], 0, height + 1) || pool[h] == Foreign(list[i], 1, height + 1));
      assert list[i] != list[j];
      assert ForeignUpTo(list, height + 1, m, pool[h]);
    }
  }

  lemma StuffedNext(hash: TxValidator -> Hash, pool: RdPoS.Mempool, list: seq<Address>, m: nat, height: nat, j: nat)
    requires 1 <= j <= m < |list| && height + 1 < LIMIT64 && Distinct(list) && ForeignApart(hash, list, m, height + 1)
    requires StuffedOk(hash, pool, list, m, height, j - 1)
    ensures var x, y := Foreign(list[j], 0, height + 1), Foreign(list[j], 1, height + 1);
            StuffedOk(hash, RdPoS.Arrived(hash, RdPoS.Arrived(hash, pool, list, m, height, x), list, m, height, y),
                      list, m, height, j)
  {
    hide RdPoS.Arrived, RdPoS.MempoolValid, Functor, ForeignUpTo;
    var x, y := Foreign(list[j], 0, height + 1), Foreign(list[j], 1, height + 1);
    NewcomerUnknown(hash, pool, list, m, height, j, 0);
    NewcomerUnknown(hash, pool, list, m, height, j, 1);
    ForeignFunctor(list[j], 0, height + 1);
    ForeignFunctor(list[j], 1, height + 1);
    assert [0, 0, 0, 0][3] != [0, 0, 0, 1][3];
    assert RdPoS.Participates(list, m, list[j]);
    FirstArrives(hash, pool, list, m, height, x);
    var once := pool[hash(x) := x];
    RdPoS.AddTxKeepsValid(hash, pool, list, m, height, x);
    RdPoS.SenderKeysGrow(pool, hash(x), x, list[j]);
    assert hash(x) != hash(y);
    SecondArrives(hash, once, list, m, height, x, y);
    RdPoS.AddTxKeepsValid(hash, once, list, m, height, y);
    EarlierStay(list, height + 1, j, pool);
  }

  lemma EarlierStay(list: seq<Address>, height: U64, j: nat, pool: RdPoS.Mempool)
    requires 1 <= j < |list| && forall h :: h in pool ==> ForeignUpTo(list, height, j - 1, pool[h])
    ensures forall h :: h in pool ==> ForeignUpTo(list, height, j, pool[h])
  {
    forall h | h in pool
      ensures ForeignUpTo(list, height, j, pool[h])
    {
      var i :| 1 <= i <= j - 1 && (pool[h] == Foreign(list[i], 0, height) || pool[h] == Foreign(list[i], 1, height));
    }
  }

  lemma {:induction false} StuffedGrows(hash: TxValidator -> Hash, list: seq<Address>, m: nat, height: nat, j: nat)
    requires j <= m < |list| && height + 1 < LIMIT64 && Distinct(list) && ForeignApart(hash, list, m, height + 1)
    ensures StuffedOk(hash, Stuffed(hash, list, m, height, j), list, m, height, j)
    decreases j
  {
    hide RdPoS.Arrived, ForeignApart, StuffedOk;
    if j == 0 {
      StuffedStart(hash, list, m, height);
    } else {
      StuffedGrows(hash, list, m, height, j - 1);
      StuffedNext(hash, Stuffed(hash, list, m, height, j - 1), list, m, height, j);
    }
  }

  lemma StuffedStart(hash: TxValidator -> Hash, list: seq<Address>, m: nat, height: nat)
    requires m < |list| && height + 1 < LIMIT64
    ensures StuffedOk(hash, map[], list, m, height, 0)
  {
    RdPoS.EmptyMempoolValid(hash, list, m, height);
  }

  /**
   * For every number of participants a full mempool on which the creator never finishes: the functor of an arriving
   * transaction is compared with that of its sender's other one, never with those of the protocol.
   */
  lemma FullMempoolStalls(hash: TxValidator -> Hash, list: seq<Address>, m: nat, height: nat)
    requires 1 <= m < |list| && height + 1 < LIMIT64 && Distinct(list) && ForeignApart(hash, list, m, height + 1)
    ensures var full := Stuffed(hash, list, m, height, m);
            && RdPoS.MempoolValid(hash, full, list, m, height) && |full| == 2 * m
            && !Ready(full, list, m, HASH_FUNCTOR) && !Ready(full, list, m, SEED_FUNCTOR)
  {
    hide Stuffed, RdPoS.MempoolValid, Functor, ForeignApart, Distinct;
    var full := Stuffed(hash, list, m, height, m);
    StuffedGrows(hash, list, m, height, m);
    forall h | h in full
      ensures Functor(full[h]) != Some(HASH_FUNCTOR) && Functor(full[h]) != Some(SEED_FUNCTOR)
    {
      var i :| 1 <= i <= m
               && (full[h] == Foreign(list[i], 0, height + 1) || full[h] == Foreign(list[i], 1, height + 1));
      ForeignFunctor(list[i], 0, height + 1);
      ForeignFunctor(list[i], 1, height + 1);
    }
    assert !Offers(full, list[1], HASH_FUNCTOR) && !Offers(full, list[1], SEED_FUNCTOR);
  }

  // ---------------------------------------------------------------- the assembled round is valid

  /** A commitment and a seed of the same sender. */
  predicate Paired(mempool: RdPoS.Mempool, h: Hash, k: Hash) {
    && h in mempool && k in mempool && mempool[h].from == mempool[k].from
    && Functor(mempool[h]) == Some(HASH_FUNCTOR) && Functor(mempool[k]) == Some(SEED_FUNCTOR)
  }

  /** Every pending seed opens the pending commitment of its sender. */
  ghost predicate AllOpened(sha3: Bytes -> Hash, mempool: RdPoS.Mempool) {
    forall h, k :: Paired(mempool, h, k) ==> Opens(sha3, mempool[h], mempool[k])
  }

  /** A picked transaction is pending under its own hash, for the right height. */
  lemma PickedIsPending(hash: TxValidator -> Hash, mempool: RdPoS.Mempool, list: seq<Address>, m: nat, height: nat,
                        functor: Bytes, txs: seq<TxValidator>, i: nat)
    requires RdPoS.MempoolValid(hash, mempool, list, m, height) && Picked(mempool, list, functor, txs) && i < |txs|
    ensures hash(txs[i]) in mempool && mempool[hash(txs[i])] == txs[i] && txs[i].nHeight == height + 1
    ensures Fits(txs[i], list[i + 1], functor)
  {
    assert PickedAt(mempool, list, functor, txs, i);
    var h :| h in mempool && mempool[h] == txs[i];
  }

  lemma OpenedMeansPairs(hash: TxValidator -> Hash, sha3: Bytes -> Hash, mempool: RdPoS.Mempool, list: seq<Address>,
                         m: nat, height: nat, hashTxs: seq<TxValidator>, seedTxs: seq<TxValidator>)
    requires m < |list| && |hashTxs| == m && |seedTxs| == m && RdPoS.MempoolValid(hash, mempool, list, m, height)
    requires Picked(mempool, list, HASH_FUNCTOR, hashTxs) && Picked(mempool, list, SEED_FUNCTOR, seedTxs)
    requires AllOpened(sha3, mempool)
    ensures PairsValid(sha3, list, m, hashTxs + seedTxs)
  {
    var txs := hashTxs + seedTxs;
    forall i | 0 <= i < m
      ensures PairValid(sha3, list, m, txs, i)
    {
      PickedIsPending(hash, mempool, list, m, height, HASH_FUNCTOR, hashTxs, i);
      PickedIsPending(hash, mempool, list, m, height, SEED_FUNCTOR, seedTxs, i);
      assert Paired(mempool, hash(hashTxs[i]), hash(seedTxs[i]));
      assert txs[i] == hashTxs[i] && txs[i + m] == seedTxs[i];
    }
  }

  lemma PairsMeanOpened(hash: TxValidator -> Hash, sha3: Bytes -> Hash, mempool: RdPoS.Mempool, list: seq<Address>,
                        m: nat, height: nat, hashTxs: seq<TxValidator>, seedTxs: seq<TxValidator>, h: Hash, k: Hash)
    requires m < |list| && |hashTxs| == m && |seedTxs| == m && RdPoS.MempoolValid(hash, mempool, list, m, height)
    requires Picked(mempool, list, HASH_FUNCTOR, hashTxs) && Picked(mempool, list, SEED_FUNCTOR, seedTxs)
    requires PairsValid(sha3, list, m, hashTxs + seedTxs) && Paired(mempool, h, k)
    ensures Opens(sha3, mempool[h], mempool[k])
  {
    var txs := hashTxs + seedTxs;
    assert RdPoS.Participates(list, m, mempool[h].from);
    var j :| 1 <= j <= m && j < |list| && list[j] == mempool[h].from;
    PickedIsPending(hash, mempool, list, m, height, HASH_FUNCTOR, hashTxs, j - 1);
    PickedIsPending(hash, mempool, list, m, height, SEED_FUNCTOR, seedTxs, j - 1);
    assert PairValid(sha3, list, m, txs, j - 1);
    assert txs[j - 1] == hashTxs[j - 1] && txs[j - 1 + m] == seedTxs[j - 1];
  }

  /** The assembled transactions form a valid round exactly when every pending seed opens its commitment. */
  lemma AssembledRound(hash: TxValidator -> Hash, sha3: Bytes -> Hash, mempool: RdPoS.Mempool, list: seq<Address>,
                       m: nat, height: nat, hashTxs: seq<TxValidator>, seedTxs: seq<TxValidator>)
    requires m < |list| && |hashTxs| == m && |seedTxs| == m && RdPoS.MempoolValid(hash, mempool, list, m, height)
    requires Picked(mempool, list, HASH_FUNCTOR, hashTxs) && Picked(mempool, list, SEED_FUNCTOR, seedTxs)
    ensures PairsValid(sha3, list, m, hashTxs + seedTxs) <==> AllOpened(sha3, mempool)
  {
    if AllOpened(sha3, mempool) {
      OpenedMeansPairs(hash, sha3, mempool, list, m, height, hashTxs, seedTxs);
    } else {
      var h, k :| Paired(mempool, h, k) && !Opens(sha3, mempool[h], mempool[k]);
      if PairsValid(sha3, list, m, hashTxs + seedTxs) {
        PairsMeanOpened(hash, sha3, mempool, list, m, height, hashTxs, seedTxs, h, k);
        assert false;
      }
    }
  }

  lemma AssembledHeights(hash: TxValidator -> Hash, mempool: RdPoS.Mempool, list: seq<Address>, m: nat, height: nat,
                         hashTxs: seq<TxValidator>, seedTxs: seq<TxValidator>)
    requires RdPoS.MempoolValid(hash, mempool, list, m, height)
    requires Picked(mempool, list, HASH_FUNCTOR, hashTxs) && Picked(mempool, list, SEED_FUNCTOR, seedTxs)
    ensures SameHeight(hashTxs + seedTxs, height + 1)
  {
    var txs := hashTxs + seedTxs;
    forall i | 0 <= i < |txs|
      ensures txs[i].nHeight == height + 1
    {
      if i < |hashTxs| {
        PickedIsPending(hash, mempool, list, m, height, HASH_FUNCTOR, hashTxs, i);
      } else {
        PickedIsPending(hash, mempool, list, m, height, SEED_FUNCTOR, seedTxs, i - |hashTxs|);
      }
    }
  }

  lemma AssembledDistinct(hash: TxValidator -> Hash, mempool: RdPoS.Mempool, list: seq<Address>, m: nat, height: nat,
                          hashTxs: seq<TxValidator>, seedTxs: seq<TxValidator>)
    requires RdPoS.MempoolValid(hash, mempool, list, m, height) && Distinct(list)
    requires |hashTxs| == m && Picked(mempool, list, HASH_FUNCTOR, hashTxs)
    ensures RdPoS.DistinctHashes(hash, hashTxs + seedTxs, m)
  {
    var txs := hashTxs + seedTxs;
    forall i, j | 0 <= i < j < m
      ensures hash(txs[i]) != hash(txs[j])
    {
      PickedIsPending(hash, mempool, list, m, height, HASH_FUNCTOR, hashTxs, i);
      PickedIsPending(hash, mempool, list, m, height, HASH_FUNCTOR, hashTxs, j);
      assert list[i + 1] != list[j + 1];
    }
  }

  // ---------------------------------------------------------------- the proposal

  /** The block before it is signed. */
  function Draft(f: Format, latest: Block, validatorTxs: seq<TxValidator>, txs: seq<TxBlock>): Block
    requires latest.nHeight + 1 < LIMIT64
  {
    Block(Zeros(65), f.hashOf(latest), ZERO_HASH, ZERO_HASH, ZERO_HASH, latest.timestamp, latest.nHeight + 1,
          validatorTxs, txs, NO_KEY, false)
  }

  lemma {:induction false} PendingPass(hash: TxBlock -> Hash, accounts: Accounts, pending: M.Pending, txs: seq<TxBlock>)
    requires forall i :: 0 <= i < |txs| ==> hash(txs[i]) in pending
    ensures State.JudgeAll(hash, accounts, pending, txs) == NotInvalid
  {
    if txs != [] {
      assert hash(txs[0]) in pending;
      PendingPass(hash, accounts, pending, txs[1..]);
    }
  }

  /**
   * Creator completeness: with the clock not behind, the block assembled from the pending transactions passes
   * validation exactly when every pending seed opens its commitment and the signer is the creator of the round.
   */
  lemma ProposalPasses(
      codec: Codec, f: Format, hash: TxValidator -> Hash, txHash: TxBlock -> Hash, list: seq<Address>, m: nat,
      mempool: RdPoS.Mempool, accounts: Accounts, pending: M.Pending, latest: Block, hashTxs: seq<TxValidator>,
      seedTxs: seq<TxValidator>, txs: seq<TxBlock>, key: PrivKey, clock: U64, b: Block)
    requires m < |list| && Distinct(list) && RdPoS.MempoolValid(hash, mempool, list, m, latest.nHeight)
    requires |hashTxs| == m && Picked(mempool, list, HASH_FUNCTOR, hashTxs)
    requires |seedTxs| == m && Picked(mempool, list, SEED_FUNCTOR, seedTxs)
    requires forall i :: 0 <= i < |txs| ==> txHash(txs[i]) in pending
    requires latest.nHeight + 1 < LIMIT64
    requires Finalize(codec, Draft(f, latest, hashTxs + seedTxs, txs), key, clock) == Some(b)
    ensures State.HeaderFits(f, latest, b) && State.JudgeAll(txHash, accounts, pending, b.txs) == NotInvalid
    ensures RdPoS.AcceptsBlock(codec.crypto, hash, list, m, b) <==>
              AllOpened(codec.crypto.sha3, mempool) && ToAddress(codec.crypto, b.validatorPubKey) == list[0]
  {
    PendingPass(txHash, accounts, pending, txs);
    AssembledRound(hash, codec.crypto.sha3, mempool, list, m, latest.nHeight, hashTxs, seedTxs);
    AssembledHeights(hash, mempool, list, m, latest.nHeight, hashTxs, seedTxs);
    AssembledDistinct(hash, mempool, list, m, latest.nHeight, hashTxs, seedTxs);
  }

  /** Whoever signs with the creator's key and a working signature scheme is recognized as the creator. */
  lemma CreatorIsRecognized(codec: Codec, f: Format, latest: Block, validatorTxs: seq<TxValidator>, txs: seq<TxBlock>,
                            key: PrivKey, clock: U64, b: Block)
    requires latest.nHeight + 1 < LIMIT64 && Finalize(codec, Draft(f, latest, validatorTxs, txs), key, clock) == Some(b)
    requires SignRecovers(codec.crypto, BlockHash(codec, b), key)
    ensures ToAddress(codec.crypto, b.validatorPubKey) == ToAddress(codec.crypto, codec.crypto.toUPub(key))
  {
    var draft := Draft(f, latest, validatorTxs, txs);
    var filled := draft.(timestamp := clock,
                         txMerkleRoot := ItemsRoot(codec, TxItems(codec, draft.txs)),
                         validatorMerkleRoot := ItemsRoot(codec, ValidatorItems(codec, draft.txValidators)),
                         blockRandomness := Randomness(codec.crypto.sha3, draft.txValidators));
    assert Header(b) == Header(filled);
  }

  /** Append every pending transaction, in whatever order the map yields them. */
  method FillBlock(builder: BlockBuilder, hash: TxBlock -> Hash, pending: M.Pending)
    requires !builder.block.finalized && builder.block.txs == [] && forall h :: h in pending ==> hash(pending[h]) == h
    modifies builder
    ensures builder.block == old(builder.block).(txs := builder.block.txs)
    ensures forall i :: 0 <= i < |builder.block.txs| ==> hash(builder.block.txs[i]) in pending
    ensures |builder.block.txs| == |pending| && M.Hashes(hash, builder.block.txs) == pending.Keys
  {
    var todo := pending.Keys;
    while todo != {}
      invariant todo <= pending.Keys && |builder.block.txs| == |pending.Keys| - |todo|
      invariant M.Hashes(hash, builder.block.txs) == pending.Keys - todo
      invariant builder.block == old(builder.block).(txs := builder.block.txs)
      invariant forall i :: 0 <= i < |builder.block.txs| ==> hash(builder.block.txs[i]) in pending
      decreases todo
    {
      var h :| h in todo;
      M.HashesAppend(hash, builder.block.txs, pending[h]);
      var ok := builder.AppendTx(pending[h]);
      todo := todo - {h};
    }
    assert |pending.Keys| == |pending|;
  }

  method AppendAll(builder: BlockBuilder, txs: seq<TxValidator>)
    requires !builder.block.finalized
    modifies builder
    ensures builder.block == old(builder.block).(txValidators := old(builder.block.txValidators) + txs)
  {
    for i := 0 to |txs|
      invariant builder.block == old(builder.block).(txValidators := old(builder.block.txValidators) + txs[..i])
    {
      var ok := builder.AppendTxValidator(txs[i]);
      assert old(builder.block.txValidators) + txs[..i] + [txs[i]] == old(builder.block.txValidators) + txs[..i + 1];
    }
    assert txs[..|txs|] == txs;
  }

  /**
   * Assemble, fill and sign the next block, once 2m validator transactions are pending. There is none when the
   * assembly never ends, and signing fails when the clock is behind the latest block.
   */
  method CreateBlock(
      codec: Codec, f: Format, hash: TxValidator -> Hash, txHash: TxBlock -> Hash, list: seq<Address>, m: nat,
      mempool: RdPoS.Mempool, ghost accounts: Accounts, pending: M.Pending, latest: Block, key: PrivKey, clock: U64)
    returns (stuck: bool, r: Option<Block>)
    requires m < |list| && Distinct(list) && RdPoS.MempoolValid(hash, mempool, list, m, latest.nHeight)
    requires |mempool| >= 2 * m && latest.nHeight + 1 < LIMIT64 && forall h :: h in pending ==> txHash(pending[h]) == h
    ensures stuck <==> !OnlyRoundTxs(mempool)
    ensures r.Some? <==> !stuck && clock >= latest.timestamp
    ensures r.Some? ==> State.HeaderFits(f, latest, r.value)
    ensures r.Some? ==> State.JudgeAll(txHash, accounts, pending, r.value.txs) == NotInvalid
    ensures r.Some? ==> |r.value.txs| == |pending| && M.Hashes(txHash, r.value.txs) == pending.Keys
    ensures r.Some? ==> r.value.timestamp == clock
    ensures r.Some? ==> r.value.blockRandomness == Randomness(codec.crypto.sha3, r.value.txValidators)
    ensures r.Some? && SignRecovers(codec.crypto, BlockHash(codec, r.value), key) ==>
              (RdPoS.AcceptsBlock(codec.crypto, hash, list, m, r.value) <==>
                 AllOpened(codec.crypto.sha3, mempool) && ToAddress(codec.crypto, codec.crypto.toUPub(key)) == list[0])
  {
    hide RdPoS.MempoolValid, RdPoS.AcceptsBlock, AllOpened, Finalize, BlockHash, SignRecovers, Ready, Picked, Legible;
    hide OnlyRoundTxs;
    FullMempoolIsReady(hash, mempool, list, m, latest.nHeight);
    forall j | 1 <= j <= m
      ensures Legible(mempool, list[j])
    {
      FullMempoolLegible(hash, mempool, list, m, latest.nHeight, j);
    }
    var hashTxs := Assemble(mempool, list, m, HASH_FUNCTOR);
    if hashTxs.Absent? {
      return true, None;
    }
    var seedTxs := Assemble(mempool, list, m, SEED_FUNCTOR);
    if seedTxs.Absent? {
      return true, None;
    }
    stuck := false;
    r := SignBlock(codec, f, txHash, hashTxs.value, seedTxs.value, pending, latest, key, clock);
    if r.Some? {
      ghost var b := r.value;
      FinalizedFields(codec, Draft(f, latest, hashTxs.value + seedTxs.value, b.txs), key, clock, b);
      ProposalPasses(codec, f, hash, txHash, list, m, mempool, accounts, pending, latest, hashTxs.value, seedTxs.value,
                     b.txs, key, clock, b);
      if SignRecovers(codec.crypto, BlockHash(codec, b), key) {
        CreatorIsRecognized(codec, f, latest, hashTxs.value + seedTxs.value, b.txs, key, clock, b);
      }
    }
  }

  lemma FinalizedFields(codec: Codec, draft: Block, key: PrivKey, clock: U64, b: Block)
    requires Finalize(codec, draft, key, clock) == Some(b)
    ensures b.timestamp == clock && b.blockRandomness == Randomness(codec.crypto.sha3, b.txValidators)
  {
  }

  /** Put the picked transactions and everything pending into a block and sign it. */
  method SignBlock(codec: Codec, f: Format, txHash: TxBlock -> Hash, hashTxs: seq<TxValidator>,
                   seedTxs: seq<TxValidator>, pending: M.Pending, latest: Block, key: PrivKey, clock: U64)
    returns (r: Option<Block>)
    requires latest.nHeight + 1 < LIMIT64 && forall h :: h in pending ==> txHash(pending[h]) == h
    ensures r.Some? <==> clock >= latest.timestamp
    ensures r.Some? ==> Finalize(codec, Draft(f, latest, hashTxs + seedTxs, r.value.txs), key, clock) == r
    ensures r.Some? ==> |r.value.txs| == |pending| && M.Hashes(txHash, r.value.txs) == pending.Keys
    ensures r.Some? ==> forall i :: 0 <= i < |r.value.txs| ==> txHash(r.value.txs[i]) in pending
  {
    var builder := new BlockBuilder(codec, f.hashOf(latest), latest.timestamp, latest.nHeight + 1);
    AppendAll(builder, hashTxs);
    AppendAll(builder, seedTxs);
    FillBlock(builder, txHash, pending);
    assert [] + hashTxs + seedTxs == hashTxs + seedTxs;
    assert builder.block == Draft(f, latest, hashTxs + seedTxs, builder.block.txs);
    var ok := builder.FinalizeBlock(key, clock);
    r := if ok then Some(builder.block) else None;
  }

  // ---------------------------------------------------------------- the verdict of the node

  /**
   * What comes of a creator's turn: it waits for more transactions, its assembly never ends, its own node refuses the
   * block, or the block is proposed.
   */
  datatype Proposal = Waiting | Stuck | Refused | Proposed(block: Block)

  /** The creator waits for 2m validator transactions, and then for one transaction to put into the block. */
  predicate MustWait(s: State.State)
    reads s, s.rdpos
  {
    |s.rdpos.validatorMempool| < 2 * s.rdpos.minValidators || s.mempool == map[]
  }

  /** The node holds the key of the round's creator. */
  predicate Leads(s: State.State, key: PrivKey)
    reads s.rdpos
    requires s.rdpos.randomList != []
  {
    ToAddress(s.rdpos.crypto, s.rdpos.crypto.toUPub(key)) == s.rdpos.randomList[0]
  }

  /** The block follows the latest one, and its randomness is the hash of the m seeds it carries. */
  ghost predicate Carries(s: State.State, b: Block)
    reads s.storage, s.rdpos
    requires s.storage.history != []
  {
    var m := s.rdpos.minValidators;
    && b.prevBlockHash == s.storage.format.hashOf(s.Latest()) && b.nHeight == s.Latest().nHeight + 1
    && |b.txValidators| == 2 * m
    && b.blockRandomness == if m == 0 then Zeros(32) else s.rdpos.crypto.sha3(Concat(Seeds(m, b.txValidators)))
  }

  /**
   * Creator completeness: with a signature scheme that works for its key, a node that need not wait proposes a block
   * exactly when only commitments and seeds are pending, each seed opens its commitment, the clock is not behind and
   * the node is the creator. What it proposes passes its own validation and carries everything pending.
   */
  method ProposeBlock(s: State.State, codec: Codec, key: PrivKey, clock: U64) returns (r: Proposal)
    requires s.Stored() && s.Synced() && s.Payable() && s.Latest().nHeight + 1 < LIMIT64
    requires codec.crypto == s.rdpos.crypto && forall h :: SignRecovers(codec.crypto, h, key)
    ensures s.rdpos.minValidators < |s.rdpos.randomList|
    ensures r.Waiting? <==> MustWait(s)
    ensures r.Stuck? <==> !MustWait(s) && !OnlyRoundTxs(s.rdpos.validatorMempool)
    ensures r.Proposed? <==>
              && !MustWait(s) && OnlyRoundTxs(s.rdpos.validatorMempool) && clock >= s.Latest().timestamp
              && AllOpened(codec.crypto.sha3, s.rdpos.validatorMempool) && Leads(s, key)
    ensures r.Proposed? ==> s.CheckOf(r.block) == State.Passed && M.Hashes(s.hash, r.block.txs) == s.mempool.Keys
    ensures r.Proposed? ==> Carries(s, r.block) && r.block.timestamp == clock
  {
    hide RdPoS.MempoolValid, RdPoS.AcceptsBlock, OnlyRoundTxs, AllOpened, BlockHash, SignRecovers, State.JudgeAll,
      State.HeaderFits, M.Hashes, Distinct, Ascending, RandomList, Carries, ToAddress, Randomness;
    var latest := s.storage.Latest();
    RoundIsDistinct(s);
    if |s.rdpos.validatorMempool| < 2 * s.rdpos.minValidators {
      return Waiting;
    }
    if |s.mempool| < 1 {
      return Waiting;
    }
    var list, m := s.rdpos.randomList, s.rdpos.minValidators;
    var stuck, created := CreateBlock(codec, s.storage.format, s.rdpos.hash, s.hash, list, m, s.rdpos.validatorMempool,
                                      s.accounts, s.mempool, latest, key, clock);
    if stuck {
      return Stuck;
    }
    if created.None? {
      return Refused;
    }
    assert SignRecovers(codec.crypto, BlockHash(codec, created.value), key);
    var check := s.ValidateNextBlock(created.value);
    if check == State.Passed {
      PassedCarries(s, created.value);
    }
    r := if check == State.Passed then Proposed(created.value) else Refused;
  }

  lemma PassedCarries(s: State.State, b: Block)
    requires s.storage.history != [] && s.CheckOf(b) == State.Passed
    requires b.blockRandomness == Randomness(s.rdpos.crypto.sha3, b.txValidators)
    ensures Carries(s, b)
  {
    hide RdPoS.AcceptsBlock, State.JudgeAll, Randomness;
    RdPoS.AcceptedLengths(s.rdpos.crypto, s.rdpos.hash, s.rdpos.randomList, s.rdpos.minValidators, b);
    RdPoS.AcceptedRandomness(s.rdpos.crypto, s.rdpos.hash, s.rdpos.randomList, s.rdpos.minValidators, b);
  }

  lemma RoundIsDistinct(s: State.State)
    requires s.Synced()
    ensures s.rdpos.minValidators < |s.rdpos.randomList| && Distinct(s.rdpos.randomList)
  {
    RandomListIsPermutation(s.rdpos.crypto.sha3, s.rdpos.validators, s.Latest().blockRandomness);
  }
}

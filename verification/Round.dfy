/** One rdPoS round: commitments, the seeds that open them, and the randomness they yield. */
module Round {
  import opened Bytes
  import opened Rlp
  import opened TxValidators

  const HASH_FUNCTOR: Bytes := [0xcf, 0xff, 0xe7, 0x46]
  const SEED_FUNCTOR: Bytes := [0x6f, 0xc5, 0xa2, 0xd6]

  datatype TxFunction = Invalid | RandomHash | RandomSeed

  /** The first four bytes of the data; `None` when there are fewer and the source reads past their end. */
  function Functor(tx: TxValidator): Option<Bytes> {
    if |tx.data| < 4 then None else Some(tx.data[..4])
  }

  function FunctionOf(tx: TxValidator): TxFunction {
    if |tx.data| != 36 then Invalid
    else if Functor(tx) == Some(HASH_FUNCTOR) then RandomHash
    else if Functor(tx) == Some(SEED_FUNCTOR) then RandomSeed
    else Invalid
  }

  /** The two functions, in the bytes of the data: four bytes that name one of them, and 32 more. */
  lemma FunctionExactly(tx: TxValidator)
    ensures FunctionOf(tx) == RandomHash <==> |tx.data| == 36 && FromBigEndian(tx.data[..4]) == 0xcfffe746
    ensures FunctionOf(tx) == RandomSeed <==> |tx.data| == 36 && FromBigEndian(tx.data[..4]) == 0x6fc5a2d6
  {
    if |tx.data| == 36 {
      FourBytes(tx.data[..4], 0xcf, 0xff, 0xe7, 0x46);
      FourBytes(tx.data[..4], 0x6f, 0xc5, 0xa2, 0xd6);
    }
  }

  lemma FourBytes(s: Bytes, a: Byte, b: Byte, c: Byte, d: Byte)
    requires |s| == 4
    ensures s == [a, b, c, d] <==> FromBigEndian(s) == 0x100_0000 * a + 0x1_0000 * b + 0x100 * c + d
  {
    var w: int, x: int, y: int, z: int := s[0], s[1], s[2], s[3];
    assert s[..3][..2] == s[..2] && s[..2][..1] == s[..1] && s[..1][..0] == [];
    assert FromBigEndian(s[..1]) == w;
    assert FromBigEndian(s[..2]) == 256 * w + x;
    assert FromBigEndian(s[..3]) == 256 * (256 * w + x) + y;
    assert FromBigEndian(s) == 256 * (256 * (256 * w + x) + y) + z;
  }

  /** What follows the functor: the committed hash, or the revealed seed. */
  function Body(tx: TxValidator): Bytes {
    if |tx.data| < 4 then [] else tx.data[4..]
  }

  function Contribution(tx: TxValidator): Bytes {
    if FunctionOf(tx) == RandomSeed then Body(tx) else []
  }

  function CollectSeeds(txs: seq<TxValidator>): Bytes {
    if txs == [] then [] else Contribution(txs[0]) + CollectSeeds(txs[1..])
  }

  /** The randomness a list of validator transactions yields. */
  function Randomness(sha3: Bytes -> Hash, txs: seq<TxValidator>): Hash {
    if txs == [] then ZERO_HASH else sha3(CollectSeeds(txs))
  }

  method ParseTxSeedList(sha3: Bytes -> Hash, txs: seq<TxValidator>) returns (r: Hash)
    ensures r == Randomness(sha3, txs)
  {
    var seed: Bytes := [];
    if |txs| == 0 {
      return ZERO_HASH;
    }
    assert txs[0..] == txs;
    for i := 0 to |txs|
      invariant seed + CollectSeeds(txs[i..]) == CollectSeeds(txs)
    {
      Assoc(seed, Contribution(txs[i]), CollectSeeds(txs[i + 1..]));
      if FunctionOf(txs[i]) == RandomSeed {
        seed := seed + Body(txs[i]);
      } else {
        assert seed + [] == seed;
      }
    }
    assert txs[|txs|..] == [] && seed + [] == seed;
    r := sha3(seed);
  }

  /** `seedTx` reveals what `hashTx` committed to. */
  predicate Opens(sha3: Bytes -> Hash, hashTx: TxValidator, seedTx: TxValidator) {
    && FunctionOf(hashTx) == RandomHash
    && FunctionOf(seedTx) == RandomSeed
    && hashTx.from == seedTx.from
    && sha3(Body(seedTx)) == Body(hashTx)
  }

  /** The i-th commitment and its seed both come from `list[i + 1]`, and the seed opens the commitment. */
  predicate PairValid(sha3: Bytes -> Hash, list: seq<Address>, m: nat, txs: seq<TxValidator>, i: nat)
    requires |list| > m && |txs| == 2 * m && i < m
  {
    && txs[i].from == list[i + 1]
    && txs[i + m].from == list[i + 1]
    && Opens(sha3, txs[i], txs[i + m])
  }

  ghost predicate PairsValid(sha3: Bytes -> Hash, list: seq<Address>, m: nat, txs: seq<TxValidator>) {
    && |list| > m && |txs| == 2 * m
    && forall i :: 0 <= i < m ==> PairValid(sha3, list, m, txs, i)
  }

  /** The revealed seeds, in the order of the random list. */
  function Seeds(m: nat, txs: seq<TxValidator>): (r: seq<Bytes>)
    requires |txs| == 2 * m
    ensures |r| == m
  {
    seq(m, i requires 0 <= i < m => Body(txs[i + m]))
  }

  lemma {:induction false} CommitmentsSkipped(m: nat, txs: seq<TxValidator>, i: nat)
    requires i <= m <= |txs|
    requires forall k :: 0 <= k < m ==> FunctionOf(txs[k]) == RandomHash
    ensures CollectSeeds(txs[i..]) == CollectSeeds(txs[m..])
    decreases m - i
  {
    if i < m {
      CommitmentsSkipped(m, txs, i + 1);
    }
  }

  lemma {:induction false} SeedsCollected(m: nat, txs: seq<TxValidator>, i: nat)
    requires i <= m && |txs| == 2 * m
    requires forall k :: m <= k < 2 * m ==> FunctionOf(txs[k]) == RandomSeed
    ensures CollectSeeds(txs[m + i..]) == Concat(Seeds(m, txs)[i..])
    decreases m - i
  {
    if i < m {
      SeedsCollected(m, txs, i + 1);
    }
  }

  /** The i-th seed is 32 bytes long and opens what `list[i + 1]` committed to. */
  predicate Committed(sha3: Bytes -> Hash, list: seq<Address>, m: nat, txs: seq<TxValidator>, i: nat)
    requires |list| > m && |txs| == 2 * m && i < m
  {
    && |Seeds(m, txs)[i]| == 32
    && sha3(Seeds(m, txs)[i]) == Body(txs[i])
    && txs[i].from == list[i + 1] == txs[i + m].from
  }

  lemma RoundFunctions(sha3: Bytes -> Hash, list: seq<Address>, m: nat, txs: seq<TxValidator>)
    requires PairsValid(sha3, list, m, txs)
    ensures forall k :: 0 <= k < m ==> FunctionOf(txs[k]) == RandomHash
    ensures forall k :: m <= k < 2 * m ==> FunctionOf(txs[k]) == RandomSeed
  {
    forall k | 0 <= k < m
      ensures FunctionOf(txs[k]) == RandomHash
    {
      assert PairValid(sha3, list, m, txs, k);
    }
    forall k | m <= k < 2 * m
      ensures FunctionOf(txs[k]) == RandomSeed
    {
      assert PairValid(sha3, list, m, txs, k - m);
    }
  }

  lemma RoundCommitted(sha3: Bytes -> Hash, list: seq<Address>, m: nat, txs: seq<TxValidator>, i: nat)
    requires PairsValid(sha3, list, m, txs) && i < m
    ensures Committed(sha3, list, m, txs, i)
  {
    assert PairValid(sha3, list, m, txs, i);
  }

  lemma SkipCommitments(m: nat, txs: seq<TxValidator>)
    requires m <= |txs| && forall k :: 0 <= k < m ==> FunctionOf(txs[k]) == RandomHash
    ensures CollectSeeds(txs) == CollectSeeds(txs[m..])
  {
    CommitmentsSkipped(m, txs, 0);
  }

  lemma GatherSeeds(m: nat, txs: seq<TxValidator>)
    requires |txs| == 2 * m && forall k :: m <= k < 2 * m ==> FunctionOf(txs[k]) == RandomSeed
    ensures CollectSeeds(txs[m..]) == Concat(Seeds(m, txs))
  {
    SeedsCollected(m, txs, 0);
  }

  /** The randomness of a valid round: the hash of all m seeds, each 32 bytes long and committed to. */
  lemma RoundRandomness(sha3: Bytes -> Hash, list: seq<Address>, m: nat, txs: seq<TxValidator>)
    requires PairsValid(sha3, list, m, txs)
    ensures Randomness(sha3, txs) == if m == 0 then Zeros(32) else sha3(Concat(Seeds(m, txs)))
    ensures forall i :: 0 <= i < m ==> Committed(sha3, list, m, txs, i)
  {
    RoundFunctions(sha3, list, m, txs);
    SkipCommitments(m, txs);
    GatherSeeds(m, txs);
    forall i | 0 <= i < m
      ensures Committed(sha3, list, m, txs, i)
    {
      RoundCommitted(sha3, list, m, txs, i);
    }
  }

  /** Commitments bind: two valid rounds with the same commitments have the same randomness. */
  lemma CommitmentsFixRandomness(
      sha3: Bytes -> Hash, list: seq<Address>, m: nat, txs: seq<TxValidator>, others: seq<TxValidator>)
    requires m >= 1 && PairsValid(sha3, list, m, txs) && PairsValid(sha3, list, m, others)
    requires forall i :: 0 <= i < m ==> Body(txs[i]) == Body(others[i])
    requires forall i :: 0 <= i < m ==>
               sha3(Seeds(m, txs)[i]) == sha3(Seeds(m, others)[i]) ==> Seeds(m, txs)[i] == Seeds(m, others)[i]
    ensures Randomness(sha3, txs) == Randomness(sha3, others)
  {
    RoundRandomness(sha3, list, m, txs);
    RoundRandomness(sha3, list, m, others);
    forall i | 0 <= i < m
      ensures Seeds(m, txs)[i] == Seeds(m, others)[i]
    {
      assert Committed(sha3, list, m, txs, i) && Committed(sha3, list, m, others, i);
    }
    assert Seeds(m, txs) == Seeds(m, others);
  }
}

/** The commit-reveal protocol goes on: whatever seeds the validators choose, every height is reached. */
module Progress {
  import opened Bytes
  import opened Crypto
  import opened RandomGen
  import opened Leader
  import opened Round
  import opened TxValidators
  import opened Blocks
  import opened RdPoS
  import opened CommitReveal
  import Runs = RevealRuns

  /** The seed each validator chooses for each height. */
  type Plan = (Address, nat) -> Hash

  function Commitment(s: Setup, plan: Plan, a: Address, h: U64): TxValidator {
    TxValidator(a, HASH_FUNCTOR + s.crypto.sha3(plan(a, h)), 1, h, 37, 1, 1)
  }

  function Opening(s: Setup, plan: Plan, a: Address, h: U64): TxValidator {
    TxValidator(a, SEED_FUNCTOR + plan(a, h), 1, h, 37, 1, 1)
  }

  ghost predicate HasKey(s: Setup, a: Address) {
    exists key: PubKey :: ToAddress(s.crypto, key) == a
  }

  /** Commitments of different validators for one height have different hashes. */
  ghost predicate Apart(s: Setup, plan: Plan, a: Address, b: Address, h: U64) {
    s.hash(Commitment(s, plan, a, h)) == s.hash(Commitment(s, plan, b, h)) ==> a == b
  }

  ghost predicate Able(s: Setup, plan: Plan) {
    && SetupOk(s)
    && (forall a :: a in s.validators ==> HasKey(s, a))
    && (forall a, b, h :: a in s.validators && b in s.validators ==> Apart(s, plan, a, b, h))
  }

  /** The order of the round after the last block of the chain. */
  ghost function Order(s: Setup, chain: seq<Block>): (r: seq<Address>)
    requires chain != []
    ensures |r| == |s.validators|
  {
    ListAt(s, chain, |chain|)
  }

  lemma OrderDistinct(s: Setup, chain: seq<Block>)
    requires SetupOk(s) && chain != []
    ensures Distinct(Order(s, chain)) && forall a :: a in Order(s, chain) <==> a in s.validators
  {
    RandomListIsPermutation(s.crypto.sha3, s.validators, chain[|chain| - 1].blockRandomness);
  }

  // ---------------------------------------------------------------- collecting commitments

  /** `tx` is the commitment of a participant and stands under its hash. */
  ghost predicate Belongs(s: Setup, plan: Plan, list: seq<Address>, h: U64, x: Hash, tx: TxValidator)
    requires s.m < |list|
  {
    exists i :: 1 <= i <= s.m && tx == Commitment(s, plan, list[i], h) && x == s.hash(tx)
  }

  /** The pool holds commitments of participants only, among them those of the first `k`. */
  ghost predicate Collected(s: Setup, plan: Plan, list: seq<Address>, h: U64, pool: Mempool, k: nat)
    requires k <= s.m < |list|
  {
    && (forall i :: 1 <= i <= k ==> s.hash(Commitment(s, plan, list[i], h)) in pool)
    && (forall x :: x in pool ==> Belongs(s, plan, list, h, x, pool[x]))
  }

  /** A participant's commitment that arrives is in the pool afterwards. */
  lemma CommitmentArrives(s: Setup, plan: Plan, list: seq<Address>, h: U64, pool: Mempool, k: nat, j: nat)
    requires k <= s.m < |list| && 1 <= j <= s.m && h >= 1 && Distinct(list)
    requires Collected(s, plan, list, h, pool, k)
    ensures var c := Commitment(s, plan, list[j], h);
            var after := Arrived(s.hash, pool, list, s.m, h - 1, c);
            Collected(s, plan, list, h, after, k) && s.hash(c) in after
  {
    var c := Commitment(s, plan, list[j], h);
    if s.hash(c) !in pool {
      assert Participates(list, s.m, c.from);
      forall x | x in pool
        ensures pool[x].from != c.from
      {
        assert Belongs(s, plan, list, h, x, pool[x]);
      }
      assert SenderKeys(pool, c.from) == {};
      assert Belongs(s, plan, list, h, s.hash(c), c);
    }
  }

  /** The hashes of the commitments of the first `k` participants. */
  ghost function Names(s: Setup, plan: Plan, list: seq<Address>, h: U64, k: nat): set<Hash>
    requires k < |list|
  {
    set i | 1 <= i <= k :: s.hash(Commitment(s, plan, list[i], h))
  }

  lemma AreApart(s: Setup, plan: Plan, a: Address, b: Address, h: U64)
    requires Able(s, plan) && a in s.validators && b in s.validators && a != b
    ensures s.hash(Commitment(s, plan, a, h)) != s.hash(Commitment(s, plan, b, h))
  {
    hide Commitment;
    assert Apart(s, plan, a, b, h);
  }

  lemma {:induction false} NamesCount(s: Setup, plan: Plan, list: seq<Address>, h: U64, k: nat)
    requires Able(s, plan) && k < |list| && Distinct(list) && forall a :: a in list ==> a in s.validators
    ensures |Names(s, plan, list, h, k)| == k
    decreases k
  {
    hide Commitment, Able;
    if k > 0 {
      NamesCount(s, plan, list, h, k - 1);
      var before, last := Names(s, plan, list, h, k - 1), s.hash(Commitment(s, plan, list[k], h));
      assert last !in before by {
        forall i | 1 <= i < k
          ensures s.hash(Commitment(s, plan, list[i], h)) != last
        {
          AreApart(s, plan, list[i], list[k], h);
        }
      }
      assert Names(s, plan, list, h, k) == before + {last};
    }
  }

  /** Whoever holds the commitments of all m participants holds at least m transactions. */
  lemma CollectedFills(s: Setup, plan: Plan, list: seq<Address>, h: U64, pool: Mempool)
    requires Able(s, plan) && s.m < |list| && Distinct(list) && forall a :: a in list ==> a in s.validators
    requires Collected(s, plan, list, h, pool, s.m)
    ensures |pool| >= s.m
  {
    hide Commitment, Able;
    NamesCount(s, plan, list, h, s.m);
    var names := Names(s, plan, list, h, s.m);
    assert names <= pool.Keys;
    assert pool.Keys == names + (pool.Keys - names);
  }

  // ---------------------------------------------------------------- one round

  /** Participant `i` of the round when `c` have committed and `r` have revealed. */
  ghost predicate InTurn(s: Setup, plan: Plan, chain: seq<Block>, n: Network, c: nat, r: nat, i: nat)
    requires chain != [] && |chain| < LIMIT64 && 1 <= i <= s.m < |s.validators|
  {
    var list, h := Order(s, chain), |chain|;
    var a := list[i];
    && a in n.peers
    && (i <= c ==> Commitment(s, plan, a, h) in n.sent)
    && (i <= r ==> Opening(s, plan, a, h) in n.sent)
    && n.peers[a].worker == (if i <= r then Resting else if i <= c then Waiting(Opening(s, plan, a, h)) else Idle)
    && (i > r ==> Collected(s, plan, list, h, n.peers[a].mempool, 0))
  }

  /** Nothing goes on at the node: its worker does not wait, unless it takes part and has not revealed. */
  ghost predicate Quiet(list: seq<Address>, n: Network, c: nat, r: nat, a: Address)
    requires c < |list| && a in n.peers
  {
    n.peers[a].worker.Idle? || n.peers[a].worker.Resting? || exists i :: r < i <= c && list[i] == a
  }

  /** All validators' nodes run and are at the last block; `c` participants have committed and `r` have revealed. */
  ghost predicate Stage(s: Setup, plan: Plan, chain: seq<Block>, n: Network, c: nat, r: nat)
    requires s.m < |s.validators|
  {
    && chain != [] && |chain| < LIMIT64 && n.chain == chain && r <= c <= s.m
    && (forall a :: a in n.peers <==> a in s.validators)
    && (forall a :: a in n.peers ==> n.peers[a].height == |chain| - 1 == n.peers[a].seen)
    && (forall a :: a in n.peers ==> Quiet(Order(s, chain), n, c, r, a))
    && (forall i :: 1 <= i <= s.m ==> InTurn(s, plan, chain, n, c, r, i))
  }

  /** The next participant commits. */
  lemma CommitNext(s: Setup, plan: Plan, chain: seq<Block>, n: Network, c: nat) returns (after: Network)
    requires SetupOk(s) && c < s.m && Stage(s, plan, chain, n, c, 0) && Runs.Reach(s, n)
    ensures Stage(s, plan, chain, after, c + 1, 0) && Runs.Reach(s, after)
  {
    hide Runs.Reach, Collected, Commitment, Opening;
    var list, h, d := Order(s, chain), |chain|, c + 1;
    OrderDistinct(s, chain);
    var a := list[d];
    assert InTurn(s, plan, chain, n, c, 0, d);
    var step := Commit(a, plan(a, h), Commitment(s, plan, a, h), Opening(s, plan, a, h));
    CommitEnabled(s, plan, chain, n, c);
    after := Apply(s, n, step);
    Runs.ReachStep(s, n, step, after);
    CommitmentArrives(s, plan, list, h, n.peers[a].mempool, 0, d);
    forall i | 1 <= i <= s.m
      ensures InTurn(s, plan, chain, after, d, 0, i)
    {
      assert InTurn(s, plan, chain, n, c, 0, i);
    }
    forall b | b in after.peers
      ensures Quiet(list, after, d, 0, b)
    {
      assert Quiet(list, n, c, 0, b);
    }
  }

  lemma CommitEnabled(s: Setup, plan: Plan, chain: seq<Block>, n: Network, c: nat)
    requires SetupOk(s) && c < s.m && Stage(s, plan, chain, n, c, 0)
    ensures var a, h := Order(s, chain)[c + 1], |chain|;
            Well(n) && Enabled(s, n, Commit(a, plan(a, h), Commitment(s, plan, a, h), Opening(s, plan, a, h)))
  {
    assert InTurn(s, plan, chain, n, c, 0, c + 1);
  }

  lemma {:induction false} AllCommit(s: Setup, plan: Plan, chain: seq<Block>, n: Network, c: nat)
    returns (after: Network)
    requires SetupOk(s) && c <= s.m && Stage(s, plan, chain, n, 0, 0) && Runs.Reach(s, n)
    ensures Stage(s, plan, chain, after, c, 0) && Runs.Reach(s, after)
    decreases c
  {
    hide Stage, Runs.Reach;
    if c == 0 {
      after := n;
    } else {
      var before := AllCommit(s, plan, chain, n, c - 1);
      after := CommitNext(s, plan, chain, before, c - 1);
    }
  }

  /** All have committed, and the next participant to reveal has received the first `k` commitments. */
  ghost predicate Receives(s: Setup, plan: Plan, chain: seq<Block>, n: Network, r: nat, k: nat)
    requires r < s.m < |s.validators| && k <= s.m
  {
    && Stage(s, plan, chain, n, s.m, r)
    && var list := Order(s, chain);
       list[r + 1] in n.peers && Collected(s, plan, list, |chain|, n.peers[list[r + 1]].mempool, k)
  }

  lemma DeliverTaken(s: Setup, plan: Plan, chain: seq<Block>, n: Network, r: nat, k: nat)
    returns (after: Network, pool: Mempool)
    requires SetupOk(s) && r < s.m && k < s.m && Receives(s, plan, chain, n, r, k) && Runs.Reach(s, n)
    ensures Runs.Reach(s, after) && Collected(s, plan, Order(s, chain), |chain|, pool, k + 1)
    ensures var a := Order(s, chain)[r + 1]; after == n.(peers := n.peers[a := n.peers[a].(mempool := pool)])
  {
    hide Runs.Reach, Commitment, Opening, Quiet, Arrived;
    var list, h := Order(s, chain), |chain|;
    OrderDistinct(s, chain);
    var a, c := list[r + 1], Commitment(s, plan, list[k + 1], h);
    assert c in n.sent by {
      assert InTurn(s, plan, chain, n, s.m, r, k + 1);
    }
    hide InTurn;
    after := Apply(s, n, Deliver(a, c));
    pool := after.peers[a].mempool;
    Runs.ReachStep(s, n, Deliver(a, c), after);
    CommitmentArrives(s, plan, list, h, n.peers[a].mempool, k, k + 1);
  }

  lemma DeliverNext(s: Setup, plan: Plan, chain: seq<Block>, n: Network, r: nat, k: nat) returns (after: Network)
    requires SetupOk(s) && r < s.m && k < s.m && Receives(s, plan, chain, n, r, k) && Runs.Reach(s, n)
    ensures Receives(s, plan, chain, after, r, k + 1) && Runs.Reach(s, after)
  {
    hide Runs.Reach, Commitment, Opening, Collected;
    var list := Order(s, chain);
    OrderDistinct(s, chain);
    var pool;
    after, pool := DeliverTaken(s, plan, chain, n, r, k);
    CollectedLess(s, plan, list, |chain|, pool, k + 1);
    forall i | 1 <= i <= s.m
      ensures InTurn(s, plan, chain, after, s.m, r, i)
    {
      assert InTurn(s, plan, chain, n, s.m, r, i);
    }
    forall b | b in after.peers
      ensures Quiet(list, after, s.m, r, b)
    {
      assert Quiet(list, n, s.m, r, b);
    }
  }

  lemma CollectedLess(s: Setup, plan: Plan, list: seq<Address>, h: U64, pool: Mempool, k: nat)
    requires k <= s.m < |list| && Collected(s, plan, list, h, pool, k)
    ensures Collected(s, plan, list, h, pool, 0)
  {
  }

  lemma {:induction false} AllArrive(s: Setup, plan: Plan, chain: seq<Block>, n: Network, r: nat, k: nat)
    returns (after: Network)
    requires SetupOk(s) && r < s.m && k <= s.m && Stage(s, plan, chain, n, s.m, r) && Runs.Reach(s, n)
    ensures Receives(s, plan, chain, after, r, k) && Runs.Reach(s, after)
    decreases k
  {
    hide Runs.Reach;
    if k == 0 {
      after := n;
      assert InTurn(s, plan, chain, n, s.m, r, r + 1);
    } else {
      var before := AllArrive(s, plan, chain, n, r, k - 1);
      hide Receives;
      after := DeliverNext(s, plan, chain, before, r, k - 1);
    }
  }

  /** A participant with all commitments in its mempool stops waiting and reveals its seed. */
  lemma RevealTaken(s: Setup, plan: Plan, chain: seq<Block>, n: Network, r: nat) returns (after: Network)
    requires Able(s, plan) && r < s.m && Receives(s, plan, chain, n, r, s.m) && Runs.Reach(s, n)
    ensures Runs.Reach(s, after) && after.chain == chain
    ensures var a := Order(s, chain)[r + 1];
            && a in n.peers && after.sent == n.sent + {Opening(s, plan, a, |chain|)}
            && exists pool :: after.peers == n.peers[a := n.peers[a].(mempool := pool, worker := Resting)]
  {
    hide Runs.Reach, Commitment, Opening, Collected, Arrived, Quiet;
    var list, h := Order(s, chain), |chain|;
    OrderDistinct(s, chain);
    var a := list[r + 1];
    assert InTurn(s, plan, chain, n, s.m, r, r + 1);
    CollectedFills(s, plan, list, h, n.peers[a].mempool);
    hide Able, InTurn;
    var cleared := Apply(s, n, Observe(a));
    Runs.ReachStep(s, n, Observe(a), cleared);
    after := Apply(s, cleared, Reveal(a));
    Runs.ReachStep(s, cleared, Reveal(a), after);
    assert after.peers == n.peers[a := n.peers[a].(mempool := after.peers[a].mempool, worker := Resting)];
  }

  lemma RevealNext(s: Setup, plan: Plan, chain: seq<Block>, n: Network, r: nat) returns (after: Network)
    requires Able(s, plan) && r < s.m && Receives(s, plan, chain, n, r, s.m) && Runs.Reach(s, n)
    ensures Stage(s, plan, chain, after, s.m, r + 1) && Runs.Reach(s, after)
  {
    hide Runs.Reach, Commitment, Opening, Collected, Able;
    var list, t := Order(s, chain), r + 1;
    after := RevealTaken(s, plan, chain, n, r);
    AbleIsOk(s, plan);
    OrderDistinct(s, chain);
    assert InTurn(s, plan, chain, n, s.m, r, t);
    forall i | 1 <= i <= s.m
      ensures InTurn(s, plan, chain, after, s.m, t, i)
    {
      assert InTurn(s, plan, chain, n, s.m, r, i);
    }
    forall b | b in after.peers
      ensures Quiet(list, after, s.m, t, b)
    {
      assert Quiet(list, n, s.m, r, b);
    }
  }

  lemma AbleIsOk(s: Setup, plan: Plan)
    requires Able(s, plan)
    ensures SetupOk(s)
  {
  }

  lemma {:induction false} AllReveal(s: Setup, plan: Plan, chain: seq<Block>, n: Network, r: nat)
    returns (after: Network)
    requires Able(s, plan) && r <= s.m && Stage(s, plan, chain, n, s.m, 0) && Runs.Reach(s, n)
    ensures Stage(s, plan, chain, after, s.m, r) && Runs.Reach(s, after)
    decreases r
  {
    hide Stage, Runs.Reach, Receives;
    if r == 0 {
      after := n;
    } else {
      var before := AllReveal(s, plan, chain, n, r - 1);
      var ready := AllArrive(s, plan, chain, before, r - 1, s.m);
      after := RevealNext(s, plan, chain, ready, r - 1);
    }
  }

  // ---------------------------------------------------------------- the block of the round

  /** The commitments of the participants in their order, then the seeds in the same order. */
  ghost function RoundTxs(s: Setup, plan: Plan, list: seq<Address>, h: U64): (r: seq<TxValidator>)
    requires s.m < |list|
    ensures |r| == 2 * s.m
  {
    seq(s.m, i requires 0 <= i < s.m => Commitment(s, plan, list[i + 1], h))
    + seq(s.m, i requires 0 <= i < s.m => Opening(s, plan, list[i + 1], h))
  }

  ghost function RoundBlock(s: Setup, plan: Plan, list: seq<Address>, h: U64, key: PubKey): Block
    requires s.m < |list|
  {
    var txs := RoundTxs(s, plan, list, h);
    Block(Zeros(65), ZERO_HASH, Randomness(s.crypto.sha3, txs), ZERO_HASH, ZERO_HASH, 0, h, txs, [], key, true)
  }

  lemma RoundIsAccepted(s: Setup, plan: Plan, list: seq<Address>, h: U64, key: PubKey)
    requires Able(s, plan) && s.m < |list| && Distinct(list) && forall a :: a in list ==> a in s.validators
    requires ToAddress(s.crypto, key) == list[0]
    ensures AcceptsBlock(s.crypto, s.hash, list, s.m, RoundBlock(s, plan, list, h, key))
  {
    hide Able, FunctionOf, Body, ToAddress, Randomness;
    var txs, m := RoundTxs(s, plan, list, h), s.m;
    forall i | 0 <= i < m
      ensures PairValid(s.crypto.sha3, list, m, txs, i)
    {
      PreparedFunctions(s, list[i + 1], plan(list[i + 1], h), txs[i], txs[i + m]);
    }
    forall i, j | 0 <= i < j < m
      ensures s.hash(txs[i]) != s.hash(txs[j])
    {
      AreApart(s, plan, list[i + 1], list[j + 1], h);
    }
  }

  /** The seeds the participants of a round planned, in their order. */
  function Planned(s: Setup, plan: Plan, list: seq<Address>, h: nat): seq<Bytes>
    requires s.m < |list|
  {
    seq(s.m, i requires 0 <= i < s.m => plan(list[i + 1], h))
  }

  /** The randomness of the block is drawn from the seeds that were planned for it. */
  ghost predicate Drawn(s: Setup, plan: Plan, chain: seq<Block>, h: nat)
    requires s.m < |s.validators| && 1 <= h < |chain|
  {
    chain[h].blockRandomness
    == if s.m == 0 then Zeros(32) else s.crypto.sha3(Concat(Planned(s, plan, ListAt(s, chain, h), h)))
  }

  lemma OpeningBody(s: Setup, plan: Plan, a: Address, h: U64)
    ensures Body(Opening(s, plan, a, h)) == plan(a, h)
  {
  }

  lemma RoundIsDrawn(s: Setup, plan: Plan, list: seq<Address>, h: U64, key: PubKey)
    requires Able(s, plan) && s.m < |list| && Distinct(list) && (forall a :: a in list ==> a in s.validators)
    requires ToAddress(s.crypto, key) == list[0]
    ensures RoundBlock(s, plan, list, h, key).blockRandomness
         == if s.m == 0 then Zeros(32) else s.crypto.sha3(Concat(Planned(s, plan, list, h)))
  {
    hide Able, ToAddress, Randomness, PairsValid;
    var txs, m := RoundTxs(s, plan, list, h), s.m;
    RoundIsAccepted(s, plan, list, h, key);
    RoundRandomness(s.crypto.sha3, list, m, txs);
    hide Body, Opening;
    forall i | 0 <= i < m
      ensures Seeds(m, txs)[i] == plan(list[i + 1], h)
    {
      assert txs[i + m] == Opening(s, plan, list[i + 1], h);
      OpeningBody(s, plan, list[i + 1], h);
    }
    assert Seeds(m, txs) == Planned(s, plan, list, h);
  }

  /** Once all seeds are revealed, the block of the round can be proposed. */
  lemma ProposeNext(s: Setup, plan: Plan, chain: seq<Block>, n: Network) returns (block: Block)
    requires Able(s, plan) && Stage(s, plan, chain, n, s.m, s.m) && Runs.Reach(s, n)
    ensures Drawn(s, plan, chain + [block], |chain|)
    ensures Runs.Reach(s, n.(chain := chain + [block]))
  {
    hide Runs.Reach, Commitment, Opening, Randomness, Concat, AcceptsBlock, Quiet;
    var list, h := Order(s, chain), |chain|;
    OrderDistinct(s, chain);
    assert list[0] in s.validators;
    assert HasKey(s, list[0]);
    var key: PubKey :| ToAddress(s.crypto, key) == list[0];
    hide ToAddress;
    block := RoundBlock(s, plan, list, h, key);
    RoundIsAccepted(s, plan, list, h, key);
    RoundIsDrawn(s, plan, list, h, key);
    assert ListAt(s, chain + [block], h) == list;
    hide Able;
    forall tx | tx in block.txValidators
      ensures tx in n.sent
    {
      RoundTxSent(s, plan, chain, n, tx);
    }
    Runs.ReachStep(s, n, Propose(block), n.(chain := chain + [block]));
  }

  lemma RoundTxSent(s: Setup, plan: Plan, chain: seq<Block>, n: Network, tx: TxValidator)
    requires s.m < |s.validators| && Stage(s, plan, chain, n, s.m, s.m)
    requires tx in RoundTxs(s, plan, Order(s, chain), |chain|)
    ensures tx in n.sent
  {
    hide Commitment, Opening, Quiet, Collected;
    var i :| 0 <= i < 2 * s.m && RoundTxs(s, plan, Order(s, chain), |chain|)[i] == tx;
    assert InTurn(s, plan, chain, n, s.m, s.m, if i < s.m then i + 1 else i - s.m + 1);
  }

  // ---------------------------------------------------------------- the next round

  /** Of the nodes of the validators, the first `k` have accepted and seen the last block. */
  ghost predicate Caught(s: Setup, n: Network, k: nat)
    requires k <= |s.validators|
  {
    var h := |n.chain| - 1;
    && h >= 1 && (forall a :: a in n.peers <==> a in s.validators)
    && (forall i :: 0 <= i < k ==> s.validators[i] in n.peers && n.peers[s.validators[i]] == Peer(h, h, map[], Idle))
    && (forall i :: k <= i < |s.validators| ==> Behind(n, s.validators[i]))
  }

  ghost predicate Behind(n: Network, a: Address) {
    && a in n.peers && n.peers[a].height == |n.chain| - 2 == n.peers[a].seen
    && (n.peers[a].worker.Idle? || n.peers[a].worker.Resting?)
  }

  /** A node that is behind accepts the last block, and its worker looks at it. */
  lemma CatchUpTaken(s: Setup, n: Network, a: Address) returns (after: Network)
    requires Well(n) && Behind(n, a) && Runs.Reach(s, n)
    ensures Runs.Reach(s, after)
    ensures var h := |n.chain| - 1; after == n.(peers := n.peers[a := Peer(h, h, map[], Idle)])
  {
    hide Runs.Reach;
    var h := |n.chain| - 1;
    var accepted := Apply(s, n, Accept(a));
    Runs.ReachStep(s, n, Accept(a), accepted);
    after := Apply(s, accepted, Look(a));
    Runs.ReachStep(s, accepted, Look(a), after);
    assert after.peers == n.peers[a := Peer(h, h, map[], Idle)];
  }

  lemma CatchUp(s: Setup, n: Network, k: nat) returns (after: Network)
    requires SetupOk(s) && k < |s.validators| && Caught(s, n, k) && Runs.Reach(s, n)
    ensures Caught(s, after, k + 1) && Runs.Reach(s, after) && after.chain == n.chain
  {
    hide Runs.Reach, Ascending;
    AscendingDistinct(s.validators);
    CaughtIsWell(s, n, k);
    assert Behind(n, s.validators[k]);
    after := CatchUpTaken(s, n, s.validators[k]);
    forall i | k < i < |s.validators|
      ensures Behind(after, s.validators[i])
    {
      assert Behind(n, s.validators[i]);
    }
  }

  lemma CaughtIsWell(s: Setup, n: Network, k: nat)
    requires k <= |s.validators| && Caught(s, n, k)
    ensures Well(n)
  {
    forall a | a in n.peers
      ensures n.peers[a].height < |n.chain|
    {
      var i :| 0 <= i < |s.validators| && s.validators[i] == a;
      assert i >= k ==> Behind(n, s.validators[i]);
    }
  }

  lemma {:induction false} AllCatchUp(s: Setup, n: Network, k: nat) returns (after: Network)
    requires SetupOk(s) && k <= |s.validators| && Caught(s, n, 0) && Runs.Reach(s, n)
    ensures Caught(s, after, k) && Runs.Reach(s, after) && after.chain == n.chain
    decreases k
  {
    hide Runs.Reach, Caught;
    if k == 0 {
      after := n;
    } else {
      var before := AllCatchUp(s, n, k - 1);
      after := CatchUp(s, before, k - 1);
    }
  }

  /** The node of every validator is at height `h` and idle, and every block was drawn from the seeds planned for it. */
  ghost predicate AllAt(s: Setup, plan: Plan, n: Network, h: nat)
    requires s.m < |s.validators|
  {
    && |n.chain| == h + 1
    && (forall a :: a in n.peers <==> a in s.validators)
    && (forall a :: a in n.peers ==> n.peers[a] == Peer(h, h, map[], Idle))
    && (forall i :: 1 <= i <= h ==> Drawn(s, plan, n.chain, i))
  }

  lemma RoundStarts(s: Setup, plan: Plan, n: Network, h: nat)
    requires SetupOk(s) && AllAt(s, plan, n, h) && h + 1 < LIMIT64
    ensures Stage(s, plan, n.chain, n, 0, 0)
  {
    hide Commitment, Opening;
    OrderDistinct(s, n.chain);
    var list := Order(s, n.chain);
    forall i | 1 <= i <= s.m
      ensures InTurn(s, plan, n.chain, n, 0, 0, i)
    {
      assert list[i] in list;
    }
  }

  /** One whole round: all commit, all reveal, the block is proposed, and all accept it. */
  lemma RoundCompletes(s: Setup, plan: Plan, n: Network, h: nat) returns (after: Network)
    requires Able(s, plan) && AllAt(s, plan, n, h) && h + 1 < LIMIT64 && Runs.Reach(s, n)
    ensures AllAt(s, plan, after, h + 1) && Runs.Reach(s, after)
    ensures n.chain < after.chain
  {
    hide Runs.Reach, Able, Drawn, Quiet, InTurn;
    AbleIsOk(s, plan);
    RoundStarts(s, plan, n, h);
    var committed := AllCommit(s, plan, n.chain, n, s.m);
    var revealed := AllReveal(s, plan, n.chain, committed, s.m);
    var block := ProposeNext(s, plan, n.chain, revealed);
    var proposed := revealed.(chain := n.chain + [block]);
    assert Caught(s, proposed, 0) by {
      NobodyWaits(s, plan, n.chain, revealed, block);
    }
    after := AllCatchUp(s, proposed, |s.validators|);
    AllCaught(s, after);
    forall i | 1 <= i <= h + 1
      ensures Drawn(s, plan, after.chain, i)
    {
      DrawnStays(s, plan, n.chain, block, i);
    }
  }

  lemma NobodyWaits(s: Setup, plan: Plan, chain: seq<Block>, n: Network, block: Block)
    requires s.m < |s.validators| && Stage(s, plan, chain, n, s.m, s.m)
    ensures Caught(s, n.(chain := chain + [block]), 0)
  {
    hide InTurn;
    forall i | 0 <= i < |s.validators|
      ensures Behind(n.(chain := chain + [block]), s.validators[i])
    {
      assert Quiet(Order(s, chain), n, s.m, s.m, s.validators[i]);
    }
  }

  lemma AllCaught(s: Setup, n: Network)
    requires Caught(s, n, |s.validators|)
    ensures forall a :: a in n.peers ==> n.peers[a] == Peer(|n.chain| - 1, |n.chain| - 1, map[], Idle)
  {
  }

  lemma DrawnStays(s: Setup, plan: Plan, chain: seq<Block>, block: Block, i: nat)
    requires s.m < |s.validators| && 1 <= i <= |chain|
    requires i < |chain| ==> Drawn(s, plan, chain, i)
    requires i == |chain| ==> Drawn(s, plan, chain + [block], i)
    ensures Drawn(s, plan, chain + [block], i)
  {
    hide Concat;
    if i < |chain| {
      assert ListAt(s, chain + [block], i) == ListAt(s, chain, i);
    }
  }

  /**
   * The protocol never gets stuck for good: whatever seeds the validators choose, there is a run in which all nodes
   * reach a given height and every block on the way draws its randomness from exactly the seeds planned for it.
   */
  lemma {:induction false} EveryHeightIsReached(s: Setup, plan: Plan, h: nat) returns (n: Network)
    requires Able(s, plan) && h < LIMIT64
    ensures Runs.Reach(s, n) && AllAt(s, plan, n, h)
    decreases h
  {
    hide Runs.Reach, Able;
    AbleIsOk(s, plan);
    if h == 0 {
      n := Network([Runs.GENESIS], {}, map a | a in s.validators :: Peer(0, 0, map[], Idle));
      Runs.ReachInit(s, n);
    } else {
      var before := EveryHeightIsReached(s, plan, h - 1);
      n := RoundCompletes(s, plan, before, h - 1);
    }
  }
}

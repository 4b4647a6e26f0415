/** Runs of the commit-reveal protocol: some that end with a seed sent in time, and one with a seed sent too early. */
module RevealRuns {
  import opened Bytes
  import opened Crypto
  import opened Leader
  import opened Round
  import opened TxValidators
  import opened Blocks
  import opened RdPoS
  import opened CommitReveal

  const GENESIS := Block(Zeros(65), ZERO_HASH, ZERO_HASH, ZERO_HASH, ZERO_HASH, 0, 0, [], [], NO_KEY, true)

  // ---------------------------------------------------------------- reachable states

  /** Some run ends in this state. */
  ghost predicate Reach(s: Setup, n: Network) {
    exists states: seq<Network>, steps: seq<Step> :: Run(s, states, steps) && states[|steps|] == n
  }

  lemma ReachInit(s: Setup, n: Network)
    requires Init(s, n)
    ensures Reach(s, n)
  {
    assert Run(s, [n], []);
  }

  lemma ReachStep(s: Setup, n: Network, step: Step, after: Network)
    requires Reach(s, n) && Takes(s, n, step, after)
    ensures Reach(s, after)
  {
    hide Takes, Init;
    var states: seq<Network>, steps: seq<Step> :| Run(s, states, steps) && states[|steps|] == n;
    var longer, more := states + [after], steps + [step];
    forall i | 0 <= i < |more|
      ensures Takes(s, longer[i], more[i], longer[i + 1])
    {
      if i < |steps| {
        assert longer[i] == states[i] && longer[i + 1] == states[i + 1] && more[i] == steps[i];
      }
    }
    assert Run(s, longer, more);
  }

  // ---------------------------------------------------------------- the participants of the first round

  /** The order of the round after the genesis block. */
  ghost function Order(s: Setup): (r: seq<Address>)
    ensures |r| == |s.validators|
  {
    ListAt(s, [GENESIS], 1)
  }

  /** The commitment of participant `j` to a seed. */
  ghost function Commitment(s: Setup, j: nat, seed: Hash): TxValidator
    requires j < |s.validators|
  {
    TxValidator(Order(s)[j], HASH_FUNCTOR + s.crypto.sha3(seed), 1, 1, 37, 1, 1)
  }

  /** The transaction that opens it. */
  ghost function Opening(s: Setup, j: nat, seed: Hash): TxValidator
    requires j < |s.validators|
  {
    TxValidator(Order(s)[j], SEED_FUNCTOR + seed, 1, 1, 37, 1, 1)
  }

  lemma Participant(s: Setup, j: nat)
    requires SetupOk(s) && 1 <= j <= s.m
    ensures Order(s)[j] in s.validators && Participates(Order(s), s.m, Order(s)[j])
  {
    RandomListIsPermutation(s.crypto.sha3, s.validators, ZERO_HASH);
    assert Order(s)[j] in Order(s);
  }

  lemma OrderDistinct(s: Setup, i: nat, j: nat)
    requires SetupOk(s) && i < j < |s.validators|
    ensures Order(s)[i] != Order(s)[j]
  {
    RandomListIsPermutation(s.crypto.sha3, s.validators, ZERO_HASH);
  }

  lemma OpeningIsSeed(s: Setup, j: nat, seed: Hash)
    requires SetupOk(s) && 1 <= j <= s.m
    ensures IsSeedOf(s, Opening(s, j, seed)) && FunctionOf(Commitment(s, j, seed)) == RandomHash
  {
    Participant(s, j);
    PreparedFunctions(s, Order(s)[j], seed, Commitment(s, j, seed), Opening(s, j, seed));
  }

  /** A node at the genesis block with an empty mempool takes a first commitment of a participant. */
  lemma FirstTaken(s: Setup, n: Network, a: Address, j: nat, seed: Hash)
    requires SetupOk(s) && 1 <= j <= s.m && Well(n) && n.chain == [GENESIS]
    requires a in n.peers && n.peers[a].height == 0 && n.peers[a].mempool == map[]
    ensures var c := Commitment(s, j, seed); Receive(s, n, a, c) == n.peers[a].(mempool := map[s.hash(c) := c])
  {
    Participant(s, j);
    assert SenderKeys(map[], Order(s)[j]) == {};
  }

  /** An idle participant at the genesis block commits. */
  lemma CommitTaken(s: Setup, n: Network, j: nat, seed: Hash)
    requires SetupOk(s) && 1 <= j <= s.m && Well(n) && n.chain == [GENESIS]
    requires Order(s)[j] in n.peers && n.peers[Order(s)[j]] == Peer(0, 0, map[], Idle)
    ensures var a, c, o := Order(s)[j], Commitment(s, j, seed), Opening(s, j, seed);
            Takes(s, n, Commit(a, seed, c, o),
                  n.(sent := n.sent + {c}, peers := n.peers[a := Peer(0, 0, map[s.hash(c) := c], Waiting(o))]))
  {
    Participant(s, j);
    FirstTaken(s, n, Order(s)[j], j, seed);
  }

  // ---------------------------------------------------------------- a lone node

  /** The network with this much sent, in which only the first participant's node runs. */
  ghost function Lone(s: Setup, sent: set<TxValidator>, mempool: Mempool, worker: Worker): Network
    requires 1 <= s.m < |s.validators|
  {
    Network([GENESIS], sent, map[Order(s)[1] := Peer(0, 0, mempool, worker)])
  }

  /** It commits, whatever was sent before. */
  lemma LoneCommits(s: Setup, sent: set<TxValidator>, seed: Hash)
    requires SetupOk(s) && s.m >= 1 && Reach(s, Lone(s, sent, map[], Idle))
    ensures var c := Commitment(s, 1, seed);
            Reach(s, Lone(s, sent + {c}, map[s.hash(c) := c], Waiting(Opening(s, 1, seed))))
  {
    hide Takes, Reach;
    var n, a, c, o := Lone(s, sent, map[], Idle), Order(s)[1], Commitment(s, 1, seed), Opening(s, 1, seed);
    CommitTaken(s, n, 1, seed);
    var after := Lone(s, sent + {c}, map[s.hash(c) := c], Waiting(o));
    assert n.peers[a := Peer(0, 0, map[s.hash(c) := c], Waiting(o))] == after.peers;
    ReachStep(s, n, Commit(a, seed, c, o), after);
  }

  lemma LoneStarts(s: Setup)
    requires SetupOk(s) && s.m >= 1
    ensures Reach(s, Lone(s, {}, map[], Idle))
  {
    hide Reach;
    Participant(s, 1);
    ReachInit(s, Lone(s, {}, map[], Idle));
  }

  // ---------------------------------------------------------------- when the protocol is safe

  /** Every seed of a validator was sent after all commitments of its height. */
  ghost predicate Safe(s: Setup, n: Network) {
    forall tx :: tx in n.sent && IsSeedOf(s, tx) ==> AllCommitted(s, n, tx.nHeight)
  }

  ghost predicate AlwaysSafe(s: Setup) {
    forall n :: Reach(s, n) ==> Safe(s, n)
  }

  lemma PatientIsSafe(s: Setup, n: Network)
    requires SetupOk(s) && Patient(s) && Reach(s, n)
    ensures Safe(s, n)
  {
    hide AllCommitted, Takes, Init;
    var states: seq<Network>, steps: seq<Step> :| Run(s, states, steps) && states[|steps|] == n;
    forall tx | tx in n.sent && IsSeedOf(s, tx)
      ensures AllCommitted(s, n, tx.nHeight)
    {
      NoSeedBeforeAllCommitments(s, states, steps, |steps|, tx);
    }
  }

  /** A participant commits, is stopped and sends its seed; the second participant has not committed. */
  lemma StopRun(s: Setup) returns (n: Network)
    requires SetupOk(s) && s.stops && s.m >= 2
    ensures Reach(s, n) && !Safe(s, n)
  {
    hide Reach, Receive;
    var a, c, o := Order(s)[1], Commitment(s, 1, ZERO_HASH), Opening(s, 1, ZERO_HASH);
    var pool := map[s.hash(c) := c];
    LoneStarts(s);
    LoneCommits(s, {}, ZERO_HASH);
    assert {} + {c} == {c};
    var waiting, cleared := Lone(s, {c}, pool, Waiting(o)), Lone(s, {c}, pool, Cleared(o));
    assert Apply(s, waiting, Stop(a, true)) == cleared;
    ReachStep(s, waiting, Stop(a, true), cleared);
    n := Apply(s, cleared, Reveal(a));
    ReachStep(s, cleared, Reveal(a), n);
    SecondMissing(s, n, c, o);
  }

  lemma SecondMissing(s: Setup, n: Network, c: TxValidator, o: TxValidator)
    requires SetupOk(s) && s.m >= 2 && n.chain == [GENESIS] && n.sent == {c} + {o}
    requires c == Commitment(s, 1, ZERO_HASH) && o == Opening(s, 1, ZERO_HASH)
    ensures !Safe(s, n)
  {
    OpeningIsSeed(s, 1, ZERO_HASH);
    OrderDistinct(s, 1, 2);
    assert !HasCommitted(n, Order(s)[2], 1);
    assert o in n.sent && !AllCommitted(s, n, 1);
  }

  lemma StoppedTooEarly(s: Setup)
    requires SetupOk(s) && s.stops && s.m >= 2
    ensures exists n :: Reach(s, n) && !Safe(s, n)
  {
    var n := StopRun(s);
  }

  /**
   * Exactly when commit-reveal is safe in every state of every run: no worker can be stopped while it waits, or a
   * round has at most one participant.
   */
  lemma SafeExactly(s: Setup)
    requires SetupOk(s)
    ensures AlwaysSafe(s) <==> Patient(s)
  {
    hide Reach, Safe;
    if Patient(s) {
      forall n | Reach(s, n)
        ensures Safe(s, n)
      {
        PatientIsSafe(s, n);
      }
    } else {
      StoppedTooEarly(s);
    }
  }

  // ---------------------------------------------------------------- seeds are sent in time

  /** The commitments of participants 1 to `k`, under their hashes. */
  ghost function Pool(s: Setup, k: nat): Mempool
    requires k < |s.validators|
  {
    if k == 0 then map[]
    else Pool(s, k - 1)[s.hash(Commitment(s, k, ZERO_HASH)) := Commitment(s, k, ZERO_HASH)]
  }

  /** The commitments of the participants have different hashes. */
  ghost predicate NoHashCollision(s: Setup)
    requires s.m < |s.validators|
  {
    forall i, j :: 1 <= i < j <= s.m ==>
      s.hash(Commitment(s, i, ZERO_HASH)) != s.hash(Commitment(s, j, ZERO_HASH))
  }

  lemma {:induction false} PoolHolds(s: Setup, k: nat)
    requires s.m < |s.validators| && k <= s.m && NoHashCollision(s)
    ensures |Pool(s, k)| == k
    ensures forall h :: h in Pool(s, k) ==>
              exists j :: 1 <= j <= k && h == s.hash(Commitment(s, j, ZERO_HASH))
                          && Pool(s, k)[h] == Commitment(s, j, ZERO_HASH)
    decreases k
  {
    hide Commitment;
    if k > 0 {
      PoolHolds(s, k - 1);
    }
  }

  /** The nodes of all participants run, the first `k` of them have committed, the others are idle. */
  ghost predicate Committed(s: Setup, n: Network, k: nat)
    requires k <= s.m < |s.validators|
  {
    && Well(n) && n.chain == [GENESIS]
    && (forall j :: 1 <= j <= k ==> Commitment(s, j, ZERO_HASH) in n.sent)
    && (forall j :: k < j <= s.m ==> Order(s)[j] in n.peers && n.peers[Order(s)[j]] == Peer(0, 0, map[], Idle))
    && (k >= 1 ==> Order(s)[1] in n.peers
                   && n.peers[Order(s)[1]] == Peer(0, 0, Pool(s, 1), Waiting(Opening(s, 1, ZERO_HASH))))
  }

  lemma CommitNext(s: Setup, n: Network, k: nat) returns (after: Network)
    requires SetupOk(s) && k < s.m && Committed(s, n, k) && Reach(s, n)
    ensures Committed(s, after, k + 1) && Reach(s, after)
  {
    hide Takes, Reach, Commitment, Opening;
    var j := k + 1;
    var a, c, o := Order(s)[j], Commitment(s, j, ZERO_HASH), Opening(s, j, ZERO_HASH);
    CommitTaken(s, n, j, ZERO_HASH);
    after := n.(sent := n.sent + {c}, peers := n.peers[a := Peer(0, 0, map[s.hash(c) := c], Waiting(o))]);
    ReachStep(s, n, Commit(a, ZERO_HASH, c, o), after);
    forall i | 1 <= i <= s.m && i != j
      ensures Order(s)[i] != a
    {
      OrderDistinct(s, if i < j then i else j, if i < j then j else i);
    }
    assert k == 0 ==> Pool(s, 1) == map[s.hash(c) := c];
  }

  lemma {:induction false} AllCommit(s: Setup, k: nat) returns (n: Network)
    requires SetupOk(s) && k <= s.m
    ensures Committed(s, n, k) && Reach(s, n)
    decreases k
  {
    if k == 0 {
      var all := set j | 1 <= j <= s.m :: Order(s)[j];
      n := Network([GENESIS], {}, map a | a in all :: Peer(0, 0, map[], Idle));
      forall j | 1 <= j <= s.m
        ensures Order(s)[j] in s.validators
      {
        Participant(s, j);
      }
      ReachInit(s, n);
    } else {
      var before := AllCommit(s, k - 1);
      n := CommitNext(s, before, k - 1);
    }
  }

  /** All have committed, and the first participant's node has received `k` of the commitments. */
  ghost predicate Filled(s: Setup, n: Network, k: nat)
    requires k <= s.m < |s.validators| && s.m >= 1
  {
    && Well(n) && n.chain == [GENESIS]
    && (forall j :: 1 <= j <= s.m ==> Commitment(s, j, ZERO_HASH) in n.sent)
    && Order(s)[1] in n.peers
    && n.peers[Order(s)[1]] == Peer(0, 0, Pool(s, k), Waiting(Opening(s, 1, ZERO_HASH)))
  }

  lemma NextTaken(s: Setup, n: Network, k: nat)
    requires SetupOk(s) && NoHashCollision(s) && k < s.m && Filled(s, n, k)
    ensures Receive(s, n, Order(s)[1], Commitment(s, k + 1, ZERO_HASH))
         == n.peers[Order(s)[1]].(mempool := Pool(s, k + 1))
  {
    var pool, c := Pool(s, k), Commitment(s, k + 1, ZERO_HASH);
    PoolHolds(s, k);
    Participant(s, k + 1);
    assert s.hash(c) !in pool;
    forall h | h in pool
      ensures pool[h].from != c.from
    {
      var j :| 1 <= j <= k && pool[h] == Commitment(s, j, ZERO_HASH);
      OrderDistinct(s, j, k + 1);
    }
    assert SenderKeys(pool, c.from) == {};
  }

  lemma {:induction false} AllArrive(s: Setup, k: nat) returns (n: Network)
    requires SetupOk(s) && NoHashCollision(s) && 1 <= k <= s.m
    ensures Filled(s, n, k) && Reach(s, n)
    decreases k
  {
    hide Reach, Commitment, Opening, Receive;
    if k == 1 {
      n := AllCommit(s, s.m);
    } else {
      var before := AllArrive(s, k - 1);
      NextTaken(s, before, k - 1);
      n := Apply(s, before, Deliver(Order(s)[1], Commitment(s, k, ZERO_HASH)));
      ReachStep(s, before, Deliver(Order(s)[1], Commitment(s, k, ZERO_HASH)), n);
    }
  }

  ghost predicate SeedSent(s: Setup, n: Network) {
    exists tx :: tx in n.sent && IsSeedOf(s, tx)
  }

  lemma SeedRun(s: Setup) returns (n: Network)
    requires SetupOk(s) && s.m >= 1 && NoHashCollision(s)
    ensures Reach(s, n) && SeedSent(s, n)
  {
    hide Reach, Receive, Commitment, Opening;
    var a, o := Order(s)[1], Opening(s, 1, ZERO_HASH);
    var full := AllArrive(s, s.m);
    PoolHolds(s, s.m);
    var cleared := Apply(s, full, Observe(a));
    ReachStep(s, full, Observe(a), cleared);
    n := Apply(s, cleared, Reveal(a));
    ReachStep(s, cleared, Reveal(a), n);
    OpeningIsSeed(s, 1, ZERO_HASH);
    assert o in n.sent;
  }

  /**
   * The safety theorem is about something: for every number of participants there is a run in which all of them
   * commit, the first one receives the commitments, waits for no one any more and sends its seed.
   */
  lemma SeedsAreSent(s: Setup)
    requires SetupOk(s) && s.m >= 1 && NoHashCollision(s)
    ensures exists n :: Reach(s, n) && SeedSent(s, n)
  {
    var n := SeedRun(s);
  }
}

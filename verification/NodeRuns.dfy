/** Whole runs of one node's rdPoS state: transactions arrive, blocks are processed, the node restarts. */
module NodeRuns {
  import opened Bytes
  import opened Leader
  import opened TxValidators
  import opened Blocks
  import opened RdPoS

  /** What the node keeps between calls, and the validators stored in its database. */
  datatype Node = Node(
    stored: map<nat, Address>, validators: seq<Address>, randomList: seq<Address>, bestRandomSeed: Hash,
    mempool: Mempool, latest: Block)

  datatype Event = Arrive(tx: TxValidator) | Process(block: Block) | Restart

  /** A node that has just loaded its validators and drawn the round of its latest block. */
  ghost predicate Started(sha3: Bytes -> Hash, n: Node) {
    && Ascending(n.validators) && (forall a :: a in n.validators <==> a in n.stored.Values)
    && n.randomList == RandomList(sha3, n.validators, n.latest.blockRandomness)
    && n.bestRandomSeed == n.latest.blockRandomness
    && n.mempool == map[]
  }

  ghost predicate Takes(sha3: Bytes -> Hash, hash: TxValidator -> Hash, m: nat, n: Node, event: Event, after: Node) {
    match event
    case Arrive(tx) => after == n.(mempool := Arrived(hash, n.mempool, n.randomList, m, n.latest.nHeight, tx))
    case Process(block) =>
      && block.finalized
      && after == n.(latest := block, bestRandomSeed := block.blockRandomness, mempool := map[],
                     randomList := RandomList(sha3, n.validators, block.blockRandomness))
    case Restart =>
      && after.stored == Save(n.stored, n.validators) && after.latest == n.latest
      && Started(sha3, after)
  }

  ghost predicate Run(sha3: Bytes -> Hash, hash: TxValidator -> Hash, m: nat, states: seq<Node>, events: seq<Event>) {
    && |states| == |events| + 1
    && Started(sha3, states[0])
    && forall i :: 0 <= i < |events| ==> Takes(sha3, hash, m, states[i], events[i], states[i + 1])
  }

  /** The round is the one of the latest block, and the mempool belongs to it. */
  ghost predicate Settled(sha3: Bytes -> Hash, hash: TxValidator -> Hash, m: nat, n: Node) {
    && Ascending(n.validators) && (forall a :: a in n.validators <==> a in n.stored.Values)
    && n.randomList == RandomList(sha3, n.validators, n.latest.blockRandomness)
    && n.bestRandomSeed == n.latest.blockRandomness
    && MempoolValid(hash, n.mempool, n.randomList, m, n.latest.nHeight)
  }

  lemma EventSettles(sha3: Bytes -> Hash, hash: TxValidator -> Hash, m: nat, n: Node, event: Event, after: Node)
    requires Settled(sha3, hash, m, n) && Takes(sha3, hash, m, n, event, after)
    ensures Settled(sha3, hash, m, after) && after.validators == n.validators
  {
    match event
    case Arrive(tx) =>
      AddTxKeepsValid(hash, n.mempool, n.randomList, m, n.latest.nHeight, tx);
    case Process(block) =>
      EmptyMempoolValid(hash, after.randomList, m, block.nHeight);
    case Restart =>
      EmptyMempoolValid(hash, after.randomList, m, n.latest.nHeight);
      RestartKeepsValidators(n.stored, n.validators, after.validators);
  }

  /** Between any two events of any run the node is settled, and its validators never change. */
  lemma {:induction false} AlwaysSettled(sha3: Bytes -> Hash, hash: TxValidator -> Hash, m: nat, states: seq<Node>,
                                         events: seq<Event>, i: nat)
    requires Run(sha3, hash, m, states, events) && i < |states|
    ensures Settled(sha3, hash, m, states[i]) && states[i].validators == states[0].validators
  {
    if i == 0 {
      EmptyMempoolValid(hash, states[0].randomList, m, states[0].latest.nHeight);
    } else {
      AlwaysSettled(sha3, hash, m, states, events, i - 1);
      assert Takes(sha3, hash, m, states[i - 1], events[i - 1], states[i]);
      EventSettles(sha3, hash, m, states[i - 1], events[i - 1], states[i]);
    }
  }

  /**
   * Leader determinism: whatever two nodes went through, if their databases started with the same validators and
   * their latest blocks carry the same randomness, they agree on the creator and on every participant, and the
   * order they agree on is a permutation of the validators.
   */
  lemma NodesAgreeOnLeaders(
      sha3: Bytes -> Hash, hash: TxValidator -> Hash, m: nat, mine: seq<Node>, yours: seq<Node>,
      myEvents: seq<Event>, yourEvents: seq<Event>, i: nat, j: nat)
    requires Run(sha3, hash, m, mine, myEvents) && Run(sha3, hash, m, yours, yourEvents)
    requires i < |mine| && j < |yours|
    requires mine[0].stored.Values == yours[0].stored.Values
    requires mine[i].latest.blockRandomness == yours[j].latest.blockRandomness
    ensures mine[i].randomList == yours[j].randomList
    ensures multiset(mine[i].randomList) == multiset(mine[0].validators)
  {
    AlwaysSettled(sha3, hash, m, mine, myEvents, i);
    AlwaysSettled(sha3, hash, m, yours, yourEvents, j);
    NodesAgree(sha3, mine[0].validators, yours[0].validators, mine[i].latest.blockRandomness);
    RandomListIsPermutation(sha3, mine[0].validators, mine[i].latest.blockRandomness);
  }

  /** At every moment of every run the validator mempool holds at most two transactions per participant. */
  lemma MempoolNeverOverflows(sha3: Bytes -> Hash, hash: TxValidator -> Hash, m: nat, states: seq<Node>,
                              events: seq<Event>, i: nat)
    requires Run(sha3, hash, m, states, events) && i < |states| && m < |states[0].validators|
    ensures |states[i].mempool| <= 2 * m
  {
    AlwaysSettled(sha3, hash, m, states, events, i);
    MempoolBound(hash, states[i].mempool, states[i].randomList, m, states[i].latest.nHeight);
  }
}

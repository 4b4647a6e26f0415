/**
 * The commit-reveal protocol over a whole chain: every interleaving of the validators' workers, of message
 * delivery, of proposals, of block acceptance and of restarts.
 */
module CommitReveal {
  import opened Bytes
  import opened Crypto
  import opened Leader
  import opened Round
  import opened TxValidators
  import opened Blocks
  import opened RdPoS

  /** `stops` and `restarts` say whether a worker may be stopped while it waits, and whether nodes may restart. */
  datatype Setup = Setup(
    crypto: Crypto, hash: TxValidator -> Hash, validators: seq<Address>, m: nat, stops: bool, restarts: bool)

  /**
   * A worker that has sent its commitment waits for the mempool to fill. It sends its seed later, when it no longer
   * holds the lock under which it read the size, and then rests until it sees a new block.
   */
  datatype Worker = Idle | Waiting(seedTx: TxValidator) | Cleared(seedTx: TxValidator) | Resting

  /** `seen` is the height of the block the worker looked up last. */
  datatype Peer = Peer(height: nat, seen: nat, mempool: Mempool, worker: Worker)

  /** The agreed chain, everything any node has sent so far, and the nodes of the validators. */
  datatype Network = Network(chain: seq<Block>, sent: set<TxValidator>, peers: map<Address, Peer>)

  datatype Step =
    | Commit(me: Address, seed: Hash, hashTx: TxValidator, seedTx: TxValidator)
    | Deliver(to: Address, tx: TxValidator)
    | Observe(me: Address)
    | Stop(me: Address, sends: bool)
    | Reveal(me: Address)
    | Look(me: Address)
    | Outsider(tx: TxValidator)
    | Propose(block: Block)
    | Accept(node: Address)
    | Restart(node: Address)

  /** The order of the round that produces block `h`. */
  ghost function ListAt(s: Setup, chain: seq<Block>, h: nat): (r: seq<Address>)
    requires 1 <= h <= |chain|
    ensures |r| == |s.validators|
  {
    RandomList(s.crypto.sha3, s.validators, chain[h - 1].blockRandomness)
  }

  ghost predicate Well(n: Network) {
    && n.chain != []
    && forall a :: a in n.peers ==> n.peers[a].height < |n.chain|
  }

  ghost function ListOf(s: Setup, n: Network, a: Address): (r: seq<Address>)
    requires Well(n) && a in n.peers
    ensures |r| == |s.validators|
  {
    ListAt(s, n.chain, n.peers[a].height + 1)
  }

  /** The two transactions a worker prepares for a height. */
  ghost predicate Prepared(s: Setup, me: Address, seed: Hash, hashTx: TxValidator, seedTx: TxValidator) {
    && hashTx.from == me && seedTx.from == me && hashTx.nHeight == seedTx.nHeight
    && hashTx.data == HASH_FUNCTOR + s.crypto.sha3(seed)
    && seedTx.data == SEED_FUNCTOR + seed
  }

  /**
   * When a step can happen. A worker takes its height from a block it looked up earlier, so that height may
   * lag behind what its node has accepted since. A worker that is stopped while it waits leaves its loop, and
   * unless it notices in time it goes on to send its seed.
   */
  ghost predicate Enabled(s: Setup, n: Network, step: Step)
    requires Well(n)
  {
    match step
    case Commit(me, seed, hashTx, seedTx) =>
      && me in n.peers && n.peers[me].worker == Idle
      && Participates(ListOf(s, n, me), s.m, me)
      && Prepared(s, me, seed, hashTx, seedTx)
      && hashTx.nHeight == n.peers[me].seen + 1
    case Deliver(to, tx) => to in n.peers && tx in n.sent
    case Observe(me) => me in n.peers && n.peers[me].worker.Waiting? && |n.peers[me].mempool| >= s.m
    case Stop(me, _) => s.stops && me in n.peers && n.peers[me].worker.Waiting?
    case Reveal(me) => me in n.peers && n.peers[me].worker.Cleared?
    case Look(me) =>
      && me in n.peers && (n.peers[me].worker.Idle? || n.peers[me].worker.Resting?)
      && n.peers[me].seen < n.peers[me].height
    case Outsider(tx) => tx.from !in s.validators
    case Propose(block) =>
      && block.nHeight == |n.chain|
      && AcceptsBlock(s.crypto, s.hash, ListAt(s, n.chain, |n.chain|), s.m, block)
      && forall tx :: tx in block.txValidators ==> tx in n.sent
    case Accept(node) => node in n.peers && n.peers[node].height + 1 < |n.chain|
    case Restart(node) => s.restarts && node in n.peers
  }

  /** A node's mempool after a transaction arrives. */
  ghost function Receive(s: Setup, n: Network, a: Address, tx: TxValidator): Peer
    requires Well(n) && a in n.peers
  {
    var p := n.peers[a];
    p.(mempool := Arrived(s.hash, p.mempool, ListOf(s, n, a), s.m, p.height, tx))
  }

  ghost function Apply(s: Setup, n: Network, step: Step): Network
    requires Well(n) && Enabled(s, n, step)
  {
    match step
    case Commit(me, _, hashTx, seedTx) =>
      n.(sent := n.sent + {hashTx}, peers := n.peers[me := Receive(s, n, me, hashTx).(worker := Waiting(seedTx))])
    case Deliver(to, tx) => n.(peers := n.peers[to := Receive(s, n, to, tx)])
    case Observe(me) => n.(peers := n.peers[me := n.peers[me].(worker := Cleared(n.peers[me].worker.seedTx))])
    case Stop(me, sends) =>
      n.(peers := n.peers[me := n.peers[me].(worker := if sends then Cleared(n.peers[me].worker.seedTx) else Resting)])
    case Reveal(me) =>
      var seedTx := n.peers[me].worker.seedTx;
      n.(sent := n.sent + {seedTx}, peers := n.peers[me := Receive(s, n, me, seedTx).(worker := Resting)])
    case Look(me) => n.(peers := n.peers[me := n.peers[me].(seen := n.peers[me].height, worker := Idle)])
    case Outsider(tx) => n.(sent := n.sent + {tx})
    case Propose(block) => n.(chain := n.chain + [block])
    case Accept(node) =>
      n.(peers := n.peers[node := n.peers[node].(height := n.peers[node].height + 1, mempool := map[])])
    case Restart(node) =>
      n.(peers := n.peers[node := Peer(n.peers[node].height, n.peers[node].height, map[], Idle)])
  }

  ghost predicate Init(s: Setup, n: Network) {
    && |n.chain| == 1 && n.sent == {}
    && forall a :: a in n.peers ==> a in s.validators && n.peers[a] == Peer(0, 0, map[], Idle)
  }

  /** Every finite run of the protocol. */
  ghost predicate Run(s: Setup, states: seq<Network>, steps: seq<Step>) {
    && |states| == |steps| + 1
    && Init(s, states[0])
    && forall i :: 0 <= i < |steps| ==> Takes(s, states[i], steps[i], states[i + 1])
  }

  ghost predicate Takes(s: Setup, n: Network, step: Step, after: Network) {
    Well(n) && Enabled(s, n, step) && after == Apply(s, n, step)
  }

  // ---------------------------------------------------------------- the invariant

  /** `a` has sent a commitment for block `h`. */
  ghost predicate HasCommitted(n: Network, a: Address, h: nat) {
    exists tx :: tx in n.sent && IsCommitment(tx, a, h)
  }

  predicate IsCommitment(tx: TxValidator, a: Address, h: nat) {
    tx.from == a && tx.nHeight == h && FunctionOf(tx) == RandomHash
  }

  predicate IsSeedOf(s: Setup, tx: TxValidator) {
    tx.from in s.validators && FunctionOf(tx) == RandomSeed
  }

  /** All participants of the round for block `h` have sent their commitments. */
  ghost predicate AllCommitted(s: Setup, n: Network, h: nat) {
    && 1 <= h <= |n.chain|
    && forall j :: 1 <= j <= s.m && j < |s.validators| ==> HasCommitted(n, ListAt(s, n.chain, h)[j], h)
  }

  ghost predicate PeerOk(s: Setup, n: Network, a: Address)
    requires Well(n) && a in n.peers
  {
    var p := n.peers[a];
    && a in s.validators && p.seen <= p.height
    && MempoolValid(s.hash, p.mempool, ListOf(s, n, a), s.m, p.height)
    && (forall h :: h in p.mempool ==> p.mempool[h] in n.sent)
    && WorkerOk(s, n, p.height, p.worker)
  }

  /** A worker that is cleared knows that its round has committed; one participant alone has as soon as it waits. */
  ghost predicate WorkerOk(s: Setup, n: Network, height: nat, worker: Worker) {
    match worker
    case Idle => true
    case Resting => true
    case Waiting(tx) =>
      IsSeedOf(s, tx) && 1 <= tx.nHeight <= height + 1 && (s.m <= 1 ==> AllCommitted(s, n, tx.nHeight))
    case Cleared(tx) => IsSeedOf(s, tx) && AllCommitted(s, n, tx.nHeight)
  }

  /** A sent transaction of a validator is a commitment, or a seed sent after every commitment of its height. */
  ghost predicate SentOk(s: Setup, n: Network, tx: TxValidator) {
    tx.from in s.validators ==>
      || FunctionOf(tx) == RandomHash
      || (FunctionOf(tx) == RandomSeed && AllCommitted(s, n, tx.nHeight))
  }

  ghost predicate BlockOk(s: Setup, n: Network, h: nat)
    requires 1 <= h < |n.chain|
  {
    && n.chain[h].nHeight == h
    && AcceptsBlock(s.crypto, s.hash, ListAt(s, n.chain, h), s.m, n.chain[h])
    && forall tx :: tx in n.chain[h].txValidators ==> tx in n.sent
  }

  ghost predicate Inv(s: Setup, n: Network) {
    && Well(n)
    && (forall a :: a in n.peers ==> PeerOk(s, n, a))
    && (forall tx :: tx in n.sent ==> SentOk(s, n, tx))
    && (forall h :: 1 <= h < |n.chain| ==> BlockOk(s, n, h))
  }

  /** The validators are an ordered set of more than m addresses. */
  ghost predicate SetupOk(s: Setup) {
    Ascending(s.validators) && s.m < |s.validators|
  }

  /** No worker is stopped while it waits, or there is no one else to wait for. */
  predicate Patient(s: Setup) {
    !s.stops || s.m <= 1
  }

  // ---------------------------------------------------------------- what later steps cannot undo

  /** Chains and the set of sent transactions only grow. */
  ghost predicate Extends(n: Network, after: Network) {
    n.chain <= after.chain && n.sent <= after.sent
  }

  lemma ListPersists(s: Setup, chain: seq<Block>, longer: seq<Block>, h: nat)
    requires chain <= longer && 1 <= h <= |chain|
    ensures ListAt(s, chain, h) == ListAt(s, longer, h)
  {
  }

  lemma CommittedPersists(s: Setup, n: Network, after: Network, h: nat)
    requires Extends(n, after) && AllCommitted(s, n, h)
    ensures AllCommitted(s, after, h)
  {
    ListPersists(s, n.chain, after.chain, h);
    forall j | 1 <= j <= s.m && j < |s.validators|
      ensures HasCommitted(after, ListAt(s, after.chain, h)[j], h)
    {
      assert HasCommitted(n, ListAt(s, n.chain, h)[j], h);
    }
  }

  lemma SentPersists(s: Setup, n: Network, after: Network, tx: TxValidator)
    requires Extends(n, after) && SentOk(s, n, tx)
    ensures SentOk(s, after, tx)
  {
    if AllCommitted(s, n, tx.nHeight) {
      CommittedPersists(s, n, after, tx.nHeight);
    }
  }

  lemma BlockPersists(s: Setup, n: Network, after: Network, h: nat)
    requires Extends(n, after) && 1 <= h < |n.chain| && BlockOk(s, n, h)
    ensures BlockOk(s, after, h)
  {
    ListPersists(s, n.chain, after.chain, h);
  }

  lemma WorkerPersists(s: Setup, n: Network, after: Network, height: nat, worker: Worker)
    requires Extends(n, after) && WorkerOk(s, n, height, worker)
    ensures WorkerOk(s, after, height, worker)
  {
    hide AllCommitted;
    if (worker.Waiting? || worker.Cleared?) && AllCommitted(s, n, worker.seedTx.nHeight) {
      CommittedPersists(s, n, after, worker.seedTx.nHeight);
    }
  }

  lemma PeerPersists(s: Setup, n: Network, after: Network, a: Address)
    requires Extends(n, after) && Well(n) && Well(after)
    requires a in n.peers && a in after.peers && n.peers[a] == after.peers[a]
    requires PeerOk(s, n, a)
    ensures PeerOk(s, after, a)
  {
    hide WorkerOk, MempoolValid;
    ListPersists(s, n.chain, after.chain, n.peers[a].height + 1);
    WorkerPersists(s, n, after, n.peers[a].height, n.peers[a].worker);
  }

  // ---------------------------------------------------------------- why a reveal is safe

  lemma ParticipantIsValidator(s: Setup, n: Network, h: nat, a: Address)
    requires SetupOk(s) && 1 <= h <= |n.chain| && Participates(ListAt(s, n.chain, h), s.m, a)
    ensures a in s.validators
  {
    RandomListIsPermutation(s.crypto.sha3, s.validators, n.chain[h - 1].blockRandomness);
    assert a in ListAt(s, n.chain, h);
  }

  /** A block on the chain carries the commitments of all its participants. */
  lemma BlockCommitted(s: Setup, n: Network, h: nat)
    requires 1 <= h < |n.chain| && BlockOk(s, n, h)
    ensures AllCommitted(s, n, h)
  {
    var list, txs := ListAt(s, n.chain, h), n.chain[h].txValidators;
    forall j | 1 <= j <= s.m && j < |s.validators|
      ensures HasCommitted(n, list[j], h)
    {
      assert PairValid(s.crypto.sha3, list, s.m, txs, j - 1);
      assert txs[j - 1] in txs;
      assert IsCommitment(txs[j - 1], list[j], h);
    }
  }

  lemma AtMostOne<T>(s: set<T>)
    requires forall x, y :: x in s && y in s ==> x == y
    ensures |s| <= 1
  {
    if s != {} {
      var x :| x in s;
      assert s == {x};
    }
  }

  /** Without a seed in it, a mempool of m transactions holds the commitment of every participant. */
  lemma CommitmentsFill(s: Setup, n: Network, me: Address, j: nat)
    requires SetupOk(s) && Well(n) && me in n.peers && PeerOk(s, n, me)
    requires 1 <= j <= s.m <= |n.peers[me].mempool|
    requires forall h :: h in n.peers[me].mempool ==> FunctionOf(n.peers[me].mempool[h]) == RandomHash
    ensures HasCommitted(n, ListOf(s, n, me)[j], n.peers[me].height + 1)
  {
    var mempool, list := n.peers[me].mempool, ListOf(s, n, me);
    forall a | true
      ensures |SenderKeys(mempool, a)| <= 1
    {
      AtMostOne(SenderKeys(mempool, a));
    }
    FullMempoolCovers(mempool, list, s.m, 1, j);
    var h :| h in SenderKeys(mempool, list[j]);
    assert mempool[h] in n.sent && IsCommitment(mempool[h], list[j], n.peers[me].height + 1);
  }

  lemma OnlyCommitmentsFill(s: Setup, n: Network, me: Address)
    requires SetupOk(s) && Well(n) && me in n.peers && PeerOk(s, n, me)
    requires s.m <= |n.peers[me].mempool|
    requires forall h :: h in n.peers[me].mempool ==> FunctionOf(n.peers[me].mempool[h]) == RandomHash
    ensures AllCommitted(s, n, n.peers[me].height + 1)
  {
    forall j | 1 <= j <= s.m && j < |s.validators|
      ensures HasCommitted(n, ListOf(s, n, me)[j], n.peers[me].height + 1)
    {
      CommitmentsFill(s, n, me, j);
    }
  }

  /** A seed in the mempool was itself sent only after every commitment of the round. */
  lemma SeedProves(s: Setup, n: Network, me: Address, h: Hash)
    requires SetupOk(s) && Well(n) && me in n.peers && PeerOk(s, n, me) && h in n.peers[me].mempool
    requires SentOk(s, n, n.peers[me].mempool[h]) && FunctionOf(n.peers[me].mempool[h]) != RandomHash
    ensures AllCommitted(s, n, n.peers[me].height + 1)
  {
    ParticipantIsValidator(s, n, n.peers[me].height + 1, n.peers[me].mempool[h].from);
  }

  /** A full mempool, with or without seeds in it, means that all participants of the round have committed. */
  lemma FullMempoolProves(s: Setup, n: Network, me: Address)
    requires SetupOk(s) && Well(n) && me in n.peers && PeerOk(s, n, me) && s.m <= |n.peers[me].mempool|
    requires forall tx :: tx in n.sent ==> SentOk(s, n, tx)
    ensures AllCommitted(s, n, n.peers[me].height + 1)
  {
    if h :| h in n.peers[me].mempool && FunctionOf(n.peers[me].mempool[h]) != RandomHash {
      SeedProves(s, n, me, h);
    } else {
      OnlyCommitmentsFill(s, n, me);
    }
  }

  /** The heart of the protocol: whoever has seen m transactions is cleared after all commitments of its height. */
  lemma ObserveIsSafe(s: Setup, n: Network, me: Address)
    requires SetupOk(s) && Inv(s, n) && Enabled(s, n, Observe(me))
    ensures AllCommitted(s, n, n.peers[me].worker.seedTx.nHeight)
  {
    hide MempoolValid, AllCommitted, SentOk, BlockOk;
    var p := n.peers[me];
    assert PeerOk(s, n, me);
    if p.worker.seedTx.nHeight <= p.height {
      BlockCommitted(s, n, p.worker.seedTx.nHeight);
    } else {
      FullMempoolProves(s, n, me);
    }
  }

  /** A participant that is alone in its round has all commitments once it has sent its own. */
  lemma AloneIsSafe(s: Setup, n: Network, after: Network, me: Address, hashTx: TxValidator)
    requires s.m <= 1 && Inv(s, n) && Extends(n, after) && me in n.peers && Participates(ListOf(s, n, me), s.m, me)
    requires hashTx in after.sent && 1 <= hashTx.nHeight <= n.peers[me].height + 1
    requires IsCommitment(hashTx, me, hashTx.nHeight)
    ensures AllCommitted(s, after, hashTx.nHeight)
  {
    var h := hashTx.nHeight;
    if h <= n.peers[me].height {
      BlockCommitted(s, n, h);
      CommittedPersists(s, n, after, h);
    } else {
      ListPersists(s, n.chain, after.chain, h);
      assert HasCommitted(after, me, h);
    }
  }

  // ---------------------------------------------------------------- every step keeps the invariant

  lemma ReceivedAreSent(s: Setup, n: Network, after: Network, a: Address, tx: TxValidator)
    requires Well(n) && a in n.peers && PeerOk(s, n, a) && n.sent <= after.sent && tx in after.sent
    ensures var mempool := Receive(s, n, a, tx).mempool; forall h :: h in mempool ==> mempool[h] in after.sent
  {
    hide MempoolValid, WorkerOk;
  }

  /** Receiving a sent transaction keeps a node's mempool in order, whatever its worker does. */
  lemma ReceiveKeeps(s: Setup, n: Network, after: Network, a: Address, tx: TxValidator, worker: Worker)
    requires Well(n) && Well(after) && Extends(n, after) && a in n.peers && PeerOk(s, n, a)
    requires a in after.peers && after.peers[a] == Receive(s, n, a, tx).(worker := worker)
    requires tx in after.sent && WorkerOk(s, after, n.peers[a].height, worker)
    ensures PeerOk(s, after, a)
  {
    hide WorkerOk, MempoolValid, Arrived;
    var p := n.peers[a];
    ReceivedAreSent(s, n, after, a, tx);
    AddTxKeepsValid(s.hash, p.mempool, ListOf(s, n, a), s.m, p.height, tx);
    ListPersists(s, n.chain, after.chain, p.height + 1);
  }

  /** What a step has to establish: the new transaction, the new block and the changed node are in order. */
  lemma InvAfter(s: Setup, n: Network, after: Network, a: Address, tx: TxValidator)
    requires Inv(s, n) && Well(after) && Extends(n, after)
    requires forall other :: other in after.peers && other != a ==>
               other in n.peers && n.peers[other] == after.peers[other]
    requires a in after.peers ==> PeerOk(s, after, a)
    requires after.sent <= n.sent + {tx} && (tx in after.sent ==> SentOk(s, after, tx))
    requires forall h :: |n.chain| <= h < |after.chain| ==> BlockOk(s, after, h)
    ensures Inv(s, after)
  {
    forall other | other in after.peers
      ensures PeerOk(s, after, other)
    {
      if other != a {
        PeerPersists(s, n, after, other);
      }
    }
    forall older | older in after.sent
      ensures SentOk(s, after, older)
    {
      if older in n.sent {
        SentPersists(s, n, after, older);
      }
    }
    forall h | 1 <= h < |after.chain|
      ensures BlockOk(s, after, h)
    {
      if h < |n.chain| {
        BlockPersists(s, n, after, h);
      }
    }
  }

  lemma PreparedFunctions(s: Setup, me: Address, seed: Hash, hashTx: TxValidator, seedTx: TxValidator)
    requires Prepared(s, me, seed, hashTx, seedTx)
    ensures FunctionOf(hashTx) == RandomHash && FunctionOf(seedTx) == RandomSeed
    ensures Opens(s.crypto.sha3, hashTx, seedTx)
  {
    assert Functor(hashTx) == Some(HASH_FUNCTOR) && Body(hashTx) == s.crypto.sha3(seed);
    assert Functor(seedTx) == Some(SEED_FUNCTOR) && Body(seedTx) == seed;
  }

  lemma CommitKeeps(s: Setup, n: Network, me: Address, seed: Hash, hashTx: TxValidator, seedTx: TxValidator)
    requires SetupOk(s) && Inv(s, n) && Enabled(s, n, Commit(me, seed, hashTx, seedTx))
    ensures Inv(s, Apply(s, n, Commit(me, seed, hashTx, seedTx)))
  {
    hide MempoolValid, AllCommitted, BlockOk, Arrived;
    var after := Apply(s, n, Commit(me, seed, hashTx, seedTx));
    PreparedFunctions(s, me, seed, hashTx, seedTx);
    assert PeerOk(s, n, me);
    if s.m <= 1 {
      AloneIsSafe(s, n, after, me, hashTx);
    }
    ReceiveKeeps(s, n, after, me, hashTx, Waiting(seedTx));
    InvAfter(s, n, after, me, hashTx);
  }

  lemma RevealKeeps(s: Setup, n: Network, me: Address)
    requires SetupOk(s) && Inv(s, n) && Enabled(s, n, Reveal(me))
    ensures Inv(s, Apply(s, n, Reveal(me)))
  {
    hide MempoolValid, AllCommitted, SentOk, BlockOk, PeerOk, Arrived;
    var after, seedTx := Apply(s, n, Reveal(me)), n.peers[me].worker.seedTx;
    RevealedSeedOk(s, n, me);
    SentPersists(s, n, after, seedTx);
    ReceiveKeeps(s, n, after, me, seedTx, Resting);
    InvAfter(s, n, after, me, seedTx);
  }

  /** What a worker sends after it was cleared is in order, however long ago that was. */
  lemma RevealedSeedOk(s: Setup, n: Network, me: Address)
    requires Inv(s, n) && Enabled(s, n, Reveal(me))
    ensures PeerOk(s, n, me) && SentOk(s, n, n.peers[me].worker.seedTx)
    ensures AllCommitted(s, n, n.peers[me].worker.seedTx.nHeight)
  {
    hide MempoolValid, AllCommitted;
    assert PeerOk(s, n, me);
  }

  /** A worker changes its mind, nothing else happens. */
  lemma WorkerKeeps(s: Setup, n: Network, me: Address, seen: nat, worker: Worker)
    requires Inv(s, n) && me in n.peers && WorkerOk(s, n, n.peers[me].height, worker) && seen <= n.peers[me].height
    ensures Inv(s, n.(peers := n.peers[me := n.peers[me].(seen := seen, worker := worker)]))
  {
    hide MempoolValid, AllCommitted, WorkerOk;
    var after := n.(peers := n.peers[me := n.peers[me].(seen := seen, worker := worker)]);
    WorkerPersists(s, n, after, n.peers[me].height, worker);
    forall a | a in after.peers
      ensures PeerOk(s, after, a)
    {
      assert PeerOk(s, n, a);
      WorkerPersists(s, n, after, n.peers[a].height, n.peers[a].worker);
    }
    ChainAndSentKeep(s, n, after);
  }

  /** Steps that touch neither the chain nor what was sent. */
  lemma ChainAndSentKeep(s: Setup, n: Network, after: Network)
    requires Inv(s, n) && after.chain == n.chain && after.sent == n.sent
    ensures forall tx :: tx in after.sent ==> SentOk(s, after, tx)
    ensures forall h :: 1 <= h < |after.chain| ==> BlockOk(s, after, h)
  {
    hide AllCommitted, PeerOk;
    forall tx | tx in after.sent
      ensures SentOk(s, after, tx)
    {
      SentPersists(s, n, after, tx);
    }
    forall h | 1 <= h < |after.chain|
      ensures BlockOk(s, after, h)
    {
      BlockPersists(s, n, after, h);
    }
  }

  lemma ObserveKeeps(s: Setup, n: Network, me: Address)
    requires SetupOk(s) && Inv(s, n) && Enabled(s, n, Observe(me))
    ensures Inv(s, Apply(s, n, Observe(me)))
  {
    hide MempoolValid, AllCommitted, Inv;
    ObserveIsSafe(s, n, me);
    WaitingOk(s, n, me);
    SeenBefore(s, n, me);
    WorkerKeeps(s, n, me, n.peers[me].seen, Cleared(n.peers[me].worker.seedTx));
  }

  lemma WaitingOk(s: Setup, n: Network, me: Address)
    requires Inv(s, n) && me in n.peers
    ensures WorkerOk(s, n, n.peers[me].height, n.peers[me].worker)
  {
    hide MempoolValid, AllCommitted, WorkerOk;
    assert PeerOk(s, n, me);
  }

  lemma StopKeeps(s: Setup, n: Network, me: Address, sends: bool)
    requires Patient(s) && Inv(s, n) && Enabled(s, n, Stop(me, sends))
    ensures Inv(s, Apply(s, n, Stop(me, sends)))
  {
    hide MempoolValid, AllCommitted, Inv;
    WaitingOk(s, n, me);
    SeenBefore(s, n, me);
    WorkerKeeps(s, n, me, n.peers[me].seen, if sends then Cleared(n.peers[me].worker.seedTx) else Resting);
  }

  lemma DeliverKeeps(s: Setup, n: Network, to: Address, tx: TxValidator)
    requires Inv(s, n) && Enabled(s, n, Deliver(to, tx))
    ensures Inv(s, Apply(s, n, Deliver(to, tx)))
  {
    hide MempoolValid, AllCommitted, BlockOk, Arrived;
    var after := Apply(s, n, Deliver(to, tx));
    assert PeerOk(s, n, to);
    WorkerPersists(s, n, after, n.peers[to].height, n.peers[to].worker);
    ReceiveKeeps(s, n, after, to, tx, n.peers[to].worker);
    assert SentOk(s, n, tx);
    SentPersists(s, n, after, tx);
    InvAfter(s, n, after, to, tx);
  }

  lemma OutsiderKeeps(s: Setup, n: Network, tx: TxValidator)
    requires Inv(s, n) && Enabled(s, n, Outsider(tx))
    ensures Inv(s, Apply(s, n, Outsider(tx)))
  {
    hide MempoolValid, AllCommitted, WorkerOk, BlockOk;
    var after := Apply(s, n, Outsider(tx));
    forall a | a in n.peers
      ensures PeerOk(s, after, a)
    {
      PeerPersists(s, n, after, a);
    }
    InvAfter(s, n, after, tx.from, tx);
  }

  lemma ProposeKeeps(s: Setup, n: Network, block: Block)
    requires Inv(s, n) && Enabled(s, n, Propose(block))
    ensures Inv(s, Apply(s, n, Propose(block)))
  {
    hide MempoolValid, AllCommitted, WorkerOk, SentOk;
    var after := Apply(s, n, Propose(block));
    var h := |n.chain|;
    ListPersists(s, n.chain, after.chain, h);
    assert BlockOk(s, after, h);
    forall a | a in n.peers
      ensures PeerOk(s, after, a)
    {
      PeerPersists(s, n, after, a);
    }
    forall tx | tx in n.sent
      ensures SentOk(s, after, tx)
    {
      SentPersists(s, n, after, tx);
    }
    forall k | 1 <= k < |after.chain|
      ensures BlockOk(s, after, k)
    {
      if k < h {
        BlockPersists(s, n, after, k);
      }
    }
  }

  /** A cleared mempool is in order at every height, so accepting a block or restarting keeps the invariant. */
  lemma ClearKeeps(s: Setup, n: Network, after: Network, node: Address)
    requires Inv(s, n) && node in n.peers && Well(after)
    requires node in after.peers && after.peers[node].mempool == map[]
    requires after == n.(peers := n.peers[node := after.peers[node]])
    requires after.peers[node].height >= n.peers[node].height && after.peers[node].seen <= after.peers[node].height
    requires after.peers[node].worker == Idle || after.peers[node].worker == n.peers[node].worker
    ensures Inv(s, after)
  {
    hide MempoolValid, AllCommitted;
    assert PeerOk(s, n, node);
    EmptyMempoolValid(s.hash, ListOf(s, after, node), s.m, after.peers[node].height);
    WorkerPersists(s, n, after, n.peers[node].height, n.peers[node].worker);
    forall a | a in after.peers
      ensures PeerOk(s, after, a)
    {
      if a != node {
        PeerPersists(s, n, after, a);
      }
    }
    ChainAndSentKeep(s, n, after);
  }

  lemma SeenBefore(s: Setup, n: Network, a: Address)
    requires Inv(s, n) && a in n.peers
    ensures n.peers[a].seen <= n.peers[a].height
  {
    hide MempoolValid, AllCommitted, WorkerOk;
    assert PeerOk(s, n, a);
  }

  lemma StepKeeps(s: Setup, n: Network, step: Step)
    requires SetupOk(s) && Patient(s) && Inv(s, n) && Enabled(s, n, step)
    ensures Inv(s, Apply(s, n, step))
  {
    hide PeerOk, SentOk, BlockOk, Prepared;
    match step
    case Commit(me, seed, hashTx, seedTx) => CommitKeeps(s, n, me, seed, hashTx, seedTx);
    case Deliver(to, tx) => DeliverKeeps(s, n, to, tx);
    case Observe(me) => ObserveKeeps(s, n, me);
    case Stop(me, sends) => StopKeeps(s, n, me, sends);
    case Reveal(me) => RevealKeeps(s, n, me);
    case Look(me) => WorkerKeeps(s, n, me, n.peers[me].height, Idle);
    case Outsider(tx) => OutsiderKeeps(s, n, tx);
    case Propose(block) => ProposeKeeps(s, n, block);
    case Accept(node) =>
      SeenBefore(s, n, node);
      ClearKeeps(s, n, Apply(s, n, step), node);
    case Restart(node) => ClearKeeps(s, n, Apply(s, n, step), node);
  }

  lemma InitInv(s: Setup, n: Network)
    requires Init(s, n)
    ensures Inv(s, n)
  {
    forall a | a in n.peers
      ensures PeerOk(s, n, a)
    {
      EmptyMempoolValid(s.hash, ListOf(s, n, a), s.m, 0);
    }
  }

  lemma {:induction false} RunKeeps(s: Setup, states: seq<Network>, steps: seq<Step>, i: nat)
    requires SetupOk(s) && Patient(s) && Run(s, states, steps) && i < |states|
    ensures Inv(s, states[i])
  {
    hide Inv, Enabled, Apply, Init;
    if i == 0 {
      InitInv(s, states[0]);
    } else {
      RunKeeps(s, states, steps, i - 1);
      assert Takes(s, states[i - 1], steps[i - 1], states[i]);
      StepKeeps(s, states[i - 1], steps[i - 1]);
    }
  }

  /**
   * Commit-reveal safety: in every state of every run, once any validator's seed for a height has been sent,
   * all m participants of that height had sent their commitments. `RevealRuns.SafeExactly` shows that the
   * condition on the setup cannot be dropped.
   */
  lemma NoSeedBeforeAllCommitments(s: Setup, states: seq<Network>, steps: seq<Step>, i: nat, seedTx: TxValidator)
    requires SetupOk(s) && Patient(s) && Run(s, states, steps) && i < |states|
    requires seedTx in states[i].sent && seedTx.from in s.validators && FunctionOf(seedTx) == RandomSeed
    ensures AllCommitted(s, states[i], seedTx.nHeight)
  {
    RunKeeps(s, states, steps, i);
    assert SentOk(s, states[i], seedTx);
  }

  /** `block` could be proposed for height `h`, and everything it carries has been sent. */
  ghost predicate Acceptable(s: Setup, n: Network, h: nat, block: Block)
    requires 1 <= h <= |n.chain|
  {
    && block.nHeight == h
    && AcceptsBlock(s.crypto, s.hash, ListAt(s, n.chain, h), s.m, block)
    && block.blockRandomness == Randomness(s.crypto.sha3, block.txValidators)
    && forall tx :: tx in block.txValidators ==> tx in n.sent
  }

  /** No validator sent two different commitments for height `h`. */
  ghost predicate CommitsOnce(s: Setup, n: Network, h: nat) {
    forall c, d :: c in n.sent && d in n.sent && c.from == d.from && c.from in s.validators ==>
      IsCommitment(c, c.from, h) && IsCommitment(d, d.from, h) ==> Body(c) == Body(d)
  }

  ghost predicate SeedsCollide(s: Setup, n: Network, a: TxValidator, b: TxValidator) {
    a in n.sent && b in n.sent && Body(a) != Body(b) && s.crypto.sha3(Body(a)) == s.crypto.sha3(Body(b))
  }

  lemma SameCommitments(s: Setup, n: Network, h: nat, mine: Block, yours: Block, i: nat)
    requires 1 <= h <= |n.chain| && Acceptable(s, n, h, mine) && Acceptable(s, n, h, yours) && CommitsOnce(s, n, h)
    requires SetupOk(s) && i < s.m
    ensures Body(mine.txValidators[i]) == Body(yours.txValidators[i])
  {
    var list, a, b := ListAt(s, n.chain, h), mine.txValidators, yours.txValidators;
    assert PairValid(s.crypto.sha3, list, s.m, a, i) && PairValid(s.crypto.sha3, list, s.m, b, i);
    assert a[i] in a && b[i] in b;
    assert IsCommitment(a[i], a[i].from, h) && IsCommitment(b[i], b[i].from, h);
    assert Participates(list, s.m, list[i + 1]);
    ParticipantIsValidator(s, n, h, list[i + 1]);
  }

  lemma NoCollision(s: Setup, n: Network, h: nat, mine: Block, yours: Block, i: nat)
    requires 1 <= h <= |n.chain| && Acceptable(s, n, h, mine) && Acceptable(s, n, h, yours) && i < s.m
    requires forall a, b :: !SeedsCollide(s, n, a, b)
    ensures var x, y := Seeds(s.m, mine.txValidators)[i], Seeds(s.m, yours.txValidators)[i];
            s.crypto.sha3(x) == s.crypto.sha3(y) ==> x == y
  {
    hide PairValid, DistinctHashes, SameHeight, ListAt;
    var a, b := mine.txValidators, yours.txValidators;
    assert a[i + s.m] in a && b[i + s.m] in b;
    assert !SeedsCollide(s, n, a[i + s.m], b[i + s.m]);
  }

  /**
   * The round is decided by its commitments: whichever acceptable block the creator of height `h` assembles, out
   * of whatever has been sent, its randomness is the same.
   */
  lemma CreatorCannotChooseRandomness(s: Setup, n: Network, h: nat, mine: Block, yours: Block)
    requires SetupOk(s) && s.m >= 1 && 1 <= h <= |n.chain| && CommitsOnce(s, n, h)
    requires Acceptable(s, n, h, mine) && Acceptable(s, n, h, yours)
    requires forall a, b :: !SeedsCollide(s, n, a, b)
    ensures mine.blockRandomness == yours.blockRandomness
  {
    hide CommitsOnce, SeedsCollide, DistinctHashes, SameHeight, PairsValid, Randomness, Seeds;
    var a, b := mine.txValidators, yours.txValidators;
    RoundOf(s, n, h, mine);
    RoundOf(s, n, h, yours);
    forall i | 0 <= i < s.m
      ensures Body(a[i]) == Body(b[i])
      ensures s.crypto.sha3(Seeds(s.m, a)[i]) == s.crypto.sha3(Seeds(s.m, b)[i]) ==>
                Seeds(s.m, a)[i] == Seeds(s.m, b)[i]
    {
      SameCommitments(s, n, h, mine, yours, i);
      NoCollision(s, n, h, mine, yours, i);
    }
    CommitmentsFixRandomness(s.crypto.sha3, ListAt(s, n.chain, h), s.m, a, b);
  }

  lemma RoundOf(s: Setup, n: Network, h: nat, block: Block)
    requires 1 <= h <= |n.chain| && Acceptable(s, n, h, block)
    ensures |block.txValidators| == 2 * s.m && s.m < |s.validators|
    ensures PairsValid(s.crypto.sha3, ListAt(s, n.chain, h), s.m, block.txValidators)
    ensures block.blockRandomness == Randomness(s.crypto.sha3, block.txValidators)
  {
  }
}

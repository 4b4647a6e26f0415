/** How often a validator commits for one height, and what follows for the randomness of a round. */
module CommitOnce {
  import opened Bytes
  import opened Round
  import opened TxValidators
  import opened Blocks
  import opened RdPoS
  import opened CommitReveal
  import opened RevealRuns

  /** A commitment of a validator. */
  predicate Commits(s: Setup, tx: TxValidator) {
    tx.from in s.validators && FunctionOf(tx) == RandomHash
  }

  /** A worker has committed up to the height after the block it saw, and not yet for that one while it is idle. */
  predicate UpTo(p: Peer, h: nat) {
    h <= p.seen + 1 && (p.worker.Idle? ==> h <= p.seen)
  }

  /** What a worker keeps for later is a seed. */
  predicate KeepsSeed(p: Peer) {
    p.worker.Waiting? || p.worker.Cleared? ==> FunctionOf(p.worker.seedTx) == RandomSeed
  }

  predicate SameRound(c: TxValidator, d: TxValidator) {
    c.from == d.from && c.nHeight == d.nHeight
  }

  ghost predicate SentOf(s: Setup, n: Network, tx: TxValidator) {
    tx in n.sent && Commits(s, tx)
  }

  ghost predicate OnceOk(s: Setup, n: Network) {
    && (forall a :: a in n.peers ==> KeepsSeed(n.peers[a]))
    && (forall tx :: SentOf(s, n, tx) ==> tx.from in n.peers && UpTo(n.peers[tx.from], tx.nHeight))
    && (forall c, d :: SentOf(s, n, c) && SentOf(s, n, d) && SameRound(c, d) ==> c == d)
  }

  /** Steps that send no commitment. */
  lemma NothingCommitted(s: Setup, n: Network, after: Network)
    requires OnceOk(s, n) && n.peers.Keys == after.peers.Keys
    requires forall tx :: SentOf(s, after, tx) ==> SentOf(s, n, tx)
    requires forall a :: a in n.peers ==> KeepsSeed(after.peers[a])
    requires forall a, h: nat :: a in n.peers && UpTo(n.peers[a], h) ==> UpTo(after.peers[a], h)
    ensures OnceOk(s, after)
  {
    hide KeepsSeed, UpTo, SentOf;
  }

  lemma CommitOnceMore(s: Setup, n: Network, me: Address, seed: Hash, hashTx: TxValidator, seedTx: TxValidator)
    requires OnceOk(s, n) && Well(n) && Enabled(s, n, Commit(me, seed, hashTx, seedTx))
    ensures OnceOk(s, Apply(s, n, Commit(me, seed, hashTx, seedTx)))
  {
    hide Receive, Participates;
    var after := Apply(s, n, Commit(me, seed, hashTx, seedTx));
    PreparedFunctions(s, me, seed, hashTx, seedTx);
    ReceiveKeepsWorker(s, n, me, hashTx);
    forall c, d | SentOf(s, after, c) && SentOf(s, after, d) && SameRound(c, d)
      ensures c == d
    {
      assert c != hashTx ==> SentOf(s, n, c);
      assert d != hashTx ==> SentOf(s, n, d);
    }
    forall tx | SentOf(s, after, tx)
      ensures tx.from in after.peers && UpTo(after.peers[tx.from], tx.nHeight)
    {
      assert tx != hashTx ==> SentOf(s, n, tx);
    }
  }

  lemma ReceiveKeepsWorker(s: Setup, n: Network, a: Address, tx: TxValidator)
    requires Well(n) && a in n.peers
    ensures var p := Receive(s, n, a, tx); p.seen == n.peers[a].seen && p.worker == n.peers[a].worker
  {
  }

  /** Without restarts every step keeps it. */
  lemma StepOnce(s: Setup, n: Network, step: Step, after: Network)
    requires OnceOk(s, n) && !s.restarts && Takes(s, n, step, after)
    ensures OnceOk(s, after)
  {
    hide Receive, Participates, AcceptsBlock, OnceOk, FunctionOf;
    match step
    case Commit(me, seed, hashTx, seedTx) => CommitOnceMore(s, n, me, seed, hashTx, seedTx);
    case Deliver(to, tx) =>
      ReceiveKeepsWorker(s, n, to, tx);
      PeersKept(s, n);
      NothingCommitted(s, n, after);
    case Observe(me) => PeersKept(s, n); NothingCommitted(s, n, after);
    case Stop(me, sends) => PeersKept(s, n); NothingCommitted(s, n, after);
    case Reveal(me) =>
      ReceiveKeepsWorker(s, n, me, n.peers[me].worker.seedTx);
      PeersKept(s, n);
      NothingCommitted(s, n, after);
    case Look(me) => PeersKept(s, n); NothingCommitted(s, n, after);
    case Outsider(tx) => PeersKept(s, n); NothingCommitted(s, n, after);
    case Propose(block) => PeersKept(s, n); NothingCommitted(s, n, after);
    case Accept(node) => PeersKept(s, n); NothingCommitted(s, n, after);
  }

  lemma PeersKept(s: Setup, n: Network)
    requires OnceOk(s, n)
    ensures forall a :: a in n.peers ==> KeepsSeed(n.peers[a])
  {
  }

  lemma {:induction false} RunOnce(s: Setup, states: seq<Network>, steps: seq<Step>, i: nat)
    requires !s.restarts && Run(s, states, steps) && i < |states|
    ensures OnceOk(s, states[i])
  {
    hide Takes, OnceOk;
    if i == 0 {
      InitOnce(s, states[0]);
    } else {
      RunOnce(s, states, steps, i - 1);
      StepOnce(s, states[i - 1], steps[i - 1], states[i]);
    }
  }

  lemma InitOnce(s: Setup, n: Network)
    requires Init(s, n)
    ensures OnceOk(s, n)
  {
  }

  lemma OnceMeansCommitsOnce(s: Setup, n: Network, h: nat)
    requires OnceOk(s, n)
    ensures CommitsOnce(s, n, h)
  {
    forall c, d | c in n.sent && d in n.sent && c.from == d.from && c.from in s.validators
      ensures IsCommitment(c, c.from, h) && IsCommitment(d, d.from, h) ==> Body(c) == Body(d)
    {
      if IsCommitment(c, c.from, h) && IsCommitment(d, d.from, h) {
        assert SentOf(s, n, c) && SentOf(s, n, d) && SameRound(c, d);
      }
    }
  }

  /** In every state of every run, no validator has sent two different commitments for any height. */
  ghost predicate AlwaysOnce(s: Setup) {
    forall n, h: nat :: Reach(s, n) ==> CommitsOnce(s, n, h)
  }

  lemma ReachOnce(s: Setup, n: Network, h: nat)
    requires !s.restarts && Reach(s, n)
    ensures CommitsOnce(s, n, h)
  {
    hide Takes, Init, CommitsOnce, OnceOk;
    var states: seq<Network>, steps: seq<Step> :| Run(s, states, steps) && states[|steps|] == n;
    RunOnce(s, states, steps, |steps|);
    OnceMeansCommitsOnce(s, n, h);
  }

  /** A node that restarts forgets that it committed, and commits again. */
  lemma RestartRun(s: Setup, x: Hash, y: Hash) returns (n: Network)
    requires SetupOk(s) && s.restarts && s.m >= 1 && s.crypto.sha3(x) != s.crypto.sha3(y)
    ensures Reach(s, n) && !CommitsOnce(s, n, 1)
  {
    hide Reach;
    var a, c, d := Order(s)[1], Commitment(s, 1, x), Commitment(s, 1, y);
    LoneStarts(s);
    LoneCommits(s, {}, x);
    assert {} + {c} == {c};
    var waiting, again := Lone(s, {c}, map[s.hash(c) := c], Waiting(Opening(s, 1, x))), Lone(s, {c}, map[], Idle);
    assert Apply(s, waiting, Restart(a)) == again;
    ReachStep(s, waiting, Restart(a), again);
    LoneCommits(s, {c}, y);
    n := Lone(s, {c} + {d}, map[s.hash(d) := d], Waiting(Opening(s, 1, y)));
    TwoCommitments(s, n, x, y);
  }

  lemma TwoCommitments(s: Setup, n: Network, x: Hash, y: Hash)
    requires SetupOk(s) && s.m >= 1 && s.crypto.sha3(x) != s.crypto.sha3(y)
    requires Commitment(s, 1, x) in n.sent && Commitment(s, 1, y) in n.sent
    ensures !CommitsOnce(s, n, 1)
  {
    var c, d := Commitment(s, 1, x), Commitment(s, 1, y);
    OpeningIsSeed(s, 1, x);
    OpeningIsSeed(s, 1, y);
    assert Body(c) == s.crypto.sha3(x) && Body(d) == s.crypto.sha3(y);
    assert IsCommitment(c, c.from, 1) && IsCommitment(d, d.from, 1);
  }

  /** Exactly when validators commit once per height in every run: nodes do not restart. */
  lemma CommitsOnceExactly(s: Setup, x: Hash, y: Hash)
    requires SetupOk(s) && s.m >= 1 && s.crypto.sha3(x) != s.crypto.sha3(y)
    ensures AlwaysOnce(s) <==> !s.restarts
  {
    hide Reach, CommitsOnce;
    if s.restarts {
      var n := RestartRun(s, x, y);
    } else {
      forall n, h: nat | Reach(s, n)
        ensures CommitsOnce(s, n, h)
      {
        ReachOnce(s, n, h);
      }
    }
  }

  /**
   * In every run without restarts the randomness of a round is fixed by what was committed: whichever acceptable
   * block its creator assembles out of whatever has been sent, the randomness is the same.
   */
  lemma RandomnessIsFixed(s: Setup, n: Network, h: nat, mine: Block, yours: Block)
    requires SetupOk(s) && s.m >= 1 && !s.restarts && Reach(s, n)
    requires 1 <= h <= |n.chain| && Acceptable(s, n, h, mine) && Acceptable(s, n, h, yours)
    requires forall a, b :: !SeedsCollide(s, n, a, b)
    ensures mine.blockRandomness == yours.blockRandomness
  {
    hide Reach, CommitsOnce, Acceptable, SeedsCollide;
    ReachOnce(s, n, h);
    CreatorCannotChooseRandomness(s, n, h, mine, yours);
  }
}

/** Replay protection: what an accepted transaction can never do again. */
module Replay {
  import opened Bytes
  import opened TxBlocks
  import opened Blocks
  import opened Accounts
  import opened Mempool
  import opened Ledger
  import State

  /** The transaction has been counted: its sender's nonce is past it. */
  predicate Counted(accounts: Accounts, tx: TxBlock) {
    tx.nonce < Nonce(accounts, tx.from)
  }

  lemma CountedIsInvalid(accounts: Accounts, tx: TxBlock)
    requires Counted(accounts, tx)
    ensures Judge(accounts, tx) != NotInvalid
  {
  }

  /** No sender's 64-bit nonce wraps around while the transactions are processed. */
  ghost predicate NoncesFit(accounts: Accounts, txs: seq<TxBlock>) {
    forall a :: Nonce(accounts, a) + CountFrom(txs, a) < LIMIT64
  }

  /** Whatever becomes of its transactions, a block raises each 64-bit nonce by the number of transactions sent. */
  lemma {:induction false} NoncesCount(accounts: Accounts, txs: seq<TxBlock>, outcomes: seq<Outcome>, a: Address)
    requires |outcomes| == |txs| && ProcessTxs(accounts, txs, outcomes).Some?
    ensures Nonce(ProcessTxs(accounts, txs, outcomes).value, a) == Wrap64(Nonce(accounts, a) + CountFrom(txs, a))
    decreases |txs|
  {
    hide ProcessTx;
    if txs != [] {
      NonceAfter(accounts, txs[0], outcomes[0], a);
      NoncesCount(ProcessTx(accounts, txs[0], outcomes[0]).value, txs[1..], outcomes[1..], a);
      WrapAdd(Nonce(accounts, a) + 1, CountFrom(txs[1..], a));
    }
  }

  lemma {:induction false} MemberCounts(txs: seq<TxBlock>, k: nat)
    requires k < |txs|
    ensures CountFrom(txs, txs[k].from) >= 1
  {
    if k > 0 {
      MemberCounts(txs[1..], k - 1);
    }
  }

  /** What was counted stays counted, and a block counts every transaction in it. */
  lemma BlockCounts(accounts: Accounts, txs: seq<TxBlock>, outcomes: seq<Outcome>, tx: TxBlock)
    requires AllValid(accounts, txs) && NoncesFit(accounts, txs)
    requires |outcomes| == |txs| && ProcessTxs(accounts, txs, outcomes).Some?
    requires Counted(accounts, tx) || tx in txs
    ensures Counted(ProcessTxs(accounts, txs, outcomes).value, tx)
  {
    hide ProcessTxs;
    NoncesCount(accounts, txs, outcomes, tx.from);
    if tx in txs {
      var k :| 0 <= k < |txs| && txs[k] == tx;
      MemberCounts(txs, k);
    }
  }

  // ---------------------------------------------------------------- one block on a history

  /** Every transaction of the history has been counted. */
  ghost predicate HistoryCounted(accounts: Accounts, hist: seq<Block>) {
    forall i, k :: 0 <= i < |hist| && 0 <= k < |hist[i].txs| ==> Counted(accounts, hist[i].txs[k])
  }

  /** Different transactions of the history and of the block have different hashes. */
  ghost predicate NoTxCollision(f: Format, hist: seq<Block>, b: Block) {
    forall i, k, l :: 0 <= i < |hist| && 0 <= k < |hist[i].txs| && 0 <= l < |b.txs| ==>
      f.txHashOf(hist[i].txs[k]) == f.txHashOf(b.txs[l]) ==> hist[i].txs[k] == b.txs[l]
  }

  /** A block that passes validation brings only transactions that are new to the history. */
  lemma AcceptedTxsAreNew(f: Format, accounts: Accounts, hist: seq<Block>, b: Block)
    requires HistoryCounted(accounts, hist) && AllValid(accounts, b.txs) && NoTxCollision(f, hist, b)
    ensures TxsNew(f, hist, b)
    ensures TxsDistinct(f, hist) ==> (TxsDistinct(f, hist + [b]) <==> OwnTxsDistinct(f, b))
  {
    forall i, k | 0 <= i < |hist| && 0 <= k < |hist[i].txs|
      ensures !Carries(f, b, f.txHashOf(hist[i].txs[k]))
    {
      assert Counted(accounts, hist[i].txs[k]);
      CountedIsInvalid(accounts, hist[i].txs[k]);
    }
    if TxsDistinct(f, hist) {
      TxsDistinctExactly(f, hist, b);
    }
  }

  lemma HistoryStaysCounted(accounts: Accounts, hist: seq<Block>, b: Block, outcomes: seq<Outcome>)
    requires HistoryCounted(accounts, hist) && AllValid(accounts, b.txs) && NoncesFit(accounts, b.txs)
    requires |outcomes| == |b.txs| && ProcessTxs(accounts, b.txs, outcomes).Some?
    ensures HistoryCounted(ProcessTxs(accounts, b.txs, outcomes).value, hist + [b])
  {
    hide ProcessTxs, NoncesFit, Counted;
    var longer := hist + [b];
    forall i, k | 0 <= i < |longer| && 0 <= k < |longer[i].txs|
      ensures Counted(ProcessTxs(accounts, b.txs, outcomes).value, longer[i].txs[k])
    {
      assert i < |hist| ==> Counted(accounts, hist[i].txs[k]);
      BlockCounts(accounts, b.txs, outcomes, longer[i].txs[k]);
    }
  }

  // ---------------------------------------------------------------- whole runs

  /** Transactions of the mempool and of a block that share a hash are the same. */
  ghost predicate KnownAgree(hash: TxBlock -> Hash, mempool: Pending, txs: seq<TxBlock>) {
    forall k :: 0 <= k < |txs| && hash(txs[k]) in mempool ==> mempool[hash(txs[k])] == txs[k]
  }

  /** Every block of the run passed validation, mempool shortcut included. */
  ghost predicate Validated(hash: TxBlock -> Hash, states: seq<Pool>, events: seq<Event>)
    requires |states| == |events| + 1
  {
    forall i :: 0 <= i < |events| && events[i].ProcessBlock? ==> ValidatedAt(hash, states[i], events[i].txs)
  }

  ghost predicate ValidatedAt(hash: TxBlock -> Hash, n: Pool, txs: seq<TxBlock>) {
    && State.JudgeAll(hash, n.accounts, n.mempool, txs) == NotInvalid
    && KnownAgree(hash, n.mempool, txs)
  }

  /** What passed validation, with the shortcut or without, is valid against the accounts. */
  lemma PassedIsValid(hash: TxBlock -> Hash, states: seq<Pool>, events: seq<Event>, i: nat)
    requires Run(hash, states, events) && Validated(hash, states, events)
    requires i < |events| && events[i].ProcessBlock?
    ensures AllValid(states[i].accounts, events[i].txs)
  {
    AlwaysPayable(hash, states, events, i);
    assert ValidatedAt(hash, states[i], events[i].txs);
    State.JudgeAllMeansAllValid(hash, states[i].accounts, states[i].mempool, events[i].txs);
  }

  lemma CreditKeepsNonce(accounts: Accounts, a: Address, value: U256, b: Address)
    requires Credit(accounts, a, value).Some?
    ensures Nonce(Credit(accounts, a, value).value, b) == Nonce(accounts, b)
  {
  }

  /** How many transactions `a` sent in an event. */
  function SentIn(event: Event, a: Address): nat {
    match event
    case ProcessBlock(txs, _) => CountFrom(txs, a)
    case _ => 0
  }

  /** How many transactions `a` sent in the blocks from event `i` up to event `j`. */
  function SentSince(events: seq<Event>, i: nat, j: nat, a: Address): nat
    requires i <= j <= |events|
    decreases j
  {
    if i == j then 0 else SentSince(events, i, j - 1, a) + SentIn(events[j - 1], a)
  }

  lemma StepCounts(hash: TxBlock -> Hash, n: Pool, event: Event, after: Pool, a: Address)
    requires Takes(hash, n, event, after)
    ensures Nonce(after.accounts, a) == Wrap64(Nonce(n.accounts, a) + SentIn(event, a))
  {
    hide ProcessTxs, Judge;
    match event
    case AddTx(_) =>
    case AddBalance(b) =>
      if Credit(n.accounts, b, GIFT).Some? {
        CreditKeepsNonce(n.accounts, b, GIFT, a);
      }
    case ProcessBlock(txs, outcomes) => NoncesCount(n.accounts, txs, outcomes, a);
  }

  /** In every run, an account's nonce counts what it sent, in 64 bits. */
  lemma {:induction false} NonceIsCount(hash: TxBlock -> Hash, states: seq<Pool>, events: seq<Event>, i: nat, j: nat,
                                        a: Address)
    requires Run(hash, states, events) && i <= j <= |events|
    ensures Nonce(states[j].accounts, a) == Wrap64(Nonce(states[i].accounts, a) + SentSince(events, i, j, a))
    decreases j
  {
    hide Takes, Nonce, Wrap64, SentIn;
    if i == j {
      WrapSmall(Nonce(states[i].accounts, a));
    } else {
      NonceIsCount(hash, states, events, i, j - 1, a);
      assert Takes(hash, states[j - 1], events[j - 1], states[j]);
      StepCounts(hash, states[j - 1], events[j - 1], states[j], a);
      WrapAdd(Nonce(states[i].accounts, a) + SentSince(events, i, j - 1, a), SentIn(events[j - 1], a));
    }
  }

  lemma {:induction false} SentAtLeast(events: seq<Event>, i: nat, j: nat, a: Address)
    requires i < j <= |events|
    ensures SentSince(events, i, j, a) >= SentIn(events[i], a)
    decreases j
  {
    if i + 1 < j {
      SentAtLeast(events, i, j - 1, a);
    }
  }

  /**
   * In every run whose blocks were validated: an accepted transaction has its sender's nonce again exactly after its
   * sender has sent a multiple of 2^64 transactions. Before that it is never valid again, whatever was received,
   * credited and processed since, and no later block contains it.
   */
  lemma NeverAcceptedAgain(hash: TxBlock -> Hash, states: seq<Pool>, events: seq<Event>, i: nat, j: nat, tx: TxBlock)
    requires Run(hash, states, events) && Validated(hash, states, events)
    requires i < j <= |events| && events[i].ProcessBlock? && tx in events[i].txs
    ensures Nonce(states[j].accounts, tx.from) == tx.nonce <==> Wrap64(SentSince(events, i, j, tx.from)) == 0
    ensures SentSince(events, i, j, tx.from) < LIMIT64 ==> Judge(states[j].accounts, tx) != NotInvalid
    ensures SentSince(events, i, j, tx.from) < LIMIT64 && j < |events| && events[j].ProcessBlock? ==>
              tx !in events[j].txs
  {
    hide Takes, Validated, SentSince, Nonce;
    var k :| 0 <= k < |events[i].txs| && events[i].txs[k] == tx;
    PassedIsValid(hash, states, events, i);
    ValidNonce(states[i].accounts, tx);
    NonceIsCount(hash, states, events, i, j, tx.from);
    WrapReturns(tx.nonce, SentSince(events, i, j, tx.from));
    SentAtLeast(events, i, j, tx.from);
    MemberCounts(events[i].txs, k);
    if Judge(states[j].accounts, tx) == NotInvalid {
      ValidNonce(states[j].accounts, tx);
    }
    if j < |events| && events[j].ProcessBlock? {
      PassedIsValid(hash, states, events, j);
    }
  }

  lemma WrapSmall(n: U64)
    ensures Wrap64(n) == n
  {
  }

  lemma ValidNonce(accounts: Accounts, tx: TxBlock)
    requires Judge(accounts, tx) == NotInvalid
    ensures Nonce(accounts, tx.from) == tx.nonce
  {
  }
}

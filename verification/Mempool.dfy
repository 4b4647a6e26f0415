/** The transaction mempool of a node and the shortcut that trusts it. */
module Mempool {
  import opened Bytes
  import opened TxBlocks
  import opened Accounts

  type Pending = map<Hash, TxBlock>

  const GIFT: U256 := 1000000000000000000000

  /** Every pending transaction could be processed right now. */
  ghost predicate AllPayable(hash: TxBlock -> Hash, accounts: Accounts, mempool: Pending) {
    forall h :: h in mempool ==> hash(mempool[h]) == h && Judge(accounts, mempool[h]) == NotInvalid
  }

  /** Not looking at a known transaction again gives the answer that looking at it would give. */
  lemma ShortcutIsSound(hash: TxBlock -> Hash, accounts: Accounts, mempool: Pending, tx: TxBlock)
    requires AllPayable(hash, accounts, mempool)
    requires hash(tx) in mempool ==> mempool[hash(tx)] == tx
    ensures Validate(hash, accounts, mempool, tx) == Judge(accounts, tx)
  {
  }

  function Hashes(hash: TxBlock -> Hash, txs: seq<TxBlock>): set<Hash> {
    set i | 0 <= i < |txs| :: hash(txs[i])
  }

  /** What a block leaves pending: the transactions outside the block that are valid after it. */
  function Refreshed(hash: TxBlock -> Hash, accounts: Accounts, mempool: Pending, txs: seq<TxBlock>): Pending {
    map h | h in mempool && h !in Hashes(hash, txs) && Judge(accounts, mempool[h]) == NotInvalid :: mempool[h]
  }

  /** It is the largest part of the mempool that shares nothing with the block and could be processed after it. */
  lemma RefreshedIsLargest(hash: TxBlock -> Hash, accounts: Accounts, mempool: Pending, txs: seq<TxBlock>,
                           part: Pending)
    requires forall h :: h in mempool ==> hash(mempool[h]) == h
    requires part.Items <= mempool.Items && part.Keys !! Hashes(hash, txs) && AllPayable(hash, accounts, part)
    ensures part.Items <= Refreshed(hash, accounts, mempool, txs).Items
    ensures Refreshed(hash, accounts, mempool, txs).Items <= mempool.Items
    ensures Refreshed(hash, accounts, mempool, txs).Keys !! Hashes(hash, txs)
    ensures AllPayable(hash, accounts, Refreshed(hash, accounts, mempool, txs))
  {
    hide Judge, Hashes;
    forall item | item in part.Items
      ensures item in Refreshed(hash, accounts, mempool, txs).Items
    {
      assert item.0 in part.Keys && part[item.0] == item.1;
      assert item in mempool.Items;
      assert item.0 in mempool && mempool[item.0] == item.1;
    }
  }

  // ---------------------------------------------------------------- whole runs

  datatype Pool = Pool(accounts: Accounts, mempool: Pending)

  datatype Event = AddTx(tx: TxBlock) | AddBalance(a: Address) | ProcessBlock(txs: seq<TxBlock>, outcomes: seq<Outcome>)

  /** One atomic call; a call that throws before it changes anything leaves the pool as it was. */
  ghost predicate Takes(hash: TxBlock -> Hash, n: Pool, event: Event, after: Pool) {
    match event
    case AddTx(tx) =>
      after == if Validate(hash, n.accounts, n.mempool, tx) == NotInvalid && hash(tx) !in n.mempool
               then n.(mempool := n.mempool[hash(tx) := tx]) else n
    case AddBalance(a) =>
      var credited := Credit(n.accounts, a, GIFT);
      after == if credited.None? then n else n.(accounts := credited.value)
    case ProcessBlock(txs, outcomes) =>
      && |txs| == |outcomes| && ProcessTxs(n.accounts, txs, outcomes).Some?
      && var changed := ProcessTxs(n.accounts, txs, outcomes).value;
      after == Pool(changed, Refreshed(hash, changed, n.mempool, txs))
  }

  lemma EventKeepsPayable(hash: TxBlock -> Hash, n: Pool, event: Event, after: Pool)
    requires AllPayable(hash, n.accounts, n.mempool) && Takes(hash, n, event, after)
    ensures AllPayable(hash, after.accounts, after.mempool)
  {
    match event
    case AddTx(tx) =>
    case ProcessBlock(txs, outcomes) =>
    case AddBalance(a) =>
      forall h | h in n.mempool
        ensures Judge(after.accounts, n.mempool[h]) == NotInvalid
      {
        GiftKeepsValid(n.accounts, a, n.mempool[h]);
      }
  }

  lemma GiftKeepsValid(accounts: Accounts, a: Address, tx: TxBlock)
    requires Judge(accounts, tx) == NotInvalid
    ensures Credit(accounts, a, GIFT).Some? ==> Judge(Credit(accounts, a, GIFT).value, tx) == NotInvalid
  {
  }

  ghost predicate Run(hash: TxBlock -> Hash, states: seq<Pool>, events: seq<Event>) {
    && |states| == |events| + 1
    && states[0].mempool == map[]
    && forall i :: 0 <= i < |events| ==> Takes(hash, states[i], events[i], states[i + 1])
  }

  /** In every state of every run, each pending transaction has its account's nonce and can be paid for. */
  lemma {:induction false} AlwaysPayable(hash: TxBlock -> Hash, states: seq<Pool>, events: seq<Event>, i: nat)
    requires Run(hash, states, events) && i < |states|
    ensures AllPayable(hash, states[i].accounts, states[i].mempool)
  {
    if i > 0 {
      AlwaysPayable(hash, states, events, i - 1);
      assert Takes(hash, states[i - 1], events[i - 1], states[i]);
      EventKeepsPayable(hash, states[i - 1], events[i - 1], states[i]);
    }
  }

  // ---------------------------------------------------------------- refreshing, step by step

  /** Drop the transactions of a block. */
  method DropBlock(hash: TxBlock -> Hash, mempool: Pending, txs: seq<TxBlock>) returns (r: Pending)
    ensures r == map h | h in mempool && h !in Hashes(hash, txs) :: mempool[h]
  {
    r := mempool;
    for i := 0 to |txs|
      invariant r == map h | h in mempool && h !in Hashes(hash, txs[..i]) :: mempool[h]
    {
      assert Hashes(hash, txs[..i + 1]) == Hashes(hash, txs[..i]) + {hash(txs[i])} by {
        HashesStep(hash, txs, i);
      }
      if hash(txs[i]) in r {
        r := r - {hash(txs[i])};
      }
    }
    assert txs[..|txs|] == txs;
  }

  lemma HashesStep(hash: TxBlock -> Hash, txs: seq<TxBlock>, i: nat)
    requires i < |txs|
    ensures Hashes(hash, txs[..i + 1]) == Hashes(hash, txs[..i]) + {hash(txs[i])}
  {
    var before, after := txs[..i], txs[..i + 1];
    assert forall k :: 0 <= k < i ==> before[k] == after[k];
    assert after[i] == txs[i];
    forall h | h in Hashes(hash, before)
      ensures h in Hashes(hash, after)
    {
      var k :| 0 <= k < i && hash(before[k]) == h;
      assert hash(after[k]) == h;
    }
    forall h | h in Hashes(hash, after)
      ensures h in Hashes(hash, before) + {hash(txs[i])}
    {
      var k :| 0 <= k < i + 1 && hash(after[k]) == h;
      assert k < i ==> hash(before[k]) == h;
    }
  }

  lemma HashesAppend(hash: TxBlock -> Hash, txs: seq<TxBlock>, tx: TxBlock)
    ensures Hashes(hash, txs + [tx]) == Hashes(hash, txs) + {hash(tx)}
  {
    HashesStep(hash, txs + [tx], |txs|);
    assert (txs + [tx])[..|txs|] == txs && (txs + [tx])[..|txs| + 1] == txs + [tx];
  }

  /** Some cost overflows, so that validating it throws. */
  ghost predicate Overflows(accounts: Accounts, pending: Pending) {
    exists h :: h in pending && Judge(accounts, pending[h]) == Overflow
  }

  /** Validate the remaining transactions again, in whatever order the map yields them; `None` when that throws. */
  method Revalidate(hash: TxBlock -> Hash, accounts: Accounts, pending: Pending) returns (r: Option<Pending>)
    requires forall h :: h in pending ==> hash(pending[h]) == h
    ensures r.None? <==> Overflows(accounts, pending)
    ensures r.Some? ==> r.value == map h | h in pending && Judge(accounts, pending[h]) == NotInvalid :: pending[h]
  {
    var kept: Pending := map[];
    var todo := pending.Keys;
    while todo != {}
      invariant todo <= pending.Keys
      invariant forall h :: h in kept <==> h in pending && h !in todo && Judge(accounts, pending[h]) == NotInvalid
      invariant forall h :: h in kept ==> kept[h] == pending[h]
      invariant forall h :: h in pending && h !in todo ==> Judge(accounts, pending[h]) != Overflow
      decreases todo
    {
      var h :| h in todo;
      var verdict := Validate(hash, accounts, kept, pending[h]);
      if verdict == Overflow {
        assert h in pending;
        return None;
      }
      if verdict == NotInvalid {
        kept := kept[h := pending[h]];
      }
      todo := todo - {h};
    }
    r := Some(kept);
  }

  /** A cost that was once within a balance does not overflow, whatever the accounts are now. */
  lemma PayableNeverOverflows(hash: TxBlock -> Hash, before: Accounts, mempool: Pending, accounts: Accounts, h: Hash)
    requires AllPayable(hash, before, mempool) && h in mempool
    ensures Judge(accounts, mempool[h]) != Overflow
  {
    assert Judge(before, mempool[h]) == NotInvalid;
  }

  /** Both passes together leave exactly the refreshed mempool, and what was payable before the block never throws. */
  method Refresh(hash: TxBlock -> Hash, accounts: Accounts, mempool: Pending, txs: seq<TxBlock>, ghost before: Accounts)
    returns (r: Pending)
    requires AllPayable(hash, before, mempool)
    ensures r == Refreshed(hash, accounts, mempool, txs)
  {
    var left := DropBlock(hash, mempool, txs);
    var kept := Revalidate(hash, accounts, left);
    forall h | h in left
      ensures Judge(accounts, left[h]) != Overflow
    {
      PayableNeverOverflows(hash, before, mempool, accounts, h);
    }
    r := kept.value;
  }
}

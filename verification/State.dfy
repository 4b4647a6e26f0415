/** The state of a node: accounts and mempool on top of the rdPoS engine and the storage. */
module State {
  import opened Bytes
  import opened TxBlocks
  import opened Blocks
  import opened Accounts
  import opened Mempool
  import opened Ledger
  import Leader
  import RdPoS
  import StorageIndexes
  import Storage

  /** Whether a block may follow; `Threw` is an exception during validation. */
  datatype Check = Passed | Refused | Threw

  /** `Crashed` is an exception that leaves the block half processed. */
  datatype Result = Done | Rejected | Crashed

  /** The block may follow `latest`: its height, parent and timestamp fit. */
  predicate HeaderFits(f: Format, latest: Block, b: Block) {
    b.nHeight == latest.nHeight + 1 && b.prevBlockHash == f.hashOf(latest) && b.timestamp >= latest.timestamp
  }

  /** A chain in which every block passed the checks of its header. */
  ghost predicate Built(f: Format, hist: seq<Block>) {
    forall i :: 1 <= i < |hist| ==> HeaderFits(f, hist[i - 1], hist[i])
  }

  /** In such a chain blocks name their parents, heights count up, and no block is older than one before it. */
  lemma {:induction false} BuiltInOrder(f: Format, hist: seq<Block>, i: nat, j: nat)
    requires Built(f, hist) && i < j < |hist|
    ensures hist[i].timestamp <= hist[j].timestamp
    ensures hist[j].nHeight == hist[i].nHeight + (j - i)
    ensures hist[j].prevBlockHash == f.hashOf(hist[j - 1])
    decreases j
  {
    assert HeaderFits(f, hist[j - 1], hist[j]);
    if i < j - 1 {
      BuiltInOrder(f, hist, i, j - 1);
    }
  }

  lemma BuiltGrows(f: Format, hist: seq<Block>, b: Block)
    requires hist != [] && Built(f, hist) && HeaderFits(f, hist[|hist| - 1], b)
    ensures Built(f, hist + [b])
  {
    var longer := hist + [b];
    forall i | 1 <= i < |longer|
      ensures HeaderFits(f, longer[i - 1], longer[i])
    {
      assert i < |hist| ==> HeaderFits(f, hist[i - 1], hist[i]);
    }
  }

  /** The transaction is pending already, or its sender has the nonce and can pay value and gas. */
  predicate TxPasses(hash: TxBlock -> Hash, accounts: Accounts, mempool: Pending, tx: TxBlock) {
    || hash(tx) in mempool
    || (&& tx.from in accounts && tx.nonce == accounts[tx.from].nonce
        && tx.value + tx.gasLimit * tx.maxFeePerGas <= accounts[tx.from].balance)
  }

  lemma {:induction false} AllPassExactly(hash: TxBlock -> Hash, accounts: Accounts, mempool: Pending,
                                          txs: seq<TxBlock>)
    ensures JudgeAll(hash, accounts, mempool, txs) == NotInvalid
       <==> forall i :: 0 <= i < |txs| ==> TxPasses(hash, accounts, mempool, txs[i])
  {
    hide Judge;
    if txs != [] {
      var rest := txs[1..];
      VerdictExactly(accounts, txs[0]);
      AllPassExactly(hash, accounts, mempool, rest);
      assert forall i :: 0 <= i < |rest| ==> rest[i] == txs[i + 1];
      assert forall i :: 1 <= i < |txs| ==> txs[i] == rest[i - 1];
    }
  }

  /** The cost of the transaction does not fit 256 bits, and it is looked at. */
  predicate TxOverflows(hash: TxBlock -> Hash, accounts: Accounts, mempool: Pending, tx: TxBlock) {
    && hash(tx) !in mempool && tx.from in accounts
    && tx.value + tx.gasLimit * tx.maxFeePerGas >= LIMIT256
  }

  /** Validation gets as far as the i-th transaction and throws there. */
  ghost predicate ThrowsAt(hash: TxBlock -> Hash, accounts: Accounts, mempool: Pending, txs: seq<TxBlock>, i: nat) {
    && i < |txs| && TxOverflows(hash, accounts, mempool, txs[i])
    && forall j :: 0 <= j < i ==> TxPasses(hash, accounts, mempool, txs[j])
  }

  lemma {:induction false} OverflowsExactly(hash: TxBlock -> Hash, accounts: Accounts, mempool: Pending,
                                            txs: seq<TxBlock>)
    ensures JudgeAll(hash, accounts, mempool, txs) == Overflow
       <==> exists i: nat :: ThrowsAt(hash, accounts, mempool, txs, i)
  {
    hide Judge;
    if txs != [] {
      var rest := txs[1..];
      VerdictExactly(accounts, txs[0]);
      OverflowsExactly(hash, accounts, mempool, rest);
      assert TxOverflows(hash, accounts, mempool, txs[0]) ==> ThrowsAt(hash, accounts, mempool, txs, 0);
      if TxPasses(hash, accounts, mempool, txs[0]) {
        forall i: nat | ThrowsAt(hash, accounts, mempool, txs, i)
          ensures i >= 1 && ThrowsAt(hash, accounts, mempool, rest, i - 1)
        {
          assert i != 0;
          assert forall j :: 0 <= j < i - 1 ==> rest[j] == txs[j + 1];
        }
        forall i: nat | ThrowsAt(hash, accounts, mempool, rest, i)
          ensures ThrowsAt(hash, accounts, mempool, txs, i + 1)
        {
          assert forall j :: 1 <= j < i + 1 ==> txs[j] == rest[j - 1];
        }
      }
    }
  }

  /** What the transactions of a block amount to: the first verdict against them, if there is one. */
  function JudgeAll(hash: TxBlock -> Hash, accounts: Accounts, mempool: Pending, txs: seq<TxBlock>): Verdict {
    if txs == [] then NotInvalid
    else
      var verdict := Validate(hash, accounts, mempool, txs[0]);
      if verdict != NotInvalid then verdict else JudgeAll(hash, accounts, mempool, txs[1..])
  }

  /** With the shortcut sound, a block passes exactly when every transaction of it is valid before the block. */
  lemma {:induction false} JudgeAllMeansAllValid(hash: TxBlock -> Hash, accounts: Accounts, mempool: Pending,
                                                 txs: seq<TxBlock>)
    requires AllPayable(hash, accounts, mempool)
    requires forall i :: 0 <= i < |txs| && hash(txs[i]) in mempool ==> mempool[hash(txs[i])] == txs[i]
    ensures JudgeAll(hash, accounts, mempool, txs) == NotInvalid <==> AllValid(accounts, txs)
  {
    if txs != [] {
      ShortcutIsSound(hash, accounts, mempool, txs[0]);
      assert hash(txs[0]) in mempool ==> mempool[hash(txs[0])] == txs[0];
      JudgeAllMeansAllValid(hash, accounts, mempool, txs[1..]);
      assert AllValid(accounts, txs) <==> Judge(accounts, txs[0]) == NotInvalid && AllValid(accounts, txs[1..]) by {
        AllValidSplits(accounts, txs);
      }
    }
  }

  lemma AllValidSplits(accounts: Accounts, txs: seq<TxBlock>)
    requires txs != []
    ensures AllValid(accounts, txs) <==> Judge(accounts, txs[0]) == NotInvalid && AllValid(accounts, txs[1..])
  {
    if Judge(accounts, txs[0]) == NotInvalid && AllValid(accounts, txs[1..]) {
      forall i | 0 <= i < |txs|
        ensures Judge(accounts, txs[i]) == NotInvalid
      {
        assert i > 0 ==> txs[i] == txs[1..][i - 1];
      }
    }
    if AllValid(accounts, txs) {
      forall i | 0 <= i < |txs[1..]|
        ensures Judge(accounts, txs[1..][i]) == NotInvalid
      {
        assert txs[1..][i] == txs[i + 1];
      }
    }
  }

  method CheckTxs(hash: TxBlock -> Hash, accounts: Accounts, mempool: Pending, txs: seq<TxBlock>)
    returns (verdict: Verdict)
    ensures verdict == JudgeAll(hash, accounts, mempool, txs)
  {
    for i := 0 to |txs|
      invariant JudgeAll(hash, accounts, mempool, txs) == JudgeAll(hash, accounts, mempool, txs[i..])
    {
      verdict := Validate(hash, accounts, mempool, txs[i]);
      assert txs[i..][1..] == txs[i + 1..];
      if verdict != NotInvalid {
        return;
      }
    }
    verdict := NotInvalid;
  }

  class State {
    const hash: TxBlock -> Hash
    const rdpos: RdPoS.Engine
    const storage: Storage.Storage
    var accounts: Accounts
    var mempool: Pending

    ghost function Latest(): Block
      reads storage
      requires storage.history != []
    {
      storage.history[|storage.history| - 1]
    }

    ghost predicate Stored()
      reads storage
    {
      storage.Valid() && storage.CachesOk() && storage.history != []
    }

    /** Between blocks the round is the one of the latest stored block. */
    ghost predicate Synced()
      reads storage, rdpos
    {
      storage.history != [] && rdpos.Valid(Latest().blockRandomness, Latest().nHeight)
    }

    /** Every pending transaction could be processed right now. */
    ghost predicate Payable()
      reads this
    {
      AllPayable(hash, accounts, mempool)
    }

    /** Start with the accounts read from the database and nothing pending. */
    constructor (hash: TxBlock -> Hash, rdpos: RdPoS.Engine, storage: Storage.Storage, accounts: Accounts)
      ensures Payable() && this.hash == hash && this.rdpos == rdpos && this.storage == storage
      ensures this.accounts == accounts && mempool == map[]
    {
      this.hash := hash;
      this.rdpos := rdpos;
      this.storage := storage;
      this.accounts := accounts;
      this.mempool := map[];
    }

    /** A transaction arrives. */
    method AddTx(tx: TxBlock) returns (verdict: Verdict)
      requires Payable()
      modifies this`mempool
      ensures Payable()
      ensures verdict == Validate(hash, accounts, old(mempool), tx)
      ensures mempool == if verdict == NotInvalid && hash(tx) !in old(mempool)
                         then old(mempool)[hash(tx) := tx] else old(mempool)
    {
      verdict := Validate(hash, accounts, mempool, tx);
      if verdict == NotInvalid && hash(tx) !in mempool {
        mempool := mempool[hash(tx) := tx];
      }
    }

    /** Credit a fixed amount; `false` when the balance would overflow. */
    method AddBalance(a: Address) returns (ok: bool)
      requires Payable()
      modifies this`accounts
      ensures Payable()
      ensures ok <==> Credit(old(accounts), a, GIFT).Some?
      ensures accounts == if ok then Credit(old(accounts), a, GIFT).value else old(accounts)
      ensures ok ==> Balance(accounts, a) == Balance(old(accounts), a) + 1000_000000_000000_000000
    {
      if Balance(accounts, a) + GIFT >= LIMIT256 {
        return false;
      }
      forall h | h in mempool
        ensures Credit(accounts, a, GIFT).Some? ==> Judge(Credit(accounts, a, GIFT).value, mempool[h]) == NotInvalid
      {
        GiftKeepsValid(accounts, a, mempool[h]);
      }
      accounts := SetBalance(accounts, a, Balance(accounts, a) + GIFT);
      ok := true;
    }

    /** The verdict on a block that wants to follow the latest one. */
    ghost function CheckOf(b: Block): Check
      reads this, storage, rdpos
      requires storage.history != []
    {
      if !HeaderFits(storage.format, Latest(), b) || !AcceptedByRdPoS(b) then Refused
      else CheckOfVerdict(JudgeAll(hash, accounts, mempool, b.txs))
    }

    ghost predicate AcceptedByRdPoS(b: Block)
      reads rdpos
    {
      RdPoS.AcceptsBlock(rdpos.crypto, rdpos.hash, rdpos.randomList, rdpos.minValidators, b)
    }

    /**
     * A block passes exactly when it names the latest block as its parent, is one higher and not older, is accepted
     * for the round, and every transaction of it passes.
     */
    lemma PassedExactly(b: Block)
      requires storage.history != []
      ensures CheckOf(b) == Passed <==>
                && b.prevBlockHash == storage.format.hashOf(Latest())
                && b.nHeight == Latest().nHeight + 1 && b.timestamp >= Latest().timestamp
                && AcceptedByRdPoS(b)
                && forall i :: 0 <= i < |b.txs| ==> TxPasses(hash, accounts, mempool, b.txs[i])
    {
      hide JudgeAll, TxPasses, RdPoS.AcceptsBlock;
      AllPassExactly(hash, accounts, mempool, b.txs);
    }

    /** Validation throws exactly for a block that fits and is accepted, at the first cost of 2^256 or more. */
    lemma ThrewExactly(b: Block)
      requires storage.history != []
      ensures CheckOf(b) == Threw <==>
                && b.prevBlockHash == storage.format.hashOf(Latest())
                && b.nHeight == Latest().nHeight + 1 && b.timestamp >= Latest().timestamp
                && AcceptedByRdPoS(b)
                && exists i: nat :: ThrowsAt(hash, accounts, mempool, b.txs, i)
    {
      hide JudgeAll, AcceptedByRdPoS, ThrowsAt;
      OverflowsExactly(hash, accounts, mempool, b.txs);
    }

    method ValidateNextBlock(b: Block) returns (r: Check)
      requires storage.Valid() && storage.history != [] && rdpos.minValidators < |rdpos.randomList|
      ensures r == CheckOf(b)
    {
      hide StorageIndexes.Agrees, RdPoS.AcceptsBlock, JudgeAll;
      var latest := storage.Latest();
      if b.nHeight != latest.nHeight + 1 {
        return Refused;
      }
      if b.prevBlockHash != storage.format.hashOf(latest) {
        return Refused;
      }
      if latest.timestamp > b.timestamp {
        return Refused;
      }
      var accepted := rdpos.ValidateBlock(b);
      if !accepted {
        return Refused;
      }
      var verdict := CheckTxs(hash, accounts, mempool, b.txs);
      r := CheckOfVerdict(verdict);
    }

    /**
     * Process one transaction; `false` when the handler itself throws. A validated sender always has an account,
     * and a missing recipient starts from zero.
     */
    method ProcessTransaction(tx: TxBlock, outcome: Outcome) returns (ok: bool)
      modifies this`accounts
      ensures ok <==> ProcessTx(old(accounts), tx, outcome).Some?
      ensures ok ==> accounts == ProcessTx(old(accounts), tx, outcome).value
    {
      var threw, payable := true, false;
      if Cost(tx) < LIMIT256 && Cost(tx) <= Balance(accounts, tx.from) {
        accounts := SetBalance(accounts, tx.from, Balance(accounts, tx.from) - Cost(tx));
        if Balance(accounts, tx.to) + tx.value < LIMIT256 {
          accounts := SetBalance(accounts, tx.to, Balance(accounts, tx.to) + tx.value);
          match outcome
          case Plain =>
            threw := false;
          case Success(isPayable, overlay) =>
            threw := false;
            if isPayable {
              accounts := Commit(accounts, overlay);
            }
          case Failure(isPayable) =>
            payable := isPayable;
        }
      }
      assert Attempt(accounts, threw, payable) == Try(old(accounts), tx, outcome);
      if threw {
        var refunded := Refund(accounts, tx, payable);
        if refunded.None? {
          return false;
        }
        accounts := refunded.value;
      }
      accounts := Bump(accounts, tx.from);
      ok := true;
    }

    method ProcessTransactions(txs: seq<TxBlock>, outcomes: seq<Outcome>) returns (ok: bool)
      requires |txs| == |outcomes|
      modifies this`accounts
      ensures ok <==> ProcessTxs(old(accounts), txs, outcomes).Some?
      ensures ok ==> accounts == ProcessTxs(old(accounts), txs, outcomes).value
    {
      for i := 0 to |txs|
        invariant ProcessTxs(old(accounts), txs, outcomes) == ProcessTxs(accounts, txs[i..], outcomes[i..])
      {
        assert txs[i..][1..] == txs[i + 1..] && outcomes[i..][1..] == outcomes[i + 1..];
        ok := ProcessTransaction(txs[i], outcomes[i]);
        if !ok {
          return;
        }
      }
      ok := true;
    }

    /** The part of processing a block that concerns accounts and pending transactions. */
    method Settle(b: Block, outcomes: seq<Outcome>) returns (ok: bool)
      requires Payable() && |outcomes| == |b.txs|
      modifies this
      ensures ok <==> ProcessTxs(old(accounts), b.txs, outcomes).Some?
      ensures ok ==> accounts == ProcessTxs(old(accounts), b.txs, outcomes).value
      ensures ok ==> mempool == Refreshed(hash, accounts, old(mempool), b.txs)
      ensures ok ==> Payable()
    {
      ok := ProcessTransactions(b.txs, outcomes);
      if ok {
        mempool := Refresh(hash, accounts, mempool, b.txs, old(accounts));
      }
    }

    /** The part that concerns the round and the chain. */
    method Advance(b: Block)
      requires Stored() && Synced() && Fresh(storage.format, storage.history, b)
      requires b.finalized && HeaderFits(storage.format, Latest(), b)
      modifies rdpos, rdpos.randomGen, storage
      ensures Stored() && Synced()
      ensures storage.history == old(storage.history) + [b]
    {
      hide StorageIndexes.Agrees, StorageIndexes.BlocksCached, StorageIndexes.TxsCached, Fresh;
      hide RdPoS.MempoolValid, Leader.RandomList, Leader.Ascending;
      ChangeRound(b);
      var pushed := storage.PushBack(b);
    }

    method ChangeRound(b: Block)
      requires Synced() && b.finalized
      modifies rdpos, rdpos.randomGen
      ensures rdpos.Valid(b.blockRandomness, b.nHeight)
    {
      var seed := rdpos.ProcessBlock(b, Latest().blockRandomness, Latest().nHeight);
    }

    /** Process a block: the accounts and what is pending, then the round, then the chain. */
    method ProcessNextBlock(b: Block, outcomes: seq<Outcome>) returns (r: Result)
      requires Stored() && Synced() && Payable() && |outcomes| == |b.txs|
      requires HeaderFits(storage.format, Latest(), b) ==> Fresh(storage.format, storage.history, b)
      modifies this, rdpos, rdpos.randomGen, storage
      ensures r == Rejected <==> old(CheckOf(b)) != Passed
      ensures r == Rejected ==> unchanged(this, rdpos, rdpos.randomGen, storage)
      ensures r == Done <==> old(CheckOf(b)) == Passed && ProcessTxs(old(accounts), b.txs, outcomes).Some?
      ensures r == Done ==> accounts == ProcessTxs(old(accounts), b.txs, outcomes).value
      ensures r == Done ==> mempool == Refreshed(hash, accounts, old(mempool), b.txs)
      ensures storage.history == if r == Done then old(storage.history) + [b] else old(storage.history)
      ensures Stored() && Synced()
      ensures r != Crashed ==> Payable()
      ensures old(Built(storage.format, storage.history)) ==> Built(storage.format, storage.history)
    {
      hide StorageIndexes.Agrees, StorageIndexes.BlocksCached, StorageIndexes.TxsCached, Fresh;
      hide RdPoS.MempoolValid, Leader.RandomList, Leader.Ascending;
      hide AllPayable, JudgeAll, ProcessTxs, Refreshed;
      var check := ValidateNextBlock(b);
      if check != Passed {
        return Rejected;
      }
      var ok := Settle(b, outcomes);
      if !ok {
        return Crashed;
      }
      if Built(storage.format, storage.history) {
        BuiltGrows(storage.format, storage.history, b);
      }
      Advance(b);
      r := Done;
    }
  }

  function CheckOfVerdict(verdict: Verdict): Check {
    if verdict == NotInvalid then Passed else if verdict == Overflow then Threw else Refused
  }
}

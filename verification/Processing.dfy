/** What whole transactions and blocks do to the currency in existence, contract calls included. */
module Processing {
  import opened Bytes
  import opened TxBlocks
  import opened Accounts
  import Overlay

  /** The accounts a contract call starts from: the value has moved. */
  function Moved(accounts: Accounts, tx: TxBlock): Accounts {
    Try(accounts, tx, Plain).accounts
  }

  /**
   * What a call can do: a payable one that returns commits an overlay it reached by sending tokens. Looking up a
   * balance is sending nothing to oneself.
   */
  ghost predicate Lawful(accounts: Accounts, tx: TxBlock, outcome: Outcome) {
    outcome.Success? && outcome.payable ==>
      exists sends :: Overlay.SendAll(Moved(accounts, tx), map[], sends) == Some(outcome.overlay)
  }

  /** The transaction is paid for, and its call, if there is one, returns or carries no value. */
  predicate Sound(accounts: Accounts, tx: TxBlock, outcome: Outcome) {
    Cost(tx) <= Balance(accounts, tx.from) && (outcome.Failure? ==> tx.value == 0)
  }

  /** What a transaction adds to the currency in existence beyond taking its fees. */
  function Minted(accounts: Accounts, tx: TxBlock, outcome: Outcome): nat {
    if Balance(accounts, tx.from) < Cost(tx) then Cost(tx)
    else if outcome.Failure? then tx.value
    else 0
  }

  lemma CallReturns(accounts: Accounts, tx: TxBlock, outcome: Outcome)
    requires outcome.Success? && !Try(accounts, tx, Plain).threw
    ensures var moved := Moved(accounts, tx);
            Try(accounts, tx, outcome)
            == Attempt(if outcome.payable then Commit(moved, outcome.overlay) else moved, false, false)
  {
    hide Commit, SetBalance, Cost;
  }

  lemma ReturnedTotal(accounts: Accounts, tx: TxBlock, outcome: Outcome)
    requires Cost(tx) <= Balance(accounts, tx.from) && Total(accounts) < LIMIT256
    requires outcome.Success? && Lawful(accounts, tx, outcome)
    ensures ProcessTx(accounts, tx, outcome).Some?
    ensures Total(ProcessTx(accounts, tx, outcome).value) == Total(accounts) - Fees(tx)
  {
    hide Total, Bump, Commit, SetBalance, Cost, Fees;
    PayableSucceeds(accounts, tx);
    var moved := Moved(accounts, tx);
    var committed := if outcome.payable then Commit(moved, outcome.overlay) else moved;
    CallReturns(accounts, tx, outcome);
    if outcome.payable {
      var sends :| Overlay.SendAll(moved, map[], sends) == Some(outcome.overlay);
      Overlay.CommitEqualsDirect(moved, sends);
    }
    TotalBump(committed, tx.from);
  }

  lemma PlainTotal(accounts: Accounts, tx: TxBlock)
    requires Cost(tx) <= Balance(accounts, tx.from) && Total(accounts) < LIMIT256
    ensures ProcessTx(accounts, tx, Plain).Some?
    ensures Total(ProcessTx(accounts, tx, Plain).value) == Total(accounts) - Fees(tx)
  {
    hide Total, Bump, SetBalance, Cost, Fees;
    PayableSucceeds(accounts, tx);
    TotalBump(Moved(accounts, tx), tx.from);
  }

  /** Every transaction, valid or not, changes the currency in existence by what it mints less its fees. */
  lemma ProcessedTotal(accounts: Accounts, tx: TxBlock, outcome: Outcome)
    requires Total(accounts) + tx.value < LIMIT256 && Lawful(accounts, tx, outcome)
    ensures ProcessTx(accounts, tx, outcome).Some?
    ensures Total(ProcessTx(accounts, tx, outcome).value) == Total(accounts) - Fees(tx) + Minted(accounts, tx, outcome)
  {
    hide Try, Total, Lawful;
    if Balance(accounts, tx.from) < Cost(tx) {
      UnpaidTransferMints(accounts, tx, outcome);
    } else {
      match outcome
      case Plain => PlainTotal(accounts, tx);
      case Success(_, _) => ReturnedTotal(accounts, tx, outcome);
      case Failure(payable) => FailedCallMints(accounts, tx, payable);
    }
  }

  /**
   * Exactly when only the fees leave the system: the transaction can be paid for, and its call returns or carries
   * no value.
   */
  lemma ConservedUnlessFailed(accounts: Accounts, tx: TxBlock, outcome: Outcome)
    requires Total(accounts) + tx.value < LIMIT256 && Lawful(accounts, tx, outcome)
    ensures ProcessTx(accounts, tx, outcome).Some?
    ensures Total(ProcessTx(accounts, tx, outcome).value) == Total(accounts) - Fees(tx)
       <==> Sound(accounts, tx, outcome)
  {
    ProcessedTotal(accounts, tx, outcome);
  }

  // ---------------------------------------------------------------- whole blocks

  function TotalValue(txs: seq<TxBlock>): nat {
    if txs == [] then 0 else txs[0].value + TotalValue(txs[1..])
  }

  ghost predicate AllLawful(accounts: Accounts, txs: seq<TxBlock>, outcomes: seq<Outcome>)
    requires |outcomes| == |txs|
    decreases |txs|
  {
    txs == [] ||
    (Lawful(accounts, txs[0], outcomes[0])
     && var after := ProcessTx(accounts, txs[0], outcomes[0]);
        after.Some? ==> AllLawful(after.value, txs[1..], outcomes[1..]))
  }

  /** Every transaction is sound when its turn comes. */
  predicate AllSound(accounts: Accounts, txs: seq<TxBlock>, outcomes: seq<Outcome>)
    requires |outcomes| == |txs|
    decreases |txs|
  {
    txs == [] ||
    (Sound(accounts, txs[0], outcomes[0])
     && var after := ProcessTx(accounts, txs[0], outcomes[0]);
        after.Some? && AllSound(after.value, txs[1..], outcomes[1..]))
  }

  /**
   * As long as the currency in existence and the values of a block stay below 2^256 together, no block brings the
   * node down, and only its fees leave the system exactly when every transaction is sound in its turn.
   */
  lemma {:induction false} BlockConserves(accounts: Accounts, txs: seq<TxBlock>, outcomes: seq<Outcome>)
    requires |outcomes| == |txs| && Total(accounts) + TotalValue(txs) < LIMIT256 && AllLawful(accounts, txs, outcomes)
    ensures ProcessTxs(accounts, txs, outcomes).Some?
    ensures Total(ProcessTxs(accounts, txs, outcomes).value) >= Total(accounts) - TotalFees(txs)
    ensures Total(ProcessTxs(accounts, txs, outcomes).value) == Total(accounts) - TotalFees(txs)
       <==> AllSound(accounts, txs, outcomes)
    decreases |txs|
  {
    hide Total, ProcessTx, Lawful;
    if txs != [] {
      ProcessedTotal(accounts, txs[0], outcomes[0]);
      BlockConserves(ProcessTx(accounts, txs[0], outcomes[0]).value, txs[1..], outcomes[1..]);
    }
  }

  /** For transfers, being sound throughout is not throwing. */
  lemma {:induction false} SoundTransfers(accounts: Accounts, txs: seq<TxBlock>)
    requires Total(accounts) < LIMIT256
    ensures AllSound(accounts, txs, Plains(|txs|)) <==> NoneThrows(accounts, txs)
    decreases |txs|
  {
    if txs != [] {
      assert Plains(|txs|)[1..] == Plains(|txs[1..]|);
      if Cost(txs[0]) <= Balance(accounts, txs[0].from) {
        PayableSucceeds(accounts, txs[0]);
        PlainTotal(accounts, txs[0]);
        SoundTransfers(ProcessTx(accounts, txs[0], Plain).value, txs[1..]);
      }
    }
  }

  lemma {:induction false} TransfersLawful(accounts: Accounts, txs: seq<TxBlock>)
    ensures AllLawful(accounts, txs, Plains(|txs|))
    decreases |txs|
  {
    if txs != [] && ProcessTx(accounts, txs[0], Plain).Some? {
      assert Plains(|txs|)[1..] == Plains(|txs[1..]|);
      TransfersLawful(ProcessTx(accounts, txs[0], Plain).value, txs[1..]);
    }
  }

  /** A block of transfers takes exactly its fees if and only if each can be paid from what its sender has left. */
  lemma TransfersConserveExactly(accounts: Accounts, txs: seq<TxBlock>)
    requires Total(accounts) + TotalValue(txs) < LIMIT256
    ensures ProcessTxs(accounts, txs, Plains(|txs|)).Some?
    ensures Total(ProcessTxs(accounts, txs, Plains(|txs|)).value) == Total(accounts) - TotalFees(txs)
       <==> forall i :: 0 <= i < |txs| ==> Affords(accounts, txs, i)
  {
    hide Affords, NoneThrows, Total, ProcessTxs;
    TransfersLawful(accounts, txs);
    BlockConserves(accounts, txs, Plains(|txs|));
    SoundTransfers(accounts, txs);
    PaidExactly(accounts, txs);
  }
}

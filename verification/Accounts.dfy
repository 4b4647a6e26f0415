/** Native accounts: what a transaction may do, what it does, and what a whole block of them does. */
module Accounts {
  import opened Bytes
  import opened TxBlocks
  import opened MapSums

  datatype Account = Account(balance: U256, nonce: U64)

  type Accounts = map<Address, Account>

  /** `Overflow` stands for the exception of checked 256-bit arithmetic. */
  datatype Verdict = NotInvalid | InvalidNonce | InvalidBalance | Overflow

  /** What the contract called by a transaction does; `Plain` is a transfer to an ordinary account. */
  datatype Outcome = Plain | Success(payable: bool, overlay: map<Address, U256>) | Failure(payable: bool)

  function Balance(accounts: Accounts, a: Address): U256 {
    if a in accounts then accounts[a].balance else 0
  }

  function Nonce(accounts: Accounts, a: Address): U64 {
    if a in accounts then accounts[a].nonce else 0
  }

  function SetBalance(accounts: Accounts, a: Address, balance: U256): Accounts {
    accounts[a := Account(balance, Nonce(accounts, a))]
  }

  function Fees(tx: TxBlock): nat {
    tx.gasLimit * tx.maxFeePerGas
  }

  function Cost(tx: TxBlock): nat {
    tx.value + Fees(tx)
  }

  // ---------------------------------------------------------------- validation

  /** Validation against the accounts alone, without the mempool shortcut. */
  function Judge(accounts: Accounts, tx: TxBlock): Verdict {
    if tx.from !in accounts then InvalidBalance
    else if Cost(tx) >= LIMIT256 then Overflow
    else if Cost(tx) > accounts[tx.from].balance then InvalidBalance
    else if accounts[tx.from].nonce != tx.nonce then InvalidNonce
    else NotInvalid
  }

  /** A transaction the mempool already knows is not looked at again. */
  function Validate(hash: TxBlock -> Hash, accounts: Accounts, mempool: map<Hash, TxBlock>, tx: TxBlock): Verdict {
    if hash(tx) in mempool then NotInvalid else Judge(accounts, tx)
  }

  // ---------------------------------------------------------------- processing

  function Commit(accounts: Accounts, overlay: map<Address, U256>): Accounts {
    accounts + map a | a in overlay :: Account(overlay[a], Nonce(accounts, a))
  }

  /** The accounts when the guarded part ends, whether it threw, and whether a payable call was under way. */
  datatype Attempt = Attempt(accounts: Accounts, threw: bool, payable: bool)

  function Try(accounts: Accounts, tx: TxBlock, outcome: Outcome): Attempt {
    if Cost(tx) >= LIMIT256 || Balance(accounts, tx.from) < Cost(tx) then Attempt(accounts, true, false)
    else
      var debited := SetBalance(accounts, tx.from, Balance(accounts, tx.from) - Cost(tx));
      if Balance(debited, tx.to) + tx.value >= LIMIT256 then Attempt(debited, true, false)
      else
        var moved := SetBalance(debited, tx.to, Balance(debited, tx.to) + tx.value);
        match outcome
        case Plain => Attempt(moved, false, false)
        case Success(payable, overlay) => Attempt(if payable then Commit(moved, overlay) else moved, false, false)
        case Failure(payable) => Attempt(moved, true, payable)
  }

  /** What the handler gives back; `None` when its own arithmetic throws. */
  function Refund(accounts: Accounts, tx: TxBlock, payable: bool): Option<Accounts> {
    if !payable then Credit(accounts, tx.from, tx.value)
    else
      match Credit(accounts, tx.from, tx.value)
      case None => None
      case Some(once) =>
        if Balance(once, tx.to) < tx.value then None
        else Credit(SetBalance(once, tx.to, Balance(once, tx.to) - tx.value), tx.from, tx.value)
  }

  function Credit(accounts: Accounts, a: Address, value: U256): Option<Accounts> {
    if Balance(accounts, a) + value >= LIMIT256 then None
    else Some(SetBalance(accounts, a, Balance(accounts, a) + value))
  }

  /** The nonce is a 64-bit counter. */
  function Bump(accounts: Accounts, a: Address): Accounts {
    accounts[a := Account(Balance(accounts, a), Wrap64(Nonce(accounts, a) + 1))]
  }

  function ProcessTx(accounts: Accounts, tx: TxBlock, outcome: Outcome): Option<Accounts> {
    var attempt := Try(accounts, tx, outcome);
    if !attempt.threw then Some(Bump(attempt.accounts, tx.from))
    else
      match Refund(attempt.accounts, tx, attempt.payable)
      case None => None
      case Some(refunded) => Some(Bump(refunded, tx.from))
  }

  /** A block's transactions one after the other. */
  function ProcessTxs(accounts: Accounts, txs: seq<TxBlock>, outcomes: seq<Outcome>): Option<Accounts>
    requires |outcomes| == |txs|
    decreases |txs|
  {
    if txs == [] then Some(accounts)
    else
      match ProcessTx(accounts, txs[0], outcomes[0])
      case None => None
      case Some(after) => ProcessTxs(after, txs[1..], outcomes[1..])
  }

  // ---------------------------------------------------------------- who holds what afterwards

  /** The value reaches its receiver: the sender can pay value and gas, and the receiver's balance has room. */
  predicate Arrives(accounts: Accounts, tx: TxBlock) {
    var cost := tx.value + tx.gasLimit * tx.maxFeePerGas;
    && cost <= Balance(accounts, tx.from)
    && Balance(accounts, tx.to) - (if tx.to == tx.from then cost else 0) + tx.value < LIMIT256
  }

  /** What the sender is charged: value and gas at the maximum fee if it has them, otherwise nothing. */
  function Charged(accounts: Accounts, tx: TxBlock): nat {
    var cost := tx.value + tx.gasLimit * tx.maxFeePerGas;
    if cost <= Balance(accounts, tx.from) then cost else 0
  }

  /** What the handler of a failure hands to the sender: the value, and twice that after a payable call. */
  function HandedBack(accounts: Accounts, tx: TxBlock, outcome: Outcome): nat {
    if !Arrives(accounts, tx) then tx.value
    else
      match outcome
      case Failure(payable) => if payable then 2 * tx.value else tx.value
      case _ => 0
  }

  /** What the receiver keeps: the value if it arrives, unless a payable call fails. */
  function Kept(accounts: Accounts, tx: TxBlock, outcome: Outcome): nat {
    if Arrives(accounts, tx) && outcome != Failure(true) then tx.value else 0
  }

  /** The balance of an account after a transaction, before an overlay is committed. */
  function BalanceAfter(accounts: Accounts, tx: TxBlock, outcome: Outcome, a: Address): int {
    Balance(accounts, a)
    - (if a == tx.from then Charged(accounts, tx) - HandedBack(accounts, tx, outcome) else 0)
    + (if a == tx.to then Kept(accounts, tx, outcome) else 0)
  }

  lemma TryBalances(accounts: Accounts, tx: TxBlock, a: Address)
    ensures var r := Try(accounts, tx, Plain);
            && (r.threw <==> !Arrives(accounts, tx))
            && Balance(r.accounts, a)
            == Balance(accounts, a) - (if a == tx.from then Charged(accounts, tx) else 0)
               + (if a == tx.to && Arrives(accounts, tx) then tx.value else 0)
  {
  }

  lemma TryAlike(accounts: Accounts, tx: TxBlock, outcome: Outcome)
    ensures var plain, r := Try(accounts, tx, Plain), Try(accounts, tx, outcome);
            && (plain.threw ==> r == plain && !plain.payable)
            && (!plain.threw && outcome.Failure? ==> r == Attempt(plain.accounts, true, outcome.payable))
            && (!plain.threw && outcome.Success? ==>
                  r == Attempt(if outcome.payable then Commit(plain.accounts, outcome.overlay) else plain.accounts,
                               false, false))
  {
    hide Commit, SetBalance, Cost;
  }

  lemma BumpKeepsBalance(accounts: Accounts, b: Address, a: Address)
    ensures Balance(Bump(accounts, b), a) == Balance(accounts, a)
  {
  }

  lemma RefundBalances(accounts: Accounts, tx: TxBlock, payable: bool, a: Address)
    ensures var back := if payable && tx.from != tx.to then 2 * tx.value else tx.value;
            var short := payable && tx.from != tx.to && Balance(accounts, tx.to) < tx.value;
            Refund(accounts, tx, payable).None? <==> short || Balance(accounts, tx.from) + back >= LIMIT256
    ensures Refund(accounts, tx, payable).Some? ==>
              Balance(Refund(accounts, tx, payable).value, a)
              == Balance(accounts, a) + (if a == tx.from then (if payable then 2 * tx.value else tx.value) else 0)
                 - (if a == tx.to && payable then tx.value else 0)
  {
  }

  /**
   * Who holds what after a transaction, for every account and every outcome; a payable call that returns commits the
   * balances of its overlay on top.
   */
  lemma BalancesAfter(accounts: Accounts, tx: TxBlock, outcome: Outcome, a: Address)
    requires ProcessTx(accounts, tx, outcome).Some?
    ensures var committed := outcome.Success? && outcome.payable && Arrives(accounts, tx) && a in outcome.overlay;
            Balance(ProcessTx(accounts, tx, outcome).value, a)
            == if committed then outcome.overlay[a] else BalanceAfter(accounts, tx, outcome, a)
  {
    hide Try, Refund, Bump, Arrives, Charged;
    var plain := Try(accounts, tx, Plain);
    var attempt := Try(accounts, tx, outcome);
    TryBalances(accounts, tx, a);
    TryAlike(accounts, tx, outcome);
    if attempt.threw {
      RefundBalances(attempt.accounts, tx, attempt.payable, a);
      BumpKeepsBalance(Refund(attempt.accounts, tx, attempt.payable).value, tx.from, a);
    } else {
      BumpKeepsBalance(attempt.accounts, tx.from, a);
    }
  }

  /** Exactly when the exception handler itself throws: what it hands back does not fit the sender's balance. */
  lemma CrashesExactly(accounts: Accounts, tx: TxBlock, outcome: Outcome)
    ensures ProcessTx(accounts, tx, outcome).None?
       <==> && (Arrives(accounts, tx) ==> outcome.Failure?)
            && BalanceAfter(accounts, tx, outcome, tx.from) >= LIMIT256
  {
    hide Try, Refund, Bump, Arrives, Charged;
    var attempt := Try(accounts, tx, outcome);
    TryBalances(accounts, tx, tx.from);
    TryBalances(accounts, tx, tx.to);
    TryAlike(accounts, tx, outcome);
    if attempt.threw {
      RefundBalances(attempt.accounts, tx, attempt.payable, tx.from);
    }
  }

  /** A failed call between different accounts, in plain numbers. */
  lemma FailedCallPays(accounts: Accounts, tx: TxBlock, payable: bool)
    requires tx.from != tx.to && Arrives(accounts, tx) && ProcessTx(accounts, tx, Failure(payable)).Some?
    ensures var after := ProcessTx(accounts, tx, Failure(payable)).value;
            && Balance(after, tx.from)
            == Balance(accounts, tx.from) - tx.gasLimit * tx.maxFeePerGas + (if payable then tx.value else 0)
            && Balance(after, tx.to) == Balance(accounts, tx.to) + (if payable then 0 else tx.value)
  {
    BalancesAfter(accounts, tx, Failure(payable), tx.from);
    BalancesAfter(accounts, tx, Failure(payable), tx.to);
  }

  // ---------------------------------------------------------------- the verdict, in the fields of the transaction

  /** Every verdict of validation, in terms of the fields of the transaction and the account of its sender. */
  lemma VerdictExactly(accounts: Accounts, tx: TxBlock)
    ensures var known, cost := tx.from in accounts, tx.value + tx.gasLimit * tx.maxFeePerGas;
            && (Judge(accounts, tx) == NotInvalid <==>
                  known && cost <= Balance(accounts, tx.from) && tx.nonce == Nonce(accounts, tx.from))
            && (Judge(accounts, tx) == InvalidNonce <==>
                  known && cost <= Balance(accounts, tx.from) && tx.nonce != Nonce(accounts, tx.from))
            && (Judge(accounts, tx) == Overflow <==> known && cost >= LIMIT256)
  {
  }

  // ---------------------------------------------------------------- conservation

  function Balances(accounts: Accounts): map<Address, nat> {
    map a | a in accounts :: accounts[a].balance
  }

  ghost function Total(accounts: Accounts): nat {
    Sum(Balances(accounts))
  }

  lemma TotalSet(accounts: Accounts, a: Address, balance: U256)
    ensures Total(SetBalance(accounts, a, balance)) == Total(accounts) - Balance(accounts, a) + balance
  {
    assert Balances(SetBalance(accounts, a, balance)) == Balances(accounts)[a := balance];
    SumUpdate(Balances(accounts), a, balance);
  }

  lemma TotalBump(accounts: Accounts, a: Address)
    ensures Total(Bump(accounts, a)) == Total(accounts)
  {
    assert Balances(Bump(accounts, a)) == Balances(accounts)[a := Balance(accounts, a)];
    SumUpdate(Balances(accounts), a, Balance(accounts, a));
  }

  lemma BalanceBound(accounts: Accounts, a: Address)
    ensures Balance(accounts, a) <= Total(accounts)
  {
    SumBounds(Balances(accounts), a);
  }

  lemma CostSplits(tx: TxBlock)
    ensures Cost(tx) == tx.value + Fees(tx)
  {
  }

  /** Whoever can pay for a transaction gets it through, as long as no balance can overflow. */
  lemma PayableSucceeds(accounts: Accounts, tx: TxBlock)
    requires Cost(tx) <= Balance(accounts, tx.from) && Total(accounts) < LIMIT256
    ensures !Try(accounts, tx, Plain).threw
    ensures Total(Try(accounts, tx, Plain).accounts) == Total(accounts) - Fees(tx)
  {
    hide Total, SetBalance, Cost, Fees;
    BalanceBound(accounts, tx.from);
    var debited := SetBalance(accounts, tx.from, Balance(accounts, tx.from) - Cost(tx));
    TotalSet(accounts, tx.from, Balance(accounts, tx.from) - Cost(tx));
    BalanceBound(debited, tx.to);
    CostSplits(tx);
    TotalSet(debited, tx.to, Balance(debited, tx.to) + tx.value);
  }

  /** One valid transfer: it succeeds, burns its fees, counts its nonce and leaves the other accounts their due. */
  lemma TransferEffect(accounts: Accounts, tx: TxBlock, other: Address)
    requires Judge(accounts, tx) == NotInvalid && Total(accounts) < LIMIT256
    ensures !Try(accounts, tx, Plain).threw && ProcessTx(accounts, tx, Plain).Some?
    ensures var after := ProcessTx(accounts, tx, Plain).value;
            && Total(after) == Total(accounts) - Fees(tx)
            && Nonce(after, tx.from) == Wrap64(Nonce(accounts, tx.from) + 1)
            && (other != tx.from ==> Keeps(accounts, after, other))
  {
    PayableSucceeds(accounts, tx);
    TotalBump(Try(accounts, tx, Plain).accounts, tx.from);
  }

  /** An account that lost nothing and counted no transaction. */
  predicate Keeps(accounts: Accounts, after: Accounts, a: Address) {
    && (a in accounts ==> a in after)
    && Balance(after, a) >= Balance(accounts, a)
    && Nonce(after, a) == Nonce(accounts, a)
  }

  lemma StillValid(accounts: Accounts, after: Accounts, tx: TxBlock)
    requires Judge(accounts, tx) == NotInvalid && Keeps(accounts, after, tx.from)
    ensures Judge(after, tx) == NotInvalid
  {
  }

  function Plains(n: nat): (r: seq<Outcome>)
    ensures |r| == n
  {
    seq(n, _ => Plain)
  }

  function TotalFees(txs: seq<TxBlock>): nat {
    if txs == [] then 0 else Fees(txs[0]) + TotalFees(txs[1..])
  }

  ghost predicate AllValid(accounts: Accounts, txs: seq<TxBlock>) {
    forall i :: 0 <= i < |txs| ==> Judge(accounts, txs[i]) == NotInvalid
  }

  ghost predicate DistinctSenders(txs: seq<TxBlock>) {
    forall i, j :: 0 <= i < j < |txs| ==> txs[i].from != txs[j].from
  }

  ghost predicate Sends(txs: seq<TxBlock>, a: Address) {
    exists i :: 0 <= i < |txs| && txs[i].from == a
  }

  /** No transaction of the sequence throws while it is processed. */
  predicate NoneThrows(accounts: Accounts, txs: seq<TxBlock>)
    decreases |txs|
  {
    txs == [] ||
    (!Try(accounts, txs[0], Plain).threw
     && NoneThrows(Bump(Try(accounts, txs[0], Plain).accounts, txs[0].from), txs[1..]))
  }

  lemma RestStillValid(accounts: Accounts, after: Accounts, txs: seq<TxBlock>)
    requires txs != [] && AllValid(accounts, txs) && DistinctSenders(txs)
    requires forall a :: a != txs[0].from ==> Keeps(accounts, after, a)
    ensures AllValid(after, txs[1..]) && DistinctSenders(txs[1..])
  {
    forall i | 0 <= i < |txs[1..]|
      ensures Judge(after, txs[1..][i]) == NotInvalid
    {
      StillValid(accounts, after, txs[i + 1]);
    }
  }

  /** What becomes of an account's nonce: senders count one transaction, others none. */
  ghost predicate NonceCounted(accounts: Accounts, after: Accounts, txs: seq<TxBlock>, a: Address) {
    Nonce(after, a) == if Sends(txs, a) then Wrap64(Nonce(accounts, a) + 1) else Nonce(accounts, a)
  }

  /** Whatever a transaction does, it counts one nonce of its sender and no other. */
  lemma NonceAfter(accounts: Accounts, tx: TxBlock, outcome: Outcome, a: Address)
    requires ProcessTx(accounts, tx, outcome).Some?
    ensures Nonce(ProcessTx(accounts, tx, outcome).value, a)
         == if tx.from == a then Wrap64(Nonce(accounts, a) + 1) else Nonce(accounts, a)
  {
  }

  lemma {:induction false} SendersCounted(accounts: Accounts, txs: seq<TxBlock>, outcomes: seq<Outcome>, a: Address)
    requires DistinctSenders(txs) && |outcomes| == |txs| && ProcessTxs(accounts, txs, outcomes).Some?
    ensures NonceCounted(accounts, ProcessTxs(accounts, txs, outcomes).value, txs, a)
    decreases |txs|
  {
    hide ProcessTx;
    if txs != [] {
      NonceAfter(accounts, txs[0], outcomes[0], a);
      SendersCounted(ProcessTx(accounts, txs[0], outcomes[0]).value, txs[1..], outcomes[1..], a);
      SenderOfRest(txs, a);
    }
  }

  lemma {:induction false} DistinctSendersPaid(accounts: Accounts, txs: seq<TxBlock>)
    requires AllValid(accounts, txs) && DistinctSenders(txs) && Total(accounts) < LIMIT256
    ensures NoneThrows(accounts, txs)
    ensures ProcessTxs(accounts, txs, Plains(|txs|)).Some?
    ensures Total(ProcessTxs(accounts, txs, Plains(|txs|)).value) == Total(accounts) - TotalFees(txs)
    decreases |txs|
  {
    hide ProcessTx, Try, Total, Judge, Keeps;
    if txs != [] {
      var after := FirstTransfer(accounts, txs);
      RestStillValid(accounts, after, txs);
      DistinctSendersPaid(after, txs[1..]);
      assert Plains(|txs|)[1..] == Plains(|txs[1..]|);
    }
  }

  /**
   * Validating every transaction against the accounts before the block is enough when no sender occurs twice:
   * processing never throws, the total falls by exactly the fees, and each sender's nonce rises by one.
   */
  lemma PreStateValidationSuffices(accounts: Accounts, txs: seq<TxBlock>, a: Address)
    requires AllValid(accounts, txs) && DistinctSenders(txs) && Total(accounts) < LIMIT256
    ensures NoneThrows(accounts, txs)
    ensures ProcessTxs(accounts, txs, Plains(|txs|)).Some?
    ensures var after := ProcessTxs(accounts, txs, Plains(|txs|)).value;
            Total(after) == Total(accounts) - TotalFees(txs) && NonceCounted(accounts, after, txs, a)
  {
    DistinctSendersPaid(accounts, txs);
    SendersCounted(accounts, txs, Plains(|txs|), a);
  }

  lemma SenderOfRest(txs: seq<TxBlock>, a: Address)
    requires txs != [] && DistinctSenders(txs)
    ensures Sends(txs, a) <==> a == txs[0].from || Sends(txs[1..], a)
    ensures a == txs[0].from ==> !Sends(txs[1..], a)
  {
    if Sends(txs, a) && a != txs[0].from {
      var i :| 0 <= i < |txs| && txs[i].from == a;
      assert txs[1..][i - 1].from == a;
    }
  }

  lemma FirstTransfer(accounts: Accounts, txs: seq<TxBlock>) returns (after: Accounts)
    requires txs != [] && AllValid(accounts, txs) && Total(accounts) < LIMIT256
    ensures !Try(accounts, txs[0], Plain).threw && after == Bump(Try(accounts, txs[0], Plain).accounts, txs[0].from)
    ensures ProcessTx(accounts, txs[0], Plain) == Some(after)
    ensures Total(after) == Total(accounts) - Fees(txs[0])
    ensures Nonce(after, txs[0].from) == Wrap64(Nonce(accounts, txs[0].from) + 1)
    ensures forall a :: a != txs[0].from ==> Keeps(accounts, after, a)
  {
    TransferEffect(accounts, txs[0], txs[0].from);
    after := ProcessTx(accounts, txs[0], Plain).value;
    forall a | a != txs[0].from
      ensures Keeps(accounts, after, a)
    {
      TransferEffect(accounts, txs[0], a);
    }
  }

  // ---------------------------------------------------------------- blocks of any senders

  /** What the transactions cost `a` as their sender. */
  function Spent(txs: seq<TxBlock>, a: Address): nat {
    if txs == [] then 0 else (if txs[0].from == a then Cost(txs[0]) else 0) + Spent(txs[1..], a)
  }

  /** What the transactions bring `a` as their receiver. */
  function Received(txs: seq<TxBlock>, a: Address): nat {
    if txs == [] then 0 else (if txs[0].to == a then txs[0].value else 0) + Received(txs[1..], a)
  }

  /** How many of the transactions `a` sends. */
  function CountFrom(txs: seq<TxBlock>, a: Address): nat {
    if txs == [] then 0 else (if txs[0].from == a then 1 else 0) + CountFrom(txs[1..], a)
  }

  /** What `a` holds once the transactions have been paid. */
  function Held(accounts: Accounts, txs: seq<TxBlock>, a: Address): int {
    Balance(accounts, a) + Received(txs, a) - Spent(txs, a)
  }

  /** The sender of the i-th transaction can pay for it, counting what the block brought and took before. */
  predicate Affords(accounts: Accounts, txs: seq<TxBlock>, i: nat)
    requires i < |txs|
  {
    Spent(txs[..i + 1], txs[i].from) <= Balance(accounts, txs[i].from) + Received(txs[..i], txs[i].from)
  }

  /** The balance of the receiver of the i-th transaction stays below 2^256. */
  predicate HasRoom(accounts: Accounts, txs: seq<TxBlock>, i: nat)
    requires i < |txs|
  {
    Held(accounts, txs[..i + 1], txs[i].to) < LIMIT256
  }

  ghost predicate Covered(accounts: Accounts, txs: seq<TxBlock>) {
    forall i :: 0 <= i < |txs| ==> Affords(accounts, txs, i) && HasRoom(accounts, txs, i)
  }

  /** The accounts after a transaction that does not throw. */
  function Paid(accounts: Accounts, tx: TxBlock): Accounts {
    Bump(Try(accounts, tx, Plain).accounts, tx.from)
  }

  lemma PaidHolds(accounts: Accounts, tx: TxBlock, a: Address)
    requires !Try(accounts, tx, Plain).threw
    ensures Balance(Paid(accounts, tx), a)
         == Balance(accounts, a) + (if tx.to == a then tx.value else 0) - if tx.from == a then Cost(tx) else 0
    ensures Nonce(Paid(accounts, tx), a) == if tx.from == a then Wrap64(Nonce(accounts, a) + 1) else Nonce(accounts, a)
  {
  }

  lemma {:induction false} SpentSnoc(txs: seq<TxBlock>, i: nat, a: Address)
    requires i < |txs|
    ensures Spent(txs[..i + 1], a) == Spent(txs[..i], a) + if txs[i].from == a then Cost(txs[i]) else 0
    decreases i
  {
    if i > 0 {
      assert txs[..i + 1][1..] == txs[1..][..i] && txs[..i][1..] == txs[1..][..i - 1];
      SpentSnoc(txs[1..], i - 1, a);
    } else {
      assert txs[..1][1..] == [] && txs[..0] == [];
    }
  }

  /** Taking the first transaction off leaves every later position with the same holdings. */
  lemma HeldAfterFirst(accounts: Accounts, txs: seq<TxBlock>, i: nat, a: Address)
    requires i < |txs| && !Try(accounts, txs[0], Plain).threw
    ensures Held(Paid(accounts, txs[0]), txs[1..][..i], a) == Held(accounts, txs[..i + 1], a)
  {
    PaidHolds(accounts, txs[0], a);
    assert txs[..i + 1][1..] == txs[1..][..i];
  }

  /** `Affords` in terms of what the sender holds before its transaction. */
  lemma AffordsHeld(accounts: Accounts, txs: seq<TxBlock>, i: nat)
    requires i < |txs|
    ensures Affords(accounts, txs, i) <==> Cost(txs[i]) <= Held(accounts, txs[..i], txs[i].from)
  {
    SpentSnoc(txs, i, txs[i].from);
  }

  lemma CoveredLater(accounts: Accounts, txs: seq<TxBlock>, i: nat)
    requires 1 <= i < |txs| && !Try(accounts, txs[0], Plain).threw
    ensures Affords(accounts, txs, i) <==> Affords(Paid(accounts, txs[0]), txs[1..], i - 1)
    ensures HasRoom(accounts, txs, i) <==> HasRoom(Paid(accounts, txs[0]), txs[1..], i - 1)
  {
    hide Held, Affords, Try, Paid;
    var rest := txs[1..];
    AffordsHeld(accounts, txs, i);
    AffordsHeld(Paid(accounts, txs[0]), rest, i - 1);
    HeldAfterFirst(accounts, txs, i - 1, txs[i].from);
    HeldAfterFirst(accounts, txs, i, txs[i].to);
    assert rest[i - 1] == txs[i];
  }

  /** The first transaction throws exactly when it is not covered. */
  lemma FirstCovered(accounts: Accounts, txs: seq<TxBlock>)
    requires txs != []
    ensures !Try(accounts, txs[0], Plain).threw <==> Affords(accounts, txs, 0) && HasRoom(accounts, txs, 0)
  {
    var tx, one := txs[0], txs[..1];
    assert one[0] == tx && one[1..] == [] && txs[..0] == [];
    AffordsHeld(accounts, txs, 0);
    assert Spent(one, tx.to) == if tx.from == tx.to then Cost(tx) else 0;
    assert Received(one, tx.to) == tx.value;
  }

  lemma CoveredRest(accounts: Accounts, txs: seq<TxBlock>)
    requires txs != [] && !Try(accounts, txs[0], Plain).threw
    ensures Covered(accounts, txs) <==> Covered(Paid(accounts, txs[0]), txs[1..])
  {
    hide Held, Affords, HasRoom, Try, Paid;
    var rest, after := txs[1..], Paid(accounts, txs[0]);
    FirstCovered(accounts, txs);
    if Covered(after, rest) {
      forall i | 0 <= i < |txs|
        ensures Affords(accounts, txs, i) && HasRoom(accounts, txs, i)
      {
        if i > 0 {
          CoveredLater(accounts, txs, i);
        }
      }
    }
    if Covered(accounts, txs) {
      forall i | 0 <= i < |rest|
        ensures Affords(after, rest, i) && HasRoom(after, rest, i)
      {
        CoveredLater(accounts, txs, i + 1);
      }
    }
  }

  /**
   * Exactly when a block of transfers is processed without an exception, whoever sends them and however often: at
   * every position the sender can pay out of what it had and what the block brought it so far, and the receiver's
   * balance does not overflow.
   */
  lemma {:induction false} NoneThrowsExactly(accounts: Accounts, txs: seq<TxBlock>)
    ensures NoneThrows(accounts, txs) <==> Covered(accounts, txs)
    decreases |txs|
  {
    if txs != [] {
      FirstCovered(accounts, txs);
      if Try(accounts, txs[0], Plain).threw {
        assert !(Affords(accounts, txs, 0) && HasRoom(accounts, txs, 0));
      } else {
        CoveredRest(accounts, txs);
        NoneThrowsExactly(Paid(accounts, txs[0]), txs[1..]);
      }
    }
  }

  /** Where the currency in existence fits 256 bits, no receiver overflows and paying is all that matters. */
  lemma {:induction false} RoomWhileBounded(accounts: Accounts, txs: seq<TxBlock>, i: nat)
    requires Total(accounts) < LIMIT256 && i < |txs|
    requires forall k :: 0 <= k <= i ==> Affords(accounts, txs, k)
    ensures HasRoom(accounts, txs, i)
    decreases |txs|
  {
    hide Held, HasRoom, Try, Paid;
    TransferPaid(accounts, txs);
    if i > 0 {
      forall k | 0 <= k <= i - 1
        ensures Affords(Paid(accounts, txs[0]), txs[1..], k)
      {
        CoveredLater(accounts, txs, k + 1);
      }
      RoomWhileBounded(Paid(accounts, txs[0]), txs[1..], i - 1);
      CoveredLater(accounts, txs, i);
    }
  }

  /** A first transaction that can be paid is paid, and burns its fees. */
  lemma TransferPaid(accounts: Accounts, txs: seq<TxBlock>)
    requires txs != [] && Total(accounts) < LIMIT256 && Affords(accounts, txs, 0)
    ensures !Try(accounts, txs[0], Plain).threw && HasRoom(accounts, txs, 0)
    ensures Total(Paid(accounts, txs[0])) == Total(accounts) - Fees(txs[0])
  {
    assert txs[..0] == [];
    AffordsHeld(accounts, txs, 0);
    PayableSucceeds(accounts, txs[0]);
    TotalBump(Try(accounts, txs[0], Plain).accounts, txs[0].from);
    FirstCovered(accounts, txs);
  }

  /**
   * Validation against the accounts before the block is enough exactly when no sender runs out on the way: with
   * the currency in existence below 2^256, nothing throws if and only if each transaction can be paid out of its
   * sender's balance before the block and what earlier transactions left of it.
   */
  lemma PaidExactly(accounts: Accounts, txs: seq<TxBlock>)
    requires Total(accounts) < LIMIT256
    ensures NoneThrows(accounts, txs) <==> forall i :: 0 <= i < |txs| ==> Affords(accounts, txs, i)
  {
    hide Affords, HasRoom, NoneThrows;
    NoneThrowsExactly(accounts, txs);
    if forall i :: 0 <= i < |txs| ==> Affords(accounts, txs, i) {
      forall i | 0 <= i < |txs|
        ensures HasRoom(accounts, txs, i)
      {
        RoomWhileBounded(accounts, txs, i);
      }
    }
  }

  /** What a block that throws nowhere leaves of an account: exactly what it holds after paying. */
  lemma {:induction false} PaidBlockEffect(accounts: Accounts, txs: seq<TxBlock>, a: Address)
    requires NoneThrows(accounts, txs)
    ensures ProcessTxs(accounts, txs, Plains(|txs|)).Some?
    ensures Balance(ProcessTxs(accounts, txs, Plains(|txs|)).value, a) == Held(accounts, txs, a)
    decreases |txs|
  {
    if txs != [] {
      var after := Paid(accounts, txs[0]);
      PaidHolds(accounts, txs[0], a);
      PaidBlockEffect(after, txs[1..], a);
      assert Plains(|txs|)[1..] == Plains(|txs[1..]|);
    }
  }

  // ---------------------------------------------------------------- where conservation ends

  const ALICE: Address := Zeros(20)
  const BOB: Address := seq(20, _ => 1)

  /** Ten units for Bob, without fees. */
  const TEN_UNITS: TxBlock := TxBlock(BOB, ALICE, [], 1, 0, 10, 0, 0, 0, 0, 1, 1)

  lemma AliceIsNotBob()
    ensures ALICE != BOB && Cost(TEN_UNITS) == 10
  {
    assert ALICE[0] != BOB[0];
  }

  lemma SentOnce()
    ensures ProcessTx(map[ALICE := Account(10, 0)], TEN_UNITS, Plain)
         == Some(map[ALICE := Account(0, 1), BOB := Account(10, 0)])
  {
    AliceIsNotBob();
    var accounts := map[ALICE := Account(10, 0)];
    assert SetBalance(accounts, ALICE, 0) == map[ALICE := Account(0, 0)];
    var moved := map[ALICE := Account(0, 0), BOB := Account(10, 0)];
    assert Try(accounts, TEN_UNITS, Plain).accounts == moved;
    assert Bump(moved, ALICE) == map[ALICE := Account(0, 1), BOB := Account(10, 0)];
  }

  lemma SentTwice()
    ensures ProcessTx(map[ALICE := Account(0, 1), BOB := Account(10, 0)], TEN_UNITS, Plain)
         == Some(map[ALICE := Account(10, 2), BOB := Account(10, 0)])
  {
    AliceIsNotBob();
    var once := map[ALICE := Account(0, 1), BOB := Account(10, 0)];
    assert Try(once, TEN_UNITS, Plain) == Attempt(once, true, false);
    var refunded := map[ALICE := Account(10, 1), BOB := Account(10, 0)];
    assert SetBalance(once, ALICE, 10) == refunded;
    assert Bump(refunded, ALICE) == map[ALICE := Account(10, 2), BOB := Account(10, 0)];
  }

  /** Ten units sent twice: both transactions pass validation, and twenty units are there afterwards. */
  lemma RepeatedSenderExample()
    ensures var accounts := map[ALICE := Account(10, 0)];
            && AllValid(accounts, [TEN_UNITS, TEN_UNITS])
            && ProcessTxs(accounts, [TEN_UNITS, TEN_UNITS], Plains(2))
            == Some(map[ALICE := Account(10, 2), BOB := Account(10, 0)])
  {
    hide ProcessTx, Cost;
    AliceIsNotBob();
    SentOnce();
    SentTwice();
    var tx, once := TEN_UNITS, map[ALICE := Account(0, 1), BOB := Account(10, 0)];
    assert [tx, tx][1..] == [tx] && [tx][1..] == [];
    assert Plains(2)[1..] == Plains(1) && Plains(1)[1..] == Plains(0);
    assert ProcessTxs(once, [tx], Plains(1)) == ProcessTx(once, tx, Plain);
  }

  /** A transaction that cannot pay has its value handed back although nothing was taken. */
  lemma UnpaidTransferMints(accounts: Accounts, tx: TxBlock, outcome: Outcome)
    requires Balance(accounts, tx.from) < Cost(tx) && Total(accounts) + tx.value < LIMIT256
    ensures ProcessTx(accounts, tx, outcome).Some?
    ensures Total(ProcessTx(accounts, tx, outcome).value) == Total(accounts) + tx.value
  {
    BalanceBound(accounts, tx.from);
    CreditTotal(accounts, tx.from, tx.value);
    TotalBump(Credit(accounts, tx.from, tx.value).value, tx.from);
  }

  lemma CreditTotal(accounts: Accounts, a: Address, value: U256)
    requires Total(accounts) + value < LIMIT256
    ensures Credit(accounts, a, value).Some?
    ensures Total(Credit(accounts, a, value).value) == Total(accounts) + value
    ensures Balance(Credit(accounts, a, value).value, a) == Balance(accounts, a) + value
    ensures forall b :: b != a ==> Balance(Credit(accounts, a, value).value, b) == Balance(accounts, b)
  {
    hide Total;
    BalanceBound(accounts, a);
    TotalSet(accounts, a, Balance(accounts, a) + value);
  }

  /** After a failed call the sender gets the value back once too often, payable or not. */
  lemma FailedCallMints(accounts: Accounts, tx: TxBlock, payable: bool)
    requires Cost(tx) <= Balance(accounts, tx.from) && Total(accounts) + tx.value < LIMIT256
    ensures ProcessTx(accounts, tx, Failure(payable)).Some?
    ensures Total(ProcessTx(accounts, tx, Failure(payable)).value) == Total(accounts) - Fees(tx) + tx.value
  {
    hide Total, Try, Refund, Bump, Cost, Fees;
    PayableSucceeds(accounts, tx);
    CallFails(accounts, tx, payable);
    var moved := Try(accounts, tx, Plain).accounts;
    RefundTotal(moved, tx, payable);
    TotalBump(Refund(moved, tx, payable).value, tx.from);
  }

  /** A call that fails has the value moved already. */
  lemma CallFails(accounts: Accounts, tx: TxBlock, payable: bool)
    requires !Try(accounts, tx, Plain).threw
    ensures Try(accounts, tx, Failure(payable)) == Attempt(Try(accounts, tx, Plain).accounts, true, payable)
    ensures Balance(Try(accounts, tx, Plain).accounts, tx.to) >= tx.value
  {
  }

  lemma RefundTotal(moved: Accounts, tx: TxBlock, payable: bool)
    requires Balance(moved, tx.to) >= tx.value && Total(moved) + tx.value < LIMIT256
    ensures Refund(moved, tx, payable).Some? && Total(Refund(moved, tx, payable).value) == Total(moved) + tx.value
  {
    hide Total, SetBalance, Credit, Balance;
    CreditTotal(moved, tx.from, tx.value);
    if payable {
      var once := Credit(moved, tx.from, tx.value).value;
      TotalSet(once, tx.to, Balance(once, tx.to) - tx.value);
      CreditTotal(SetBalance(once, tx.to, Balance(once, tx.to) - tx.value), tx.from, tx.value);
    }
  }
}

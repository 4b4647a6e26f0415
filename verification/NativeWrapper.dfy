/** The token that stands for native currency, called by transactions that move native currency at the same time. */
module NativeWrapper {
  import opened Bytes
  import opened TxBlocks
  import opened MapSums
  import opened Accounts
  import Overlay
  import Erc20

  datatype Call =
    | Deposit
    | Withdraw(value: U256)
    | Transfer(to: Address, value: U256)
    | Approve(spender: Address, value: U256)
    | TransferFrom(from: Address, to: Address, value: U256)

  predicate IsPayable(call: Call) {
    call.Deposit? || call.Withdraw?
  }

  /** What a call that returns leaves behind: the token and the overlay of native balances. */
  datatype Effect = Effect(token: Erc20.Token, overlay: Overlay.Balances)

  function WithBalances(t: Erc20.Token, balances: Option<Erc20.Book>, overlay: Overlay.Balances): Option<Effect> {
    if balances.None? then None else Some(Effect(t.(balances := balances.value), overlay))
  }

  function WithToken(t: Option<Erc20.Token>): Option<Effect> {
    if t.None? then None else Some(Effect(t.value, map[]))
  }

  /** The call itself; `value` is the native currency it carries, already credited to the wrapper. */
  function Run(t: Erc20.Token, accounts: Accounts, wrapper: Address, caller: Address, value: U256, call: Call)
    : Option<Effect>
  {
    match call
    case Deposit => WithBalances(t, Erc20.Credit(t.balances, caller, value), map[])
    case Withdraw(amount) =>
      var sent := Overlay.SendTokens(accounts, map[], Overlay.Send(wrapper, caller, amount));
      if sent.None? then None else WithBalances(t, Erc20.Debit(t.balances, caller, amount), sent.value)
    case Transfer(to, amount) => WithToken(Erc20.Transfer(t, caller, to, amount))
    case Approve(spender, amount) => WithToken(Some(Erc20.Allow(t, caller, spender, amount)))
    case TransferFrom(from, to, amount) => WithToken(Erc20.TransferFrom(t, caller, from, to, amount))
  }

  function OutcomeOf(effect: Option<Effect>, call: Call): Outcome {
    if effect.None? then Failure(IsPayable(call)) else Success(IsPayable(call), effect.value.overlay)
  }

  datatype Bank = Bank(accounts: Accounts, token: Erc20.Token)

  /** The effect of the call, if the transaction gets as far as calling. */
  function EffectOf(b: Bank, wrapper: Address, tx: TxBlock, call: Call): Option<Effect> {
    var moved := Try(b.accounts, tx, Plain);
    if moved.threw then None else Run(b.token, moved.accounts, wrapper, tx.from, tx.value, call)
  }

  /** A direct transaction to the wrapper; `None` when the exception handler itself throws. */
  function CallWrapper(b: Bank, wrapper: Address, tx: TxBlock, call: Call): Option<Bank> {
    var effect := EffectOf(b, wrapper, tx, call);
    var accounts := ProcessTx(b.accounts, tx, OutcomeOf(effect, call));
    if accounts.None? then None
    else Some(Bank(accounts.value, if effect.None? then b.token else effect.value.token))
  }

  // ---------------------------------------------------------------- backing

  /** The wrapper holds at least as much native currency as there are tokens. */
  ghost predicate Backed(b: Bank, wrapper: Address) {
    Sum(b.token.balances) <= Balance(b.accounts, wrapper)
  }

  /** What a transfer gets the wrapper. */
  lemma TryWrapper(accounts: Accounts, tx: TxBlock, wrapper: Address)
    requires tx.from != wrapper
    ensures var r := Try(accounts, tx, Plain);
            Balance(r.accounts, wrapper)
            == Balance(accounts, wrapper) + if !r.threw && tx.to == wrapper then tx.value else 0
  {
  }

  /** Without a call that returns, the wrapper keeps at least what it had. */
  lemma FailedCallKeepsWrapper(accounts: Accounts, tx: TxBlock, payable: bool, wrapper: Address)
    requires tx.from != wrapper && ProcessTx(accounts, tx, Failure(payable)).Some?
    ensures Balance(ProcessTx(accounts, tx, Failure(payable)).value, wrapper) >= Balance(accounts, wrapper)
  {
    var attempt := Try(accounts, tx, Failure(payable));
    TryWrapper(accounts, tx, wrapper);
  }

  /** After a call that returns, the wrapper holds what the overlay says, or what it had plus the value. */
  lemma ReturnedCallWrapper(accounts: Accounts, tx: TxBlock, payable: bool, overlay: Overlay.Balances, wrapper: Address)
    requires tx.from != wrapper && tx.to == wrapper && !Try(accounts, tx, Plain).threw
    ensures ProcessTx(accounts, tx, Success(payable, overlay)).Some?
    ensures Balance(ProcessTx(accounts, tx, Success(payable, overlay)).value, wrapper)
         == if payable && wrapper in overlay then overlay[wrapper] else Balance(accounts, wrapper) + tx.value
  {
    TryWrapper(accounts, tx, wrapper);
    Overlay.CommitView(Try(accounts, tx, Plain).accounts, overlay, wrapper);
  }

  /** Calls other than a withdrawal leave the overlay alone and create at most as many tokens as they carry. */
  lemma OtherCallsBacked(t: Erc20.Token, accounts: Accounts, wrapper: Address, caller: Address, value: U256, call: Call)
    requires !call.Withdraw? && Run(t, accounts, wrapper, caller, value, call).Some?
    ensures var r := Run(t, accounts, wrapper, caller, value, call).value;
            r.overlay == map[] && Sum(r.token.balances) <= Sum(t.balances) + if call.Deposit? then value else 0
  {
    match call
    case Deposit => Erc20.CreditSum(t.balances, caller, value);
    case Approve(_, _) =>
    case Transfer(to, amount) => Erc20.MoveSum(t.balances, caller, to, amount);
    case TransferFrom(from, to, amount) =>
      var granted := Erc20.Allow(t, from, caller, Erc20.Allowance(t, from, caller) - amount);
      Erc20.MoveSum(granted.balances, from, to, amount);
  }

  /** A withdrawal takes as many tokens as it takes native currency from the wrapper. */
  lemma WithdrawBacked(t: Erc20.Token, accounts: Accounts, wrapper: Address, caller: Address, value: U256, amount: U256)
    requires caller != wrapper && Run(t, accounts, wrapper, caller, value, Withdraw(amount)).Some?
    ensures var r := Run(t, accounts, wrapper, caller, value, Withdraw(amount)).value;
            && Sum(r.token.balances) == Sum(t.balances) - amount
            && wrapper in r.overlay && r.overlay[wrapper] == Balance(accounts, wrapper) - amount
  {
    Erc20.DebitSum(t.balances, caller, amount);
  }

  /** Every direct transaction to the wrapper, whether its call returns or throws, keeps the tokens backed. */
  lemma CallKeepsBacked(b: Bank, wrapper: Address, tx: TxBlock, call: Call)
    requires Backed(b, wrapper) && tx.from != wrapper && tx.to == wrapper && CallWrapper(b, wrapper, tx, call).Some?
    ensures Backed(CallWrapper(b, wrapper, tx, call).value, wrapper)
  {
    var effect := EffectOf(b, wrapper, tx, call);
    if effect.None? {
      FailedCallKeepsWrapper(b.accounts, tx, IsPayable(call), wrapper);
    } else {
      ReturnedKeepsBacked(b, wrapper, tx, call);
    }
  }

  lemma ReturnedKeepsBacked(b: Bank, wrapper: Address, tx: TxBlock, call: Call)
    requires Backed(b, wrapper) && tx.from != wrapper && tx.to == wrapper && EffectOf(b, wrapper, tx, call).Some?
    ensures CallWrapper(b, wrapper, tx, call).Some? && Backed(CallWrapper(b, wrapper, tx, call).value, wrapper)
  {
    hide Run, Try, ProcessTx;
    var moved := Try(b.accounts, tx, Plain).accounts;
    var effect := EffectOf(b, wrapper, tx, call).value;
    TryWrapper(b.accounts, tx, wrapper);
    ReturnedCallWrapper(b.accounts, tx, IsPayable(call), effect.overlay, wrapper);
    if call.Withdraw? {
      WithdrawBacked(b.token, moved, wrapper, tx.from, tx.value, call.value);
    } else {
      OtherCallsBacked(b.token, moved, wrapper, tx.from, tx.value, call);
    }
  }

  // ---------------------------------------------------------------- who holds what after a call

  /** What a call that returns does to native balances, before anything is paid out. */
  function Carried(b: Bank, wrapper: Address, tx: TxBlock, a: Address): int {
    Balance(b.accounts, a) - (if a == tx.from then tx.value + tx.gasLimit * tx.maxFeePerGas else 0)
    + (if a == wrapper then tx.value else 0)
  }

  lemma ReturnedCall(b: Bank, wrapper: Address, tx: TxBlock, call: Call, a: Address)
    requires tx.from != wrapper && tx.to == wrapper && EffectOf(b, wrapper, tx, call).Some?
    ensures var effect := EffectOf(b, wrapper, tx, call).value;
            var r := CallWrapper(b, wrapper, tx, call);
            && r.Some? && r.value.token == effect.token
            && Balance(Try(b.accounts, tx, Plain).accounts, a) == Carried(b, wrapper, tx, a)
            && Balance(r.value.accounts, a)
            == if IsPayable(call) && a in effect.overlay then effect.overlay[a] else Carried(b, wrapper, tx, a)
  {
    hide Run, Try, ProcessTx, Balance;
    var outcome := OutcomeOf(EffectOf(b, wrapper, tx, call), call);
    TryBalances(b.accounts, tx, a);
    CrashesExactly(b.accounts, tx, outcome);
    BalancesAfter(b.accounts, tx, outcome, a);
  }

  /** A deposit: the value moves to the wrapper, and the caller gets as many tokens. */
  lemma DepositEffect(b: Bank, wrapper: Address, tx: TxBlock, a: Address)
    requires tx.from != wrapper && tx.to == wrapper && EffectOf(b, wrapper, tx, Deposit).Some?
    ensures CallWrapper(b, wrapper, tx, Deposit).Some?
    ensures var after := CallWrapper(b, wrapper, tx, Deposit).value;
            && Balance(after.accounts, a) == Carried(b, wrapper, tx, a)
            && Erc20.BalanceOf(after.token, a) == Erc20.BalanceOf(b.token, a) + (if a == tx.from then tx.value else 0)
            && after.token.allowed == b.token.allowed
  {
    hide Try, ProcessTx, CallWrapper, Balance, Carried;
    ReturnedCall(b, wrapper, tx, Deposit, a);
  }

  /** A withdrawal: the caller gives up tokens and gets as much currency from the wrapper. */
  lemma WithdrawEffect(b: Bank, wrapper: Address, tx: TxBlock, amount: U256, a: Address)
    requires tx.from != wrapper && tx.to == wrapper && EffectOf(b, wrapper, tx, Withdraw(amount)).Some?
    ensures CallWrapper(b, wrapper, tx, Withdraw(amount)).Some?
    ensures var after := CallWrapper(b, wrapper, tx, Withdraw(amount)).value;
            && Balance(after.accounts, a)
            == Carried(b, wrapper, tx, a) - (if a == wrapper then amount else 0) + (if a == tx.from then amount else 0)
            && Erc20.BalanceOf(after.token, a) == Erc20.BalanceOf(b.token, a) - (if a == tx.from then amount else 0)
            && after.token.allowed == b.token.allowed
  {
    hide Try, ProcessTx, CallWrapper, Balance, Carried;
    ReturnedCall(b, wrapper, tx, Withdraw(amount), a);
    ReturnedCall(b, wrapper, tx, Withdraw(amount), wrapper);
    ReturnedCall(b, wrapper, tx, Withdraw(amount), tx.from);
  }

  /** The other calls do to the token what the token contract does, and move the value they carry to the wrapper. */
  lemma TokenCallEffect(b: Bank, wrapper: Address, tx: TxBlock, call: Call, a: Address)
    requires tx.from != wrapper && tx.to == wrapper && EffectOf(b, wrapper, tx, call).Some? && !IsPayable(call)
    ensures CallWrapper(b, wrapper, tx, call).Some?
    ensures var after := CallWrapper(b, wrapper, tx, call).value;
            && Balance(after.accounts, a) == Carried(b, wrapper, tx, a)
            && match call
               case Transfer(to, amount) => Erc20.Transfer(b.token, tx.from, to, amount) == Some(after.token)
               case Approve(spender, amount) => Erc20.Allow(b.token, tx.from, spender, amount) == after.token
               case TransferFrom(from, to, amount) =>
                 Erc20.TransferFrom(b.token, tx.from, from, to, amount) == Some(after.token)
               case _ => false
  {
    hide Try, ProcessTx, CallWrapper, Balance, Carried, Erc20.Transfer, Erc20.TransferFrom, Erc20.Allow;
    ReturnedCall(b, wrapper, tx, call, a);
  }

  // ---------------------------------------------------------------- whole runs

  /** A call of the wrapper, a transfer or a call of another contract, or a credit from outside. */
  datatype Event =
    | CallEvent(tx: TxBlock, call: Call)
    | OtherEvent(tx: TxBlock, outcome: Outcome)
    | CreditEvent(a: Address, amount: U256)

  /** None of the tokens sent are taken from `a`. */
  predicate SparedBy(sends: seq<Overlay.Send>, a: Address) {
    forall i :: 0 <= i < |sends| ==> sends[i].from != a
  }

  /** A payable call of another contract commits what it reached by sending tokens that are not the wrapper's. */
  ghost predicate Elsewhere(accounts: Accounts, tx: TxBlock, outcome: Outcome, wrapper: Address) {
    outcome.Success? && outcome.payable ==>
      exists sends ::
        && Overlay.SendAll(Try(accounts, tx, Plain).accounts, map[], sends) == Some(outcome.overlay)
        && SparedBy(sends, wrapper)
  }

  /** The wrapper signs no transactions; a transaction that brings the node down ends the run. */
  ghost predicate Takes(wrapper: Address, b: Bank, event: Event, after: Bank) {
    match event
    case CallEvent(tx, call) =>
      tx.from != wrapper && tx.to == wrapper && CallWrapper(b, wrapper, tx, call) == Some(after)
    case OtherEvent(tx, outcome) =>
      && tx.from != wrapper && tx.to != wrapper && Elsewhere(b.accounts, tx, outcome, wrapper)
      && ProcessTx(b.accounts, tx, outcome) == Some(after.accounts) && after.token == b.token
    case CreditEvent(a, amount) =>
      Credit(b.accounts, a, amount) == Some(after.accounts) && after.token == b.token
  }

  /** Sending other tokens takes nothing from the wrapper. */
  lemma {:induction false} SendsSpare(accounts: Accounts, overlay: Overlay.Balances, sends: seq<Overlay.Send>,
                                      a: Address)
    requires Overlay.SendAll(accounts, overlay, sends).Some? && SparedBy(sends, a)
    ensures Overlay.View(accounts, Overlay.SendAll(accounts, overlay, sends).value, a)
         >= Overlay.View(accounts, overlay, a)
    decreases |sends|
  {
    if sends != [] {
      assert sends[0].from != a;
      SendsSpare(accounts, Overlay.SendTokens(accounts, overlay, sends[0]).value, sends[1..], a);
    }
  }

  lemma OtherReturns(accounts: Accounts, tx: TxBlock, outcome: Outcome, wrapper: Address)
    requires tx.from != wrapper && outcome.Success? && outcome.payable && Elsewhere(accounts, tx, outcome, wrapper)
    requires !Try(accounts, tx, Plain).threw
    ensures ProcessTx(accounts, tx, outcome).Some?
    ensures Balance(ProcessTx(accounts, tx, outcome).value, wrapper) >= Balance(accounts, wrapper)
  {
    hide SparedBy;
    var moved := Try(accounts, tx, Plain).accounts;
    var sends :| Overlay.SendAll(moved, map[], sends) == Some(outcome.overlay) && SparedBy(sends, wrapper);
    SendsSpare(moved, map[], sends, wrapper);
    Overlay.CommitView(moved, outcome.overlay, wrapper);
    TryWrapper(accounts, tx, wrapper);
  }

  /** Whatever other transactions do, the wrapper keeps at least what it had. */
  lemma OtherKeepsWrapper(accounts: Accounts, tx: TxBlock, outcome: Outcome, wrapper: Address)
    requires tx.from != wrapper && Elsewhere(accounts, tx, outcome, wrapper) && ProcessTx(accounts, tx, outcome).Some?
    ensures Balance(ProcessTx(accounts, tx, outcome).value, wrapper) >= Balance(accounts, wrapper)
  {
    hide Elsewhere;
    if outcome.Success? && outcome.payable && !Try(accounts, tx, Plain).threw {
      OtherReturns(accounts, tx, outcome, wrapper);
    } else {
      var attempt := Try(accounts, tx, outcome);
      TryWrapper(accounts, tx, wrapper);
    }
  }

  lemma EventKeepsBacked(wrapper: Address, b: Bank, event: Event, after: Bank)
    requires Backed(b, wrapper) && Takes(wrapper, b, event, after)
    ensures Backed(after, wrapper)
  {
    match event
    case CallEvent(tx, call) => CallKeepsBacked(b, wrapper, tx, call);
    case OtherEvent(tx, outcome) => OtherKeepsWrapper(b.accounts, tx, outcome, wrapper);
    case CreditEvent(a, amount) =>
  }

  /** Runs from before the first token exists. */
  ghost predicate Runs(wrapper: Address, states: seq<Bank>, events: seq<Event>) {
    && |states| == |events| + 1
    && states[0].token == Erc20.Token(map[], map[], 0)
    && forall i :: 0 <= i < |events| ==> Takes(wrapper, states[i], events[i], states[i + 1])
  }

  /** In every state of every run, the tokens are backed by native currency. */
  lemma {:induction false} AlwaysBacked(wrapper: Address, states: seq<Bank>, events: seq<Event>, i: nat)
    requires Runs(wrapper, states, events) && i < |states|
    ensures Backed(states[i], wrapper)
  {
    if i > 0 {
      AlwaysBacked(wrapper, states, events, i - 1);
      assert Takes(wrapper, states[i - 1], events[i - 1], states[i]);
      EventKeepsBacked(wrapper, states[i - 1], events[i - 1], states[i]);
    }
  }

  /**
   * With the tokens backed, a withdrawal never fails for lack of currency in the wrapper. It succeeds exactly when
   * the caller holds the tokens and already holds as much native currency as it wants to withdraw.
   */
  lemma WithdrawSucceeds(t: Erc20.Token, accounts: Accounts, wrapper: Address, caller: Address, value: U256,
                         amount: U256)
    requires caller != wrapper && Sum(t.balances) <= Balance(accounts, wrapper) && Total(accounts) < LIMIT256
    ensures Run(t, accounts, wrapper, caller, value, Withdraw(amount)).Some? <==>
              Erc20.BalanceOf(t, caller) >= amount && Balance(accounts, caller) >= amount
  {
    SumBounds(t.balances, caller);
    SumBoundsTwo(Balances(accounts), wrapper, caller);
    Overlay.SendSucceeds(accounts, map[], Overlay.Send(wrapper, caller, amount));
  }

  // ---------------------------------------------------------------- the contract

  class Wrapper {
    const address: Address
    const manager: Overlay.ContractManager
    var token: Erc20.Token

    constructor (address: Address, manager: Overlay.ContractManager)
      ensures this.address == address && this.manager == manager && token == Erc20.Token(map[], map[], 0)
    {
      this.address := address;
      this.manager := manager;
      this.token := Erc20.Token(map[], map[], 0);
    }

    /** Take the tokens, then send the currency through the overlay. */
    method WithdrawValue(accounts: Accounts, caller: Address, amount: U256) returns (ok: bool)
      requires manager.balances == map[]
      modifies this, manager
      ensures var run := Run(old(token), accounts, address, caller, 0, Withdraw(amount));
              (ok <==> run.Some?) && (ok ==> run.value == Effect(token, manager.balances))
    {
      var held := Erc20.BalanceOf(token, caller);
      if held < amount {
        return false;
      }
      token := token.(balances := token.balances[caller := held - amount]);
      ok := manager.SendTokensFrom(accounts, Overlay.Send(address, caller, amount));
    }

    /** Create the tokens for the currency that came with the call. */
    method DepositValue(caller: Address, value: U256) returns (ok: bool)
      modifies this`token
      ensures ok <==> Erc20.Credit(old(token).balances, caller, value).Some?
      ensures ok ==> token == old(token).(balances := Erc20.Credit(old(token).balances, caller, value).value)
    {
      var held := Erc20.BalanceOf(token, caller);
      if held + value >= LIMIT256 {
        return false;
      }
      token := token.(balances := token.balances[caller := held + value]);
      ok := true;
    }

    /** Debit, then credit. */
    method MoveTokens(from: Address, to: Address, amount: U256) returns (ok: bool)
      modifies this`token
      ensures ok <==> Erc20.Transfer(old(token), from, to, amount).Some?
      ensures ok ==> token == Erc20.Transfer(old(token), from, to, amount).value
    {
      var held := Erc20.BalanceOf(token, from);
      if held < amount {
        return false;
      }
      token := token.(balances := token.balances[from := held - amount]);
      var received := Erc20.BalanceOf(token, to);
      if received + amount >= LIMIT256 {
        return false;
      }
      token := token.(balances := token.balances[to := received + amount]);
      ok := true;
    }

    /** Lower the allowance, then move the tokens. */
    method SpendAllowance(caller: Address, from: Address, to: Address, amount: U256) returns (ok: bool)
      modifies this`token
      ensures ok <==> Erc20.TransferFrom(old(token), caller, from, to, amount).Some?
      ensures ok ==> token == Erc20.TransferFrom(old(token), caller, from, to, amount).value
    {
      var left := Erc20.Allowance(token, from, caller);
      if left < amount {
        return false;
      }
      token := Erc20.Allow(token, from, caller, left - amount);
      ok := MoveTokens(from, to, amount);
    }

    /** The function a call names. */
    method Dispatch(accounts: Accounts, caller: Address, value: U256, call: Call) returns (ok: bool)
      requires manager.balances == map[]
      modifies this, manager
      ensures ok <==> Run(old(token), accounts, address, caller, value, call).Some?
      ensures ok ==> Effect(token, manager.balances) == Run(old(token), accounts, address, caller, value, call).value
    {
      match call
      case Deposit =>
        ok := DepositValue(caller, value);
      case Withdraw(amount) =>
        ok := WithdrawValue(accounts, caller, amount);
      case Transfer(to, amount) =>
        ok := MoveTokens(caller, to, amount);
      case Approve(spender, amount) =>
        token := Erc20.Allow(token, caller, spender, amount);
        ok := true;
      case TransferFrom(from, to, amount) =>
        ok := SpendAllowance(caller, from, to, amount);
    }

    /** Call, then commit the overlay of a payable function, or take everything back. */
    method CallContract(accounts: Accounts, caller: Address, value: U256, call: Call)
      returns (ok: bool, after: Accounts)
      requires manager.balances == map[]
      modifies this, manager
      ensures ok <==> Run(old(token), accounts, address, caller, value, call).Some?
      ensures ok ==> token == Run(old(token), accounts, address, caller, value, call).value.token
      ensures ok ==> var overlay := Run(old(token), accounts, address, caller, value, call).value.overlay;
                     after == if IsPayable(call) then Commit(accounts, overlay) else accounts
      ensures !ok ==> token == old(token) && after == accounts
      ensures manager.balances == map[]
    {
      hide Run, Commit;
      var committed := token;
      ok := Dispatch(accounts, caller, value, call);
      after := accounts;
      if !ok {
        token := committed;
      } else if IsPayable(call) {
        after := Commit(accounts, manager.balances);
      }
      manager.balances := map[];
    }
  }
}

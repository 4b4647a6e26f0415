/** The contract that keeps tokens for its users, together with the tokens it keeps. */
module Erc20Wrapper {
  import opened Bytes
  import opened MapSums
  import opened Erc20

  /** All tokens, and what the wrapper has recorded for each user of each token. */
  datatype System = System(tokens: map<Address, Token>, recorded: map<Address, Book>)

  datatype Call =
    | Create(token: Address, supply: U256)
    | DoTransfer(token: Address, to: Address, value: U256)
    | DoApprove(token: Address, spender: Address, value: U256)
    | DoTransferFrom(token: Address, from: Address, to: Address, value: U256)
    | Deposit(token: Address, value: U256)
    | Withdraw(token: Address, value: U256)
    | TransferTo(token: Address, to: Address, value: U256)

  function BookOf(s: System, token: Address): Book {
    if token in s.recorded then s.recorded[token] else map[]
  }

  function WithToken(s: System, token: Address, t: Option<Token>): Option<System> {
    if t.None? then None else Some(s.(tokens := s.tokens[token := t.value]))
  }

  /** The wrapper pulls the tokens with the allowance its caller granted, then records them. */
  function Deposited(s: System, wrapper: Address, caller: Address, token: Address, value: U256): Option<System> {
    if token !in s.tokens then None
    else
      match TransferFrom(s.tokens[token], wrapper, caller, wrapper, value)
      case None => None
      case Some(t) =>
        match Credit(BookOf(s, token), caller, value)
        case None => None
        case Some(book) => Some(System(s.tokens[token := t], s.recorded[token := book]))
  }

  /** Withdrawing and transferring out: the recorded balance has to exceed the value. */
  function Released(s: System, wrapper: Address, caller: Address, token: Address, to: Address, value: U256)
    : Option<System>
  {
    if token !in s.recorded || caller !in s.recorded[token] || s.recorded[token][caller] <= value then None
    else if token !in s.tokens then None
    else
      match Transfer(s.tokens[token], wrapper, to, value)
      case None => None
      case Some(t) =>
        var book: Book := s.recorded[token];
        Some(System(s.tokens[token := t], s.recorded[token := book[caller := book[caller] - value]]))
  }

  function Execute(s: System, wrapper: Address, caller: Address, call: Call): Option<System> {
    match call
    case Create(token, supply) =>
      if token in s.tokens then None else WithToken(s, token, Mint(Token(map[], map[], 0), caller, supply))
    case DoTransfer(token, to, value) =>
      if token !in s.tokens then None else WithToken(s, token, Transfer(s.tokens[token], caller, to, value))
    case DoApprove(token, spender, value) =>
      if token !in s.tokens then None else WithToken(s, token, Some(Allow(s.tokens[token], caller, spender, value)))
    case DoTransferFrom(token, from, to, value) =>
      if token !in s.tokens then None else WithToken(s, token, TransferFrom(s.tokens[token], caller, from, to, value))
    case Deposit(token, value) => Deposited(s, wrapper, caller, token, value)
    case Withdraw(token, value) => Released(s, wrapper, caller, token, caller, value)
    case TransferTo(token, to, value) => Released(s, wrapper, caller, token, to, value)
  }

  /** A transaction that throws reverts everything it touched. */
  function Step(s: System, wrapper: Address, caller: Address, call: Call): System {
    var r := Execute(s, wrapper, caller, call);
    if r.None? then s else r.value
  }

  // ---------------------------------------------------------------- what each call changes

  /** What the wrapper has recorded for a user. */
  function RecordOf(s: System, token: Address, user: Address): nat {
    Get(BookOf(s, token), user)
  }

  /** No token but this one changes, and no records of another token. */
  predicate OnlyTouches(s: System, after: System, token: Address) {
    after.tokens - {token} == s.tokens - {token} && after.recorded - {token} == s.recorded - {token}
  }

  /** A token that is created, transferred, approved or spent by allowance: every balance and allowance of it after. */
  lemma TokenCallEffect(s: System, wrapper: Address, caller: Address, call: Call, a: Address, o: Address, x: Address)
    requires !call.Deposit? && !call.Withdraw? && !call.TransferTo?
    requires Execute(s, wrapper, caller, call).Some?
    ensures var after := Execute(s, wrapper, caller, call).value;
            && call.token in after.tokens && OnlyTouches(s, after, call.token) && after.recorded == s.recorded
            && (call.token in s.tokens <==> !call.Create?)
    ensures var t := Execute(s, wrapper, caller, call).value.tokens[call.token];
            match call
            case Create(_, supply) =>
              && t.totalSupply == supply && Allowance(t, o, x) == 0
              && BalanceOf(t, a) == if a == caller then supply else 0
            case DoTransfer(token, to, value) =>
              && BalanceOf(t, a)
              == BalanceOf(s.tokens[token], a) - (if a == caller then value else 0) + (if a == to then value else 0)
              && Allowance(t, o, x) == Allowance(s.tokens[token], o, x)
            case DoApprove(token, spender, value) =>
              && BalanceOf(t, a) == BalanceOf(s.tokens[token], a)
              && Allowance(t, o, x)
              == if o == caller && x == spender then value else Allowance(s.tokens[token], o, x)
            case DoTransferFrom(token, from, to, value) =>
              && BalanceOf(t, a)
              == BalanceOf(s.tokens[token], a) - (if a == from then value else 0) + (if a == to then value else 0)
              && Allowance(t, o, x)
              == Allowance(s.tokens[token], o, x) - (if o == from && x == caller then value else 0)
            case _ => false
  {
    hide Mint, Transfer, Allow, TransferFrom;
    match call
    case Create(_, supply) => MintEffect(Token(map[], map[], 0), caller, supply, a);
    case DoTransfer(token, to, value) => TransferEffect(s.tokens[token], caller, to, value, a);
    case DoApprove(token, spender, value) => AllowEffect(s.tokens[token], caller, spender, value, o, x);
    case DoTransferFrom(token, from, to, value) =>
      TransferFromEffect(s.tokens[token], caller, from, to, value, a, o, x);
    case _ =>
  }

  /** A deposit raises its caller's record by what it takes from the caller's tokens and allowance. */
  lemma DepositEffect(s: System, wrapper: Address, caller: Address, token: Address, value: U256, a: Address)
    requires Execute(s, wrapper, caller, Deposit(token, value)).Some?
    ensures var after := Execute(s, wrapper, caller, Deposit(token, value)).value;
            && token in s.tokens && token in after.tokens && OnlyTouches(s, after, token)
            && RecordOf(after, token, a) == RecordOf(s, token, a) + (if a == caller then value else 0)
            && BalanceOf(after.tokens[token], a)
            == BalanceOf(s.tokens[token], a) - (if a == caller then value else 0) + (if a == wrapper then value else 0)
            && Allowance(after.tokens[token], caller, wrapper) == Allowance(s.tokens[token], caller, wrapper) - value
  {
    hide TransferFrom, Allowance;
    TransferFromEffect(s.tokens[token], wrapper, caller, wrapper, value, a, caller, wrapper);
  }

  /** A payout lowers its caller's record by what its receiver gets. */
  lemma ReleaseEffect(s: System, wrapper: Address, caller: Address, token: Address, to: Address, value: U256,
                      a: Address)
    requires Released(s, wrapper, caller, token, to, value).Some?
    ensures var after := Released(s, wrapper, caller, token, to, value).value;
            && token in s.tokens && token in after.tokens && OnlyTouches(s, after, token)
            && RecordOf(after, token, a) == RecordOf(s, token, a) - (if a == caller then value else 0)
            && BalanceOf(after.tokens[token], a)
            == BalanceOf(s.tokens[token], a) - (if a == wrapper then value else 0) + (if a == to then value else 0)
  {
    hide Transfer;
    TransferEffect(s.tokens[token], wrapper, to, value, a);
  }

  /** Withdrawing pays the caller, transferring out pays whom the caller names. */
  lemma PayoutEffect(s: System, wrapper: Address, caller: Address, token: Address, to: Address, value: U256, a: Address)
    ensures Execute(s, wrapper, caller, Withdraw(token, value)).Some? ==>
              var after := Execute(s, wrapper, caller, Withdraw(token, value)).value;
              && token in s.tokens && token in after.tokens
              && RecordOf(after, token, a) == RecordOf(s, token, a) - (if a == caller then value else 0)
              && BalanceOf(after.tokens[token], a)
              == BalanceOf(s.tokens[token], a) - (if a == wrapper then value else 0)
                 + (if a == caller then value else 0)
    ensures Execute(s, wrapper, caller, TransferTo(token, to, value)).Some? ==>
              var after := Execute(s, wrapper, caller, TransferTo(token, to, value)).value;
              && token in s.tokens && token in after.tokens
              && RecordOf(after, token, a) == RecordOf(s, token, a) - (if a == caller then value else 0)
              && BalanceOf(after.tokens[token], a)
              == BalanceOf(s.tokens[token], a) - (if a == wrapper then value else 0) + (if a == to then value else 0)
  {
    hide Released, RecordOf, BalanceOf;
    if Released(s, wrapper, caller, token, caller, value).Some? {
      ReleaseEffect(s, wrapper, caller, token, caller, value, a);
    }
    if Released(s, wrapper, caller, token, to, value).Some? {
      ReleaseEffect(s, wrapper, caller, token, to, value, a);
    }
  }

  // ---------------------------------------------------------------- solvency of one token

  /** The wrapper lets nobody spend its tokens. */
  ghost predicate GrantsNothing(t: Token, wrapper: Address) {
    forall spender :: Allowance(t, wrapper, spender) == 0
  }

  /** The token is whole, the wrapper grants nothing, and it holds at least what it owes. */
  ghost predicate Covers(t: Token, wrapper: Address, owed: nat) {
    Supplied(t) && GrantsNothing(t, wrapper) && owed <= BalanceOf(t, wrapper)
  }

  lemma MintCovers(wrapper: Address, caller: Address, supply: U256)
    requires Mint(Token(map[], map[], 0), caller, supply).Some?
    ensures Covers(Mint(Token(map[], map[], 0), caller, supply).value, wrapper, 0)
  {
    MintKeepsSupplied(Token(map[], map[], 0), caller, supply);
  }

  lemma TransferCovers(t: Token, wrapper: Address, owed: nat, caller: Address, to: Address, value: U256)
    requires Covers(t, wrapper, owed) && caller != wrapper && Transfer(t, caller, to, value).Some?
    ensures Covers(Transfer(t, caller, to, value).value, wrapper, owed)
  {
    TransferKeepsSupplied(t, caller, to, value);
    TransferEffect(t, caller, to, value, wrapper);
    SameGrants(t, Transfer(t, caller, to, value).value, wrapper);
  }

  lemma SameGrants(t: Token, after: Token, wrapper: Address)
    requires GrantsNothing(t, wrapper) && after.allowed == t.allowed
    ensures GrantsNothing(after, wrapper)
  {
    forall spender | true
      ensures Allowance(after, wrapper, spender) == 0
    {
      assert Allowance(t, wrapper, spender) == 0;
    }
  }

  lemma ApproveCovers(t: Token, wrapper: Address, owed: nat, owner: Address, spender: Address, value: U256)
    requires Covers(t, wrapper, owed) && (owner != wrapper || value == 0)
    ensures Covers(Allow(t, owner, spender, value), wrapper, owed)
  {
    forall s | true
      ensures Allowance(Allow(t, owner, spender, value), wrapper, s) == 0
    {
      AllowEffect(t, owner, spender, value, wrapper, s);
      assert Allowance(t, wrapper, s) == 0;
    }
  }

  /** Spending an allowance cannot touch the wrapper, which grants none. */
  lemma TransferFromCovers(t: Token, wrapper: Address, owed: nat, caller: Address, from: Address, to: Address,
                           value: U256)
    requires Covers(t, wrapper, owed) && TransferFrom(t, caller, from, to, value).Some?
    ensures Covers(TransferFrom(t, caller, from, to, value).value, wrapper, owed)
  {
    var left := Allowance(t, from, caller) - value;
    var granted := Allow(t, from, caller, left);
    assert from == wrapper ==> Allowance(t, wrapper, caller) == 0;
    ApproveCovers(t, wrapper, owed, from, caller, left);
    TransferKeepsSupplied(granted, from, to, value);
    TransferEffect(granted, from, to, value, wrapper);
    SameGrants(granted, Transfer(granted, from, to, value).value, wrapper);
  }

  lemma DepositCovers(t: Token, wrapper: Address, owed: nat, caller: Address, value: U256)
    requires Covers(t, wrapper, owed) && caller != wrapper && TransferFrom(t, wrapper, caller, wrapper, value).Some?
    ensures Covers(TransferFrom(t, wrapper, caller, wrapper, value).value, wrapper, owed + value)
  {
    TransferFromCovers(t, wrapper, owed, wrapper, caller, wrapper, value);
    var granted := Allow(t, caller, wrapper, Allowance(t, caller, wrapper) - value);
    TransferEffect(granted, caller, wrapper, value, wrapper);
  }

  lemma ReleaseCovers(t: Token, wrapper: Address, owed: nat, to: Address, value: U256)
    requires Covers(t, wrapper, owed) && value <= owed && Transfer(t, wrapper, to, value).Some?
    ensures Covers(Transfer(t, wrapper, to, value).value, wrapper, owed - value)
  {
    TransferKeepsSupplied(t, wrapper, to, value);
    TransferEffect(t, wrapper, to, value, wrapper);
    SameGrants(t, Transfer(t, wrapper, to, value).value, wrapper);
  }

  // ---------------------------------------------------------------- solvency of the system

  ghost predicate Solvent(s: System, wrapper: Address) {
    && s.recorded.Keys <= s.tokens.Keys
    && forall token :: token in s.tokens ==> SolventIn(s, wrapper, token)
  }

  ghost predicate SolventIn(s: System, wrapper: Address, token: Address)
    requires token in s.tokens
  {
    Covers(s.tokens[token], wrapper, Sum(BookOf(s, token)))
  }

  lemma TokenChanged(s: System, wrapper: Address, token: Address, t: Token)
    requires Solvent(s, wrapper) && Covers(t, wrapper, Sum(BookOf(s, token)))
    ensures Solvent(s.(tokens := s.tokens[token := t]), wrapper)
  {
    var after := s.(tokens := s.tokens[token := t]);
    forall other | other in after.tokens
      ensures SolventIn(after, wrapper, other)
    {
      assert BookOf(after, other) == BookOf(s, other);
      if other != token {
        assert SolventIn(s, wrapper, other);
      }
    }
  }

  lemma CreateSolvent(s: System, wrapper: Address, caller: Address, token: Address, supply: U256)
    requires Solvent(s, wrapper) && token !in s.tokens && Mint(Token(map[], map[], 0), caller, supply).Some?
    ensures Solvent(s.(tokens := s.tokens[token := Mint(Token(map[], map[], 0), caller, supply).value]), wrapper)
  {
    MintCovers(wrapper, caller, supply);
    assert BookOf(s, token) == map[];
    TokenChanged(s, wrapper, token, Mint(Token(map[], map[], 0), caller, supply).value);
  }

  lemma DepositSolvent(s: System, wrapper: Address, caller: Address, token: Address, value: U256)
    requires Solvent(s, wrapper) && caller != wrapper && Deposited(s, wrapper, caller, token, value).Some?
    ensures Solvent(Deposited(s, wrapper, caller, token, value).value, wrapper)
  {
    var t := s.tokens[token];
    assert SolventIn(s, wrapper, token);
    DepositCovers(t, wrapper, Sum(BookOf(s, token)), caller, value);
    CreditSum(BookOf(s, token), caller, value);
  }

  lemma ReleaseSolvent(s: System, wrapper: Address, caller: Address, token: Address, to: Address, value: U256)
    requires Solvent(s, wrapper) && Released(s, wrapper, caller, token, to, value).Some?
    ensures Solvent(Released(s, wrapper, caller, token, to, value).value, wrapper)
  {
    var t := s.tokens[token];
    var book: Book := BookOf(s, token);
    assert SolventIn(s, wrapper, token);
    SumBounds(book, caller);
    ReleaseCovers(t, wrapper, Sum(book), to, value);
    SumUpdate(book, caller, book[caller] - value);
  }

  lemma StepSolvent(s: System, wrapper: Address, caller: Address, call: Call)
    requires Solvent(s, wrapper) && caller != wrapper
    ensures Solvent(Step(s, wrapper, caller, call), wrapper)
  {
    if Execute(s, wrapper, caller, call).Some? {
      match call
      case Create(token, supply) => CreateSolvent(s, wrapper, caller, token, supply);
      case Deposit(token, value) => DepositSolvent(s, wrapper, caller, token, value);
      case Withdraw(token, value) => ReleaseSolvent(s, wrapper, caller, token, caller, value);
      case TransferTo(token, to, value) => ReleaseSolvent(s, wrapper, caller, token, to, value);
      case DoTransfer(token, to, value) =>
        assert SolventIn(s, wrapper, token);
        TransferCovers(s.tokens[token], wrapper, Sum(BookOf(s, token)), caller, to, value);
        TokenChanged(s, wrapper, token, Transfer(s.tokens[token], caller, to, value).value);
      case DoApprove(token, spender, value) =>
        assert SolventIn(s, wrapper, token);
        ApproveCovers(s.tokens[token], wrapper, Sum(BookOf(s, token)), caller, spender, value);
        TokenChanged(s, wrapper, token, Allow(s.tokens[token], caller, spender, value));
      case DoTransferFrom(token, from, to, value) =>
        assert SolventIn(s, wrapper, token);
        TransferFromCovers(s.tokens[token], wrapper, Sum(BookOf(s, token)), caller, from, to, value);
        TokenChanged(s, wrapper, token, TransferFrom(s.tokens[token], caller, from, to, value).value);
    }
  }

  datatype Tx = Tx(caller: Address, call: Call)

  /** Every run of transactions, successful or reverted; the wrapper itself signs none. */
  ghost predicate Run(wrapper: Address, states: seq<System>, txs: seq<Tx>) {
    && |states| == |txs| + 1
    && states[0] == System(map[], map[])
    && forall i :: 0 <= i < |txs| ==> Takes(wrapper, states[i], txs[i], states[i + 1])
  }

  ghost predicate Takes(wrapper: Address, s: System, tx: Tx, after: System) {
    tx.caller != wrapper && after == Step(s, wrapper, tx.caller, tx.call)
  }

  lemma {:induction false} AlwaysSolvent(wrapper: Address, states: seq<System>, txs: seq<Tx>, i: nat)
    requires Run(wrapper, states, txs) && i < |states|
    ensures Solvent(states[i], wrapper)
  {
    if i > 0 {
      AlwaysSolvent(wrapper, states, txs, i - 1);
      assert Takes(wrapper, states[i - 1], txs[i - 1], states[i]);
      StepSolvent(states[i - 1], wrapper, txs[i - 1].caller, txs[i - 1].call);
    }
  }

  /** In every state of every run the recorded balances of a token are covered by what the wrapper holds of it. */
  lemma WrapperNeverOwesMore(wrapper: Address, states: seq<System>, txs: seq<Tx>, i: nat, token: Address)
    requires Run(wrapper, states, txs) && i < |states| && token in states[i].tokens
    ensures Sum(BookOf(states[i], token)) <= BalanceOf(states[i].tokens[token], wrapper)
    ensures Sum(states[i].tokens[token].balances) == states[i].tokens[token].totalSupply
    ensures GrantsNothing(states[i].tokens[token], wrapper)
  {
    AlwaysSolvent(wrapper, states, txs, i);
    assert SolventIn(states[i], wrapper, token);
  }

  /** The record that decides a withdrawal: there is one, and it exceeds the value. */
  predicate RecordedMoreThan(s: System, token: Address, user: Address, value: U256) {
    token in s.recorded && user in s.recorded[token] && s.recorded[token][user] > value
  }

  /** A withdrawal or transfer out never fails for lack of tokens: it succeeds exactly when the record exceeds it. */
  lemma ReleaseNeverShort(wrapper: Address, states: seq<System>, txs: seq<Tx>, i: nat, caller: Address, token: Address,
                          to: Address, value: U256)
    requires Run(wrapper, states, txs) && i < |states|
    ensures Released(states[i], wrapper, caller, token, to, value).Some?
       <==> RecordedMoreThan(states[i], token, caller, value)
  {
    var s := states[i];
    AlwaysSolvent(wrapper, states, txs, i);
    if RecordedMoreThan(s, token, caller, value) {
      assert token in s.tokens && SolventIn(s, wrapper, token);
      SumBounds(s.recorded[token], caller);
      TransferSucceeds(s.tokens[token], wrapper, to, value);
    }
  }

  /** A user can never take out everything: what is recorded is one more than the most that can be withdrawn. */
  lemma LastUnitStays(wrapper: Address, states: seq<System>, txs: seq<Tx>, i: nat, caller: Address, token: Address,
                      value: U256)
    requires Run(wrapper, states, txs) && i < |states|
    requires token in states[i].recorded && caller in states[i].recorded[token]
    ensures value == states[i].recorded[token][caller] ==>
              Execute(states[i], wrapper, caller, Withdraw(token, value)).None?
    ensures value + 1 == states[i].recorded[token][caller] ==>
              Execute(states[i], wrapper, caller, Withdraw(token, value)).Some?
  {
    ReleaseNeverShort(wrapper, states, txs, i, caller, token, caller, value);
  }

  // ---------------------------------------------------------------- the contract

  class Wrapper {
    const address: Address
    var tokens: map<Address, Token>
    var recorded: map<Address, Book>

    function State(): System
      reads this
    {
      System(tokens, recorded)
    }

    constructor (address: Address, tokens: map<Address, Token>)
      ensures this.address == address && State() == System(tokens, map[])
    {
      this.address := address;
      this.tokens := tokens;
      this.recorded := map[];
    }

    /** Pull the tokens, then record them; a failure takes both back. */
    method DepositTokens(caller: Address, token: Address, value: U256) returns (ok: bool)
      modifies this
      ensures ok <==> old(Deposited(State(), address, caller, token, value)).Some?
      ensures State() == if ok then old(Deposited(State(), address, caller, token, value)).value else old(State())
    {
      if token !in tokens {
        return false;
      }
      var pulled := TransferFrom(tokens[token], address, caller, address, value);
      if pulled.None? {
        return false;
      }
      var committed := tokens;
      tokens := tokens[token := pulled.value];
      var held := if token in recorded && caller in recorded[token] then recorded[token][caller] else 0;
      if held + value >= LIMIT256 {
        tokens := committed;
        return false;
      }
      var book: Book := if token in recorded then recorded[token] else map[];
      recorded := recorded[token := book[caller := held + value]];
      ok := true;
    }

    /** Lower the record, then send the tokens; a failure takes both back. */
    method Release(caller: Address, token: Address, to: Address, value: U256) returns (ok: bool)
      modifies this
      ensures ok <==> old(Released(State(), address, caller, token, to, value)).Some?
      ensures State() == if ok then old(Released(State(), address, caller, token, to, value)).value else old(State())
    {
      if token !in recorded {
        return false;
      }
      if caller !in recorded[token] {
        return false;
      }
      if recorded[token][caller] <= value {
        return false;
      }
      var committed := recorded;
      var book: Book := recorded[token];
      recorded := recorded[token := book[caller := book[caller] - value]];
      if token !in tokens {
        recorded := committed;
        return false;
      }
      var sent := Transfer(tokens[token], address, to, value);
      if sent.None? {
        recorded := committed;
        return false;
      }
      tokens := tokens[token := sent.value];
      ok := true;
    }
  }
}

/** The ERC-20 token contract; an operation that throws leaves nothing behind. */
module Erc20 {
  import opened Bytes
  import opened MapSums

  type Book = map<Address, U256>

  datatype Token = Token(balances: Book, allowed: map<Address, Book>, totalSupply: U256)

  function BalanceOf(t: Token, a: Address): U256 {
    if a in t.balances then t.balances[a] else 0
  }

  function Allowance(t: Token, owner: Address, spender: Address): U256 {
    if owner in t.allowed && spender in t.allowed[owner] then t.allowed[owner][spender] else 0
  }

  function Allow(t: Token, owner: Address, spender: Address, value: U256): Token {
    var granted: Book := if owner in t.allowed then t.allowed[owner] else map[];
    t.(allowed := t.allowed[owner := granted[spender := value]])
  }

  /** Checked subtraction and addition on one balance. */
  function Debit(balances: Book, a: Address, value: U256): Option<Book> {
    var held := if a in balances then balances[a] else 0;
    if held < value then None else Some(balances[a := held - value])
  }

  function Credit(balances: Book, a: Address, value: U256): Option<Book> {
    var held := if a in balances then balances[a] else 0;
    if held + value >= LIMIT256 then None else Some(balances[a := held + value])
  }

  function Move(balances: Book, from: Address, to: Address, value: U256): Option<Book> {
    match Debit(balances, from, value)
    case None => None
    case Some(debited) => Credit(debited, to, value)
  }

  function Mint(t: Token, a: Address, value: U256): Option<Token> {
    match Credit(t.balances, a, value)
    case None => None
    case Some(balances) =>
      if t.totalSupply + value >= LIMIT256 then None
      else Some(t.(balances := balances, totalSupply := t.totalSupply + value))
  }

  function Burn(t: Token, a: Address, value: U256): Option<Token> {
    match Debit(t.balances, a, value)
    case None => None
    case Some(balances) =>
      if t.totalSupply < value then None
      else Some(t.(balances := balances, totalSupply := t.totalSupply - value))
  }

  function Transfer(t: Token, caller: Address, to: Address, value: U256): Option<Token> {
    match Move(t.balances, caller, to, value)
    case None => None
    case Some(balances) => Some(t.(balances := balances))
  }

  function TransferFrom(t: Token, caller: Address, from: Address, to: Address, value: U256): Option<Token> {
    if Allowance(t, from, caller) < value then None
    else Transfer(Allow(t, from, caller, Allowance(t, from, caller) - value), from, to, value)
  }

  // ---------------------------------------------------------------- the supply is what is held

  /** All balances together are the total supply. */
  ghost predicate Supplied(t: Token) {
    Sum(t.balances) == t.totalSupply
  }

  lemma DebitSum(balances: Book, a: Address, value: U256)
    requires Debit(balances, a, value).Some?
    ensures Sum(Debit(balances, a, value).value) == Sum(balances) - value
  {
    SumUpdate(balances, a, Get(balances, a) - value);
  }

  lemma CreditSum(balances: Book, a: Address, value: U256)
    requires Credit(balances, a, value).Some?
    ensures Sum(Credit(balances, a, value).value) == Sum(balances) + value
  {
    SumUpdate(balances, a, Get(balances, a) + value);
  }

  /** Moving keeps the sum; when the sum fits 256 bits it succeeds exactly when the sender holds enough. */
  lemma MoveSum(balances: Book, from: Address, to: Address, value: U256)
    ensures Move(balances, from, to, value).Some? ==> Sum(Move(balances, from, to, value).value) == Sum(balances)
    ensures Sum(balances) < LIMIT256 ==> (Move(balances, from, to, value).Some? <==> Get(balances, from) >= value)
  {
    if Debit(balances, from, value).Some? {
      var debited := Debit(balances, from, value).value;
      DebitSum(balances, from, value);
      SumBounds(debited, to);
      if Credit(debited, to, value).Some? {
        CreditSum(debited, to, value);
      }
    }
  }

  /** Every operation that succeeds keeps the supply equal to what is held. */
  lemma MintKeepsSupplied(t: Token, a: Address, value: U256)
    requires Supplied(t) && Mint(t, a, value).Some?
    ensures Supplied(Mint(t, a, value).value)
  {
    CreditSum(t.balances, a, value);
  }

  lemma BurnKeepsSupplied(t: Token, a: Address, value: U256)
    requires Supplied(t) && Burn(t, a, value).Some?
    ensures Supplied(Burn(t, a, value).value)
  {
    DebitSum(t.balances, a, value);
  }

  lemma TransferKeepsSupplied(t: Token, caller: Address, to: Address, value: U256)
    requires Supplied(t) && Transfer(t, caller, to, value).Some?
    ensures Supplied(Transfer(t, caller, to, value).value)
  {
    MoveSum(t.balances, caller, to, value);
  }

  /** A transfer out of a supplied token succeeds exactly when the balance suffices. */
  lemma TransferSucceeds(t: Token, caller: Address, to: Address, value: U256)
    requires Supplied(t)
    ensures Transfer(t, caller, to, value).Some? <==> BalanceOf(t, caller) >= value
  {
    MoveSum(t.balances, caller, to, value);
  }

  /** Only the sender loses. */
  lemma TransferEffect(t: Token, caller: Address, to: Address, value: U256, a: Address)
    requires Transfer(t, caller, to, value).Some?
    ensures var after := Transfer(t, caller, to, value).value;
            && after.allowed == t.allowed && after.totalSupply == t.totalSupply
            && BalanceOf(after, a)
            == BalanceOf(t, a) - (if a == caller then value else 0) + (if a == to then value else 0)
  {
  }

  /** A mint raises one balance and the supply by the value; nothing else changes. */
  lemma MintEffect(t: Token, a: Address, value: U256, b: Address)
    requires Mint(t, a, value).Some?
    ensures var after := Mint(t, a, value).value;
            && after.allowed == t.allowed && after.totalSupply == t.totalSupply + value
            && BalanceOf(after, b) == BalanceOf(t, b) + if b == a then value else 0
  {
  }

  lemma BurnEffect(t: Token, a: Address, value: U256, b: Address)
    requires Burn(t, a, value).Some?
    ensures var after := Burn(t, a, value).value;
            && after.allowed == t.allowed && after.totalSupply == t.totalSupply - value
            && BalanceOf(after, b) == BalanceOf(t, b) - if b == a then value else 0
  {
  }

  lemma AllowEffect(t: Token, owner: Address, spender: Address, value: U256, o: Address, s: Address)
    ensures Allowance(Allow(t, owner, spender, value), o, s)
         == if o == owner && s == spender then value else Allowance(t, o, s)
    ensures Allow(t, owner, spender, value).balances == t.balances
    ensures Allow(t, owner, spender, value).totalSupply == t.totalSupply
  {
  }

  /** Spending an allowance out of a supplied token succeeds exactly when allowance and balance both suffice. */
  lemma TransferFromSucceeds(t: Token, caller: Address, from: Address, to: Address, value: U256)
    requires Supplied(t)
    ensures TransferFrom(t, caller, from, to, value).Some?
       <==> Allowance(t, from, caller) >= value && BalanceOf(t, from) >= value
  {
    hide Allowance, Sum;
    if Allowance(t, from, caller) >= value {
      var granted := Allow(t, from, caller, Allowance(t, from, caller) - value);
      TransferSucceeds(granted, from, to, value);
    }
  }

  /** It lowers that one allowance by the value, and moves the tokens from the owner to the receiver. */
  lemma TransferFromEffect(t: Token, caller: Address, from: Address, to: Address, value: U256, a: Address, o: Address,
                           s: Address)
    requires TransferFrom(t, caller, from, to, value).Some?
    ensures var after := TransferFrom(t, caller, from, to, value).value;
            && Allowance(after, o, s) == Allowance(t, o, s) - (if o == from && s == caller then value else 0)
            && after.totalSupply == t.totalSupply
            && BalanceOf(after, a)
            == BalanceOf(t, a) - (if a == from then value else 0) + (if a == to then value else 0)
  {
    hide Transfer;
    var left := Allowance(t, from, caller) - value;
    var granted := Allow(t, from, caller, left);
    AllowEffect(t, from, caller, left, o, s);
    TransferEffect(granted, from, to, value, a);
  }

  // ---------------------------------------------------------------- whole runs of a token

  datatype Action =
    | DoTransfer(caller: Address, to: Address, value: U256)
    | DoApprove(caller: Address, spender: Address, value: U256)
    | DoTransferFrom(caller: Address, from: Address, to: Address, value: U256)

  function Attempted(t: Token, action: Action): Option<Token> {
    match action
    case DoTransfer(caller, to, value) => Transfer(t, caller, to, value)
    case DoApprove(caller, spender, value) => Some(Allow(t, caller, spender, value))
    case DoTransferFrom(caller, from, to, value) => TransferFrom(t, caller, from, to, value)
  }

  /** A call that throws leaves the token as it was. */
  function After(t: Token, actions: seq<Action>): Token
    decreases |actions|
  {
    if actions == [] then t
    else
      var before := After(t, actions[..|actions| - 1]);
      var r := Attempted(before, actions[|actions| - 1]);
      if r.None? then before else r.value
  }

  /** What `spender` has taken out of `owner`'s tokens by its allowance. */
  function Taken(t: Token, actions: seq<Action>, owner: Address, spender: Address): nat
    decreases |actions|
  {
    if actions == [] then 0
    else
      var earlier, last := actions[..|actions| - 1], actions[|actions| - 1];
      Taken(t, earlier, owner, spender)
      + if last.DoTransferFrom? && last.caller == spender && last.from == owner
           && Attempted(After(t, earlier), last).Some?
        then last.value else 0
  }

  predicate Approves(action: Action, owner: Address, spender: Address) {
    action.DoApprove? && action.caller == owner && action.spender == spender
  }

  /**
   * Without a new approval, what is left of an allowance and what was taken by it add up to what was approved,
   * whatever else happens to the token.
   */
  lemma {:induction false} SpentWithinApproval(t: Token, actions: seq<Action>, owner: Address, spender: Address)
    requires forall i :: 0 <= i < |actions| ==> !Approves(actions[i], owner, spender)
    ensures Taken(t, actions, owner, spender) + Allowance(After(t, actions), owner, spender)
         == Allowance(t, owner, spender)
    decreases |actions|
  {
    if actions != [] {
      var earlier, last := actions[..|actions| - 1], actions[|actions| - 1];
      SpentWithinApproval(t, earlier, owner, spender);
      var before := After(t, earlier);
      hide Allowance, TransferFrom, Transfer, Allow;
      if Attempted(before, last).Some? {
        match last
        case DoTransfer(caller, to, value) => SameAllowances(before, caller, to, value, owner, spender);
        case DoApprove(caller, other, value) => AllowEffect(before, caller, other, value, owner, spender);
        case DoTransferFrom(caller, from, to, value) =>
          TransferFromEffect(before, caller, from, to, value, owner, owner, spender);
      }
    }
  }

  lemma SameAllowances(t: Token, caller: Address, to: Address, value: U256, o: Address, s: Address)
    requires Transfer(t, caller, to, value).Some?
    ensures Allowance(Transfer(t, caller, to, value).value, o, s) == Allowance(t, o, s)
  {
  }

  // ---------------------------------------------------------------- the contract

  class ERC20 {
    var balances: Book
    var allowed: map<Address, Book>
    var totalSupply: U256

    function State(): Token
      reads this
    {
      Token(balances, allowed, totalSupply)
    }

    /** Create the token and give the whole supply to its creator. */
    constructor (creator: Address, supply: U256)
      ensures Some(State()) == Mint(Token(map[], map[], 0), creator, supply)
      ensures Supplied(State())
    {
      balances := map[creator := supply];
      allowed := map[];
      totalSupply := supply;
      new;
      MintKeepsSupplied(Token(map[], map[], 0), creator, supply);
    }

    /** Debit, then credit; a failed credit takes the debit back. */
    method TransferTo(caller: Address, to: Address, value: U256) returns (ok: bool)
      modifies this`balances
      ensures ok <==> old(Transfer(State(), caller, to, value)).Some?
      ensures State() == if ok then old(Transfer(State(), caller, to, value)).value else old(State())
    {
      var committed := balances;
      ok := MoveBalance(caller, to, value);
      if !ok {
        balances := committed;
      }
    }

    method MoveBalance(from: Address, to: Address, value: U256) returns (ok: bool)
      modifies this`balances
      ensures ok <==> Move(old(balances), from, to, value).Some?
      ensures ok ==> balances == Move(old(balances), from, to, value).value
    {
      var held := BalanceOf(State(), from);
      if held < value {
        return false;
      }
      balances := balances[from := held - value];
      var received := BalanceOf(State(), to);
      if received + value >= LIMIT256 {
        return false;
      }
      balances := balances[to := received + value];
      ok := true;
    }

    method Approve(caller: Address, spender: Address, value: U256)
      modifies this`allowed
      ensures State() == old(Allow(State(), caller, spender, value))
    {
      allowed := Allow(State(), caller, spender, value).allowed;
    }

    method TransferAllowed(caller: Address, from: Address, to: Address, value: U256) returns (ok: bool)
      modifies this`balances, this`allowed
      ensures ok <==> old(TransferFrom(State(), caller, from, to, value)).Some?
      ensures State() == if ok then old(TransferFrom(State(), caller, from, to, value)).value else old(State())
    {
      var committed, granted := balances, allowed;
      var left := Allowance(State(), from, caller);
      if left < value {
        return false;
      }
      allowed := Allow(State(), from, caller, left - value).allowed;
      ok := MoveBalance(from, to, value);
      if !ok {
        balances, allowed := committed, granted;
      }
    }
  }
}

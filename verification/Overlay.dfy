/** The overlay of native balances a contract call works on before it is committed. */
module Overlay {
  import opened Bytes
  import opened Accounts

  type Balances = map<Address, U256>

  datatype Send = Send(from: Address, to: Address, amount: U256)

  /** Bring an account's balance into the overlay, unless it is there already. */
  function Populate(accounts: Accounts, overlay: Balances, a: Address): Balances {
    if a in overlay then overlay else overlay[a := Balance(accounts, a)]
  }

  /** What a contract sees as the balance of an account. */
  function View(accounts: Accounts, overlay: Balances, a: Address): U256 {
    if a in overlay then overlay[a] else Balance(accounts, a)
  }

  /** Moving tokens inside the overlay; it is the receiver's balance that is compared with the amount. */
  function SendTokens(accounts: Accounts, overlay: Balances, send: Send): Option<Balances> {
    var ready: Balances := Populate(accounts, Populate(accounts, overlay, send.from), send.to);
    if ready[send.to] < send.amount then None
    else if ready[send.from] < send.amount then None
    else
      var debited: Balances := ready[send.from := ready[send.from] - send.amount];
      if debited[send.to] + send.amount >= LIMIT256 then None
      else Some(debited[send.to := debited[send.to] + send.amount])
  }

  function SendAll(accounts: Accounts, overlay: Balances, sends: seq<Send>): Option<Balances>
    decreases |sends|
  {
    if sends == [] then Some(overlay)
    else
      match SendTokens(accounts, overlay, sends[0])
      case None => None
      case Some(after) => SendAll(accounts, after, sends[1..])
  }

  /** The same transfer applied to the accounts themselves. */
  function Direct(accounts: Accounts, send: Send): Option<Accounts> {
    if Balance(accounts, send.from) < send.amount then None
    else Credit(SetBalance(accounts, send.from, Balance(accounts, send.from) - send.amount), send.to, send.amount)
  }

  function DirectAll(accounts: Accounts, sends: seq<Send>): Option<Accounts>
    decreases |sends|
  {
    if sends == [] then Some(accounts)
    else
      match Direct(accounts, sends[0])
      case None => None
      case Some(after) => DirectAll(after, sends[1..])
  }

  lemma CommitView(accounts: Accounts, overlay: Balances, a: Address)
    ensures Balance(Commit(accounts, overlay), a) == View(accounts, overlay, a)
    ensures Nonce(Commit(accounts, overlay), a) == Nonce(accounts, a)
  {
  }

  lemma CommitSet(accounts: Accounts, overlay: Balances, a: Address, balance: U256)
    ensures Commit(accounts, overlay[a := balance]) == SetBalance(Commit(accounts, overlay), a, balance)
  {
    CommitView(accounts, overlay, a);
  }

  lemma SetOverPopulated(accounts: Accounts, overlay: Balances, a: Address, balance: U256)
    ensures SetBalance(Commit(accounts, Populate(accounts, overlay, a)), a, balance)
         == SetBalance(Commit(accounts, overlay), a, balance)
  {
    if a !in overlay {
      CommitSet(accounts, overlay, a, Balance(accounts, a));
    }
  }

  lemma SetTwice(accounts: Accounts, a: Address, b: Address, x: U256, y: U256, z: U256)
    requires a != b
    ensures SetBalance(SetBalance(accounts, b, z), a, x) == SetBalance(SetBalance(accounts, a, x), b, z)
    ensures SetBalance(SetBalance(accounts, b, z), b, y) == SetBalance(accounts, b, y)
  {
  }

  /** What the overlay stands for after a transfer. */
  lemma SendShape(accounts: Accounts, overlay: Balances, send: Send)
    requires SendTokens(accounts, overlay, send).Some?
    ensures var c, left := Commit(accounts, overlay), View(accounts, overlay, send.from) - send.amount;
            var base := if send.from == send.to then left else View(accounts, overlay, send.to);
            var received := base + send.amount;
            && received < LIMIT256
            && Commit(accounts, SendTokens(accounts, overlay, send).value)
            == SetBalance(SetBalance(c, send.from, left), send.to, received)
  {
    hide Commit, SetBalance;
    var first := Populate(accounts, overlay, send.from);
    var ready := Populate(accounts, first, send.to);
    var left := View(accounts, overlay, send.from) - send.amount;
    var debited := ready[send.from := left];
    var received := debited[send.to] + send.amount;
    CommitSet(accounts, ready, send.from, left);
    CommitSet(accounts, debited, send.to, received);
    SetOverPopulated(accounts, overlay, send.from, left);
    if send.from == send.to {
      assert ready == first;
    } else {
      SetOverReady(accounts, first, send.from, send.to, left, received);
    }
  }

  /** Bringing in the receiver first makes no difference once both are set. */
  lemma SetOverReady(accounts: Accounts, first: Balances, a: Address, b: Address, x: U256, y: U256)
    requires a != b
    ensures SetBalance(SetBalance(Commit(accounts, Populate(accounts, first, b)), a, x), b, y)
         == SetBalance(SetBalance(Commit(accounts, first), a, x), b, y)
  {
    if b !in first {
      CommitSet(accounts, first, b, Balance(accounts, b));
      SetTwice(Commit(accounts, first), a, b, x, y, Balance(accounts, b));
      SetTwice(SetBalance(Commit(accounts, first), a, x), a, b, x, y, Balance(accounts, b));
    }
  }

  /** One transfer in the overlay is one transfer on what the overlay stands for. */
  lemma SendIsDirect(accounts: Accounts, overlay: Balances, send: Send)
    requires SendTokens(accounts, overlay, send).Some?
    ensures Direct(Commit(accounts, overlay), send) == Some(Commit(accounts, SendTokens(accounts, overlay, send).value))
  {
    hide Commit, View;
    SendShape(accounts, overlay, send);
    CommitView(accounts, overlay, send.from);
    CommitView(accounts, overlay, send.to);
    SendSucceeds(accounts, overlay, send);
  }

  lemma DirectConserves(accounts: Accounts, send: Send)
    requires Direct(accounts, send).Some?
    ensures Total(Direct(accounts, send).value) == Total(accounts)
  {
    var left := Balance(accounts, send.from) - send.amount;
    var debited := SetBalance(accounts, send.from, left);
    TotalSet(accounts, send.from, left);
    TotalSet(debited, send.to, Balance(debited, send.to) + send.amount);
  }

  /** Committing the overlay after any transfers is applying them to the accounts, and conserves the total. */
  lemma {:induction false} SendAllIsDirectAll(accounts: Accounts, overlay: Balances, sends: seq<Send>)
    requires SendAll(accounts, overlay, sends).Some?
    ensures DirectAll(Commit(accounts, overlay), sends)
         == Some(Commit(accounts, SendAll(accounts, overlay, sends).value))
    ensures Total(Commit(accounts, SendAll(accounts, overlay, sends).value)) == Total(Commit(accounts, overlay))
    decreases |sends|
  {
    if sends != [] {
      var after := SendTokens(accounts, overlay, sends[0]).value;
      SendIsDirect(accounts, overlay, sends[0]);
      DirectConserves(Commit(accounts, overlay), sends[0]);
      SendAllIsDirectAll(accounts, after, sends[1..]);
    }
  }

  lemma CommitEqualsDirect(accounts: Accounts, sends: seq<Send>)
    requires SendAll(accounts, map[], sends).Some?
    ensures DirectAll(accounts, sends) == Some(Commit(accounts, SendAll(accounts, map[], sends).value))
    ensures Total(Commit(accounts, SendAll(accounts, map[], sends).value)) == Total(accounts)
  {
    assert Commit(accounts, map[]) == accounts;
    SendAllIsDirectAll(accounts, map[], sends);
  }

  /**
   * Exactly when tokens can be sent: the sender must hold the amount, and so must the receiver, whose balance is
   * the one the code compares.
   */
  lemma SendSucceeds(accounts: Accounts, overlay: Balances, send: Send)
    ensures SendTokens(accounts, overlay, send).Some? <==>
              && View(accounts, overlay, send.from) >= send.amount
              && View(accounts, overlay, send.to) >= send.amount
              && (send.from == send.to || View(accounts, overlay, send.to) + send.amount < LIMIT256)
  {
  }

  /** A receiver without funds cannot be paid, however much the sender holds. */
  lemma PoorReceiverIsRefused(accounts: Accounts, from: Address, to: Address, amount: U256)
    requires from != to && amount > 0 && to !in accounts && Balance(accounts, from) >= amount
    ensures SendTokens(accounts, map[], Send(from, to, amount)).None? && Direct(accounts, Send(from, to, amount)).Some?
  {
  }

  // ---------------------------------------------------------------- the manager

  class ContractManager {
    var balances: Balances

    constructor ()
      ensures balances == map[]
    {
      balances := map[];
    }

    method PopulateBalance(accounts: Accounts, a: Address)
      modifies this
      ensures balances == Populate(accounts, old(balances), a)
    {
      if a !in balances {
        if a in accounts {
          balances := balances[a := accounts[a].balance];
        } else {
          balances := balances[a := 0];
        }
      }
    }

    /** Move tokens in the overlay; after a failure the overlay is thrown away. */
    method SendTokensFrom(accounts: Accounts, send: Send) returns (ok: bool)
      modifies this
      ensures ok <==> SendTokens(accounts, old(balances), send).Some?
      ensures ok ==> balances == SendTokens(accounts, old(balances), send).value
    {
      PopulateBalance(accounts, send.from);
      PopulateBalance(accounts, send.to);
      if balances[send.to] < send.amount {
        return false;
      }
      if balances[send.from] < send.amount {
        return false;
      }
      balances := balances[send.from := balances[send.from] - send.amount];
      if balances[send.to] + send.amount >= LIMIT256 {
        return false;
      }
      balances := balances[send.to := balances[send.to] + send.amount];
      ok := true;
    }
  }
}

/** A multi-signature wallet: a fixed list of owners, a confirmation threshold,
    an append-only list of transactions and the relation saying which owner has
    confirmed which transaction. Every mutating call either succeeds with the
    new wallet or reverts with an error; a reverted call changes nothing.

    Value is one unit (no ether scaling). The wallet's own balance is `funds`;
    `balances` holds the balances of the other accounts on the chain, which
    only an executed transaction changes. */
module MultiSigWallet {
  import opened Results

  type Address = nat
  type Byte = bv8

  /** One proposed transfer; `data` is an opaque payload. */
  datatype Transaction = Transaction(
    to: Address,
    value: nat,
    data: seq<Byte>,
    executed: bool,
    numConfirmations: nat)

  /** Why a call reverted. */
  datatype Error =
    | InvalidConfiguration
    | Unauthorized
    | NotFound
    | AlreadyExecuted
    | AlreadyConfirmed
    | NotConfirmed
    | InsufficientConfirmations
    | ExecutionFailed
    | CounterUnderflow

  datatype Wallet = Wallet(
    owners: seq<Address>,
    numConfirmationsRequired: nat,
    transactions: seq<Transaction>,
    confirmed: set<(nat, Address)>,
    funds: nat,
    balances: map<Address, nat>)

  predicate Distinct(xs: seq<Address>) {
    forall i, j :: 0 <= i < j < |xs| ==> xs[i] != xs[j]
  }

  /** The constructor's acceptance rule for an owner list and a threshold. */
  predicate ValidConfiguration(owners: seq<Address>, required: nat) {
    |owners| > 0 && Distinct(owners) && 1 <= required <= |owners|
  }

  // ----- Queries -----

  /** `owners(i)`: the i-th owner, in constructor order; an index past the
      end of the list reverts. */
  function Owner(w: Wallet, i: nat): (r: Result<Address, Error>)
    ensures r.Ok? <==> i < |w.owners|
    ensures r.Err? ==> r.error == NotFound
    ensures r.Ok? ==> r.value == w.owners[i]
  {
    if i < |w.owners| then Ok(w.owners[i]) else Err(NotFound)
  }

  /** `isOwner(a)`: `a` is one of the addresses `owners(i)` returns. */
  predicate IsOwner(w: Wallet, a: Address): (b: bool)
    ensures b <==> exists i: nat :: Owner(w, i) == Ok(a)
  {
    assert a in w.owners ==> Owner(w, Index(w.owners, a)) == Ok(a);
    a in w.owners
  }

  /** The position of `a` in `xs`. */
  function Index(xs: seq<Address>, a: Address): (i: nat)
    requires a in xs
    ensures i < |xs| && xs[i] == a
  {
    if xs[0] == a then 0 else 1 + Index(xs[1..], a)
  }

  /** `transactions(i)`, indexed from 0; an id that was never assigned
      reverts. */
  function GetTransaction(w: Wallet, id: nat): (r: Result<Transaction, Error>)
    ensures r.Ok? <==> id < TxCount(w)
    ensures r.Err? ==> r.error == NotFound
    ensures r.Ok? ==> r.value == w.transactions[id]
  {
    if id < |w.transactions| then Ok(w.transactions[id]) else Err(NotFound)
  }

  function TxCount(w: Wallet): nat {
    |w.transactions|
  }

  /** `isConfirmed(id, owner)`: a lookup that defaults to false. */
  predicate IsConfirmed(w: Wallet, id: nat, o: Address) {
    (id, o) in w.confirmed
  }

  /** Balance of an account other than the wallet; absent accounts hold 0. */
  function BalanceOf(w: Wallet, a: Address): nat {
    if a in w.balances then w.balances[a] else 0
  }

  /** The owners who have confirmed transaction `id`. */
  function Confirmers(w: Wallet, id: nat): set<Address> {
    set o | o in w.owners && IsConfirmed(w, id, o)
  }

  /** The wallet invariant: a valid configuration, confirmations only by owners
      on existing transactions, and every cached `numConfirmations` equal to
      the number of owners who confirmed that transaction. */
  ghost predicate Valid(w: Wallet) {
    && ValidConfiguration(w.owners, w.numConfirmationsRequired)
    && (forall id: nat, o: Address :: IsConfirmed(w, id, o) ==> id < |w.transactions| && o in w.owners)
    && (forall id :: 0 <= id < |w.transactions| ==>
          w.transactions[id].numConfirmations == |Confirmers(w, id)|)
  }

  /** Owners and threshold are fixed after construction. */
  predicate SameRegistry(w: Wallet, w': Wallet) {
    w'.owners == w.owners && w'.numConfirmationsRequired == w.numConfirmationsRequired
  }

  /** Transaction `id` keeps its target, value and payload. */
  predicate SameProposal(t: Transaction, t': Transaction) {
    t'.to == t.to && t'.value == t.value && t'.data == t.data
  }

  // ----- Operations -----

  /** Deployment with an owner list and a threshold; `chain` holds the balances
      the other accounts have at deployment. */
  function Construct(owners: seq<Address>, required: nat, chain: map<Address, nat>): (r: Result<Wallet, Error>)
    ensures r.Ok? <==> ValidConfiguration(owners, required)
    ensures r.Err? ==> r.error == InvalidConfiguration
    ensures r.Ok? ==> Valid(r.value)
    ensures r.Ok? ==> forall i :: 0 <= i < |owners| ==> Owner(r.value, i) == Ok(owners[i])
    ensures r.Ok? ==> forall i :: 0 <= i < |owners| ==> IsOwner(r.value, owners[i])
    ensures r.Ok? ==> forall a :: IsOwner(r.value, a) ==> a in owners
    ensures r.Ok? ==> r.value.numConfirmationsRequired == required
    ensures r.Ok? ==> TxCount(r.value) == 0 && r.value.funds == 0
    ensures r.Ok? ==> forall a :: BalanceOf(r.value, a) == (if a in chain then chain[a] else 0)
  {
    if !ValidConfiguration(owners, required) then Err(InvalidConfiguration)
    else Ok(Wallet(owners, required, [], {}, 0, chain))
  }

  /** The payable fallback: anyone may send value to the wallet. */
  function Deposit(w: Wallet, value: nat): (r: Wallet)
    ensures r.funds == w.funds + value
    ensures SameRegistry(w, r) && r.transactions == w.transactions
    ensures forall id: nat, o: Address :: IsConfirmed(r, id, o) == IsConfirmed(w, id, o)
    ensures forall a :: BalanceOf(r, a) == BalanceOf(w, a)
  {
    w.(funds := w.funds + value)
  }

  /** `submitTransaction(to, value, data)` by `caller`. */
  function Submit(w: Wallet, caller: Address, to: Address, value: nat, data: seq<Byte>): (r: Result<Wallet, Error>)
    ensures r.Ok? <==> IsOwner(w, caller)
    ensures r.Err? ==> r.error == Unauthorized
    ensures r.Ok? ==> TxCount(r.value) == TxCount(w) + 1
    ensures r.Ok? ==> GetTransaction(r.value, TxCount(w)) == Ok(Transaction(to, value, data, false, 0))
    ensures r.Ok? ==> forall id :: 0 <= id < TxCount(w) ==> GetTransaction(r.value, id) == GetTransaction(w, id)
    ensures r.Ok? ==> SameRegistry(w, r.value) && r.value.funds == w.funds && r.value.balances == w.balances
    ensures r.Ok? ==> forall id: nat, o: Address :: IsConfirmed(r.value, id, o) == IsConfirmed(w, id, o)
  {
    if !IsOwner(w, caller) then Err(Unauthorized)
    else Ok(w.(transactions := w.transactions + [Transaction(to, value, data, false, 0)]))
  }

  /** `confirmTransaction(id)` by `caller`. Checks, first failure wins: the
      transaction exists, the caller is an owner, it is not executed, the
      caller has not confirmed it yet. */
  function Confirm(w: Wallet, caller: Address, id: nat): (r: Result<Wallet, Error>)
    ensures r.Ok? <==>
      id < TxCount(w) && IsOwner(w, caller) && !w.transactions[id].executed && !IsConfirmed(w, id, caller)
    ensures id >= TxCount(w) ==> r == Err(NotFound)
    ensures id < TxCount(w) && !IsOwner(w, caller) ==> r == Err(Unauthorized)
    ensures id < TxCount(w) && IsOwner(w, caller) && w.transactions[id].executed ==> r == Err(AlreadyExecuted)
    ensures id < TxCount(w) && IsOwner(w, caller) && !w.transactions[id].executed && IsConfirmed(w, id, caller)
      ==> r == Err(AlreadyConfirmed)
    ensures r.Ok? ==> TxCount(r.value) == TxCount(w)
    ensures r.Ok? ==> r.value.transactions[id].numConfirmations == w.transactions[id].numConfirmations + 1
    ensures r.Ok? ==> SameProposal(w.transactions[id], r.value.transactions[id]) && !r.value.transactions[id].executed
    ensures r.Ok? ==> IsConfirmed(r.value, id, caller)
    ensures r.Ok? ==> forall j: nat, o: Address :: (j, o) != (id, caller) ==> IsConfirmed(r.value, j, o) == IsConfirmed(w, j, o)
    ensures r.Ok? ==> forall j :: 0 <= j < TxCount(w) && j != id ==> r.value.transactions[j] == w.transactions[j]
    ensures r.Ok? ==> SameRegistry(w, r.value) && r.value.funds == w.funds && r.value.balances == w.balances
  {
    if id >= |w.transactions| then Err(NotFound)
    else if !IsOwner(w, caller) then Err(Unauthorized)
    else if w.transactions[id].executed then Err(AlreadyExecuted)
    else if IsConfirmed(w, id, caller) then Err(AlreadyConfirmed)
    else
      var t := w.transactions[id];
      Ok(w.(transactions := w.transactions[id := t.(numConfirmations := t.numConfirmations + 1)],
            confirmed := w.confirmed + {(id, caller)}))
  }

  /** `executeTransaction(id)` by `caller`. `accepts` is the outcome of the
      external call at the target; the transfer also fails when the wallet
      holds less than the value. A failed transfer reverts the whole call, so
      the executed flag set before the transfer is rolled back. */
  function Execute(w: Wallet, caller: Address, id: nat, accepts: bool): (r: Result<Wallet, Error>)
    ensures r.Ok? <==>
      && id < TxCount(w) && IsOwner(w, caller) && !w.transactions[id].executed
      && w.transactions[id].numConfirmations >= w.numConfirmationsRequired
      && w.transactions[id].value <= w.funds && accepts
    ensures id >= TxCount(w) ==> r == Err(NotFound)
    ensures id < TxCount(w) && !IsOwner(w, caller) ==> r == Err(Unauthorized)
    ensures id < TxCount(w) && IsOwner(w, caller) && w.transactions[id].executed ==> r == Err(AlreadyExecuted)
    ensures (id < TxCount(w) && IsOwner(w, caller) && !w.transactions[id].executed
             && w.transactions[id].numConfirmations < w.numConfirmationsRequired)
      ==> r == Err(InsufficientConfirmations)
    ensures (id < TxCount(w) && IsOwner(w, caller) && !w.transactions[id].executed
             && w.transactions[id].numConfirmations >= w.numConfirmationsRequired
             && (w.transactions[id].value > w.funds || !accepts))
      ==> r == Err(ExecutionFailed)
    ensures r.Ok? ==> TxCount(r.value) == TxCount(w) && r.value.transactions[id].executed
    ensures r.Ok? ==> SameProposal(w.transactions[id], r.value.transactions[id])
    ensures r.Ok? ==> r.value.transactions[id].numConfirmations == w.transactions[id].numConfirmations
    ensures r.Ok? ==> forall j :: 0 <= j < TxCount(w) && j != id ==> r.value.transactions[j] == w.transactions[j]
    ensures r.Ok? ==> r.value.funds + w.transactions[id].value == w.funds
    ensures r.Ok? ==> BalanceOf(r.value, w.transactions[id].to) == BalanceOf(w, w.transactions[id].to) + w.transactions[id].value
    ensures r.Ok? ==> forall a :: a != w.transactions[id].to ==> BalanceOf(r.value, a) == BalanceOf(w, a)
    ensures r.Ok? ==> SameRegistry(w, r.value) && r.value.confirmed == w.confirmed
  {
    if id >= |w.transactions| then Err(NotFound)
    else if !IsOwner(w, caller) then Err(Unauthorized)
    else
      var t := w.transactions[id];
      if t.executed then Err(AlreadyExecuted)
      else if t.numConfirmations < w.numConfirmationsRequired then Err(InsufficientConfirmations)
      else if t.value > w.funds || !accepts then Err(ExecutionFailed)
      else
        Ok(w.(transactions := w.transactions[id := t.(executed := true)],
              funds := w.funds - t.value,
              balances := w.balances[t.to := BalanceOf(w, t.to) + t.value]))
  }

  /** `revokeTransaction(id)` by `caller`. Checks, first failure wins: the
      transaction exists, it is not executed, the caller has confirmed it.
      The decrement is checked arithmetic and reverts at zero. */
  function Revoke(w: Wallet, caller: Address, id: nat): (r: Result<Wallet, Error>)
    ensures r.Ok? <==>
      && id < TxCount(w) && !w.transactions[id].executed && IsConfirmed(w, id, caller)
      && w.transactions[id].numConfirmations > 0
    ensures id >= TxCount(w) ==> r == Err(NotFound)
    ensures id < TxCount(w) && w.transactions[id].executed ==> r == Err(AlreadyExecuted)
    ensures id < TxCount(w) && !w.transactions[id].executed && !IsConfirmed(w, id, caller) ==> r == Err(NotConfirmed)
    ensures r.Ok? ==> TxCount(r.value) == TxCount(w)
    ensures r.Ok? ==> r.value.transactions[id].numConfirmations + 1 == w.transactions[id].numConfirmations
    ensures r.Ok? ==> SameProposal(w.transactions[id], r.value.transactions[id]) && !r.value.transactions[id].executed
    ensures r.Ok? ==> !IsConfirmed(r.value, id, caller)
    ensures r.Ok? ==> forall j: nat, o: Address :: (j, o) != (id, caller) ==> IsConfirmed(r.value, j, o) == IsConfirmed(w, j, o)
    ensures r.Ok? ==> forall j :: 0 <= j < TxCount(w) && j != id ==> r.value.transactions[j] == w.transactions[j]
    ensures r.Ok? ==> SameRegistry(w, r.value) && r.value.funds == w.funds && r.value.balances == w.balances
  {
    if id >= |w.transactions| then Err(NotFound)
    else if w.transactions[id].executed then Err(AlreadyExecuted)
    else if !IsConfirmed(w, id, caller) then Err(NotConfirmed)
    else
      var t := w.transactions[id];
      if t.numConfirmations == 0 then Err(CounterUnderflow)
      else
        Ok(w.(transactions := w.transactions[id := t.(numConfirmations := t.numConfirmations - 1)],
              confirmed := w.confirmed - {(id, caller)}))
  }
}

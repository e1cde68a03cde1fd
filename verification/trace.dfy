/** Runs of wallet calls. A reverted call leaves the wallet as it was, so a run
    is a fold of `Apply` over a sequence of calls. Over any run the invariant
    holds, transactions are never removed nor their proposals changed, the
    executed flag never goes back to false, and each transaction's transfer
    happens at most once. */
module WalletTrace {
  import opened Results
  import opened MultiSigWallet
  import opened WalletInvariant

  /** One call to the wallet, with its caller. */
  datatype Call =
    | DepositCall(amount: nat)
    | SubmitCall(caller: Address, to: Address, value: nat, data: seq<Byte>)
    | ConfirmCall(caller: Address, id: nat)
    | RevokeCall(caller: Address, id: nat)
    | ExecuteCall(caller: Address, id: nat, accepts: bool)

  function Step(w: Wallet, c: Call): Result<Wallet, Error> {
    match c
    case DepositCall(amount) => Ok(Deposit(w, amount))
    case SubmitCall(caller, to, value, data) => Submit(w, caller, to, value, data)
    case ConfirmCall(caller, id) => Confirm(w, caller, id)
    case RevokeCall(caller, id) => Revoke(w, caller, id)
    case ExecuteCall(caller, id, accepts) => Execute(w, caller, id, accepts)
  }

  /** The wallet after a call: the new state, or the old one if it reverted. */
  function Apply(w: Wallet, c: Call): Wallet {
    var r := Step(w, c);
    if r.Ok? then r.value else w
  }

  function Run(w: Wallet, calls: seq<Call>): Wallet
    decreases |calls|
  {
    if |calls| == 0 then w else Run(Apply(w, calls[0]), calls[1..])
  }

  /** The number of calls in the run that transferred the value of
      transaction `id`, i.e. successful executes of it. */
  function Transfers(w: Wallet, calls: seq<Call>, id: nat): nat
    decreases |calls|
  {
    if |calls| == 0 then 0
    else
      var here := if calls[0].ExecuteCall? && calls[0].id == id && Step(w, calls[0]).Ok? then 1 else 0;
      here + Transfers(Apply(w, calls[0]), calls[1..], id)
  }

  /** Transaction `id` of `w` survives into `w'` with the same proposal, and
      is executed in `w'` if it was in `w`. */
  predicate Keeps(w: Wallet, w': Wallet, id: nat) {
    id < TxCount(w) ==>
      && id < TxCount(w')
      && SameProposal(w.transactions[id], w'.transactions[id])
      && (w.transactions[id].executed ==> w'.transactions[id].executed)
  }

  lemma ApplyPreservesValid(w: Wallet, c: Call)
    requires Valid(w)
    ensures Valid(Apply(w, c))
  {
    if Step(w, c).Ok? {
      match c
      case DepositCall(amount) => DepositPreservesValid(w, amount);
      case SubmitCall(caller, to, value, data) => SubmitPreservesValid(w, caller, to, value, data);
      case ConfirmCall(caller, id) => ConfirmPreservesValid(w, caller, id);
      case RevokeCall(caller, id) => RevokePreservesValid(w, caller, id);
      case ExecuteCall(caller, id, accepts) => ExecutePreservesValid(w, caller, id, accepts);
    }
  }

  lemma {:induction false} RunPreservesValid(w: Wallet, calls: seq<Call>)
    requires Valid(w)
    ensures Valid(Run(w, calls))
    decreases |calls|
  {
    if |calls| > 0 {
      ApplyPreservesValid(w, calls[0]);
      RunPreservesValid(Apply(w, calls[0]), calls[1..]);
    }
  }

  lemma ApplyKeeps(w: Wallet, c: Call, id: nat)
    ensures Keeps(w, Apply(w, c), id)
    ensures SameRegistry(w, Apply(w, c))
  {
  }

  /** The ledger is append-only: over any run, existing transactions stay, keep
      their proposal, and once executed stay executed; owners and threshold
      never change. */
  lemma {:induction false} RunKeeps(w: Wallet, calls: seq<Call>, id: nat)
    ensures Keeps(w, Run(w, calls), id)
    ensures SameRegistry(w, Run(w, calls))
    decreases |calls|
  {
    if |calls| > 0 {
      ApplyKeeps(w, calls[0], id);
      RunKeeps(Apply(w, calls[0]), calls[1..], id);
    }
  }

  /** No run transfers the value of a transaction more than once, and none
      transfers that of an already executed transaction; a run that transfers
      it leaves it executed. */
  lemma {:induction false} AtMostOnce(w: Wallet, calls: seq<Call>, id: nat)
    ensures Transfers(w, calls, id) <= 1
    ensures id < TxCount(w) && w.transactions[id].executed ==> Transfers(w, calls, id) == 0
    ensures Transfers(w, calls, id) == 1 ==>
      id < TxCount(Run(w, calls)) && Run(w, calls).transactions[id].executed
    decreases |calls|
  {
    if |calls| > 0 {
      var c := calls[0];
      var w' := Apply(w, c);
      ApplyKeeps(w, c, id);
      AtMostOnce(w', calls[1..], id);
      if c.ExecuteCall? && c.id == id && Step(w, c).Ok? {
        assert w'.transactions[id].executed;
        RunKeeps(w', calls[1..], id);
      }
    }
  }
}

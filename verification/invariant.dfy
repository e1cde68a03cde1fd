/** The wallet invariant `Valid` is established by construction (see
    `Construct`) and kept by every operation; under it the cached confirmation
    counter always equals the number of owners who confirmed. Also: revoking
    undoes confirming and vice versa, and k distinct owners confirming a fresh
    transaction leaves exactly k confirmations, which executes iff k reaches
    the threshold. */
module WalletInvariant {
  import opened Results
  import opened MultiSigWallet

  // ----- Confirmer sets under changes of the confirmation relation -----

  lemma ConfirmersUnchanged(w: Wallet, w': Wallet, id: nat)
    requires w'.owners == w.owners
    requires forall o: Address :: IsConfirmed(w', id, o) == IsConfirmed(w, id, o)
    ensures Confirmers(w', id) == Confirmers(w, id)
  {
  }

  lemma ConfirmersAfterAdd(w: Wallet, w': Wallet, id: nat, c: Address)
    requires w'.owners == w.owners && c in w.owners
    requires w'.confirmed == w.confirmed + {(id, c)}
    ensures Confirmers(w', id) == Confirmers(w, id) + {c}
    ensures forall j: nat :: j != id ==> Confirmers(w', j) == Confirmers(w, j)
  {
    forall j: nat | j != id
      ensures Confirmers(w', j) == Confirmers(w, j)
    {
      ConfirmersUnchanged(w, w', j);
    }
  }

  lemma ConfirmersAfterRemove(w: Wallet, w': Wallet, id: nat, c: Address)
    requires w'.owners == w.owners
    requires w'.confirmed == w.confirmed - {(id, c)}
    ensures Confirmers(w', id) == Confirmers(w, id) - {c}
    ensures forall j: nat :: j != id ==> Confirmers(w', j) == Confirmers(w, j)
  {
    forall j: nat | j != id
      ensures Confirmers(w', j) == Confirmers(w, j)
    {
      ConfirmersUnchanged(w, w', j);
    }
  }

  // ----- Every operation keeps the invariant -----

  lemma DepositPreservesValid(w: Wallet, value: nat)
    requires Valid(w)
    ensures Valid(Deposit(w, value))
  {
    var w' := Deposit(w, value);
    forall id: nat | id < |w.transactions|
      ensures w'.transactions[id].numConfirmations == |Confirmers(w', id)|
    {
      ConfirmersUnchanged(w, w', id);
    }
  }

  lemma SubmitPreservesValid(w: Wallet, caller: Address, to: Address, value: nat, data: seq<Byte>)
    requires Valid(w) && Submit(w, caller, to, value, data).Ok?
    ensures Valid(Submit(w, caller, to, value, data).value)
  {
    var w' := Submit(w, caller, to, value, data).value;
    forall id: nat | id < |w'.transactions|
      ensures w'.transactions[id].numConfirmations == |Confirmers(w', id)|
    {
      ConfirmersUnchanged(w, w', id);
      if id == |w.transactions| {
        assert forall o: Address :: !IsConfirmed(w, id, o);
        assert Confirmers(w, id) == {};
      } else {
        assert w'.transactions[id] == w.transactions[id];
      }
    }
  }

  lemma ConfirmPreservesValid(w: Wallet, caller: Address, id: nat)
    requires Valid(w) && Confirm(w, caller, id).Ok?
    ensures Valid(Confirm(w, caller, id).value)
  {
    var w' := Confirm(w, caller, id).value;
    ConfirmersAfterAdd(w, w', id, caller);
    assert caller !in Confirmers(w, id);
    forall j: nat | j < |w'.transactions|
      ensures w'.transactions[j].numConfirmations == |Confirmers(w', j)|
    {
      if j != id {
        assert w'.transactions[j] == w.transactions[j];
      }
    }
    forall j: nat, o: Address | IsConfirmed(w', j, o)
      ensures j < |w'.transactions| && o in w'.owners
    {
      if (j, o) != (id, caller) {
        assert IsConfirmed(w, j, o);
      }
    }
  }

  lemma RevokePreservesValid(w: Wallet, caller: Address, id: nat)
    requires Valid(w) && Revoke(w, caller, id).Ok?
    ensures Valid(Revoke(w, caller, id).value)
  {
    var w' := Revoke(w, caller, id).value;
    ConfirmersAfterRemove(w, w', id, caller);
    assert caller in Confirmers(w, id);
    forall j: nat | j < |w'.transactions|
      ensures w'.transactions[j].numConfirmations == |Confirmers(w', j)|
    {
      if j != id {
        assert w'.transactions[j] == w.transactions[j];
      }
    }
    forall j: nat, o: Address | IsConfirmed(w', j, o)
      ensures j < |w'.transactions| && o in w'.owners
    {
      assert IsConfirmed(w, j, o);
    }
  }

  lemma ExecutePreservesValid(w: Wallet, caller: Address, id: nat, accepts: bool)
    requires Valid(w) && Execute(w, caller, id, accepts).Ok?
    ensures Valid(Execute(w, caller, id, accepts).value)
  {
    var w' := Execute(w, caller, id, accepts).value;
    assert forall j: nat, o: Address :: IsConfirmed(w', j, o) == IsConfirmed(w, j, o);
    forall j: nat | j < |w'.transactions|
      ensures w'.transactions[j].numConfirmations == |Confirmers(w', j)|
    {
      ConfirmersUnchanged(w, w', j);
      if j != id {
        assert w'.transactions[j] == w.transactions[j];
      }
    }
  }

  // ----- Consequences of the invariant -----

  /** `isConfirmed` in a valid wallet: it holds only for an existing
      transaction and an owner, so it is false for every id that was never
      assigned, and for an owner it says exactly whether that owner is among
      the transaction's confirmers. */
  lemma IsConfirmedLookup(w: Wallet, id: nat, o: Address)
    requires Valid(w)
    ensures IsConfirmed(w, id, o) ==> id < TxCount(w) && IsOwner(w, o)
    ensures id >= TxCount(w) ==> !IsConfirmed(w, id, o)
    ensures IsOwner(w, o) ==> (IsConfirmed(w, id, o) <==> o in Confirmers(w, id))
  {
  }

  /** Under the invariant the counter never underflows, so revoke succeeds
      exactly when the transaction exists, is pending and the caller has
      confirmed it. */
  lemma RevokeSucceedsIff(w: Wallet, caller: Address, id: nat)
    requires Valid(w)
    ensures Revoke(w, caller, id).Ok? <==>
      id < TxCount(w) && !w.transactions[id].executed && IsConfirmed(w, id, caller)
    ensures Revoke(w, caller, id) != Err(CounterUnderflow)
  {
    if id < TxCount(w) && IsConfirmed(w, id, caller) {
      assert caller in Confirmers(w, id);
    }
  }

  /** Revoking right after a successful confirm restores the wallet exactly. */
  lemma RevokeUndoesConfirm(w: Wallet, caller: Address, id: nat)
    requires Confirm(w, caller, id).Ok?
    ensures Revoke(Confirm(w, caller, id).value, caller, id) == Ok(w)
  {
    var w' := Confirm(w, caller, id).value;
    var w'' := Revoke(w', caller, id).value;
    assert w''.confirmed == w.confirmed;
    assert w''.transactions == w.transactions;
  }

  /** Confirming right after a successful revoke restores the wallet exactly:
      an earlier revoke never blocks a later confirm. */
  lemma ConfirmUndoesRevoke(w: Wallet, caller: Address, id: nat)
    requires Valid(w) && Revoke(w, caller, id).Ok?
    ensures Confirm(Revoke(w, caller, id).value, caller, id) == Ok(w)
  {
    var w' := Revoke(w, caller, id).value;
    var w'' := Confirm(w', caller, id).value;
    assert w''.confirmed == w.confirmed;
    assert w''.transactions == w.transactions;
  }

  // ----- The cached counter against a count of the relation -----

  /** The owners among the first `k` in the list who confirmed transaction `id`. */
  function ConfirmedAmong(w: Wallet, id: nat, k: nat): set<Address>
    requires k <= |w.owners|
  {
    set o | o in w.owners[..k] && IsConfirmed(w, id, o)
  }

  lemma ConfirmedAmongStep(w: Wallet, id: nat, k: nat)
    requires Distinct(w.owners) && k < |w.owners|
    ensures |ConfirmedAmong(w, id, k + 1)|
         == |ConfirmedAmong(w, id, k)| + (if IsConfirmed(w, id, w.owners[k]) then 1 else 0)
  {
    var before := ConfirmedAmong(w, id, k);
    var after := ConfirmedAmong(w, id, k + 1);
    var o := w.owners[k];
    assert w.owners[..k + 1] == w.owners[..k] + [o];
    assert o !in w.owners[..k] by {
      forall j | 0 <= j < k
        ensures w.owners[..k][j] != o
      {
        assert w.owners[..k][j] == w.owners[j];
      }
    }
    if IsConfirmed(w, id, o) {
      assert after == before + {o};
    } else {
      assert after == before;
    }
  }

  /** Counts, owner by owner, how many owners confirmed transaction `id`; in a
      valid wallet this is the transaction's `numConfirmations`. */
  method CountConfirmations(w: Wallet, id: nat) returns (n: nat)
    requires Distinct(w.owners)
    ensures n == |Confirmers(w, id)|
    ensures Valid(w) && id < TxCount(w) ==> n == w.transactions[id].numConfirmations
  {
    n := 0;
    var i := 0;
    while i < |w.owners|
      invariant 0 <= i <= |w.owners|
      invariant n == |ConfirmedAmong(w, id, i)|
    {
      ConfirmedAmongStep(w, id, i);
      if IsConfirmed(w, id, w.owners[i]) {
        n := n + 1;
      }
      i := i + 1;
    }
    assert w.owners[..i] == w.owners;
    assert ConfirmedAmong(w, id, i) == Confirmers(w, id);
  }

  // ----- k distinct owners confirming -----

  /** The owners in `callers` confirm transaction `id` one after another; the
      first revert ends the sequence. */
  function ConfirmEach(w: Wallet, callers: seq<Address>, id: nat): Result<Wallet, Error>
    decreases |callers|
  {
    if |callers| == 0 then Ok(w)
    else
      var w' :- Confirm(w, callers[0], id);
      ConfirmEach(w', callers[1..], id)
  }

  /** When distinct owners who have not confirmed yet confirm a pending
      transaction, every confirm succeeds, each of them is then recorded as a
      confirmer, earlier confirmations stay, and the counter grows by their
      number; the transaction stays pending with its proposal unchanged, and
      every other transaction is untouched. */
  lemma {:induction false} ConfirmEachCounts(w: Wallet, callers: seq<Address>, id: nat)
    requires id < TxCount(w) && !w.transactions[id].executed
    requires Distinct(callers)
    requires forall i :: 0 <= i < |callers| ==> IsOwner(w, callers[i]) && !IsConfirmed(w, id, callers[i])
    ensures ConfirmEach(w, callers, id).Ok?
    ensures SameRegistry(w, ConfirmEach(w, callers, id).value)
    ensures TxCount(ConfirmEach(w, callers, id).value) == TxCount(w)
    ensures ConfirmEach(w, callers, id).value.transactions[id].numConfirmations
         == w.transactions[id].numConfirmations + |callers|
    ensures !ConfirmEach(w, callers, id).value.transactions[id].executed
    ensures SameProposal(w.transactions[id], ConfirmEach(w, callers, id).value.transactions[id])
    ensures ConfirmEach(w, callers, id).value.funds == w.funds
    ensures forall i :: 0 <= i < |callers| ==> IsConfirmed(ConfirmEach(w, callers, id).value, id, callers[i])
    ensures forall o: Address :: IsConfirmed(w, id, o) ==> IsConfirmed(ConfirmEach(w, callers, id).value, id, o)
    ensures forall j :: 0 <= j < TxCount(w) && j != id ==>
      ConfirmEach(w, callers, id).value.transactions[j] == w.transactions[j]
    decreases |callers|
  {
    if |callers| > 0 {
      var w' := Confirm(w, callers[0], id).value;
      var rest := callers[1..];
      assert forall i :: 0 <= i < |rest| ==> rest[i] == callers[i + 1];
      forall i | 0 <= i < |rest|
        ensures IsOwner(w', rest[i]) && !IsConfirmed(w', id, rest[i])
      {
        assert rest[i] != callers[0];
      }
      ConfirmEachCounts(w', rest, id);
      var r := ConfirmEach(w', rest, id).value;
      assert ConfirmEach(w, callers, id) == Ok(r);
      forall i | 0 <= i < |callers|
        ensures IsConfirmed(r, id, callers[i])
      {
        if i > 0 {
          assert callers[i] == rest[i - 1];
        }
      }
    }
  }

  /** The threshold gate: when k distinct owners confirming a fresh
      transaction yields `w'` (every such sequence of confirms succeeds, by
      `ConfirmEachCounts`), an execute on `w'` whose transfer can go through
      succeeds iff k is at least the number of confirmations required. */
  lemma ExecuteAfterConfirmations(w: Wallet, callers: seq<Address>, id: nat, executor: Address, w': Wallet)
    requires id < TxCount(w) && !w.transactions[id].executed
    requires w.transactions[id].numConfirmations == 0
    requires Distinct(callers)
    requires forall i :: 0 <= i < |callers| ==> IsOwner(w, callers[i]) && !IsConfirmed(w, id, callers[i])
    requires IsOwner(w, executor) && w.transactions[id].value <= w.funds
    requires ConfirmEach(w, callers, id) == Ok(w')
    ensures Execute(w', executor, id, true).Ok? <==> |callers| >= w.numConfirmationsRequired
  {
    ConfirmEachCounts(w, callers, id);
  }
}

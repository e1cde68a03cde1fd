/** The wallet's test suite replayed on the model: three owners (alice, bob,
    carl), two confirmations required, and one transaction submitted by alice
    that sends 100 to carl with an empty payload. Every account other than the
    wallet starts with 10000. */
module WalletScenarios {
  import opened Results
  import opened MultiSigWallet

  const Alice: Address := 1
  const Bob: Address := 2
  const Carl: Address := 3
  const Ivan: Address := 4

  function StartBalances(): map<Address, nat> {
    map[0 := 10000, Alice := 10000, Bob := 10000, Carl := 10000, Ivan := 10000]
  }

  function Deploy(): Result<Wallet, Error> {
    Construct([Alice, Bob, Carl], 2, StartBalances())
  }

  /** Deployment followed by alice's submission, the common set-up of every test. */
  function SetUp(): Result<Wallet, Error> {
    var w :- Deploy();
    Submit(w, Alice, Carl, 100, [])
  }

  /** Deployment keeps the owners in order, each is an owner, the threshold is
      2, and alice's submission goes through. */
  lemma DeployScenario()
    ensures Deploy().Ok?
    ensures Owner(Deploy().value, 0) == Ok(Alice)
    ensures Owner(Deploy().value, 1) == Ok(Bob)
    ensures Owner(Deploy().value, 2) == Ok(Carl)
    ensures IsOwner(Deploy().value, Alice) && IsOwner(Deploy().value, Bob) && IsOwner(Deploy().value, Carl)
    ensures Deploy().value.numConfirmationsRequired == 2
    ensures SetUp().Ok?
  {
  }

  /** The submitted transaction is stored verbatim at index 0, pending and
      unconfirmed; a submission by ivan, who is no owner, reverts. */
  lemma SubmitScenario()
    ensures SetUp().Ok?
    ensures GetTransaction(SetUp().value, 0) == Ok(Transaction(Carl, 100, [], false, 0))
    ensures Submit(SetUp().value, Ivan, Carl, 100, []) == Err(Unauthorized)
  {
  }

  /** After alice confirms transaction 0: one confirmation, recorded for alice;
      confirming the missing transaction 1 reverts, and so does alice
      confirming transaction 0 again. */
  lemma ConfirmScenario()
    ensures SetUp().Ok?
    ensures Confirm(SetUp().value, Alice, 0).Ok?
    ensures Confirm(SetUp().value, Alice, 0).value.transactions[0].numConfirmations == 1
    ensures IsConfirmed(Confirm(SetUp().value, Alice, 0).value, 0, Alice)
    ensures Confirm(Confirm(SetUp().value, Alice, 0).value, Alice, 1) == Err(NotFound)
    ensures Confirm(Confirm(SetUp().value, Alice, 0).value, Alice, 0) == Err(AlreadyConfirmed)
  {
  }

  /** Alice sends 100 through the fallback, alice and bob confirm, and alice
      executes: the wallet held 100 and ends with 0, carl ends with 10100. The
      second execute, which reverts, goes beyond what the suite runs. */
  lemma ExecuteScenario()
    ensures SetUp().Ok?
    ensures Deposit(SetUp().value, 100).funds == 100
    ensures Confirm(Deposit(SetUp().value, 100), Alice, 0).Ok?
    ensures Confirm(Confirm(Deposit(SetUp().value, 100), Alice, 0).value, Bob, 0).Ok?
    ensures
      var w := Confirm(Confirm(Deposit(SetUp().value, 100), Alice, 0).value, Bob, 0).value;
      && w.funds == 100
      && Execute(w, Alice, 0, true).Ok?
      && Execute(w, Alice, 0, true).value.transactions[0].executed
      && Execute(w, Alice, 0, true).value.funds == 0
      && BalanceOf(Execute(w, Alice, 0, true).value, Carl) == 10100
      && Execute(Execute(w, Alice, 0, true).value, Alice, 0, true) == Err(AlreadyExecuted)
  {
  }

  /** Alice confirms and then revokes: no confirmations remain and alice's
      confirmation is gone; alice may confirm again afterwards. */
  lemma RevokeScenario()
    ensures SetUp().Ok?
    ensures Confirm(SetUp().value, Alice, 0).Ok?
    ensures
      var w := Confirm(SetUp().value, Alice, 0).value;
      && Revoke(w, Alice, 0).Ok?
      && Revoke(w, Alice, 0).value.transactions[0].numConfirmations == 0
      && !IsConfirmed(Revoke(w, Alice, 0).value, 0, Alice)
      && Confirm(Revoke(w, Alice, 0).value, Alice, 0).Ok?
  {
  }
}

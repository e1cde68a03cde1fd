# Multi-signature wallet model

A Dafny model of the `MultiSigWallet` contract whose behaviour the Hardhat
suite `test/MultiSigWallet.spec.ts` pins down. A wallet has a fixed, ordered
list of owners and a threshold of required confirmations. Owners submit
transactions (target, value, opaque payload) into an append-only list indexed
from 0. Owners confirm them and may revoke a confirmation. Once a transaction
has enough confirmations, an owner executes it, which moves its value from the
wallet to the target. Anyone can fund the wallet through its payable fallback.

The Solidity contract itself is not part of this model.
The behaviour comes from what the tests assert. Rules the tests do not
exercise are modelling choices; the ones that matter are listed under
"## Left out".

Layout:

- `results.dfy`, module `Results`: `Result<T, E>`. A call either succeeds with
  the new wallet or reverts with an error, and a reverted call changes nothing.
- `wallet.dfy`, module `MultiSigWallet`: the `Wallet` and `Transaction`
  datatypes, the public getters (`owners(i)`, `isOwner`, `transactions(i)`,
  `isConfirmed`, `numConfirmationsRequired`) and the operations `Construct`,
  `Deposit`, `Submit`, `Confirm`, `Execute` and `Revoke`, each with its
  success condition, its revert reasons and exactly what it changes. It also
  defines the invariant `Valid`: each transaction's `numConfirmations` equals
  the number of owners who confirmed it.
- `invariant.dfy`, module `WalletInvariant`: every operation keeps `Valid`.
  Revoke undoes confirm and confirm undoes revoke. A loop that counts
  confirmations agrees with the cached counter. When k distinct owners
  confirm, the counter rises by exactly k, and execution is then possible
  iff k reaches the threshold.
- `trace.dfy`, module `WalletTrace`: arbitrary sequences of calls, where a
  reverted call leaves the state unchanged. Over any run the invariant holds,
  the ledger stays append-only, and each transaction's transfer happens at
  most once.
- `scenarios.dfy`, module `WalletScenarios`: the test cases replayed on the
  model, with alice = 1, bob = 2, carl = 3 and ivan = 4.

## Model

| member | source | states |
|---|---|---|
| MultiSigWallet.Construct | test/MultiSigWallet.spec.ts:35-48 | deployment succeeds iff the owner list is non-empty and duplicate-free and 1 <= threshold <= number of owners; `owners(i)` returns the i-th given owner, exactly the listed addresses are owners, `numConfirmationsRequired` is the given threshold, no transactions, empty wallet, and the result satisfies the invariant |
| MultiSigWallet.Owner | test/MultiSigWallet.spec.ts:38-40 | `owners(i)` returns the i-th owner for every index below the number of owners, and reverts with `NotFound` for every index past the end (the tests read only indices 0 to 2) |
| MultiSigWallet.IsOwner | test/MultiSigWallet.spec.ts:42-43 | `isOwner(a)` holds iff `a` is what `owners(i)` returns for some index `i` |
| MultiSigWallet.GetTransaction | test/MultiSigWallet.spec.ts:58-63 | `transactions(i)` returns the stored transaction for every id below the number of submitted transactions, and reverts with `NotFound` for every other id (the tests read only id 0) |
| WalletInvariant.IsConfirmedLookup | test/MultiSigWallet.spec.ts:86-87 | in a valid wallet `isConfirmed(id, o)` holds only for an existing transaction and an owner, so it is false for an id that was never assigned instead of reverting; for an owner it holds iff that owner is among the transaction's confirmers |
| MultiSigWallet.Deposit | test/MultiSigWallet.spec.ts:112-115 | the fallback raises the wallet balance by exactly the sent value and changes nothing else |
| MultiSigWallet.Submit | test/MultiSigWallet.spec.ts:51-72 | succeeds iff the caller is an owner, otherwise reverts with `Unauthorized`; on success appends one transaction at the next index holding `to`, `value`, `data` verbatim with `executed = false` and `numConfirmations = 0`, leaving earlier transactions, confirmations and balances unchanged |
| MultiSigWallet.Confirm | test/MultiSigWallet.spec.ts:77-108 | succeeds iff the transaction exists, the caller is an owner, it is not executed and the caller has not confirmed it; a missing id reverts with `NotFound`, a repeat confirm with `AlreadyConfirmed`; on success the counter rises by exactly 1, `isConfirmed(id, caller)` becomes true and every other confirmation and transaction is unchanged |
| MultiSigWallet.Execute | test/MultiSigWallet.spec.ts:117-143 | succeeds iff the transaction exists, the caller is an owner, it is pending, its confirmations reach the threshold and the transfer goes through; on success it is marked executed and exactly its value leaves the wallet and reaches the target, other accounts unchanged; an execute on an executed transaction reverts with `AlreadyExecuted` (a modelling choice: the tests execute only once) |
| MultiSigWallet.Revoke | test/MultiSigWallet.spec.ts:146-163 | succeeds iff the transaction exists, is pending, the caller has confirmed it and the counter is positive; on success the counter drops by exactly 1 and `isConfirmed(id, caller)` becomes false, all else unchanged |
| WalletInvariant.DepositPreservesValid | test/MultiSigWallet.spec.ts:112-115 | a deposit keeps the invariant |
| WalletInvariant.SubmitPreservesValid | test/MultiSigWallet.spec.ts:57-64 | a submission keeps the invariant: the new transaction has no confirmer, matching its counter 0 |
| WalletInvariant.ConfirmPreservesValid | test/MultiSigWallet.spec.ts:82-88 | a confirmation keeps every counter equal to the number of owners with `isConfirmed` |
| WalletInvariant.RevokePreservesValid | test/MultiSigWallet.spec.ts:153-163 | a revocation keeps every counter equal to the number of owners with `isConfirmed` |
| WalletInvariant.ExecutePreservesValid | test/MultiSigWallet.spec.ts:131-137 | an execution keeps the invariant |
| WalletInvariant.RevokeSucceedsIff | test/MultiSigWallet.spec.ts:153-163 | in a valid wallet the counter never underflows: revoke succeeds exactly when the transaction exists, is pending and the caller has confirmed it |
| WalletInvariant.RevokeUndoesConfirm | test/MultiSigWallet.spec.ts:146-163 | a revoke right after a successful confirm by the same owner restores the wallet exactly |
| WalletInvariant.ConfirmUndoesRevoke | test/MultiSigWallet.spec.ts:146-163 | in a valid wallet, a confirm right after a successful revoke by the same owner succeeds and restores the wallet exactly |
| WalletInvariant.CountConfirmations | test/MultiSigWallet.spec.ts:82-88 | counting owner by owner gives the number of owners who confirmed, and in a valid wallet it equals the cached `numConfirmations` |
| WalletInvariant.ConfirmEachCounts | test/MultiSigWallet.spec.ts:117-124 | when k distinct owners who have not yet confirmed confirm a pending transaction one after another, every confirm succeeds, each of them is then recorded by `isConfirmed`, earlier confirmations stay, and the counter rises by exactly k; the proposal stays unchanged and pending, and every other transaction is unchanged |
| WalletInvariant.ExecuteAfterConfirmations | test/MultiSigWallet.spec.ts:117-137 | when k distinct owners confirming a fresh transaction that the wallet can fund yields a wallet, an owner's execute on it succeeds iff k >= the threshold (that those confirms all succeed is `ConfirmEachCounts`) |
| WalletTrace.RunPreservesValid | test/MultiSigWallet.spec.ts:75-163 | every sequence of calls, reverted ones included, keeps the invariant |
| WalletTrace.RunKeeps | test/MultiSigWallet.spec.ts:57-64 | over every sequence of calls, a stored transaction stays at its index with the same `to`, `value` and `data`, an executed one stays executed, and owners and threshold never change |
| WalletTrace.AtMostOnce | test/MultiSigWallet.spec.ts:131-143 | over every sequence of calls, at most one execute of a transaction succeeds, none does if it was already executed, and if one does the transaction ends executed |
| WalletScenarios.DeployScenario | test/MultiSigWallet.spec.ts:35-53 | deploying alice, bob, carl with threshold 2 lists them in order as owners with threshold 2, and alice's submission succeeds |
| WalletScenarios.SubmitScenario | test/MultiSigWallet.spec.ts:57-72 | transaction 0 is (carl, 100, empty, not executed, 0 confirmations); ivan's submission reverts |
| WalletScenarios.ConfirmScenario | test/MultiSigWallet.spec.ts:76-108 | after alice confirms, the counter is 1 and `isConfirmed(0, alice)` holds; confirming id 1 reverts and alice confirming again reverts |
| WalletScenarios.ExecuteScenario | test/MultiSigWallet.spec.ts:112-143 | after a 100 deposit and confirmations by alice and bob, the wallet holds 100; execution marks the transaction executed, the wallet ends at 0, carl at 10100; beyond the test, a second execute reverts with `AlreadyExecuted` |
| WalletScenarios.RevokeScenario | test/MultiSigWallet.spec.ts:146-163 | after alice confirms and revokes, the counter is 0, `isConfirmed(0, alice)` is false, and alice can confirm again |

## Left out

- Deployment, signers, contract factories, assertions and async plumbing of the Hardhat test setup: they are I/O around the contract, not its logic.
- Ether units and `parseEther`: value is one `nat` unit.
- Gas and the cost of calls. The accounts' starting balances are a constructor parameter and serve only as the base for the balance changes the tests check.
- The external call made by execute. It is a pure balance update. Its outcome is the `accepts` parameter, and it also fails when the wallet holds less than the value. A failed call reverts the whole execute, so the executed flag is rolled back. Reentrancy is not modelled.
- The contents of the payload: `data` is an opaque `seq<bv8>`.
- The debit of the sender's own balance on a deposit: it is chain-level accounting outside the contract, and the tests check only the wallet's balance.
- Events and any check on the zero address: neither is visible in the tests.
- Construct's rejection of an empty owner list, of a repeated owner and of a threshold outside 1 to the number of owners is a modelling choice: the tests deploy only one valid configuration, so only the success half of `Construct`'s "iff" is exercised.
- `Unauthorized` on a confirm or an execute by a non-owner, and `NotConfirmed` on a revoke by an owner who never confirmed, are modelling choices: the tests reject only a non-owner's submit, a missing id and a repeated confirm.
- The wallet is never the target of its own transactions: it has no address among the accounts, so `Execute` always moves value from `funds` to another account's balance. On chain a self-targeted transfer would leave the wallet's balance unchanged.
- Confirm on an executed transaction reverts with `AlreadyExecuted`. This is a modelling choice, because the test for it has no body.
- Execute below the threshold reverts with `InsufficientConfirmations`, execute on an executed transaction reverts with `AlreadyExecuted`, and revoke on an executed transaction reverts with `AlreadyExecuted`. All three are modelling choices, because no test exercises them; `WalletTrace.AtMostOnce` rests on the second.
- The order of the revert checks (missing id first, then caller, then executed, then confirmation state) is a modelling choice. The tests only observe that a call reverts.
- Revoke has no owner check of its own. A non-owner can never hold a confirmation in a valid wallet, so such a call always reverts: with `NotFound` for a missing id, with `AlreadyExecuted` for an executed transaction, and with `NotConfirmed` once the id exists and is pending.
- Revoke's decrement is checked arithmetic that reverts at zero (`CounterUnderflow`). `RevokeSucceedsIff` shows this cannot happen in a valid wallet.
- `isConfirmed` on an id that does not exist returns false, the way a public mapping getter does, instead of reverting.
- 256-bit integer widths: values and counters are unbounded, because no test comes near the limits.

# Digital wallet ledger

A Dafny model of `DigitalWalletService`, the in-memory ledger of a small
banking application. The service keeps a table from user id to user record
(a name and a balance) and a transaction-id counter. It offers five
operations:

- `createUser` opens an account `"user-" + (size + 1)` holding 1000.00;
- `getBalance` reads a balance, or answers -1.0 for an unknown id;
- `transferFunds`, `deposit` and `withdraw` each run a short series of guard
  clauses. On the first guard that fails they return `null` and change
  nothing. Otherwise they change one or two balances by the amount, bump
  the counter once and return a transaction record stamped with the new
  counter value.

The project has four modules:

- `Ids` (ids.dfy) renders account ids as `"user-"` plus a decimal number,
  proves that rendering injective, and proves that the id of a later account
  is never among the ids of the earlier ones.
- `WalletModel` (model.dfy) is the ledger as a value. Each operation is a
  function from the ledger before the call to the ledger after it together
  with the reply. The invariant `Consistent` says every balance is
  non-negative and the keys are `"user-1"` .. `"user-n"`. `Total` is the sum
  of all balances.
- `WalletProperties` (properties.dfy) holds the lemmas: fresh account ids,
  conservation of the total, the invariant kept by each operation and by any
  run of operations, transaction ids 1, 2, 3, ... with none consumed by a
  failure, and a bound on repeated withdrawals.
- `WalletService` (wallet.dfy) is the service as a class. It has the same
  two fields, map and counter, and methods that update them in place. Each
  method is proved to have exactly the effect of the matching `WalletModel`
  function, and to keep the invariant.

Modelling choices:

- Money is an integer number of cents. The opening balance 1000.00 is
  `StartingBalance = 100000`, and the "not found" answer -1.0 is
  `UnknownUserBalance = -100`.
- The `null` a failed operation returns is `Fail(reason)`. The reason names
  the guard that fired, which is the one whose error message the code
  prints. The guards keep the code's order: insufficient funds is tested
  before a non-positive amount.
- A transfer debits the sender's record and then credits the recipient's
  record as it stands after the debit. When sender and recipient are the
  same user the two changes cancel, as they do on the single Java object.
  The code does not reject a self-transfer and neither does the model.
- Account ids come from the table size, as in the code. The model proves
  this never collides, because accounts are never removed.
- The code accepts a self-transfer, tests insufficient funds before a
  non-positive amount, derives account ids from the table size and answers
  -1.0 for an unknown id. The model keeps all four.

## Model

| member | source | states |
|---|---|---|
| `WalletModel.Empty` | DigitalWalletService.java:14-17 | a new ledger has no users, the counter at 0, and satisfies the invariant |
| `WalletModel.NewUserId` | DigitalWalletService.java:47 | the id createUser generates, `"user-" + (size+1)`, is not among `"user-1"` .. `"user-size"` |
| `Ids.UserIdOf` | DigitalWalletService.java:47 | an account id is the prefix `"user-"` followed by the decimal rendering of the account number |
| `Ids.NextIdNotIssued` | DigitalWalletService.java:47 | the id of account m is not among the ids of accounts 1 .. n when n < m |
| `WalletModel.CreateUser` | DigitalWalletService.java:45-54 | the new table has the id `"user-" + (size+1)` mapped to the given name with balance 1000.00; its keys are the old keys plus that id; every other account is kept; the counter is untouched |
| `WalletProperties.NewUserIdFresh` | DigitalWalletService.java:47-51 | on a consistent ledger the id createUser generates is not already a key, so `put` never overwrites an account |
| `WalletProperties.CreateUserAddsOne` | DigitalWalletService.java:47-51 | createUser grows the table by exactly one entry and leaves every existing account unchanged |
| `WalletProperties.CreateUserConsistent` | DigitalWalletService.java:47-51 | createUser keeps the invariant: balances non-negative, keys `"user-1"` .. `"user-n"` |
| `WalletProperties.CreateUserAddsToTotal` | DigitalWalletService.java:50-51 | a new account adds exactly its opening balance to the sum of all balances |
| `Ids.DecimalString` | DigitalWalletService.java:47 | the decimal rendering of the account number is non-empty, and has one digit exactly when the number is below ten |
| `Ids.DecimalStringInjective` | DigitalWalletService.java:47 | two numbers with the same decimal rendering are equal |
| `Ids.UserIdInjective` | DigitalWalletService.java:47 | distinct account numbers give distinct `"user-"` ids |
| `WalletService.DigitalWalletService.CreateUser` | DigitalWalletService.java:45-54 | the method returns the new record and leaves the fields exactly as `WalletModel.CreateUser` says, keeping the invariant |
| `WalletModel.Balance` | DigitalWalletService.java:61-64 | getBalance answers the stored balance of a known id and -1.0 for an unknown one |
| `WalletService.DigitalWalletService.GetBalance` | DigitalWalletService.java:61-64 | returns the stored balance of a known id and -1.0 for an unknown one; it changes nothing, having no modifies clause |
| `WalletProperties.BalanceUnknownIff` | DigitalWalletService.java:59-64 | on a consistent ledger the answer is -1.0 exactly when the id is unknown, and otherwise a non-negative balance |
| `WalletModel.TransferFunds` | DigitalWalletService.java:73-106 | succeeds exactly when both users exist, the sender's balance covers the amount and the amount is positive; fails with "not found" exactly when a user is missing and with "insufficient funds" exactly when both exist and the balance is short; a failure leaves the ledger equal to the old one; a success moves `amount` from sender to recipient, leaves a self-transfer's table unchanged, touches no other account, bumps the counter by one and returns a transfer record with the new counter, both ids and the amount |
| `WalletService.DigitalWalletService.TransferFunds` | DigitalWalletService.java:73-106 | the in-place debit and credit and the counter bump give exactly the new state and reply of `WalletModel.TransferFunds`, keeping the invariant |
| `WalletProperties.TransferConservesTotal` | DigitalWalletService.java:93-94 | a transfer, successful or not, leaves the sum of all balances unchanged |
| `WalletProperties.TransferConsistent` | DigitalWalletService.java:82-94 | a transfer keeps every balance non-negative and the key set unchanged |
| `WalletModel.Deposit` | DigitalWalletService.java:114-135 | succeeds exactly when the user exists and the amount is positive; fails with "not found" exactly for an unknown user; a failure changes nothing; a success adds the amount to that user only, bumps the counter by one and returns a deposit record with the new counter, no sender and the user as recipient |
| `WalletService.DigitalWalletService.Deposit` | DigitalWalletService.java:114-135 | the in-place credit and counter bump give exactly the new state and reply of `WalletModel.Deposit`, keeping the invariant |
| `WalletProperties.DepositAddsToTotal` | DigitalWalletService.java:126 | a successful deposit raises the sum of all balances by exactly the amount, a failed one by nothing |
| `WalletProperties.DepositConsistent` | DigitalWalletService.java:121-126 | a deposit keeps the invariant, since it credits only positive amounts |
| `WalletModel.Withdraw` | DigitalWalletService.java:143-169 | succeeds exactly when the user exists, the balance covers the amount and the amount is positive; fails with "not found" exactly for an unknown user and with "insufficient funds" exactly when the balance is short; a failure changes nothing; a success subtracts the amount from that user only, leaves that balance non-negative, bumps the counter by one and returns a withdraw record with the new counter, the user as sender and no recipient |
| `WalletService.DigitalWalletService.Withdraw` | DigitalWalletService.java:143-169 | the in-place debit and counter bump give exactly the new state and reply of `WalletModel.Withdraw`, keeping the invariant |
| `WalletProperties.WithdrawSubtractsFromTotal` | DigitalWalletService.java:160 | a successful withdrawal lowers the sum of all balances by exactly the amount, a failed one by nothing |
| `WalletProperties.WithdrawConsistent` | DigitalWalletService.java:150-160 | a withdrawal keeps the invariant, since it debits only when `balance >= amount > 0` |
| `WalletProperties.WithdrawalsBounded` | DigitalWalletService.java:150-160 | repeated withdrawals of one amount from one account succeed k times with k * amount no more than the starting balance, and take out exactly k * amount |
| `WalletModel.Adjust` | DigitalWalletService.java:126 | `balance += delta` on one record: that record's balance moves by delta, its name stays, the keys and every other record are unchanged |
| `WalletService.DigitalWalletService.constructor` | DigitalWalletService.java:14-17 | a new service has no users, the counter at 0 and satisfies the invariant |
| `WalletProperties.RunConsistent` | DigitalWalletService.java:45-169 | any sequence of createUser, getBalance, transferFunds, deposit and withdraw calls from a consistent ledger ends in a consistent ledger, so no balance ever goes negative |
| `WalletProperties.BalancesNeverNegative` | DigitalWalletService.java:45-169 | starting from a new service, every account's balance is non-negative after any sequence of calls |
| `WalletProperties.IssuedAreConsecutive` | DigitalWalletService.java:98 | over any sequence of calls the ids handed out are counter+1, counter+2, ... in order, one per successful mutation, and the counter ends at the last one (likewise lines 129 and 163) |
| `WalletProperties.IssuedStrictlyIncrease` | DigitalWalletService.java:17 | starting from the counter at 0, the ids handed out are exactly 1, 2, 3, ..., strictly increasing, and the counter equals the number of successful mutations |

## Left out

- Console output: the `System.out` and `System.err` messages have no effect on state. Each failure reason corresponds to the message the code prints.
- The demo driver `main` is not modelled.
- Binary floating point: balances and amounts are exact integers of cents, so rounding of `double` arithmetic (and NaN or infinite amounts) is not represented.
- `AtomicLong` atomicity and thread safety: the model is sequential, and the counter is a plain `nat` field.
- `transactionIdCounter` as a 64-bit `long` that wraps after 2^63 - 1 increments: the counter is unbounded, so `IssuedStrictlyIncrease` and `IssuedAreConsecutive` do not cover the wrap.
- The text form of transaction ids (`String.valueOf`): a transaction id is a `nat`. Account ids are rendered exactly.
- `users.size() + 1` as a 32-bit `int` that could overflow after 2^31 - 1 accounts: the account number is unbounded.
- Object identity of user records: the table holds user values, and `CreateUser` returns the new record by value. In Java the returned `User` is the same object as the one in the table, so a caller holding it would see later balance changes. No code in the service uses that reference.
- `null` ids: Java `HashMap` accepts a `null` key, and a `null` id is simply not found. Dafny strings cannot be null.

/**
 * The wallet ledger as a value: the account table and the transaction-id
 * counter, and each operation of DigitalWalletService as a function from the
 * ledger before the call to the ledger after it and the reply.
 *
 * Money is counted in minor units (cents): the Java double 1000.00 is
 * 100000 here and the "not found" balance -1.0 is -100.
 */
module WalletModel {
  import opened Ids

  /** The opening balance of every account, 1000.00. */
  const StartingBalance: int := 100000

  /** What getBalance answers for an unknown user id, -1.0. */
  const UnknownUserBalance: int := -100

  datatype Option<T> = None | Some(value: T)

  /** A user record: the name it was created with and its balance. */
  datatype User = User(username: string, balance: int)

  datatype TxType = TransferTx | DepositTx | WithdrawTx

  /** A Transaction record; an absent sender or recipient is None. */
  datatype Transaction = Transaction(
    transactionId: nat,
    txType: TxType,
    amount: int,
    senderId: Option<string>,
    recipientId: Option<string>)

  /**
   * Why an operation returned null: one reason per guard clause, in the
   * order the guards are tested.
   */
  datatype Reason = UserNotFound | InsufficientFunds | NonPositiveAmount

  /** A Transaction on success; `null` (with the reason) on failure. */
  datatype Reply = Ok(tx: Transaction) | Fail(reason: Reason)

  /** The service's two fields: users and transactionIdCounter. */
  datatype Ledger = Ledger(users: map<string, User>, counter: nat)

  /** The ledger after an operation together with what the operation returned. */
  datatype Step = Step(after: Ledger, reply: Reply)

  /** A freshly constructed service: no users, the counter at 0. */
  function Empty(): (l: Ledger)
    ensures |l.users| == 0 && l.counter == 0
    ensures Consistent(l)
  {
    Ledger(map[], 0)
  }

  /** The id createUser allocates: "user-" + (users.size() + 1). */
  function NewUserId(l: Ledger): (id: string)
    ensures id !in IdsUpTo(|l.users|)
  {
    NextIdNotIssued(|l.users|, |l.users| + 1);
    UserIdOf(|l.users| + 1)
  }

  /** createUser: store a new account with the opening balance. */
  function CreateUser(l: Ledger, username: string): (r: Ledger)
    ensures NewUserId(l) in r.users
    ensures r.users[NewUserId(l)] == User(username, StartingBalance)
    ensures r.users.Keys == l.users.Keys + {NewUserId(l)}
    ensures forall id :: id in l.users && id != NewUserId(l) ==> r.users[id] == l.users[id]
    ensures r.counter == l.counter
  {
    Ledger(l.users[NewUserId(l) := User(username, StartingBalance)], l.counter)
  }

  /** getBalance: the stored balance, or the sentinel for an unknown id. */
  function Balance(l: Ledger, userId: string): (b: int)
    ensures userId in l.users ==> b == l.users[userId].balance
    ensures userId !in l.users ==> b == UnknownUserBalance
  {
    if userId in l.users then l.users[userId].balance else UnknownUserBalance
  }

  /** The table with `delta` added to the balance of `id`, as `balance += delta` does. */
  function Adjust(m: map<string, User>, id: string, delta: int): (r: map<string, User>)
    requires id in m
    ensures r.Keys == m.Keys
    ensures r[id] == User(m[id].username, m[id].balance + delta)
    ensures forall other :: other in m && other != id ==> r[other] == m[other]
  {
    m[id := m[id].(balance := m[id].balance + delta)]
  }

  /** transferFunds: debit the sender, then credit the recipient. */
  function TransferFunds(l: Ledger, senderId: string, recipientId: string, amount: int): (s: Step)
    ensures s.reply.Ok? <==>
              senderId in l.users && recipientId in l.users &&
              amount <= l.users[senderId].balance && 0 < amount
    ensures s.reply == Fail(UserNotFound) <==> senderId !in l.users || recipientId !in l.users
    ensures s.reply == Fail(InsufficientFunds) <==>
              senderId in l.users && recipientId in l.users && l.users[senderId].balance < amount
    ensures s.reply.Fail? ==> s.after == l
    ensures s.reply.Ok? ==>
              && s.after.counter == l.counter + 1
              && s.reply.tx == Transaction(s.after.counter, TransferTx, amount, Some(senderId), Some(recipientId))
              && s.after.users.Keys == l.users.Keys
              && (forall id :: id in l.users ==> s.after.users[id].username == l.users[id].username)
              && (senderId != recipientId ==>
                    && s.after.users[senderId].balance == l.users[senderId].balance - amount
                    && s.after.users[recipientId].balance == l.users[recipientId].balance + amount)
              && (senderId == recipientId ==> s.after.users == l.users)
              && (forall id :: id in l.users && id != senderId && id != recipientId ==>
                    s.after.users[id] == l.users[id])
  {
    if senderId !in l.users || recipientId !in l.users then Step(l, Fail(UserNotFound))
    else if l.users[senderId].balance < amount then Step(l, Fail(InsufficientFunds))
    else if amount <= 0 then Step(l, Fail(NonPositiveAmount))
    else
      var debited := Adjust(l.users, senderId, -amount);
      var credited := Adjust(debited, recipientId, amount);
      var id := l.counter + 1;
      Step(Ledger(credited, id), Ok(Transaction(id, TransferTx, amount, Some(senderId), Some(recipientId))))
  }

  /** deposit: credit one user. */
  function Deposit(l: Ledger, userId: string, amount: int): (s: Step)
    ensures s.reply.Ok? <==> userId in l.users && 0 < amount
    ensures s.reply == Fail(UserNotFound) <==> userId !in l.users
    ensures s.reply.Fail? ==> s.after == l
    ensures s.reply.Ok? ==>
              && s.after.counter == l.counter + 1
              && s.reply.tx == Transaction(s.after.counter, DepositTx, amount, None, Some(userId))
              && s.after.users.Keys == l.users.Keys
              && s.after.users[userId] == User(l.users[userId].username, l.users[userId].balance + amount)
              && (forall id :: id in l.users && id != userId ==> s.after.users[id] == l.users[id])
  {
    if userId !in l.users then Step(l, Fail(UserNotFound))
    else if amount <= 0 then Step(l, Fail(NonPositiveAmount))
    else
      var id := l.counter + 1;
      Step(Ledger(Adjust(l.users, userId, amount), id), Ok(Transaction(id, DepositTx, amount, None, Some(userId))))
  }

  /** withdraw: debit one user if the balance covers the amount. */
  function Withdraw(l: Ledger, userId: string, amount: int): (s: Step)
    ensures s.reply.Ok? <==> userId in l.users && amount <= l.users[userId].balance && 0 < amount
    ensures s.reply == Fail(UserNotFound) <==> userId !in l.users
    ensures s.reply == Fail(InsufficientFunds) <==> userId in l.users && l.users[userId].balance < amount
    ensures s.reply.Fail? ==> s.after == l
    ensures s.reply.Ok? ==>
              && s.after.counter == l.counter + 1
              && s.reply.tx == Transaction(s.after.counter, WithdrawTx, amount, Some(userId), None)
              && s.after.users.Keys == l.users.Keys
              && s.after.users[userId] == User(l.users[userId].username, l.users[userId].balance - amount)
              && 0 <= s.after.users[userId].balance
              && (forall id :: id in l.users && id != userId ==> s.after.users[id] == l.users[id])
  {
    if userId !in l.users then Step(l, Fail(UserNotFound))
    else if l.users[userId].balance < amount then Step(l, Fail(InsufficientFunds))
    else if amount <= 0 then Step(l, Fail(NonPositiveAmount))
    else
      var id := l.counter + 1;
      Step(Ledger(Adjust(l.users, userId, -amount), id), Ok(Transaction(id, WithdrawTx, amount, Some(userId), None)))
  }

  /**
   * The invariant every reachable ledger keeps: no balance is negative, and
   * every key is "user-k" for some k between 1 and the number of accounts.
   */
  ghost predicate Consistent(l: Ledger)
  {
    && (forall id :: id in l.users ==> 0 <= l.users[id].balance)
    && l.users.Keys <= IdsUpTo(|l.users|)
  }

  /** The sum of all balances in a table. */
  ghost function Total(m: map<string, User>): int
    decreases |m|
  {
    if m == map[] then 0
    else
      var k :| k in m;
      assert |m - {k}| < |m| by { assert m.Keys - {k} < m.Keys; }
      m[k].balance + Total(m - {k})
  }
}

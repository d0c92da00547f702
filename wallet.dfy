/**
 * DigitalWalletService as an object: a mutable table from user id to user
 * record and a transaction-id counter. Each method runs the service's guard
 * clauses and then updates the fields in place, and is proved to have
 * exactly the effect of the matching function in WalletModel on State().
 */
module WalletService {
  import opened Ids
  import opened WalletModel
  import WalletProperties

  class DigitalWalletService {
    var users: map<string, User>
    var transactionIdCounter: nat

    /** The two fields as a ledger value. */
    ghost function State(): Ledger
      reads this
    {
      Ledger(users, transactionIdCounter)
    }

    /** The object invariant: no balance negative, keys "user-1" .. "user-n". */
    ghost predicate Valid()
      reads this
    {
      Consistent(State())
    }

    constructor ()
      ensures Valid() && State() == Empty()
    {
      users := map[];
      transactionIdCounter := 0;
      new;
      assert State() == Empty();
    }

    method CreateUser(username: string) returns (newUser: User)
      requires Valid()
      modifies this
      ensures Valid()
      ensures newUser == User(username, StartingBalance)
      ensures State() == WalletModel.CreateUser(old(State()), username)
    {
      ghost var before := State();
      var userId := UserIdOf(|users| + 1);
      newUser := User(username, StartingBalance);
      users := users[userId := newUser];
      assert State() == WalletModel.CreateUser(before, username);
      WalletProperties.CreateUserConsistent(before, username);
    }

    method GetBalance(userId: string) returns (balance: int)
      ensures balance == Balance(State(), userId)
    {
      if userId in users {
        balance := users[userId].balance;
      } else {
        balance := UnknownUserBalance;
      }
    }

    method TransferFunds(senderId: string, recipientId: string, amount: int) returns (reply: Reply)
      requires Valid()
      modifies this
      ensures Valid()
      ensures Step(State(), reply) == WalletModel.TransferFunds(old(State()), senderId, recipientId, amount)
    {
      ghost var before := State();
      if senderId !in users || recipientId !in users {
        return Fail(UserNotFound);
      }
      var sender := users[senderId];
      if sender.balance < amount {
        return Fail(InsufficientFunds);
      }
      if amount <= 0 {
        return Fail(NonPositiveAmount);
      }

      // Debit, then credit the record as it stands after the debit: when
      // sender and recipient are the same user the two cancel out.
      users := users[senderId := sender.(balance := sender.balance - amount)];
      assert users == Adjust(before.users, senderId, -amount);
      var recipient := users[recipientId];
      users := users[recipientId := recipient.(balance := recipient.balance + amount)];
      assert users == Adjust(Adjust(before.users, senderId, -amount), recipientId, amount);

      transactionIdCounter := transactionIdCounter + 1;
      reply := Ok(Transaction(transactionIdCounter, TransferTx, amount, Some(senderId), Some(recipientId)));
      assert Step(State(), reply) == WalletModel.TransferFunds(before, senderId, recipientId, amount);
      WalletProperties.TransferConsistent(before, senderId, recipientId, amount);
    }

    method Deposit(userId: string, amount: int) returns (reply: Reply)
      requires Valid()
      modifies this
      ensures Valid()
      ensures Step(State(), reply) == WalletModel.Deposit(old(State()), userId, amount)
    {
      ghost var before := State();
      if userId !in users {
        return Fail(UserNotFound);
      }
      if amount <= 0 {
        return Fail(NonPositiveAmount);
      }

      var user := users[userId];
      users := users[userId := user.(balance := user.balance + amount)];

      transactionIdCounter := transactionIdCounter + 1;
      reply := Ok(Transaction(transactionIdCounter, DepositTx, amount, None, Some(userId)));
      assert Step(State(), reply) == WalletModel.Deposit(before, userId, amount);
      WalletProperties.DepositConsistent(before, userId, amount);
    }

    method Withdraw(userId: string, amount: int) returns (reply: Reply)
      requires Valid()
      modifies this
      ensures Valid()
      ensures Step(State(), reply) == WalletModel.Withdraw(old(State()), userId, amount)
    {
      ghost var before := State();
      if userId !in users {
        return Fail(UserNotFound);
      }
      var user := users[userId];
      if user.balance < amount {
        return Fail(InsufficientFunds);
      }
      if amount <= 0 {
        return Fail(NonPositiveAmount);
      }

      users := users[userId := user.(balance := user.balance - amount)];

      transactionIdCounter := transactionIdCounter + 1;
      reply := Ok(Transaction(transactionIdCounter, WithdrawTx, amount, Some(userId), None));
      assert Step(State(), reply) == WalletModel.Withdraw(before, userId, amount);
      WalletProperties.WithdrawConsistent(before, userId, amount);
    }
  }
}

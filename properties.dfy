/**
 * What the ledger promises across calls: fresh account ids, conservation of
 * the total balance, non-negative balances over any run of operations, and
 * transaction ids 1, 2, 3, ... with none consumed by a failure.
 */
module WalletProperties {
  import opened Ids
  import opened WalletModel

  // ---------------------------------------------------------------------
  // User ids

  /** createUser never overwrites an existing account. */
  lemma NewUserIdFresh(l: Ledger)
    requires Consistent(l)
    ensures NewUserId(l) !in l.users
  {
  }

  /** On a consistent ledger createUser adds exactly one account. */
  lemma CreateUserAddsOne(l: Ledger, username: string)
    requires Consistent(l)
    ensures |CreateUser(l, username).users| == |l.users| + 1
    ensures forall id :: id in l.users ==> CreateUser(l, username).users[id] == l.users[id]
  {
    NewUserIdFresh(l);
  }

  // ---------------------------------------------------------------------
  // The total balance

  /** Total does not depend on which key it takes first. */
  lemma {:induction false} TotalRemove(m: map<string, User>, k: string)
    requires k in m
    ensures Total(m) == m[k].balance + Total(m - {k})
    decreases |m|
  {
    var j :| j in m && Total(m) == m[j].balance + Total(m - {j});
    if j != k {
      assert m.Keys - {j} < m.Keys && m.Keys - {k} < m.Keys;
      TotalRemove(m - {j}, k);
      TotalRemove(m - {k}, j);
      assert m - {j} - {k} == m - {k} - {j};
    }
  }

  lemma TotalUpdate(m: map<string, User>, k: string, a: User)
    requires k in m
    ensures Total(m[k := a]) == Total(m) - m[k].balance + a.balance
  {
    TotalRemove(m, k);
    TotalRemove(m[k := a], k);
    assert m[k := a] - {k} == m - {k};
  }

  lemma TotalInsert(m: map<string, User>, k: string, a: User)
    requires k !in m
    ensures Total(m[k := a]) == Total(m) + a.balance
  {
    TotalRemove(m[k := a], k);
    assert m[k := a] - {k} == m;
  }

  lemma TotalAdjust(m: map<string, User>, id: string, delta: int)
    requires id in m
    ensures Total(Adjust(m, id, delta)) == Total(m) + delta
  {
    TotalUpdate(m, id, m[id].(balance := m[id].balance + delta));
  }

  /** A transfer, successful or not, leaves the sum of all balances unchanged. */
  lemma TransferConservesTotal(l: Ledger, senderId: string, recipientId: string, amount: int)
    ensures Total(TransferFunds(l, senderId, recipientId, amount).after.users) == Total(l.users)
  {
    var s := TransferFunds(l, senderId, recipientId, amount);
    if s.reply.Ok? {
      var debited := Adjust(l.users, senderId, -amount);
      TotalAdjust(l.users, senderId, -amount);
      TotalAdjust(debited, recipientId, amount);
    }
  }

  /** A successful deposit raises the total by exactly the amount. */
  lemma DepositAddsToTotal(l: Ledger, userId: string, amount: int)
    ensures var s := Deposit(l, userId, amount);
            Total(s.after.users) == Total(l.users) + (if s.reply.Ok? then amount else 0)
  {
    if userId in l.users && 0 < amount {
      TotalAdjust(l.users, userId, amount);
    }
  }

  /** A successful withdrawal lowers the total by exactly the amount. */
  lemma WithdrawSubtractsFromTotal(l: Ledger, userId: string, amount: int)
    ensures var s := Withdraw(l, userId, amount);
            Total(s.after.users) == Total(l.users) - (if s.reply.Ok? then amount else 0)
  {
    if Withdraw(l, userId, amount).reply.Ok? {
      TotalAdjust(l.users, userId, -amount);
    }
  }

  /** A new account brings its opening balance into the total. */
  lemma CreateUserAddsToTotal(l: Ledger, username: string)
    requires Consistent(l)
    ensures Total(CreateUser(l, username).users) == Total(l.users) + StartingBalance
  {
    NewUserIdFresh(l);
    TotalInsert(l.users, NewUserId(l), User(username, StartingBalance));
  }

  // ---------------------------------------------------------------------
  // The invariant, one operation at a time

  lemma CreateUserConsistent(l: Ledger, username: string)
    requires Consistent(l)
    ensures Consistent(CreateUser(l, username))
  {
    var r, n := CreateUser(l, username), |l.users|;
    NewUserIdFresh(l);
    assert |r.users| == n + 1 by {
      assert |r.users.Keys| == |l.users.Keys| + 1;
    }
    assert IdsUpTo(n + 1) == IdsUpTo(n) + {NewUserId(l)};
  }

  /** Keys unchanged and no balance made negative keeps the invariant. */
  lemma SameKeysConsistent(l: Ledger, r: Ledger)
    requires Consistent(l)
    requires r.users.Keys == l.users.Keys
    requires forall id :: id in r.users ==> 0 <= r.users[id].balance
    ensures Consistent(r)
  {
    assert |r.users| == |l.users| by {
      assert |r.users.Keys| == |l.users.Keys|;
    }
  }

  lemma TransferConsistent(l: Ledger, senderId: string, recipientId: string, amount: int)
    requires Consistent(l)
    ensures Consistent(TransferFunds(l, senderId, recipientId, amount).after)
  {
    var s := TransferFunds(l, senderId, recipientId, amount);
    if s.reply.Ok? {
      SameKeysConsistent(l, s.after);
    }
  }

  lemma DepositConsistent(l: Ledger, userId: string, amount: int)
    requires Consistent(l)
    ensures Consistent(Deposit(l, userId, amount).after)
  {
    var s := Deposit(l, userId, amount);
    if s.reply.Ok? {
      SameKeysConsistent(l, s.after);
    }
  }

  lemma WithdrawConsistent(l: Ledger, userId: string, amount: int)
    requires Consistent(l)
    ensures Consistent(Withdraw(l, userId, amount).after)
  {
    var s := Withdraw(l, userId, amount);
    if s.reply.Ok? {
      SameKeysConsistent(l, s.after);
    }
  }

  /** On a consistent ledger the sentinel -1.0 means exactly "no such user". */
  lemma BalanceUnknownIff(l: Ledger, userId: string)
    requires Consistent(l)
    ensures Balance(l, userId) == UnknownUserBalance <==> userId !in l.users
    ensures userId in l.users ==> 0 <= Balance(l, userId)
  {
  }

  // ---------------------------------------------------------------------
  // Runs of operations

  /** One call on the service. */
  datatype Op =
    | CreateUserOp(username: string)
    | GetBalanceOp(userId: string)
    | TransferOp(senderId: string, recipientId: string, amount: int)
    | DepositOp(userId: string, amount: int)
    | WithdrawOp(userId: string, amount: int)

  /** The ledger after one call. */
  function Next(l: Ledger, op: Op): Ledger
  {
    match op
    case CreateUserOp(name) => CreateUser(l, name)
    case GetBalanceOp(_) => l
    case TransferOp(s, r, a) => TransferFunds(l, s, r, a).after
    case DepositOp(u, a) => Deposit(l, u, a).after
    case WithdrawOp(u, a) => Withdraw(l, u, a).after
  }

  /** The id a reply carries: one on success, none on failure. */
  function TxIds(reply: Reply): seq<nat>
  {
    if reply.Ok? then [reply.tx.transactionId] else []
  }

  /** The transaction ids one call hands out: one on success, none otherwise. */
  function IssuedBy(l: Ledger, op: Op): seq<nat>
  {
    match op
    case CreateUserOp(_) => []
    case GetBalanceOp(_) => []
    case TransferOp(s, r, a) => TxIds(TransferFunds(l, s, r, a).reply)
    case DepositOp(u, a) => TxIds(Deposit(l, u, a).reply)
    case WithdrawOp(u, a) => TxIds(Withdraw(l, u, a).reply)
  }

  /** The ledger after a run of calls, first to last. */
  function Run(l: Ledger, ops: seq<Op>): Ledger
    decreases |ops|
  {
    if ops == [] then l else Run(Next(l, ops[0]), ops[1..])
  }

  /** Every transaction id a run hands out, in order. */
  function Issued(l: Ledger, ops: seq<Op>): seq<nat>
    decreases |ops|
  {
    if ops == [] then [] else IssuedBy(l, ops[0]) + Issued(Next(l, ops[0]), ops[1..])
  }

  lemma NextConsistent(l: Ledger, op: Op)
    requires Consistent(l)
    ensures Consistent(Next(l, op))
  {
    match op
    case CreateUserOp(name) => CreateUserConsistent(l, name);
    case GetBalanceOp(_) =>
    case TransferOp(s, r, a) => TransferConsistent(l, s, r, a);
    case DepositOp(u, a) => DepositConsistent(l, u, a);
    case WithdrawOp(u, a) => WithdrawConsistent(l, u, a);
  }

  /** Any run from a consistent ledger keeps every balance non-negative. */
  lemma {:induction false} RunConsistent(l: Ledger, ops: seq<Op>)
    requires Consistent(l)
    ensures Consistent(Run(l, ops))
    ensures forall id :: id in Run(l, ops).users ==> 0 <= Run(l, ops).users[id].balance
    decreases |ops|
  {
    if ops != [] {
      NextConsistent(l, ops[0]);
      RunConsistent(Next(l, ops[0]), ops[1..]);
    }
  }

  /** Starting from a new service, every balance stays non-negative. */
  lemma BalancesNeverNegative(ops: seq<Op>, id: string)
    requires id in Run(Empty(), ops).users
    ensures 0 <= Run(Empty(), ops).users[id].balance
  {
    RunConsistent(Empty(), ops);
  }

  /** One call bumps the counter once per id it hands out, and hands out the new value. */
  lemma NextCounter(l: Ledger, op: Op)
    ensures Next(l, op).counter == l.counter + |IssuedBy(l, op)|
    ensures IssuedBy(l, op) == [] || IssuedBy(l, op) == [l.counter + 1]
  {
  }

  /**
   * A run hands out the ids that follow the counter, one by one: the k-th
   * successful mutation gets counter + k, and the counter ends at the last.
   */
  lemma {:induction false} IssuedAreConsecutive(l: Ledger, ops: seq<Op>)
    ensures Run(l, ops).counter == l.counter + |Issued(l, ops)|
    ensures forall i :: 0 <= i < |Issued(l, ops)| ==> Issued(l, ops)[i] == l.counter + i + 1
    decreases |ops|
  {
    if ops != [] {
      NextCounter(l, ops[0]);
      IssuedAreConsecutive(Next(l, ops[0]), ops[1..]);
    }
  }

  /** From a new service, the ids are 1, 2, 3, ... and strictly increasing. */
  lemma IssuedStrictlyIncrease(ops: seq<Op>)
    ensures forall i :: 0 <= i < |Issued(Empty(), ops)| ==> Issued(Empty(), ops)[i] == i + 1
    ensures forall i, j :: 0 <= i < j < |Issued(Empty(), ops)| ==> Issued(Empty(), ops)[i] < Issued(Empty(), ops)[j]
    ensures Run(Empty(), ops).counter == |Issued(Empty(), ops)|
  {
    IssuedAreConsecutive(Empty(), ops);
  }

  // ---------------------------------------------------------------------
  // No double spend

  /** Every call in the run withdraws `amount` from `userId`. */
  ghost predicate AllWithdrawals(ops: seq<Op>, userId: string, amount: int)
  {
    forall i :: 0 <= i < |ops| ==> ops[i] == WithdrawOp(userId, amount)
  }

  /**
   * Repeated withdrawals of `amount` from an account holding B succeed at
   * most B / amount times: the successes take exactly k * amount out and
   * never more than B.
   */
  lemma {:induction false} WithdrawalsBounded(l: Ledger, ops: seq<Op>, userId: string, amount: int)
    requires userId in l.users && 0 <= l.users[userId].balance
    requires AllWithdrawals(ops, userId, amount)
    ensures userId in Run(l, ops).users
    ensures Run(l, ops).users[userId].balance == l.users[userId].balance - |Issued(l, ops)| * amount
    ensures 0 <= Run(l, ops).users[userId].balance
    ensures |Issued(l, ops)| * amount <= l.users[userId].balance
    decreases |ops|
  {
    if ops != [] {
      var l' := Next(l, ops[0]);
      assert AllWithdrawals(ops[1..], userId, amount) by {
        forall i | 0 <= i < |ops[1..]| ensures ops[1..][i] == WithdrawOp(userId, amount) {
          assert ops[1..][i] == ops[i + 1];
        }
      }
      assert ops[0] == WithdrawOp(userId, amount);
      assert 0 <= l'.users[userId].balance;
      WithdrawalsBounded(l', ops[1..], userId, amount);
      var k := |Issued(l', ops[1..])|;
      if IssuedBy(l, ops[0]) == [] {
        assert l' == l;
      } else {
        assert l'.users[userId].balance == l.users[userId].balance - amount;
        assert |Issued(l, ops)| == k + 1;
        assert (k + 1) * amount == k * amount + amount;
      }
    }
  }
}

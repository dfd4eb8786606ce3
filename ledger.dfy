/** Balance updates on the `accounts` table, taken as a map from account number
    to row: the two SQL updates `balance = balance + ?` and `balance = balance - ?`,
    the transfer built from them, and the money supply they move. */
module Ledger {
  import opened Records

  type Accounts = map<string, Account>

  /** `UPDATE accounts SET balance = balance + amount WHERE account_number = acc`:
      no row changes when the account does not exist. */
  function Credited(accts: Accounts, acc: string, amount: real): Accounts {
    if acc in accts then accts[acc := accts[acc].(balance := accts[acc].balance + amount)] else accts
  }

  /** `UPDATE accounts SET balance = balance - amount WHERE account_number = acc`. */
  function Debited(accts: Accounts, acc: string, amount: real): Accounts {
    if acc in accts then accts[acc := accts[acc].(balance := accts[acc].balance - amount)] else accts
  }

  /** The two updates of a transfer, in the order the code issues them. */
  function AfterTransfer(accts: Accounts, fromAcc: string, toAcc: string, amount: real): Accounts {
    Credited(Debited(accts, fromAcc, amount), toAcc, amount)
  }

  /** The user holds at least one account (what `SELECT ... WHERE username=? LIMIT 1` finds). */
  predicate OwnsAccount(accts: Accounts, owner: string) {
    exists acc :: acc in accts && accts[acc].owner == owner
  }

  /** The guard `transfer` applies: both accounts exist and the sender's balance is
      not below the amount. The sign of the amount is not looked at. */
  predicate TransferPasses(accts: Accounts, fromAcc: string, toAcc: string, amount: real) {
    fromAcc in accts && toAcc in accts && !(accts[fromAcc].balance < amount)
  }

  /** The outcomes `transfer` reports, one per string it returns. */
  datatype TransferResult = TransferOk | SenderNotFound | TargetNotFound | InsufficientFunds

  const TransferOkText := "Успешно"

  /** The string `transfer` returns for each outcome. */
  function TransferMessage(r: TransferResult): (s: string)
    ensures s == TransferOkText <==> r == TransferOk
  {
    match r
    case TransferOk => TransferOkText
    case SenderNotFound => "Счет отправителя не найден"
    case TargetNotFound => "Счет получателя не найден"
    case InsufficientFunds => "Недостаточно средств"
  }

  /** The two log rows of a transfer: debit side first, both stamped `ts`. */
  function TransferEntries(fromAcc: string, toAcc: string, amount: real, ts: string): seq<Transaction> {
    [ Transaction(fromAcc, TransferOut, amount, "Перевод на " + toAcc, ts),
      Transaction(toAcc, TransferIn, amount, "Перевод от " + fromAcc, ts) ]
  }

  function DepositEntry(acc: string, amount: real, ts: string): Transaction {
    Transaction(acc, Deposit, amount, "Пополнение", ts)
  }

  function LoanEntry(acc: string, amount: real, ts: string): Transaction {
    Transaction(acc, LoanApproved, amount, "Кредитные средства", ts)
  }

  /** Some account of a non-empty table; which one is left unspecified. */
  ghost function SomeAccount(accts: Accounts): (k: string)
    requires accts != map[]
    ensures k in accts
  {
    var k :| k in accts; k
  }

  /** The sum of all balances. */
  ghost function TotalBalance(accts: Accounts): real
    decreases |accts|
  {
    if accts == map[] then 0.0
    else
      var k := SomeAccount(accts);
      assert |accts - {k}| < |accts| by { assert (accts - {k}).Keys == accts.Keys - {k}; }
      accts[k].balance + TotalBalance(accts - {k})
  }

  /** `after` differs from `before` at most in balances: same keys, same owners,
      types and cards. */
  predicate OnlyBalancesDiffer(before: Accounts, after: Accounts) {
    && after.Keys == before.Keys
    && forall k :: k in before ==> after[k] == before[k].(balance := after[k].balance)
  }

  ghost predicate NonNegative(accts: Accounts) {
    forall k :: k in accts ==> accts[k].balance >= 0.0
  }

  /** The sum can be split at any account, not only the one its definition picks. */
  lemma {:induction false} TotalBalanceSplit(accts: Accounts, j: string)
    requires j in accts
    ensures TotalBalance(accts) == accts[j].balance + TotalBalance(accts - {j})
    decreases |accts|
  {
    var k := SomeAccount(accts);
    assert (accts - {k}).Keys == accts.Keys - {k};
    assert TotalBalance(accts) == accts[k].balance + TotalBalance(accts - {k});
    if k != j {
      assert (accts - {j}).Keys == accts.Keys - {j};
      TotalBalanceSplit(accts - {k}, j);
      TotalBalanceSplit(accts - {j}, k);
      assert accts - {k} - {j} == accts - {j} - {k};
    }
  }

  /** Replacing one row changes the sum by exactly the change of its balance. */
  lemma TotalBalanceUpdate(accts: Accounts, j: string, row: Account)
    requires j in accts
    ensures TotalBalance(accts[j := row]) == TotalBalance(accts) - accts[j].balance + row.balance
  {
    TotalBalanceSplit(accts, j);
    TotalBalanceSplit(accts[j := row], j);
    assert accts[j := row] - {j} == accts - {j};
  }

  /** A credit raises exactly the named balance by `amount`; on an unknown account
      it is a no-op. */
  lemma CreditedEffect(accts: Accounts, acc: string, amount: real)
    ensures OnlyBalancesDiffer(accts, Credited(accts, acc, amount))
    ensures acc in accts ==> Credited(accts, acc, amount)[acc].balance == accts[acc].balance + amount
    ensures forall k :: k in accts && k != acc ==> Credited(accts, acc, amount)[k] == accts[k]
  {
  }

  lemma DebitedEffect(accts: Accounts, acc: string, amount: real)
    ensures OnlyBalancesDiffer(accts, Debited(accts, acc, amount))
    ensures acc in accts ==> Debited(accts, acc, amount)[acc].balance == accts[acc].balance - amount
    ensures forall k :: k in accts && k != acc ==> Debited(accts, acc, amount)[k] == accts[k]
  {
  }

  /** A credit adds `amount` to the money in the bank exactly when the account exists. */
  lemma CreditedTotal(accts: Accounts, acc: string, amount: real)
    ensures TotalBalance(Credited(accts, acc, amount)) == TotalBalance(accts) + (if acc in accts then amount else 0.0)
  {
    if acc in accts {
      TotalBalanceUpdate(accts, acc, accts[acc].(balance := accts[acc].balance + amount));
    }
  }

  lemma DebitedTotal(accts: Accounts, acc: string, amount: real)
    ensures TotalBalance(Debited(accts, acc, amount)) == TotalBalance(accts) - (if acc in accts then amount else 0.0)
  {
    if acc in accts {
      TotalBalanceUpdate(accts, acc, accts[acc].(balance := accts[acc].balance - amount));
    }
  }

  /** Between two existing accounts a transfer moves `amount` from one to the other
      and touches no third account; a transfer from an account to itself leaves the
      table as it was. */
  lemma TransferEffect(accts: Accounts, fromAcc: string, toAcc: string, amount: real)
    requires fromAcc in accts && toAcc in accts
    ensures OnlyBalancesDiffer(accts, AfterTransfer(accts, fromAcc, toAcc, amount))
    ensures fromAcc != toAcc ==>
      && AfterTransfer(accts, fromAcc, toAcc, amount)[fromAcc].balance == accts[fromAcc].balance - amount
      && AfterTransfer(accts, fromAcc, toAcc, amount)[toAcc].balance == accts[toAcc].balance + amount
    ensures fromAcc == toAcc ==> AfterTransfer(accts, fromAcc, toAcc, amount) == accts
    ensures forall k :: k in accts && k != fromAcc && k != toAcc ==>
      AfterTransfer(accts, fromAcc, toAcc, amount)[k] == accts[k]
  {
    DebitedEffect(accts, fromAcc, amount);
    CreditedEffect(Debited(accts, fromAcc, amount), toAcc, amount);
    if fromAcc == toAcc {
      assert accts[fromAcc].(balance := accts[fromAcc].balance - amount + amount) == accts[fromAcc];
      assert AfterTransfer(accts, fromAcc, toAcc, amount) == accts;
    }
  }

  /** A transfer between existing accounts keeps the sum of all balances, also when
      both numbers are the same account. */
  lemma TransferConservesTotal(accts: Accounts, fromAcc: string, toAcc: string, amount: real)
    requires fromAcc in accts && toAcc in accts
    ensures TotalBalance(AfterTransfer(accts, fromAcc, toAcc, amount)) == TotalBalance(accts)
  {
    DebitedTotal(accts, fromAcc, amount);
    DebitedEffect(accts, fromAcc, amount);
    CreditedTotal(Debited(accts, fromAcc, amount), toAcc, amount);
  }

  /** A non-negative amount that passes the balance check never leaves the sender
      below zero, whatever the sender held before. */
  lemma TransferSenderNonNegative(accts: Accounts, fromAcc: string, toAcc: string, amount: real)
    requires TransferPasses(accts, fromAcc, toAcc, amount) && amount >= 0.0
    ensures AfterTransfer(accts, fromAcc, toAcc, amount)[fromAcc].balance >= 0.0
  {
    TransferEffect(accts, fromAcc, toAcc, amount);
  }

  /** With a non-negative amount that passes the balance check, no balance of a
      table without overdrafts goes negative. */
  lemma TransferKeepsNonNegative(accts: Accounts, fromAcc: string, toAcc: string, amount: real)
    requires NonNegative(accts)
    requires TransferPasses(accts, fromAcc, toAcc, amount) && amount >= 0.0
    ensures NonNegative(AfterTransfer(accts, fromAcc, toAcc, amount))
  {
    TransferEffect(accts, fromAcc, toAcc, amount);
    var after := AfterTransfer(accts, fromAcc, toAcc, amount);
    forall k | k in after
      ensures after[k].balance >= 0.0
    {
      if fromAcc != toAcc && k == toAcc {
        assert after[k].balance == accts[toAcc].balance + amount;
      }
    }
  }

  /** The balance check alone does not protect the receiver: a negative amount passes
      it and pushes the target account below zero. */
  lemma NegativeTransferOverdrawsTarget()
    ensures exists accts: Accounts, fromAcc, toAcc, amount: real ::
      && NonNegative(accts)
      && TransferPasses(accts, fromAcc, toAcc, amount)
      && AfterTransfer(accts, fromAcc, toAcc, amount)[toAcc].balance < 0.0
  {
    var card := Card("4000000000000000", "100", "01/30");
    var accts := map["KZ2001" := Account("client", "Checking", 10.0, card),
                     "KZ2002" := Account("other", "Checking", 0.0, card)];
    TransferEffect(accts, "KZ2001", "KZ2002", -5.0);
    assert AfterTransfer(accts, "KZ2001", "KZ2002", -5.0)["KZ2002"].balance == -5.0;
  }
}

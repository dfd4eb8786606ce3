/** The rows of the bank's five tables, the card data attached to an account,
    and the sequential account numbering. */
module Records {
  import opened Decimal

  // Role, loan-status and appeal-status values the code writes or compares against.
  const ClientRole := "client"
  const ManagerRole := "manager"
  const AdminRole := "admin"
  const PendingStatus := "pending"
  const ApprovedDecision := "approved"
  const OpenStatus := "open"
  const ResolvedStatus := "resolved"

  datatype Option<T> = None | Some(value: T)

  /** The stored password digest. SHA-256 is abstracted as a constructor: injective
      and otherwise uninterpreted. */
  datatype PasswordHash = Sha256Hex(password: string)

  function HashPassword(password: string): PasswordHash {
    Sha256Hex(password)
  }

  /** A row of `users`. `isBlocked` is the INTEGER column: any value, non-zero means blocked. */
  datatype User = User(
    username: string,
    passwordHash: PasswordHash,
    role: string,
    name: string,
    email: string,
    createdAt: string,
    isBlocked: int)

  datatype Card = Card(number: string, cvv: string, expiry: string)

  /** A row of `accounts` without its key. */
  datatype Account = Account(owner: string, accType: string, balance: real, card: Card)

  datatype TxKind = Deposit | TransferIn | TransferOut | LoanApproved

  /** A row of `transactions`; the AUTOINCREMENT id is the position in the log plus one. */
  datatype Transaction = Transaction(
    account: string,
    kind: TxKind,
    amount: real,
    description: string,
    timestamp: string)

  /** A row of `loans`: amount, term, status and creation date, nothing more. */
  datatype Loan = Loan(username: string, amount: real, termMonths: int, status: string, createdAt: string)

  /** A row of `appeals`. */
  datatype Appeal = Appeal(username: string, message: string, status: string, createdAt: string)

  /** The values the random generator hands to `generate_card_details`: the first
      digit from `choice(['4', '5'])`, fifteen `randint(0, 9)` draws and one `randint(100, 999)`. */
  datatype CardDraw = CardDraw(prefix: char, digits: seq<int>, cvv: int)

  predicate ValidDraw(d: CardDraw) {
    && (d.prefix == '4' || d.prefix == '5')
    && |d.digits| == 15
    && (forall i :: 0 <= i < |d.digits| ==> 0 <= d.digits[i] <= 9)
    && 100 <= d.cvv <= 999
  }

  /** What every generated card satisfies: sixteen digits opening with 4 or 5,
      and a three-digit CVV between 100 and 999. */
  predicate ValidCard(c: Card) {
    && |c.number| == 16
    && (c.number[0] == '4' || c.number[0] == '5')
    && IsDigits(c.number)
    && |c.cvv| == 3
    && IsDigits(c.cvv)
    && 100 <= ParseNat(c.cvv) <= 999
  }

  /** `''.join(str(d) for d in ds)` over single-digit draws. */
  function JoinDigits(ds: seq<int>): (s: string)
    requires forall i :: 0 <= i < |ds| ==> 0 <= ds[i] <= 9
    ensures |s| == |ds|
    ensures forall i :: 0 <= i < |ds| ==> s[i] == DigitChar(ds[i])
  {
    if ds == [] then [] else NatToString(ds[0]) + JoinDigits(ds[1..])
  }

  /** `generate_card_details`, with the random draws and the expiry date as inputs. */
  function GenerateCardDetails(draw: CardDraw, expiry: string): (c: Card)
    requires ValidDraw(draw)
    ensures ValidCard(c)
    ensures c.number[0] == draw.prefix
    ensures forall i :: 0 <= i < 15 ==> c.number[i + 1] == DigitChar(draw.digits[i])
    ensures ParseNat(c.cvv) == draw.cvv && c.expiry == expiry
  {
    ThreeDigits(draw.cvv);
    ParseNatToString(draw.cvv);
    Card([draw.prefix] + JoinDigits(draw.digits), NatToString(draw.cvv), expiry)
  }

  /** The number `create_account` gives the new account when `count` accounts exist. */
  function AccountNumber(count: nat): string {
    "KZ" + NatToString(2000 + count + 1)
  }

  /** The numbers handed out by the first `n` calls of `create_account`. */
  function IssuedNumbers(n: nat): set<string> {
    if n == 0 then {} else IssuedNumbers(n - 1) + {AccountNumber(n - 1)}
  }

  lemma FirstAccountNumber()
    ensures AccountNumber(0) == "KZ2001"
  {
    assert NatToString(2) == "2";
    assert NatToString(20) == "20";
    assert NatToString(200) == "200";
    assert NatToString(2001) == "2001";
  }

  lemma AccountNumberInjective(i: nat, j: nat)
    requires AccountNumber(i) == AccountNumber(j)
    ensures i == j
  {
    assert AccountNumber(i)[2..] == NatToString(2000 + i + 1);
    assert AccountNumber(j)[2..] == NatToString(2000 + j + 1);
    NatToStringInjective(2000 + i + 1, 2000 + j + 1);
  }

  /** After `n` accounts the number of the `m`-th creation is taken exactly when `m < n`. */
  lemma {:induction false} IssuedNumbersMember(n: nat, m: nat)
    ensures AccountNumber(m) in IssuedNumbers(n) <==> m < n
  {
    if n > 0 {
      IssuedNumbersMember(n - 1, m);
      if AccountNumber(m) == AccountNumber(n - 1) {
        AccountNumberInjective(m, n - 1);
      }
    }
  }

  /** The issued numbers are `n` distinct strings, and the next one is fresh. */
  lemma {:induction false} IssuedNumbersFresh(n: nat)
    ensures AccountNumber(n) !in IssuedNumbers(n)
    ensures |IssuedNumbers(n)| == n
  {
    IssuedNumbersMember(n, n);
    if n > 0 {
      IssuedNumbersFresh(n - 1);
    }
  }

  /** Every issued number is `KZ` followed by one of 2001 .. 2000 + n. */
  lemma {:induction false} IssuedNumbersRange(n: nat, k: string)
    requires k in IssuedNumbers(n)
    ensures exists i :: 2001 <= i <= 2000 + n && k == "KZ" + NatToString(i)
  {
    if k != AccountNumber(n - 1) {
      IssuedNumbersRange(n - 1, k);
    } else {
      assert 2001 <= 2000 + (n - 1) + 1 <= 2000 + n;
    }
  }
}

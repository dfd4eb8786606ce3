/** The `Database` object: the five tables held in memory, and one method per
    operation, each a guarded update of those tables. */
module Db {
  import opened Decimal
  import opened Records
  import opened Ledger

  /** The whole content of the store at one moment. */
  datatype DbState = DbState(
    users: map<string, User>,
    accounts: Accounts,
    transactions: seq<Transaction>,
    loans: map<int, Loan>,
    nextLoanId: int,
    appeals: map<int, Appeal>,
    nextAppealId: int)

  /** An entry of the fixed list `seed_data` installs. */
  datatype SeedUser = SeedUser(username: string, password: string, role: string, name: string, email: string)

  const Seeds: seq<SeedUser> := [
    SeedUser("admin1", "admin123", AdminRole, "Мукашев Асет", "admin1@bank.kz"),
    SeedUser("manager", "manager123", ManagerRole, "Менеджер Иван", "manager@bank.kz"),
    SeedUser("client", "client123", ClientRole, "Тестовый Клиент", "client@bank.kz")
  ]

  /** The account type `create_user` opens for a new client. */
  const RegisteredAccountType := "Текущий"
  /** The account type `seed_data` opens for the seeded client. */
  const SeedAccountType := "Checking"

  /** The row `INSERT INTO users VALUES (?, ?, ?, ?, ?, ?, 0)` writes. */
  function NewUser(username: string, password: string, role: string, name: string, email: string, now: string): User {
    User(username, HashPassword(password), role, name, email, now, 0)
  }

  /** The row `create_account` inserts: zero balance and freshly generated card data. */
  function NewAccount(owner: string, accType: string, draw: CardDraw, expiry: string): Account
    requires ValidDraw(draw)
  {
    Account(owner, accType, 0.0, GenerateCardDetails(draw, expiry))
  }

  /** Account numbers are exactly KZ2001 .. KZ(2000 + n) for n accounts. */
  predicate SequentiallyNumbered(accts: Accounts) {
    accts.Keys == IssuedNumbers(|accts|)
  }

  predicate CardsValid(accts: Accounts) {
    forall a :: a in accts ==> ValidCard(accts[a].card)
  }

  /** Balance updates keep the numbering and the cards. */
  lemma BalanceUpdateKeepsShape(before: Accounts, after: Accounts)
    requires OnlyBalancesDiffer(before, after)
    requires SequentiallyNumbered(before) && CardsValid(before)
    ensures SequentiallyNumbered(after) && CardsValid(after)
  {
    assert |after| == |after.Keys| == |before.Keys| == |before|;
    forall a | a in after
      ensures ValidCard(after[a].card)
    {
      assert after[a].card == before[a].card;
    }
  }

  /** Adding an account under the next number keeps the numbering, and that number
      was not in use. */
  lemma AddAccountKeepsNumbering(accts: Accounts, row: Account)
    requires SequentiallyNumbered(accts)
    ensures AccountNumber(|accts|) !in accts
    ensures SequentiallyNumbered(accts[AccountNumber(|accts|) := row])
  {
    var n := |accts|;
    IssuedNumbersFresh(n);
    var after := accts[AccountNumber(n) := row];
    assert after.Keys == accts.Keys + {AccountNumber(n)};
    assert |after| == n + 1;
  }

  /** Storing a row with a well-formed card keeps every card well formed. */
  lemma StoreKeepsCards(accts: Accounts, k: string, row: Account)
    requires CardsValid(accts) && ValidCard(row.card)
    ensures CardsValid(accts[k := row])
  {
  }

  predicate IdsBelow<T>(rows: map<int, T>, next: int) {
    forall id :: id in rows ==> 1 <= id < next
  }

  /** What every operation keeps: account numbers are exactly KZ2001 .. KZ(2000 + n),
      every card is well formed, user rows sit under their own name, and each id
      counter lies above every id in use. */
  predicate ValidState(st: DbState) {
    && SequentiallyNumbered(st.accounts)
    && CardsValid(st.accounts)
    && (forall u :: u in st.users ==> st.users[u].username == u)
    && st.nextLoanId >= 1 && IdsBelow(st.loans, st.nextLoanId)
    && st.nextAppealId >= 1 && IdsBelow(st.appeals, st.nextAppealId)
  }

  function SeedRow(u: SeedUser, now: string): User {
    NewUser(u.username, u.password, u.role, u.name, u.email, now)
  }

  /** One pass of the `seed_data` loop on `users`: a name that exists is skipped. */
  function SeedUsersStep(users: map<string, User>, u: SeedUser, now: string): map<string, User> {
    if u.username in users then users else users[u.username := SeedRow(u, now)]
  }

  /** The same pass on `accounts`, given the users before it: a client that was
      inserted gets an account numbered from the current count. */
  function SeedAccountsStep(users: map<string, User>, accts: Accounts, u: SeedUser, draw: CardDraw, expiry: string): Accounts
    requires ValidDraw(draw)
  {
    if u.username !in users && u.role == ClientRole
    then accts[AccountNumber(|accts|) := NewAccount(u.username, SeedAccountType, draw, expiry)]
    else accts
  }

  /** `users` after the first `n` passes of the loop. */
  function SeededUsers(users: map<string, User>, n: nat, now: string): map<string, User>
    requires n <= |Seeds|
  {
    if n == 0 then users else SeedUsersStep(SeededUsers(users, n - 1, now), Seeds[n - 1], now)
  }

  /** `accounts` after the first `n` passes, starting from `users` and `accts`. */
  function SeededAccounts(users: map<string, User>, accts: Accounts, n: nat, draw: CardDraw, expiry: string, now: string): Accounts
    requires n <= |Seeds| && ValidDraw(draw)
  {
    if n == 0 then accts
    else SeedAccountsStep(SeededUsers(users, n - 1, now), SeededAccounts(users, accts, n - 1, draw, expiry, now), Seeds[n - 1], draw, expiry)
  }

  /** The names of the first `n` fixed users. */
  function SeedNames(n: nat): set<string>
    requires n <= |Seeds|
  {
    set i | 0 <= i < n :: Seeds[i].username
  }

  /** The fixed list: three distinct names, and only the last one is a client. */
  lemma SeedsFacts()
    ensures |Seeds| == 3
    ensures Seeds[0].role != ClientRole && Seeds[1].role != ClientRole && Seeds[2].role == ClientRole
    ensures Seeds[2].username == "client"
    ensures forall i, j :: 0 <= i < j < |Seeds| ==> Seeds[i].username != Seeds[j].username
    ensures SeedNames(|Seeds|) == {"admin1", "manager", "client"}
  {
    assert SeedNames(3) == {Seeds[0].username, Seeds[1].username, Seeds[2].username};
  }

  /** After the first `n` passes exactly the fixed names among the first `n` have
      been added, and every existing row is kept. */
  lemma SeededUsersKeys(users: map<string, User>, n: nat, now: string)
    requires n <= |Seeds|
    ensures SeededUsers(users, n, now).Keys == users.Keys + SeedNames(n)
    ensures forall k :: k in users ==> SeededUsers(users, n, now)[k] == users[k]
  {
    SeededUsersDomain(users, n, now);
    SeededUsersKept(users, n, now);
  }

  lemma {:induction false} SeededUsersDomain(users: map<string, User>, n: nat, now: string)
    requires n <= |Seeds|
    ensures SeededUsers(users, n, now).Keys == users.Keys + SeedNames(n)
  {
    if n > 0 {
      SeededUsersDomain(users, n - 1, now);
      assert SeedNames(n) == SeedNames(n - 1) + {Seeds[n - 1].username};
    }
  }

  lemma {:induction false} SeededUsersKept(users: map<string, User>, n: nat, now: string)
    requires n <= |Seeds|
    ensures forall k :: k in users ==> k in SeededUsers(users, n, now) && SeededUsers(users, n, now)[k] == users[k]
  {
    if n > 0 {
      SeededUsersKept(users, n - 1, now);
    }
  }

  /** After the first `n` passes the `i`-th fixed user, if it was missing, holds the
      row built from its list entry. */
  lemma {:induction false} SeededUsersRow(users: map<string, User>, n: nat, i: nat, now: string)
    requires i < n <= |Seeds| && Seeds[i].username !in users
    ensures Seeds[i].username in SeededUsers(users, n, now)
    ensures SeededUsers(users, n, now)[Seeds[i].username] == SeedRow(Seeds[i], now)
  {
    if i == n - 1 {
      SeededUsersDomain(users, n - 1, now);
      SeedsFacts();
      assert Seeds[i].username !in SeedNames(n - 1);
    } else {
      SeededUsersRow(users, n - 1, i, now);
    }
  }

  /** A pass on `accounts` looks at the users only to ask whether the name is taken. */
  lemma SeedAccountsStepByName(users1: map<string, User>, users2: map<string, User>, accts: Accounts, u: SeedUser,
                               draw: CardDraw, expiry: string)
    requires ValidDraw(draw)
    requires (u.username in users1) == (u.username in users2)
    ensures SeedAccountsStep(users1, accts, u, draw, expiry) == SeedAccountsStep(users2, accts, u, draw, expiry)
  {
  }

  /** The passes before the client's leave `accounts` alone. */
  lemma {:induction false} SeededAccountsBeforeClient(users: map<string, User>, accts: Accounts, n: nat,
                                                       draw: CardDraw, expiry: string, now: string)
    requires n < |Seeds| && ValidDraw(draw)
    ensures SeededAccounts(users, accts, n, draw, expiry, now) == accts
  {
    if n > 0 {
      SeedsFacts();
      SeededAccountsBeforeClient(users, accts, n - 1, draw, expiry, now);
    }
  }

  /** The whole loop does to `accounts` what the client's pass alone does on the
      original tables: one account exactly when the client was missing. */
  lemma SeededAccountsEffect(users: map<string, User>, accts: Accounts, draw: CardDraw, expiry: string, now: string)
    requires ValidDraw(draw)
    ensures SeededAccounts(users, accts, |Seeds|, draw, expiry, now) ==
      SeedAccountsStep(users, accts, Seeds[|Seeds| - 1], draw, expiry)
  {
    var last := |Seeds| - 1;
    var before := SeededUsers(users, last, now);
    SeededAccountsBeforeClient(users, accts, last, draw, expiry, now);
    assert SeededAccounts(users, accts, |Seeds|, draw, expiry, now) == SeedAccountsStep(before, accts, Seeds[last], draw, expiry);
    SeededUsersKeys(users, last, now);
    SeedsFacts();
    assert Seeds[last].username !in SeedNames(last);
    SeedAccountsStepByName(before, users, accts, Seeds[last], draw, expiry);
  }

  /** Seeding the whole list adds exactly the missing fixed users, keeps every existing
      row, and opens a first account for the client only when the client was missing. */
  lemma SeedDataEffect(users: map<string, User>, accts: Accounts, draw: CardDraw, expiry: string, now: string)
    requires ValidDraw(draw)
    ensures SeededUsers(users, |Seeds|, now).Keys == users.Keys + {"admin1", "manager", "client"}
    ensures forall u :: u in users ==> SeededUsers(users, |Seeds|, now)[u] == users[u]
    ensures forall i :: 0 <= i < |Seeds| && Seeds[i].username !in users ==>
      SeededUsers(users, |Seeds|, now)[Seeds[i].username] == SeedRow(Seeds[i], now)
    ensures SeededAccounts(users, accts, |Seeds|, draw, expiry, now) ==
      if "client" in users then accts
      else accts[AccountNumber(|accts|) := NewAccount("client", SeedAccountType, draw, expiry)]
  {
    SeedsFacts();
    SeededUsersKeys(users, |Seeds|, now);
    forall i | 0 <= i < |Seeds| && Seeds[i].username !in users
      ensures SeededUsers(users, |Seeds|, now)[Seeds[i].username] == SeedRow(Seeds[i], now)
    {
      SeededUsersRow(users, |Seeds|, i, now);
    }
    SeededAccountsEffect(users, accts, draw, expiry, now);
  }

  /** Seeding empty tables, as the constructor does: the three fixed users, and the
      client's account KZ2001. */
  lemma SeededFromEmpty(draw: CardDraw, expiry: string, now: string)
    requires ValidDraw(draw)
    ensures SeededUsers(map[], |Seeds|, now).Keys == {"admin1", "manager", "client"}
    ensures forall i :: 0 <= i < |Seeds| ==>
      Seeds[i].username in SeededUsers(map[], |Seeds|, now) && SeededUsers(map[], |Seeds|, now)[Seeds[i].username] == SeedRow(Seeds[i], now)
    ensures SeededAccounts(map[], map[], |Seeds|, draw, expiry, now) == map["KZ2001" := NewAccount("client", SeedAccountType, draw, expiry)]
  {
    SeedDataEffect(map[], map[], draw, expiry, now);
    FirstAccountNumber();
  }

  /** When every fixed user already exists, seeding changes neither table. */
  lemma {:induction false} SeededWhenPresent(users: map<string, User>, accts: Accounts, n: nat,
                                              draw: CardDraw, expiry: string, now: string)
    requires n <= |Seeds| && ValidDraw(draw)
    requires forall i :: 0 <= i < |Seeds| ==> Seeds[i].username in users
    ensures SeededUsers(users, n, now) == users
    ensures SeededAccounts(users, accts, n, draw, expiry, now) == accts
  {
    if n > 0 {
      SeededWhenPresent(users, accts, n - 1, draw, expiry, now);
    }
  }

  /** Seeding twice is the same as seeding once: the skip-if-exists check makes the
      second pass a no-op. */
  lemma SeedIdempotent(users: map<string, User>, accts: Accounts, draw: CardDraw, expiry: string, now: string)
    requires ValidDraw(draw)
    ensures SeededUsers(SeededUsers(users, |Seeds|, now), |Seeds|, now) == SeededUsers(users, |Seeds|, now)
    ensures SeededAccounts(SeededUsers(users, |Seeds|, now), SeededAccounts(users, accts, |Seeds|, draw, expiry, now),
                           |Seeds|, draw, expiry, now)
         == SeededAccounts(users, accts, |Seeds|, draw, expiry, now)
  {
    SeedsFacts();
    SeededUsersKeys(users, |Seeds|, now);
    var once := SeededUsers(users, |Seeds|, now);
    assert forall i :: 0 <= i < |Seeds| ==> Seeds[i].username in once by {
      forall i | 0 <= i < |Seeds|
        ensures Seeds[i].username in once
      {
        assert Seeds[i].username in SeedNames(|Seeds|);
      }
    }
    SeededWhenPresent(once, SeededAccounts(users, accts, |Seeds|, draw, expiry, now), |Seeds|, draw, expiry, now);
  }

  /** Filing a loan under the next id keeps the invariant, and that id was free. */
  lemma NewLoanKeepsValid(st: DbState, loan: Loan)
    requires ValidState(st)
    ensures st.nextLoanId !in st.loans
    ensures ValidState(st.(loans := st.loans[st.nextLoanId := loan], nextLoanId := st.nextLoanId + 1))
  {
  }

  /** Filing an appeal under the next id keeps the invariant, and that id was free. */
  lemma NewAppealKeepsValid(st: DbState, appeal: Appeal)
    requires ValidState(st)
    ensures st.nextAppealId !in st.appeals
    ensures ValidState(st.(appeals := st.appeals[st.nextAppealId := appeal], nextAppealId := st.nextAppealId + 1))
  {
  }

  /** Changing balances, and appending to the log, keeps the invariant. */
  lemma NewBalancesKeepValid(st: DbState, accts: Accounts, log: seq<Transaction>)
    requires ValidState(st) && OnlyBalancesDiffer(st.accounts, accts)
    ensures ValidState(st.(accounts := accts, transactions := log))
  {
    BalanceUpdateKeepsShape(st.accounts, accts);
  }

  class Database {
    var users: map<string, User>
    var accounts: Accounts
    var transactions: seq<Transaction>
    var loans: map<int, Loan>
    var nextLoanId: int
    var appeals: map<int, Appeal>
    var nextAppealId: int

    function State(): DbState
      reads this
    {
      DbState(users, accounts, transactions, loans, nextLoanId, appeals, nextAppealId)
    }

    predicate Valid()
      reads this
    {
      ValidState(State())
    }

    /** `Database()` on its first start, when `create_tables` has just made the tables
        and they are empty; `seed_data` then inserts all three fixed users and the
        client's account KZ2001. A later start is `SeedData` on the stored tables. */
    constructor (draw: CardDraw, expiry: string, now: string)
      requires ValidDraw(draw)
      ensures Valid()
      ensures users.Keys == {"admin1", "manager", "client"}
      ensures forall i :: 0 <= i < |Seeds| ==> Seeds[i].username in users && users[Seeds[i].username] == SeedRow(Seeds[i], now)
      ensures accounts == map["KZ2001" := NewAccount("client", SeedAccountType, draw, expiry)]
      ensures transactions == [] && loans == map[] && appeals == map[]
    {
      users, accounts, transactions := map[], map[], [];
      loans, nextLoanId, appeals, nextAppealId := map[], 1, map[], 1;
      new;
      SeedData(draw, expiry, now);
      SeededFromEmpty(draw, expiry, now);
    }

    /** `get_user`: the row whose name and password digest both match. */
    function GetUser(username: string, password: string): (r: Option<User>)
      reads this
      ensures r.Some? <==> username in users && users[username].passwordHash == HashPassword(password)
      ensures r.Some? ==> r.value == users[username]
    {
      if username in users && users[username].passwordHash == HashPassword(password)
      then Some(users[username]) else None
    }

    /** `get_user_by_name`. */
    function GetUserByName(username: string): (r: Option<User>)
      reads this
      ensures r.Some? <==> username in users
      ensures r.Some? ==> r.value == users[username]
    {
      if username in users then Some(users[username]) else None
    }

    /** A name logs in with one password only: the one whose digest is stored. */
    lemma OnlyStoredPasswordLogsIn(username: string, p: string, q: string)
      requires GetUser(username, p).Some? && GetUser(username, q).Some?
      ensures p == q
      ensures users[username].passwordHash == HashPassword(p)
    {
    }

    /** A successful login returns the very row `get_user_by_name` finds, and in a
        valid store that row carries the name it was found under. */
    lemma LoginFindsNamedRow(username: string, password: string)
      requires Valid() && GetUser(username, password).Some?
      ensures GetUserByName(username) == GetUser(username, password)
      ensures GetUser(username, password).value.username == username
    {
    }

    /** `seed_data`: walks the fixed list, inserting each user only if no row of that
        name exists yet; an inserted client also gets a first account. */
    method SeedData(draw: CardDraw, expiry: string, now: string)
      requires Valid() && ValidDraw(draw)
      modifies this
      ensures Valid()
      ensures users == SeededUsers(old(users), |Seeds|, now)
      ensures accounts == SeededAccounts(old(users), old(accounts), |Seeds|, draw, expiry, now)
      ensures State() == old(State()).(users := users, accounts := accounts)
    {
      var i := 0;
      while i < |Seeds|
        invariant 0 <= i <= |Seeds|
        invariant Valid()
        invariant users == SeededUsers(old(users), i, now)
        invariant accounts == SeededAccounts(old(users), old(accounts), i, draw, expiry, now)
        invariant State() == old(State()).(users := users, accounts := accounts)
      {
        SeedOne(Seeds[i], draw, expiry, now);
        i := i + 1;
      }
    }

    /** The body of the `seed_data` loop for one fixed user. */
    method SeedOne(u: SeedUser, draw: CardDraw, expiry: string, now: string)
      requires Valid() && ValidDraw(draw)
      modifies this
      ensures Valid()
      ensures users == SeedUsersStep(old(users), u, now)
      ensures accounts == SeedAccountsStep(old(users), old(accounts), u, draw, expiry)
      ensures State() == old(State()).(users := users, accounts := accounts)
    {
      if u.username in users {
        return;
      }
      InsertUser(SeedRow(u, now));
      if u.role == ClientRole {
        var _ := CreateAccount(u.username, SeedAccountType, draw, expiry);
      }
    }

    /** The `INSERT INTO users` both `seed_data` and `create_user` issue, for a name
        not yet taken. */
    method InsertUser(row: User)
      requires Valid() && row.username !in users
      modifies this
      ensures Valid()
      ensures State() == old(State()).(users := old(users)[row.username := row])
    {
      ghost var st := State();
      users := users[row.username := row];
      assert State() == st.(users := users);
    }

    /** `create_user`: fails, changing nothing, when the name is taken (the primary-key
        violation is caught and the insert rolled back); otherwise inserts the user
        unblocked and, for a client, opens one account of the registration type. */
    method CreateUser(username: string, password: string, role: string, name: string, email: string,
                      now: string, draw: CardDraw, expiry: string) returns (ok: bool)
      requires Valid() && ValidDraw(draw)
      modifies this
      ensures Valid()
      ensures ok <==> username !in old(users)
      ensures !ok ==> State() == old(State())
      ensures ok ==> users == old(users)[username := NewUser(username, password, role, name, email, now)]
      ensures ok && role == ClientRole ==>
        accounts == old(accounts)[AccountNumber(|old(accounts)|) := NewAccount(username, RegisteredAccountType, draw, expiry)]
      ensures !(ok && role == ClientRole) ==> accounts == old(accounts)
      ensures State() == old(State()).(users := users, accounts := accounts)
    {
      if username in users {
        return false;
      }
      InsertUser(NewUser(username, password, role, name, email, now));
      if role == ClientRole {
        var _ := CreateAccount(username, RegisteredAccountType, draw, expiry);
      }
      ok := true;
    }

    /** `set_block_status`: writes `status` into the named user's flag, if that user exists. */
    method SetBlockStatus(username: string, status: int)
      requires Valid()
      modifies this
      ensures Valid()
      ensures State() == old(State()).(users :=
        if username in old(users) then old(users)[username := old(users)[username].(isBlocked := status)]
        else old(users))
    {
      ghost var st := State();
      if username in users {
        users := users[username := users[username].(isBlocked := status)];
      }
      assert State() == st.(users := users);
    }

    /** `create_account`: numbers the account from the current count, as
        `"KZ" + str(2000 + count + 1)`, which is never a number already in use. */
    method CreateAccount(username: string, accType: string, draw: CardDraw, expiry: string) returns (accNum: string)
      requires Valid() && ValidDraw(draw)
      modifies this
      ensures Valid()
      ensures accNum == AccountNumber(|old(accounts)|) && accNum !in old(accounts)
      ensures State() == old(State()).(accounts := old(accounts)[accNum := NewAccount(username, accType, draw, expiry)])
    {
      ghost var st := State();
      accNum := AccountNumber(|accounts|);
      AddAccountKeepsNumbering(accounts, NewAccount(username, accType, draw, expiry));
      StoreKeepsCards(accounts, accNum, NewAccount(username, accType, draw, expiry));
      accounts := accounts[accNum := NewAccount(username, accType, draw, expiry)];
      assert State() == st.(accounts := accounts);
    }

    /** `transfer`: the sender, then the target, then the sender's balance is checked,
        and a failed check changes nothing; on success the sender is debited, the target
        credited, and a TRANSFER_OUT then a TRANSFER_IN row are logged with one timestamp.
        The amount itself is not checked. */
    method Transfer(fromAcc: string, toAcc: string, amount: real, now: string) returns (r: TransferResult)
      requires Valid()
      modifies this
      ensures Valid()
      ensures fromAcc !in old(accounts) ==> r == SenderNotFound
      ensures fromAcc in old(accounts) && toAcc !in old(accounts) ==> r == TargetNotFound
      ensures fromAcc in old(accounts) && toAcc in old(accounts) && old(accounts)[fromAcc].balance < amount ==>
        r == InsufficientFunds
      ensures r == TransferOk <==> TransferPasses(old(accounts), fromAcc, toAcc, amount)
      ensures r != TransferOk ==> State() == old(State())
      ensures r == TransferOk ==> State() == old(State()).(
        accounts := AfterTransfer(old(accounts), fromAcc, toAcc, amount),
        transactions := old(transactions) + TransferEntries(fromAcc, toAcc, amount, now))
    {
      if fromAcc !in accounts { return SenderNotFound; }
      if toAcc !in accounts { return TargetNotFound; }
      if accounts[fromAcc].balance < amount { return InsufficientFunds; }
      ghost var st := State();
      TransferEffect(accounts, fromAcc, toAcc, amount);
      BalanceUpdateKeepsShape(accounts, AfterTransfer(accounts, fromAcc, toAcc, amount));
      accounts := AfterTransfer(accounts, fromAcc, toAcc, amount);
      transactions := transactions + TransferEntries(fromAcc, toAcc, amount, now);
      r := TransferOk;
      assert State() == st.(accounts := accounts, transactions := transactions);
    }

    /** `deposit`: credits the account, unchecked, and always logs one DEPOSIT row;
        an unknown account number changes no balance but is still logged. */
    method Deposit(accNum: string, amount: real, now: string)
      requires Valid()
      modifies this
      ensures Valid()
      ensures State() == old(State()).(
        accounts := Credited(old(accounts), accNum, amount),
        transactions := old(transactions) + [DepositEntry(accNum, amount, now)])
    {
      ghost var st := State();
      CreditedEffect(accounts, accNum, amount);
      NewBalancesKeepValid(st, Credited(accounts, accNum, amount), transactions + [DepositEntry(accNum, amount, now)]);
      accounts := Credited(accounts, accNum, amount);
      transactions := transactions + [DepositEntry(accNum, amount, now)];
      assert State() == st.(accounts := accounts, transactions := transactions);
    }

    /** `request_loan`: inserts one loan under a fresh id, with status `pending`; no money moves. */
    method RequestLoan(username: string, amount: real, months: int, today: string)
      requires Valid()
      modifies this
      ensures Valid()
      ensures old(nextLoanId) !in old(loans)
      ensures State() == old(State()).(
        loans := old(loans)[old(nextLoanId) := Loan(username, amount, months, PendingStatus, today)],
        nextLoanId := old(nextLoanId) + 1)
    {
      ghost var st := State();
      NewLoanKeepsValid(st, Loan(username, amount, months, PendingStatus, today));
      loans := loans[nextLoanId := Loan(username, amount, months, PendingStatus, today)];
      nextLoanId := nextLoanId + 1;
      assert State() == st.(loans := loans, nextLoanId := nextLoanId);
    }

    /** `process_loan`: an unknown id returns false and changes nothing. Otherwise the
        status becomes `decision`, whatever it was, and on `approved` the borrower's
        account is credited as `CreditLoan` describes. */
    method ProcessLoan(loanId: int, decision: string, now: string) returns (found: bool, ghost credited: Option<string>)
      requires Valid()
      modifies this
      ensures Valid()
      ensures found <==> loanId in old(loans)
      ensures !found ==> State() == old(State())
      ensures found ==> loans == old(loans)[loanId := old(loans)[loanId].(status := decision)]
      ensures credited.Some? <==>
        found && decision == ApprovedDecision && OwnsAccount(old(accounts), old(loans)[loanId].username)
      ensures credited.Some? ==>
        && credited.value in old(accounts)
        && old(accounts)[credited.value].owner == old(loans)[loanId].username
        && accounts == Credited(old(accounts), credited.value, old(loans)[loanId].amount)
        && transactions == old(transactions) + [LoanEntry(credited.value, old(loans)[loanId].amount, now)]
      ensures credited.None? ==> accounts == old(accounts) && transactions == old(transactions)
      ensures State() == old(State()).(loans := loans, accounts := accounts, transactions := transactions)
    {
      if loanId !in loans { return false, None; }
      ghost var st := State();
      var loan := loans[loanId];
      loans := loans[loanId := loan.(status := decision)];
      credited := None;
      if decision == ApprovedDecision {
        credited := CreditLoan(loan.username, loan.amount, now);
      }
      found := true;
      assert State() == st.(loans := loans, accounts := accounts, transactions := transactions);
    }

    /** The approval step of `process_loan`: one account of `owner` (any one, as
        `LIMIT 1` without an order picks), reported in `credited`, receives `amount`
        and a LOAN_APPROVED row is logged; an owner without accounts changes nothing. */
    method CreditLoan(owner: string, amount: real, now: string) returns (ghost credited: Option<string>)
      requires Valid()
      modifies this
      ensures Valid()
      ensures credited.Some? <==> OwnsAccount(old(accounts), owner)
      ensures credited.Some? ==>
        && credited.value in old(accounts) && old(accounts)[credited.value].owner == owner
        && State() == old(State()).(
             accounts := Credited(old(accounts), credited.value, amount),
             transactions := old(transactions) + [LoanEntry(credited.value, amount, now)])
      ensures credited.None? ==> State() == old(State())
    {
      credited := None;
      if acc :| acc in accounts && accounts[acc].owner == owner {
        ghost var st := State();
        CreditedEffect(accounts, acc, amount);
        NewBalancesKeepValid(st, Credited(accounts, acc, amount), transactions + [LoanEntry(acc, amount, now)]);
        accounts := Credited(accounts, acc, amount);
        transactions := transactions + [LoanEntry(acc, amount, now)];
        credited := Some(acc);
        assert State() == st.(accounts := accounts, transactions := transactions);
      }
    }

    /** `create_appeal`: inserts one open appeal under a fresh id. */
    method CreateAppeal(username: string, message: string, now: string)
      requires Valid()
      modifies this
      ensures Valid()
      ensures old(nextAppealId) !in old(appeals)
      ensures State() == old(State()).(
        appeals := old(appeals)[old(nextAppealId) := Appeal(username, message, OpenStatus, now)],
        nextAppealId := old(nextAppealId) + 1)
    {
      ghost var st := State();
      NewAppealKeepsValid(st, Appeal(username, message, OpenStatus, now));
      appeals := appeals[nextAppealId := Appeal(username, message, OpenStatus, now)];
      nextAppealId := nextAppealId + 1;
      assert State() == st.(appeals := appeals, nextAppealId := nextAppealId);
    }

    /** `resolve_appeal`: marks the appeal resolved and clears the named user's flag,
        both in one step; the user need not be the appeal's author, and either update
        is a no-op when its row does not exist. */
    method ResolveAppeal(appealId: int, username: string)
      requires Valid()
      modifies this
      ensures Valid()
      ensures State() == old(State()).(
        appeals := if appealId in old(appeals) then old(appeals)[appealId := old(appeals)[appealId].(status := ResolvedStatus)]
                   else old(appeals),
        users := if username in old(users) then old(users)[username := old(users)[username].(isBlocked := 0)]
                 else old(users))
    {
      ghost var st := State();
      if appealId in appeals {
        appeals := appeals[appealId := appeals[appealId].(status := ResolvedStatus)];
      }
      if username in users {
        users := users[username := users[username].(isBlocked := 0)];
      }
      assert State() == st.(appeals := appeals, users := users);
    }
  }
}

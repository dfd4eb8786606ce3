# Bank demo: the store and the request decisions, in Dafny

This project models the core of a small Flask banking demo: the `Database` class
of `db.py` and the decision logic of the routes in `app.py`.

The SQLite tables become the fields of one class `Db.Database`:
- `users` and `accounts` are maps keyed by username and account number;
- `transactions` is an append-only sequence;
- `loans` and `appeals` are maps keyed by integer id, each with its next-id counter
  standing in for `AUTOINCREMENT`.

Every store method is a guarded update of those fields. Each method's contract states
the whole new state relative to the old one, through the snapshot `State()`. Every
method keeps the invariant `Valid()`:
- the account numbers are exactly `KZ2001 .. KZ(2000+n)`;
- every card is well formed;
- user rows sit under their own name;
- the id counters lie above every id in use.

The pure parts are functions with their own lemmas:
- balance arithmetic (module `Ledger`), with conservation of the sum of all balances;
- account numbering and card generation (module `Records`);
- decimal spelling of numbers (module `Decimal`), with a parse round trip that gives
  injectivity and so the freshness of each new account number.

The routes (module `App`) return outcome values: a redirect, a template, a 403 body,
or an uncaught exception. Handlers that change the session are methods on a
`Session` class holding the session map.

Modules: `Decimal` (decimal.dfy), `Records` (records.dfy), `Ledger` (ledger.dfy),
`Db` (db.dfy), `App` (app.dfy).

## Model

| member | source | states |
|---|---|---|
| Decimal.NatToString | db.py:28 | `str(n)` of a natural is a non-empty digit string without a leading zero |
| Decimal.ParseNatToString | db.py:28 | reading the digits `str(n)` wrote gives back n |
| Decimal.NatToStringInjective | db.py:130 | different numbers never get the same spelling, so account numbers built from different counts differ |
| Decimal.ThreeDigits | db.py:27-28 | a CVV drawn from 100..999 is written with exactly three digits |
| Decimal.DigitValue | db.py:24 | a digit character denotes a value below 10 whose character is that digit |
| Records.JoinDigits | db.py:24 | joining fifteen single-digit draws gives fifteen characters, each the digit of its draw |
| Records.GenerateCardDetails | db.py:21-34 | the card number has 16 digits, opens with the drawn 4 or 5 and carries the drawn digits; the CVV is three digits denoting the drawn value in 100..999; the expiry is the given date |
| Records.FirstAccountNumber | db.py:129-130 | the first account ever created is numbered KZ2001 |
| Records.AccountNumberInjective | db.py:130 | two counts give the same account number only if they are equal |
| Records.IssuedNumbersMember | db.py:129-130 | after n creations the number for count m is taken exactly when m < n |
| Records.IssuedNumbersFresh | db.py:129-136 | the next number is never among the n issued ones, and these are n distinct strings |
| Records.IssuedNumbersRange | db.py:130 | every issued number is KZ followed by one of 2001 .. 2000+n |
| Ledger.TransferMessage | db.py:159-174 | the result string is the success text exactly for a successful transfer |
| Ledger.CreditedEffect | db.py:178 | `balance = balance + amount` raises exactly that account by amount, changes no other row or field, and is a no-op on an unknown number |
| Ledger.DebitedEffect | db.py:164 | `balance = balance - amount` lowers exactly that account by amount and changes nothing else |
| Ledger.CreditedTotal | db.py:178 | a credit adds amount to the sum of all balances exactly when the account exists |
| Ledger.DebitedTotal | db.py:164 | a debit removes amount from the sum of all balances exactly when the account exists |
| Ledger.TotalBalanceSplit | db.py:164-165 | the sum of all balances splits at any account |
| Ledger.TotalBalanceUpdate | db.py:164-165 | replacing one row changes the sum by exactly the change of its balance |
| Ledger.TransferEffect | db.py:163-165 | between two existing accounts the sender loses amount, the target gains it, no third account changes, and a self-transfer changes nothing |
| Ledger.TransferConservesTotal | db.py:163-165 | a transfer keeps the sum of all balances, also from an account to itself |
| Ledger.TransferSenderNonNegative | db.py:161-164 | a non-negative amount that passes the balance check leaves the sender at or above zero |
| Ledger.TransferKeepsNonNegative | db.py:161-165 | with a non-negative amount, a table without negative balances keeps none after a passing transfer |
| Ledger.NegativeTransferOverdrawsTarget | db.py:161 | the balance check lets a negative amount through, and it pushes the target below zero |
| Db.BalanceUpdateKeepsShape | db.py:164-165 | changing balances keeps the numbering and the cards |
| Db.AddAccountKeepsNumbering | db.py:129-136 | inserting under `KZ{2000+count+1}` keeps the numbering KZ2001 .. KZ(2000+n), and that number was free |
| Db.SeedsFacts | db.py:76-80 | the fixed list holds admin1, manager and client, with distinct names, and only client has the client role |
| Db.SeededUsersKeys | db.py:83-87 | after the first n passes of the seeding loop exactly the fixed names among the first n are added, and existing rows are kept |
| Db.SeededUsersRow | db.py:84-87 | a fixed user that was missing holds the unblocked row built from its entry, with the hashed password |
| Db.SeededAccountsBeforeClient | db.py:88-89 | the passes for non-client entries open no account |
| Db.SeededAccountsEffect | db.py:84-89 | the whole loop opens a Checking account for client exactly when client was missing |
| Db.SeedDataEffect | db.py:75-89 | seeding adds exactly the missing fixed users, keeps existing rows, and opens the client's account only when the client was missing |
| Db.SeededFromEmpty | db.py:7-10 | seeding empty tables gives the three fixed users and the single account KZ2001 owned by client |
| Db.SeededWhenPresent | db.py:84 | when every fixed user exists, seeding changes neither table |
| Db.SeedIdempotent | db.py:83-89 | seeding twice gives the same tables as seeding once |
| Db.Database.constructor | db.py:7-10 | a new store holds the three fixed users, the account KZ2001 of client, and no transactions, loans or appeals |
| Db.Database.OnlyStoredPasswordLogsIn | db.py:92-95 | two passwords that both log a name in are the same password, the one whose digest is stored |
| Db.Database.LoginFindsNamedRow | db.py:92-99 | a successful `get_user` returns the row `get_user_by_name` finds for that name, and that row carries the name |
| Db.Database.SeedData | db.py:75-89 | the loop leaves the users and accounts the seeding functions describe, and nothing else changes |
| Db.Database.SeedOne | db.py:84-89 | one pass: skip an existing name, else insert the row and, for a client, open a Checking account |
| Db.Database.CreateUser | db.py:101-113 | succeeds exactly when the name is free; a failure changes nothing; success adds the user unblocked and, for a client only, one zero-balance account of the registration type under the next number |
| Db.Database.SetBlockStatus | db.py:119-122 | only the named user's flag changes, to status; an unknown name changes nothing |
| Db.Database.CreateAccount | db.py:125-141 | the new account is numbered from the count, the number was free, the row has balance 0.0 and a generated card, and nothing else changes |
| Db.Database.Transfer | db.py:153-174 | the errors come in the order sender, target, balance, and change nothing; success exactly when the guard passes, with the sender debited, the target credited, and a TRANSFER_OUT then a TRANSFER_IN row logged with one timestamp |
| Db.Database.Deposit | db.py:176-181 | the account is credited unchecked and one DEPOSIT row is always appended; nothing else changes |
| Db.Database.RequestLoan | db.py:190-194 | one pending loan is filed under a fresh id; accounts and everything else are unchanged |
| Db.Database.ProcessLoan | db.py:206-229 | an unknown id returns false and changes nothing; otherwise the status becomes the decision; on approved, when the borrower holds an account, one of those accounts is credited the loan amount and one LOAN_APPROVED row is logged, and a borrower without accounts gets nothing; any other outcome leaves balances and log alone |
| Db.Database.CreditLoan | db.py:219-226 | an owner with an account gets one of their accounts credited and one log row; an owner without accounts changes nothing |
| Db.Database.CreateAppeal | db.py:232-236 | one open appeal is filed under a fresh id, and nothing else changes |
| Db.Database.ResolveAppeal | db.py:242-246 | the appeal becomes resolved and the named user's flag 0, each only if its row exists, and nothing else changes |
| App.LoginRequired | app.py:9-15 | no user gives the login redirect; a required role the session lacks gives 403; the check passes exactly when a user is present and any required role matches |
| App.Index | app.py:17-24 | each of client, manager and admin goes to its own dashboard, exactly when that is the session role; a missing user, or a role outside the three, goes to login; a user without a role raises |
| App.IndexTotalOnWellFormed | app.py:17-24 | a session in which a user always comes with a role never makes `index` raise |
| App.IndexAdmitsToDashboard | app.py:17-24 | the dashboard `index` picks for a role admits the session through its role check |
| App.LoginLandsOnDashboard | app.py:39-42 | after a successful login `index` sends the user to the dashboard of their role, which admits them |
| App.GuardedPage | app.py:79-83 | a dashboard renders exactly when a user is logged in with the dashboard's role |
| App.Login | app.py:26-46 | a GET or bad credentials leave the session untouched; a blocked user gets only `blocked_user`; anyone else gets `user`, `role` and `name` from their row |
| App.Register | app.py:48-57 | registration redirects to login exactly when the name was free, adding a client with one account; otherwise nothing changes |
| App.Logout | app.py:59-62 | the session is emptied and the user sent to login |
| App.Blocked | app.py:64-76 | without a remembered blocked user, back to login; a GET shows the form; a POST files one appeal for that user and removes `blocked_user` |
| App.Transaction | app.py:88-104 | `deposit` deposits, `transfer` transfers with a success or danger notice according to the result, any other action changes nothing; always back to the client dashboard |
| App.ToggleBlock | app.py:141-148 | an unknown name raises; an admin's flag is never changed; anyone else gets the status written |
| App.LoanRequest | app.py:106-112 | files a pending loan for the session user; no session user raises |
| App.OpenAccount | app.py:114-118 | opens a Текущий account for the session user; no session user raises |
| App.ProcessLoanRoute | app.py:127-131 | the loan's status becomes the decision, an unknown id changes nothing, a non-approval moves no money |
| App.ResolveAppealRoute | app.py:150-154 | the appeal becomes resolved and the named user's flag 0, each only if its row exists, nothing else changes; afterwards the same credentials log in as before, but not blocked |

## Left out

- SQLite plumbing: connections, cursors, `row_factory`, commit and close. The tables are fields. The rollback of a duplicate `create_user` is "no change".
- SHA-256 in `hash_password`: a datatype constructor, so it is injective and otherwise uninterpreted.
- Randomness in `generate_card_details`: the draws are a `CardDraw` parameter constrained to the ranges `random.choice` and `random.randint` produce.
- Time: the expiry date and all timestamps are opaque string parameters.
- Balances and amounts are `real`; IEEE rounding of SQLite `REAL` and Python `float` is not modelled.
- `float()` and `int()` failing on non-numeric form fields is not modelled; amounts arrive as numbers.
- Flask machinery (`render_template` arguments, `url_for`, HTTP, the secret key) is not modelled; outcomes are `App.Response` values.
- The flash texts are not modelled. Two notices have a category that depends on state: the transfer's is modelled as a category; the registration's (`success` when `create_user` succeeds, `danger` otherwise) follows from `App.Register`'s response and is not returned separately.
- Read-only queries are not modelled: `get_client_accounts`, `get_history` and its ordering, `get_loans`, `get_client_loans`, `get_all_users`, `get_open_appeals`. The dashboards are reduced to their role checks.
- Persistence across starts: the store lives in the file `bank_system.db` and `create_tables` only creates missing tables, so only the first start sees empty tables. The constructor models that first start; a later start is `Db.Database.SeedData` on the stored tables, which leaves them unchanged once all fixed users exist (`Db.SeededWhenPresent`).
- Concurrency: the model is single-threaded, so the count-based numbering race between requests is out.
- dashboard routes: the page content is left out; their `login_required` decision is `App.GuardedPage`.
- Db.Database.ProcessLoan: `LIMIT 1` without `ORDER BY` picks an account SQLite does not specify; the model picks any account of the borrower. It names that account only through a ghost out-parameter.
- App.ProcessLoanRoute: states the status update and the no-credit cases only; the credit itself is stated by `Db.Database.ProcessLoan`, which the route calls.
- App.Transaction: the flash text of the transfer (the result string) is left out; only its category is stated.
- Behaviour a bank ledger might be expected to have that this code lacks; the model follows the code:
  - loans carry no interest or remaining debt, and there is no repayment operation;
  - `deposit` accepts any amount and any account number;
  - `transfer` accepts negative amounts (see `Ledger.NegativeTransferOverdrawsTarget`);
  - `process_loan` does not require the loan to be pending;
  - `is_blocked` is an integer written as given by `toggle_block`;
  - the `transaction`, `loan_request`, `create_account`, `process_loan`, `toggle_block` and `resolve_appeal` routes do not check the session role.

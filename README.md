# FinFlow ledger, modelled in Dafny

FinFlow is a personal expense tracker: a set of Streamlit pages over a SQLite
file. Users sign up and log in, record expenses, plan savings goals, keep an
emergency fund, and view charts and a summary of what is left of their bank
balance. Beneath the widgets sits a small ledger. This project models that
ledger and proves its rules.

- `tables.dfy` (module `Tables`) holds the rows of the four tables `users`,
  `expenses`, `savings` and `emergency_fund` as datatypes. It writes each SQL
  statement the pages run as a pure function over a table, which is kept as a
  sequence of rows in rowid order. These are the SELECT lookups, the DELETEs
  and the emergency-fund UPDATE, and SQLite's choice of a new rowid. It also
  states the keys the pages' checks maintain: unique usernames, distinct
  expense ids, asset names unique per user, and at most one emergency-fund
  row per user.
- `aggregation.dfy` (module `Aggregation`) holds the read side, as pure
  functions of the tables:
  - the three `SUM` queries, where SQL's NULL over no rows is read as 0;
  - the pandas `groupby` per-product sums behind the charts;
  - the comparison against the benchmark of 2000;
  - the available balance, which is never clamped at zero;
  - the months-to-goal projection, using Python's truncating `int()`;
  - the fixed-rate INR/USD converter.
- `ledger.dfy` (module `Ledger`) holds the class `LedgerStore`, whose four
  fields are the tables. Each table-changing action of the pages is one
  method of the class: signup, add and delete an expense, add and remove a
  savings goal, and set up and remove the emergency fund. A method's
  postcondition ties the new table to a function of the old one, and
  `Valid()` carries the key invariants across every call.

Every page that reads or writes expenses, savings or the emergency fund acts
for user 1 (`user_id = 1` in `add_expense_page`, `show_expenses_page`,
`show_graphs_page`, `show_savings_page`, `emergency_fund` and
`total_expenses_page`). In the model the user id is a parameter of every such
operation, so the properties hold for user 1 and for every other user alike.

Points where the model follows the code:
- `DELETE FROM expenses WHERE id=?` (ig.py:174) is not limited to the
  current user. `WithoutExpense` removes every row with that id, whoever
  owns it.
- The savings total sums `monthly_savings`, not `total_worth` (ig.py:363).
- A total equal to the benchmark draws neither message. `AtBenchmark` is
  that third outcome.
- Rowids follow SQLite's rule for an `INTEGER PRIMARY KEY` without
  `AUTOINCREMENT`: 1 on an empty table, otherwise one more than the largest
  rowid (`NextRowId`).
- Converting INR to USD and back keeps 99.744% of the amount. The two fixed
  rates are not inverses (`ConvertRoundTrip`).

## Model

| member | source | states |
|---|---|---|
| Tables.NextRowId | ig.py:29-31 | the rowid of an INSERT that omits `id` exceeds every existing id, and is at least 1 when the ids are non-negative |
| Tables.IsUsernameTaken | ig.py:59-61 | true exactly when some user row has that username |
| Tables.Authenticate | ig.py:117-119 | returns an id exactly when some row matches both username and password, and the id is that of a row with those credentials |
| Tables.Login | ig.py:107-115 | login never succeeds with the falsy id 0, and with positive ids it agrees with `Authenticate` |
| Tables.AuthenticateExisting | ig.py:117-119 | with unique usernames, logging in as an existing user succeeds exactly with that user's password and yields that user's id |
| Tables.SignupThenLogin | ig.py:91-98 | after signing up a free name, usernames stay unique, logging in with the new credentials yields the new id, and any other password is refused |
| Tables.ExpensesOf | ig.py:162 | the user's expense list holds exactly the rows whose `user_id` is that user |
| Tables.OfProduct | ig.py:191 | a product's group holds exactly the rows of that product name |
| Tables.WithoutExpense | ig.py:174 | deleting by id keeps exactly the rows whose id differs |
| Tables.WithoutExpenseAt | ig.py:172-176 | with distinct ids, deleting row k's id removes that row only, and keeps the others in order |
| Tables.AddExpenseKeepsIds | ig.py:150-151 | a row inserted with the next rowid keeps expense ids positive and distinct |
| Tables.WithoutAbsentExpense | ig.py:174 | deleting an id that no row has leaves the table unchanged |
| Tables.WithoutExpenseKeepsIds | ig.py:174 | deletion keeps expense ids positive and distinct |
| Tables.SavingsOf | ig.py:235 | the user's savings list holds exactly the rows of that user |
| Tables.HasAsset | ig.py:250-252 | the duplicate check is true exactly when the user has a goal of that asset name |
| Tables.WithoutAsset | ig.py:274 | removing a goal keeps exactly the rows whose user or asset name differ, and never adds rows |
| Tables.AddAssetKeepsUnique | ig.py:250-256 | appending a goal that passed the duplicate check keeps asset names unique per user |
| Tables.WithoutAssetKeepsUnique | ig.py:271-275 | removing goals keeps asset names unique per user |
| Tables.WithoutPresentAsset | ig.py:271-275 | with unique names, removing an existing goal deletes exactly that one row, and keeps the others in order |
| Tables.FundOf | ig.py:313-315 | the `fetchone` lookup finds a row exactly when the user has one, and the row it finds belongs to that user |
| Tables.FundsOf | ig.py:367 | the rows the emergency-fund SUM adds are exactly the user's rows |
| Tables.FundsOfAtMostOne | ig.py:285 | with at most one row per user, the user's rows are the single row `fetchone` finds, or none |
| Tables.SetFund | ig.py:316-317 | the UPDATE keeps the number of rows and every row's owner, gives each of the user's rows the new amount, and leaves every other user's row as it was |
| Tables.Upserted | ig.py:313-320 | updating keeps the row count and inserting adds exactly one row; other users' rows are kept; afterwards the user has a row |
| Tables.WithoutFund | ig.py:298 | removing the fund keeps exactly the other users' rows |
| Tables.UpsertedSetsFund | ig.py:313-320 | after the upsert, the user has a row, every row of the user holds the new amount, and every other user's rows are unchanged |
| Tables.UpsertedKeepsOne | ig.py:313-320 | the upsert keeps at most one emergency-fund row per user |
| Tables.WithoutFundKeepsOne | ig.py:297-299 | removing the fund keeps at most one row per user, and leaves the user with none |
| Tables.UpsertTwice | ig.py:312-322 | setting the fund up twice gives the same table as setting it up once with the second amount |
| Aggregation.TotalExpenses | ig.py:359-360 | total expenses is the sum of the user's amounts, and 0 when the user has no rows |
| Aggregation.TotalSavings | ig.py:363-364 | total savings is the sum of the user's `monthly_savings`, and 0 when the user has no goals |
| Aggregation.TotalEmergencyFund | ig.py:367-368 | the emergency-fund total is the sum of the user's rows, and 0 when the user has none |
| Aggregation.TotalExpensesAfterAdd | ig.py:146-152 | adding an expense raises its owner's total by its amount, and leaves every other user's total unchanged |
| Aggregation.TotalExpensesAfterDelete | ig.py:172-176 | with distinct ids, deleting an expense lowers its owner's total by exactly its amount |
| Aggregation.TotalExpensesSplice | ig.py:172-176 | taking row k out of the table lowers its owner's total by its amount and leaves every other user's total unchanged |
| Aggregation.TotalExpensesNonNegative | ig.py:141-151 | with the form's non-negative amounts, the total is non-negative |
| Aggregation.TotalSavingsAfterAdd | ig.py:254-256 | adding a goal raises its owner's savings total by its monthly contribution |
| Aggregation.TotalSavingsAfterRemove | ig.py:273-275 | removing a goal lowers its owner's savings total by exactly its monthly contribution |
| Aggregation.TotalSavingsSplice | ig.py:273-275 | taking goal k out of the table lowers its owner's savings total by its monthly contribution and leaves every other user's total unchanged |
| Aggregation.RemoveGoalAt | ig.py:270-275 | with unique names, removing a goal deletes its row alone, keeps names unique, and lowers its owner's savings total by its monthly contribution |
| Aggregation.TotalEmergencyFundSingle | ig.py:367-368 | with at most one row per user, the fund total is that row's amount, or 0 |
| Aggregation.TotalEmergencyFundAfterUpsert | ig.py:297-320 | after setting up the fund, its total is the new amount; after removing it, the total is 0 |
| Aggregation.ProductTotalsKeys | ig.py:191 | there is a group for exactly the product names that occur in the rows |
| Aggregation.ProductTotalsAt | ig.py:191 | each group's sum is the sum of its own product's rows, and of no others |
| Aggregation.ProductTotalsSum | ig.py:191 | the per-product sums add up to the total of all the rows |
| Aggregation.ProductTotals | ig.py:191 | there are no more groups than rows, and there are no groups exactly when there are no rows |
| Aggregation.CompareToBenchmark | ig.py:204-222 | above exactly when the total exceeds 2000, below exactly when it is less, and neither exactly when it equals 2000 |
| Aggregation.ShowGraphs | ig.py:186-225 | no statistics when the user has no expenses; otherwise the groups are the user's products with their sums, they add up to the SUM total, and the standing is above exactly when the total exceeds 2000, below exactly when it is less |
| Aggregation.GraphsWalkThrough | ig.py:186-222 | Food 300, Transport 150 and Food 200 give Food 500 and Transport 150, a total of 650, below the benchmark |
| Aggregation.TotalExpensesSummary | ig.py:359-370 | each total is the SUM of the user's rows, the available balance plus the three totals equals the bank balance, and the balance is negative exactly when the totals exceed the bank balance |
| Aggregation.AvailableAfterExpense | ig.py:359-370 | recording an expense takes exactly its amount off its owner's available balance |
| Aggregation.AvailableAfterUpsert | ig.py:313-370 | after the fund is set up, the summary deducts exactly its monthly amount |
| Aggregation.OverspendingShowsNegative | ig.py:370 | a bank balance of 1000 against expenses of 1200 leaves -200, with no clamping |
| Aggregation.MonthsToGoal | ig.py:262 | there is a projection exactly when monthly savings is positive; for a non-negative worth it is the n with n*monthly <= worth < (n+1)*monthly |
| Aggregation.MonthsToGoalExamples | ig.py:262 | 1200 at 100 a month gives 12; 1200 at 250 gives 4; with 0 a month there is no projection |
| Aggregation.Truncate | ig.py:262 | Python's `int()` truncates toward zero: for x >= 0 the result n has n <= x < n + 1, and for x < 0 it has n - 1 < x <= n |
| Aggregation.Convert | ig.py:338-346 | the same currency leaves the amount unchanged; 0 stays 0; a positive amount stays positive, shrinks from INR to USD and grows from USD to INR |
| Aggregation.ConvertRoundTrip | ig.py:338-346 | converting to the other currency and back multiplies the amount by 0.99744, so it changes every non-zero amount |
| Aggregation.ConvertExamples | ig.py:338-346 | 100 INR is 1.2 USD, 100 USD is 8312 INR, and 50 INR to INR is 50 |
| Ledger.LedgerStore.constructor | ig.py:10-57 | the tables start empty and valid |
| Ledger.LedgerStore.Signup | ig.py:91-98 | inserts exactly one user row with the next rowid when the name is free; otherwise reports a duplicate and leaves the users table unchanged; usernames stay unique |
| Ledger.LedgerStore.AddExpense | ig.py:146-152 | appends exactly one row with a fresh id, and raises the user's total by the amount |
| Ledger.LedgerStore.DeleteExpense | ig.py:172-176 | the table becomes the old one without the rows of that id; an existing row is removed alone, and its amount comes off its owner's total |
| Ledger.LedgerStore.AddSavings | ig.py:248-259 | on a duplicate asset name, reports it and changes nothing; otherwise appends exactly one goal and raises the savings total by its monthly contribution; names stay unique per user |
| Ledger.LedgerStore.RemoveSavings | ig.py:270-278 | when the goal exists, removes that one row and keeps the others in order, and takes its monthly contribution off the total; otherwise reports it was not found and changes nothing |
| Ledger.LedgerStore.SetUpEmergencyFund | ig.py:312-323 | updates the user's row or inserts one; afterwards the user's single row holds the new amount, which is the fund total |
| Ledger.LedgerStore.RemoveEmergencyFund | ig.py:297-300 | deletes the user's rows and leaves the user with none |

## Left out

- Streamlit widgets, page navigation, messages, balloons and the home page. They are UI with no ledger behaviour.
- Plotly charts and pandas DataFrame construction and display. Only the grouping sum is modelled. The groups form a map, so pandas' sorted key order is not modelled.
- SQLite itself: the connection, the DDL, durability and `commit`. Each method is one atomic step over in-memory sequences.
- Ledger.LedgerStore.Signup: models the insert the page intends, not the program as written. The `users` table declares `user_id INTEGER NOT NULL` with no default (ig.py:13). The signup INSERT supplies only `username` and `password` (ig.py:93), so on that schema SQLite refuses every signup with "NOT NULL constraint failed", and the page does not catch the error. The model's user rows have no `user_id` column, and its Ok branch inserts the row.
- The profile insert of the user-setup page (`users_setup`). It depends only on SQLite assigning the key, and it has no rule to check.
- Floating-point rounding and the `:.2f` display. Amounts are exact reals.
- 64-bit rowid overflow, and SQLite's random rowid once the largest rowid is reached. Ids are unbounded integers.
- Widget bounds: the non-negative amount and worth inputs, the expense-id bounds, and the 500 to 2000 slider with step 50. These are input constraints. `TotalExpensesNonNegative` assumes the non-negative amounts as a precondition.
- Plaintext password storage. Login is modelled only as an exact-match lookup.
- Savings ids are not part of `Valid()`. No operation looks a goal up by id.

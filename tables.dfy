/** The rows of FinFlow's four ledger tables (`users`, `expenses`, `savings`,
    `emergency_fund`) and the SQL statements the pages run against them,
    each written as a pure function over a table held as a sequence of rows
    in rowid order. */
module Tables {

  datatype Option<T> = None | Some(value: T)

  /** A row of `users`. The schema's `user_id` column is not modelled: the
      signup INSERT never supplies it. */
  datatype User = User(id: int, username: string, password: string)

  /** A row of `expenses`; `date` is the ISO text SQLite stores. */
  datatype Expense = Expense(id: int, userId: int, productName: string, amount: real, date: string, notes: string)

  /** A row of `savings`: one savings goal. */
  datatype SavingsGoal = SavingsGoal(id: int, userId: int, assetName: string, totalWorth: real, monthlySavings: real)

  /** A row of `emergency_fund`; the table has no id column of its own. */
  datatype EmergencyFundRow = EmergencyFundRow(userId: int, monthlySavings: real)

  // ---------------------------------------------------------------------
  // Row ids

  /** The largest id in a non-empty column. */
  function MaxId(ids: seq<int>): (m: int)
    requires ids != []
    ensures forall i :: 0 <= i < |ids| ==> ids[i] <= m
    ensures exists i :: 0 <= i < |ids| && ids[i] == m
  {
    if |ids| == 1 then ids[0]
    else
      var rest := MaxId(ids[1..]);
      if ids[0] >= rest then ids[0] else rest
  }

  /** The rowid SQLite gives an INSERT that omits the INTEGER PRIMARY KEY:
      1 on an empty table, otherwise one more than the largest rowid. */
  function NextRowId(ids: seq<int>): (r: int)
    ensures forall i :: 0 <= i < |ids| ==> ids[i] < r
    ensures (forall i :: 0 <= i < |ids| ==> ids[i] >= 0) ==> r >= 1
  {
    if ids == [] then 1 else MaxId(ids) + 1
  }

  // ---------------------------------------------------------------------
  // users

  function UserIds(users: seq<User>): (ids: seq<int>)
  {
    seq(|users|, i requires 0 <= i < |users| => users[i].id)
  }

  /** The UNIQUE constraint on `users.username`. */
  predicate UsernamesUnique(users: seq<User>)
  {
    forall i, j :: 0 <= i < j < |users| ==> users[i].username != users[j].username
  }

  /** `is_username_taken`: whether `SELECT id FROM users WHERE username=?`
      finds a row. */
  function IsUsernameTaken(users: seq<User>, username: string): (taken: bool)
    ensures taken <==> exists i :: 0 <= i < |users| && users[i].username == username
  {
    if users == [] then false
    else users[0].username == username || IsUsernameTaken(users[1..], username)
  }

  /** `authenticate_user`: the id of the first row whose username and
      password both match exactly, or None. */
  function Authenticate(users: seq<User>, username: string, password: string): (r: Option<int>)
    ensures r.Some? <==> exists i :: 0 <= i < |users| && users[i].username == username && users[i].password == password
    ensures r.Some? ==> exists i :: 0 <= i < |users| && users[i] == User(r.value, username, password)
  {
    if users == [] then None
    else if users[0].username == username && users[0].password == password then Some(users[0].id)
    else
      var r := Authenticate(users[1..], username, password);
      // For the second ensures: the recursive call's witness is a row of
      // `users[1..]`; mentioning that slice's rows as rows of `users` lets
      // the `exists i` over `users` be met at the shifted index.
      assert r.Some? ==> users[1..][0] in users;
      r
  }

  /** `login_page`: `if user_id:` takes a falsy id 0 for a failed login. */
  function Login(users: seq<User>, username: string, password: string): (r: Option<int>)
    ensures r.Some? ==> r.value != 0 && Authenticate(users, username, password) == r
    ensures (forall i :: 0 <= i < |users| ==> users[i].id >= 1) ==> r == Authenticate(users, username, password)
  {
    match Authenticate(users, username, password)
    case None => None
    case Some(id) => if id != 0 then Some(id) else None
  }

  /** With unique usernames, logging in as an existing user succeeds exactly
      when the password is that user's, and yields that user's id. */
  lemma {:induction false} AuthenticateExisting(users: seq<User>, k: nat, password: string)
    requires UsernamesUnique(users)
    requires k < |users|
    ensures Authenticate(users, users[k].username, password) ==
            if password == users[k].password then Some(users[k].id) else None
  {
    if k > 0 {
      assert users[0].username != users[k].username;
      assert users[1..][k - 1] == users[k];
      AuthenticateExisting(users[1..], k - 1, password);
    }
  }

  /** A fresh signup can log in with its own credentials and gets the new
      row's id; any other password is refused. */
  lemma SignupThenLogin(users: seq<User>, id: int, username: string, password: string, other: string)
    requires UsernamesUnique(users)
    requires !IsUsernameTaken(users, username)
    requires other != password
    ensures UsernamesUnique(users + [User(id, username, password)])
    ensures Authenticate(users + [User(id, username, password)], username, password) == Some(id)
    ensures Authenticate(users + [User(id, username, password)], username, other) == None
  {
    var after := users + [User(id, username, password)];
    assert after[|users|] == User(id, username, password);
    AuthenticateExisting(after, |users|, password);
    AuthenticateExisting(after, |users|, other);
  }

  // ---------------------------------------------------------------------
  // expenses

  function ExpenseIds(rows: seq<Expense>): (ids: seq<int>)
  {
    seq(|rows|, i requires 0 <= i < |rows| => rows[i].id)
  }

  /** Primary-key discipline of `expenses.id`: positive and distinct. */
  predicate ExpenseIdsValid(rows: seq<Expense>)
  {
    (forall i :: 0 <= i < |rows| ==> rows[i].id >= 1) &&
    (forall i, j :: 0 <= i < j < |rows| ==> rows[i].id != rows[j].id)
  }

  /** `SELECT * FROM expenses WHERE user_id=?`, in table order. */
  function ExpensesOf(rows: seq<Expense>, userId: int): (r: seq<Expense>)
    ensures forall e :: e in r <==> e in rows && e.userId == userId
  {
    if rows == [] then []
    else if rows[0].userId == userId then [rows[0]] + ExpensesOf(rows[1..], userId)
    else ExpensesOf(rows[1..], userId)
  }

  lemma {:induction false} ExpensesOfAppend(a: seq<Expense>, b: seq<Expense>, userId: int)
    ensures ExpensesOf(a + b, userId) == ExpensesOf(a, userId) + ExpensesOf(b, userId)
  {
    if a == [] {
      assert a + b == b;
    } else {
      assert (a + b)[0] == a[0];
      assert (a + b)[1..] == a[1..] + b;
      ExpensesOfAppend(a[1..], b, userId);
    }
  }

  /** The rows of one product, the group pandas' groupby sums. */
  function OfProduct(rows: seq<Expense>, product: string): (r: seq<Expense>)
    ensures forall e :: e in r <==> e in rows && e.productName == product
  {
    if rows == [] then []
    else if rows[0].productName == product then [rows[0]] + OfProduct(rows[1..], product)
    else OfProduct(rows[1..], product)
  }

  /** `DELETE FROM expenses WHERE id=?`: the statement is not scoped to a
      user, so it removes every row with that id whoever owns it. */
  function WithoutExpense(rows: seq<Expense>, id: int): (r: seq<Expense>)
    ensures forall e :: e in r <==> e in rows && e.id != id
  {
    if rows == [] then []
    else if rows[0].id == id then WithoutExpense(rows[1..], id)
    else [rows[0]] + WithoutExpense(rows[1..], id)
  }

  /** With distinct ids, deleting the id of row k removes that row and
      nothing else, keeping the other rows in order. */
  lemma {:induction false} WithoutExpenseAt(rows: seq<Expense>, k: nat)
    requires ExpenseIdsValid(rows)
    requires k < |rows|
    ensures WithoutExpense(rows, rows[k].id) == rows[..k] + rows[k + 1..]
  {
    ExpenseIdsValidTail(rows);
    if k == 0 {
      WithoutAbsentExpense(rows[1..], rows[0].id);
      assert rows[..k] + rows[k + 1..] == rows[1..];
    } else {
      assert rows[1..][k - 1] == rows[k];
      WithoutExpenseAt(rows[1..], k - 1);
      RemoveAtCons(rows, k);
    }
  }

  lemma ExpenseIdsValidTail(rows: seq<Expense>)
    requires ExpenseIdsValid(rows) && rows != []
    ensures ExpenseIdsValid(rows[1..])
    ensures forall i :: 0 <= i < |rows[1..]| ==> rows[1..][i].id != rows[0].id
  {
    forall i, j | 0 <= i < j < |rows[1..]|
      ensures rows[1..][i].id != rows[1..][j].id
    {
      assert rows[1..][i] == rows[i + 1] && rows[1..][j] == rows[j + 1];
    }
  }

  /** A row inserted with the next rowid keeps the ids positive and distinct. */
  lemma AddExpenseKeepsIds(rows: seq<Expense>, e: Expense)
    requires ExpenseIdsValid(rows)
    requires e.id == NextRowId(ExpenseIds(rows))
    ensures ExpenseIdsValid(rows + [e])
  {
    assert forall i :: 0 <= i < |rows| ==> ExpenseIds(rows)[i] == rows[i].id;
  }

  /** Deleting an id no row has leaves the table unchanged. */
  lemma {:induction false} WithoutAbsentExpense(rows: seq<Expense>, id: int)
    requires forall i :: 0 <= i < |rows| ==> rows[i].id != id
    ensures WithoutExpense(rows, id) == rows
  {
    if rows != [] {
      WithoutAbsentExpense(rows[1..], id);
    }
  }

  lemma {:induction false} WithoutExpenseKeepsIds(rows: seq<Expense>, id: int)
    requires ExpenseIdsValid(rows)
    ensures ExpenseIdsValid(WithoutExpense(rows, id))
  {
    if rows != [] {
      ExpenseIdsValidTail(rows);
      WithoutExpenseKeepsIds(rows[1..], id);
      if rows[0].id != id {
        var r := [rows[0]] + WithoutExpense(rows[1..], id);
        forall j | 0 < j < |r|
          ensures r[0].id != r[j].id
        {
          assert r[j] in rows[1..];
        }
      }
    }
  }

  // ---------------------------------------------------------------------
  // savings

  function SavingsIds(rows: seq<SavingsGoal>): (ids: seq<int>)
  {
    seq(|rows|, i requires 0 <= i < |rows| => rows[i].id)
  }

  /** The duplicate check keeps asset names unique within each user's goals. */
  predicate AssetNamesUnique(rows: seq<SavingsGoal>)
  {
    forall i, j :: 0 <= i < j < |rows| ==>
      rows[i].userId != rows[j].userId || rows[i].assetName != rows[j].assetName
  }

  /** `SELECT * FROM savings WHERE user_id=?`. */
  function SavingsOf(rows: seq<SavingsGoal>, userId: int): (r: seq<SavingsGoal>)
    ensures forall g :: g in r <==> g in rows && g.userId == userId
  {
    if rows == [] then []
    else if rows[0].userId == userId then [rows[0]] + SavingsOf(rows[1..], userId)
    else SavingsOf(rows[1..], userId)
  }

  lemma {:induction false} SavingsOfAppend(a: seq<SavingsGoal>, b: seq<SavingsGoal>, userId: int)
    ensures SavingsOf(a + b, userId) == SavingsOf(a, userId) + SavingsOf(b, userId)
  {
    if a == [] {
      assert a + b == b;
    } else {
      assert (a + b)[0] == a[0];
      assert (a + b)[1..] == a[1..] + b;
      SavingsOfAppend(a[1..], b, userId);
    }
  }

  /** Whether `SELECT * FROM savings WHERE user_id=? AND asset_name=?` finds a row. */
  function HasAsset(rows: seq<SavingsGoal>, userId: int, assetName: string): (found: bool)
    ensures found <==> exists i :: 0 <= i < |rows| && rows[i].userId == userId && rows[i].assetName == assetName
  {
    if rows == [] then false
    else (rows[0].userId == userId && rows[0].assetName == assetName) || HasAsset(rows[1..], userId, assetName)
  }

  /** `DELETE FROM savings WHERE user_id=? AND asset_name=?`. */
  function WithoutAsset(rows: seq<SavingsGoal>, userId: int, assetName: string): (r: seq<SavingsGoal>)
    ensures forall g :: g in r <==> g in rows && !(g.userId == userId && g.assetName == assetName)
    ensures |r| <= |rows|
  {
    if rows == [] then []
    else if rows[0].userId == userId && rows[0].assetName == assetName then WithoutAsset(rows[1..], userId, assetName)
    else [rows[0]] + WithoutAsset(rows[1..], userId, assetName)
  }

  /** Appending a goal whose name the user does not have yet keeps names unique. */
  lemma AddAssetKeepsUnique(rows: seq<SavingsGoal>, g: SavingsGoal)
    requires AssetNamesUnique(rows)
    requires !HasAsset(rows, g.userId, g.assetName)
    ensures AssetNamesUnique(rows + [g])
  {
  }

  lemma AssetNamesUniqueTail(rows: seq<SavingsGoal>)
    requires AssetNamesUnique(rows) && rows != []
    ensures AssetNamesUnique(rows[1..])
    ensures forall g :: g in rows[1..] ==> g.userId != rows[0].userId || g.assetName != rows[0].assetName
  {
    forall i, j | 0 <= i < j < |rows[1..]|
      ensures rows[1..][i].userId != rows[1..][j].userId || rows[1..][i].assetName != rows[1..][j].assetName
    {
      assert rows[1..][i] == rows[i + 1] && rows[1..][j] == rows[j + 1];
    }
  }

  lemma {:induction false} WithoutAssetKeepsUnique(rows: seq<SavingsGoal>, userId: int, assetName: string)
    requires AssetNamesUnique(rows)
    ensures AssetNamesUnique(WithoutAsset(rows, userId, assetName))
  {
    if rows != [] {
      AssetNamesUniqueTail(rows);
      WithoutAssetKeepsUnique(rows[1..], userId, assetName);
      if !(rows[0].userId == userId && rows[0].assetName == assetName) {
        var r := [rows[0]] + WithoutAsset(rows[1..], userId, assetName);
        forall j | 0 < j < |r|
          ensures r[0].userId != r[j].userId || r[0].assetName != r[j].assetName
        {
          assert r[j] in rows[1..];
        }
      }
    }
  }

  /** With unique names, removing a present goal deletes exactly one row. */
  lemma {:induction false} WithoutPresentAsset(rows: seq<SavingsGoal>, k: nat)
    requires AssetNamesUnique(rows)
    requires k < |rows|
    ensures WithoutAsset(rows, rows[k].userId, rows[k].assetName) == rows[..k] + rows[k + 1..]
  {
    if k == 0 {
      HeadAbsentFromTail(rows);
      WithoutAbsentAsset(rows[1..], rows[0].userId, rows[0].assetName);
      assert rows[..k] + rows[k + 1..] == rows[1..];
    } else {
      AssetNamesUniqueTail(rows);
      assert rows[1..][k - 1] == rows[k];
      assert rows[0].userId != rows[k].userId || rows[0].assetName != rows[k].assetName;
      WithoutPresentAsset(rows[1..], k - 1);
      RemoveAtCons(rows, k);
    }
  }

  /** Removing row k of a sequence, seen from its tail. */
  lemma RemoveAtCons<T>(rows: seq<T>, k: nat)
    requires 0 < k < |rows|
    ensures rows[..k] + rows[k + 1..] == [rows[0]] + (rows[1..][..k - 1] + rows[1..][k..])
  {
    assert rows[..k] == [rows[0]] + rows[1..][..k - 1];
    assert rows[k + 1..] == rows[1..][k..];
  }

  lemma HeadAbsentFromTail(rows: seq<SavingsGoal>)
    requires AssetNamesUnique(rows) && rows != []
    ensures !HasAsset(rows[1..], rows[0].userId, rows[0].assetName)
  {
    forall i | 0 <= i < |rows[1..]|
      ensures rows[1..][i].userId != rows[0].userId || rows[1..][i].assetName != rows[0].assetName
    {
      assert rows[1..][i] == rows[i + 1];
    }
  }

  lemma {:induction false} WithoutAbsentAsset(rows: seq<SavingsGoal>, userId: int, assetName: string)
    requires !HasAsset(rows, userId, assetName)
    ensures WithoutAsset(rows, userId, assetName) == rows
  {
    if rows != [] {
      WithoutAbsentAsset(rows[1..], userId, assetName);
    }
  }

  // ---------------------------------------------------------------------
  // emergency_fund

  /** The upsert keeps at most one emergency-fund row per user. */
  predicate AtMostOneFundPerUser(rows: seq<EmergencyFundRow>)
  {
    forall i, j :: 0 <= i < j < |rows| ==> rows[i].userId != rows[j].userId
  }

  /** `SELECT * FROM emergency_fund WHERE user_id=?` with `fetchone()`:
      the first row of the user, if any. */
  function FundOf(rows: seq<EmergencyFundRow>, userId: int): (r: Option<EmergencyFundRow>)
    ensures r.Some? <==> exists i :: 0 <= i < |rows| && rows[i].userId == userId
    ensures r.Some? ==> r.value in rows && r.value.userId == userId
  {
    if rows == [] then None
    else if rows[0].userId == userId then Some(rows[0])
    else FundOf(rows[1..], userId)
  }

  /** All emergency-fund rows of a user, the rows `SUM(monthly_savings)` adds. */
  function FundsOf(rows: seq<EmergencyFundRow>, userId: int): (r: seq<EmergencyFundRow>)
    ensures forall f :: f in r <==> f in rows && f.userId == userId
  {
    if rows == [] then []
    else if rows[0].userId == userId then [rows[0]] + FundsOf(rows[1..], userId)
    else FundsOf(rows[1..], userId)
  }

  /** `UPDATE emergency_fund SET monthly_savings=? WHERE user_id=?`. */
  function SetFund(rows: seq<EmergencyFundRow>, userId: int, monthlySavings: real): (r: seq<EmergencyFundRow>)
    ensures |r| == |rows|
    ensures forall i :: 0 <= i < |r| ==> r[i].userId == rows[i].userId
    ensures forall i :: 0 <= i < |r| && r[i].userId == userId ==> r[i].monthlySavings == monthlySavings
    ensures forall i :: 0 <= i < |r| && rows[i].userId != userId ==> r[i] == rows[i]
  {
    seq(|rows|, i requires 0 <= i < |rows| =>
      if rows[i].userId == userId then EmergencyFundRow(userId, monthlySavings) else rows[i])
  }

  /** The "Set Up Emergency Fund" action: update the user's rows when a row
      exists, otherwise insert one. */
  function Upserted(rows: seq<EmergencyFundRow>, userId: int, monthlySavings: real): (r: seq<EmergencyFundRow>)
    ensures |r| == if FundOf(rows, userId).Some? then |rows| else |rows| + 1
    ensures forall i :: 0 <= i < |rows| && rows[i].userId != userId ==> r[i] == rows[i]
    ensures r != [] && FundOf(r, userId).Some?
  {
    if FundOf(rows, userId).Some? then SetFund(rows, userId, monthlySavings)
    else
      var r := rows + [EmergencyFundRow(userId, monthlySavings)];
      assert r[|rows|].userId == userId;
      r
  }

  /** `DELETE FROM emergency_fund WHERE user_id=?`. */
  function WithoutFund(rows: seq<EmergencyFundRow>, userId: int): (r: seq<EmergencyFundRow>)
    ensures forall f :: f in r <==> f in rows && f.userId != userId
  {
    if rows == [] then []
    else if rows[0].userId == userId then WithoutFund(rows[1..], userId)
    else [rows[0]] + WithoutFund(rows[1..], userId)
  }

  /** After the upsert the user has a row, every row of the user holds the
      new amount, and every other user's rows are untouched. */
  lemma UpsertedSetsFund(rows: seq<EmergencyFundRow>, userId: int, monthlySavings: real)
    ensures var r := Upserted(rows, userId, monthlySavings);
      FundOf(r, userId) == Some(EmergencyFundRow(userId, monthlySavings)) &&
      (forall i :: 0 <= i < |r| && r[i].userId == userId ==> r[i].monthlySavings == monthlySavings) &&
      (forall w :: w != userId ==> FundsOf(r, w) == FundsOf(rows, w))
  {
    var r := Upserted(rows, userId, monthlySavings);
    if FundOf(rows, userId).Some? {
      SetFundFirst(rows, userId, monthlySavings);
      forall w | w != userId
        ensures FundsOf(r, w) == FundsOf(rows, w)
      {
        SetFundOthers(rows, userId, monthlySavings, w);
      }
    } else {
      FundOfAppend(rows, EmergencyFundRow(userId, monthlySavings), userId);
      forall w | w != userId
        ensures FundsOf(r, w) == FundsOf(rows, w)
      {
        FundsOfAppend(rows, [EmergencyFundRow(userId, monthlySavings)], w);
      }
    }
  }

  lemma {:induction false} SetFundFirst(rows: seq<EmergencyFundRow>, userId: int, monthlySavings: real)
    requires FundOf(rows, userId).Some?
    ensures FundOf(SetFund(rows, userId, monthlySavings), userId) == Some(EmergencyFundRow(userId, monthlySavings))
  {
    var r := SetFund(rows, userId, monthlySavings);
    if rows[0].userId != userId {
      assert r[1..] == SetFund(rows[1..], userId, monthlySavings);
      SetFundFirst(rows[1..], userId, monthlySavings);
    }
  }

  lemma {:induction false} SetFundOthers(rows: seq<EmergencyFundRow>, userId: int, monthlySavings: real, w: int)
    requires w != userId
    ensures FundsOf(SetFund(rows, userId, monthlySavings), w) == FundsOf(rows, w)
  {
    if rows != [] {
      var r := SetFund(rows, userId, monthlySavings);
      assert r[1..] == SetFund(rows[1..], userId, monthlySavings);
      SetFundOthers(rows[1..], userId, monthlySavings, w);
    }
  }

  lemma {:induction false} FundOfAppend(rows: seq<EmergencyFundRow>, f: EmergencyFundRow, userId: int)
    requires FundOf(rows, userId).None?
    requires f.userId == userId
    ensures FundOf(rows + [f], userId) == Some(f)
  {
    if rows != [] {
      assert (rows + [f])[1..] == rows[1..] + [f];
      FundOfAppend(rows[1..], f, userId);
    }
  }

  lemma {:induction false} FundsOfAppend(a: seq<EmergencyFundRow>, b: seq<EmergencyFundRow>, userId: int)
    ensures FundsOf(a + b, userId) == FundsOf(a, userId) + FundsOf(b, userId)
  {
    if a == [] {
      assert a + b == b;
    } else {
      assert (a + b)[0] == a[0];
      assert (a + b)[1..] == a[1..] + b;
      FundsOfAppend(a[1..], b, userId);
    }
  }

  /** The upsert and the delete keep "at most one row per user". */
  lemma UpsertedKeepsOne(rows: seq<EmergencyFundRow>, userId: int, monthlySavings: real)
    requires AtMostOneFundPerUser(rows)
    ensures AtMostOneFundPerUser(Upserted(rows, userId, monthlySavings))
  {
  }

  lemma AtMostOneFundPerUserTail(rows: seq<EmergencyFundRow>)
    requires AtMostOneFundPerUser(rows) && rows != []
    ensures AtMostOneFundPerUser(rows[1..])
  {
    forall i, j | 0 <= i < j < |rows[1..]|
      ensures rows[1..][i].userId != rows[1..][j].userId
    {
      assert rows[1..][i] == rows[i + 1] && rows[1..][j] == rows[j + 1];
    }
  }

  lemma {:induction false} WithoutFundKeepsOne(rows: seq<EmergencyFundRow>, userId: int)
    requires AtMostOneFundPerUser(rows)
    ensures AtMostOneFundPerUser(WithoutFund(rows, userId))
    ensures FundOf(WithoutFund(rows, userId), userId).None?
  {
    if rows != [] {
      AtMostOneFundPerUserTail(rows);
      WithoutFundKeepsOne(rows[1..], userId);
      if rows[0].userId != userId {
        var r := [rows[0]] + WithoutFund(rows[1..], userId);
        forall j | 0 < j < |r|
          ensures r[0].userId != r[j].userId
        {
          assert r[j] in rows[1..];
        }
      }
    }
  }

  lemma {:induction false} FundsOfNone(rows: seq<EmergencyFundRow>, userId: int)
    requires FundOf(rows, userId).None?
    ensures FundsOf(rows, userId) == []
  {
    if rows != [] {
      FundsOfNone(rows[1..], userId);
    }
  }

  /** With at most one row per user, the user's rows are exactly the row
      `fetchone()` finds, or none. */
  lemma {:induction false} FundsOfAtMostOne(rows: seq<EmergencyFundRow>, userId: int)
    requires AtMostOneFundPerUser(rows)
    ensures FundsOf(rows, userId) == match FundOf(rows, userId) case None => [] case Some(f) => [f]
  {
    if rows != [] {
      AtMostOneFundPerUserTail(rows);
      if rows[0].userId == userId {
        assert FundOf(rows[1..], userId).None? by {
          forall i | 0 <= i < |rows[1..]|
            ensures rows[1..][i].userId != userId
          {
            assert rows[1..][i] == rows[i + 1];
          }
        }
        FundsOfNone(rows[1..], userId);
      } else {
        FundsOfAtMostOne(rows[1..], userId);
      }
    }
  }

  /** Setting the fund up twice leaves the state of setting it up once with
      the second amount. */
  lemma UpsertTwice(rows: seq<EmergencyFundRow>, userId: int, first: real, second: real)
    ensures Upserted(Upserted(rows, userId, first), userId, second) == Upserted(rows, userId, second)
  {
    UpsertedSetsFund(rows, userId, first);
    var once := Upserted(rows, userId, first);
    if FundOf(rows, userId).None? {
      assert SetFund(once, userId, second) == rows + [EmergencyFundRow(userId, second)];
    } else {
      assert SetFund(once, userId, second) == SetFund(rows, userId, second);
    }
  }
}

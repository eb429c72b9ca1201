/** FinFlow's store: the four tables as sequence fields of one object, and
    one method per table-changing action of the pages (signup, add and
    remove an expense, add and remove a savings goal, set up and remove the
    emergency fund). Each method is one atomic step: the SELECT it checks
    with, the INSERT, UPDATE or DELETE, and the commit. */
module Ledger {
  import opened Tables
  import opened Aggregation

  datatype LedgerError = DuplicateUsername | DuplicateAsset | AssetNotFound

  datatype Result<T> = Ok(value: T) | Err(error: LedgerError)

  class LedgerStore {
    var users: seq<User>
    var expenses: seq<Expense>
    var savings: seq<SavingsGoal>
    var emergencyFund: seq<EmergencyFundRow>

    /** The keys the tables and the pages' checks keep: unique usernames
        with positive ids, primary-key expense ids, asset names unique per
        user, at most one emergency-fund row per user. */
    ghost predicate Valid()
      reads this
    {
      UsernamesUnique(users) &&
      (forall i :: 0 <= i < |users| ==> users[i].id >= 1) &&
      ExpenseIdsValid(expenses) &&
      AssetNamesUnique(savings) &&
      AtMostOneFundPerUser(emergencyFund)
    }

    constructor ()
      ensures Valid()
      ensures users == [] && expenses == [] && savings == [] && emergencyFund == []
    {
      users, expenses, savings, emergencyFund := [], [], [], [];
    }

    /** `signup_page`: insert the user when `is_username_taken` says the
        name is free, otherwise report the duplicate and change nothing. */
    method Signup(username: string, password: string) returns (r: Result<int>)
      requires Valid()
      modifies this`users
      ensures Valid()
      ensures r.Ok? <==> !IsUsernameTaken(old(users), username)
      ensures r.Ok? ==> r.value == NextRowId(UserIds(old(users))) &&
                        users == old(users) + [User(r.value, username, password)]
      ensures r.Err? ==> r.error == DuplicateUsername && users == old(users)
    {
      if !IsUsernameTaken(users, username) {
        var id := NextRowId(UserIds(users));
        assert forall i :: 0 <= i < |users| ==> UserIds(users)[i] == users[i].id;
        users := users + [User(id, username, password)];
        r := Ok(id);
      } else {
        r := Err(DuplicateUsername);
      }
    }

    /** `add_expense_page`: insert the expense with the next rowid. */
    method AddExpense(userId: int, productName: string, amount: real, date: string, notes: string)
      returns (id: int)
      requires Valid()
      modifies this`expenses
      ensures Valid()
      ensures id == NextRowId(ExpenseIds(old(expenses)))
      ensures expenses == old(expenses) + [Expense(id, userId, productName, amount, date, notes)]
      ensures TotalExpenses(expenses, userId) == TotalExpenses(old(expenses), userId) + amount
    {
      id := NextRowId(ExpenseIds(expenses));
      var e := Expense(id, userId, productName, amount, date, notes);
      TotalExpensesAfterAdd(expenses, e, userId);
      AddExpenseKeepsIds(expenses, e);
      expenses := expenses + [e];
    }

    /** `show_expenses_page`, "Remove Expense": delete every row with the id. */
    method DeleteExpense(id: int)
      requires Valid()
      modifies this`expenses
      ensures Valid()
      ensures expenses == WithoutExpense(old(expenses), id)
      ensures forall k :: 0 <= k < |old(expenses)| && old(expenses)[k].id == id ==>
                expenses == old(expenses)[..k] + old(expenses)[k + 1..] &&
                TotalExpenses(expenses, old(expenses)[k].userId) ==
                TotalExpenses(old(expenses), old(expenses)[k].userId) - old(expenses)[k].amount
    {
      forall k | 0 <= k < |expenses| && expenses[k].id == id
        ensures WithoutExpense(expenses, id) == expenses[..k] + expenses[k + 1..]
        ensures TotalExpenses(WithoutExpense(expenses, id), expenses[k].userId) ==
                TotalExpenses(expenses, expenses[k].userId) - expenses[k].amount
      {
        WithoutExpenseAt(expenses, k);
        TotalExpensesAfterDelete(expenses, k, expenses[k].userId);
      }
      WithoutExpenseKeepsIds(expenses, id);
      expenses := WithoutExpense(expenses, id);
    }

    /** `show_savings_page`, "Add Savings": insert the goal unless the user
        already has an asset of that name, in which case nothing changes. */
    method AddSavings(userId: int, assetName: string, totalWorth: real, monthlySavings: real)
      returns (r: Result<int>)
      requires Valid()
      modifies this`savings
      ensures Valid()
      ensures r.Ok? <==> !HasAsset(old(savings), userId, assetName)
      ensures r.Ok? ==> r.value == NextRowId(SavingsIds(old(savings))) &&
                        savings == old(savings) + [SavingsGoal(r.value, userId, assetName, totalWorth, monthlySavings)]
      ensures r.Ok? ==> TotalSavings(savings, userId) == TotalSavings(old(savings), userId) + monthlySavings
      ensures r.Err? ==> r.error == DuplicateAsset && savings == old(savings)
    {
      if HasAsset(savings, userId, assetName) {
        r := Err(DuplicateAsset);
      } else {
        var id := NextRowId(SavingsIds(savings));
        var goal := SavingsGoal(id, userId, assetName, totalWorth, monthlySavings);
        AddAssetKeepsUnique(savings, goal);
        TotalSavingsAfterAdd(savings, goal, userId);
        savings := savings + [goal];
        r := Ok(id);
      }
    }

    /** `show_savings_page`, "Remove Savings": delete the user's goal of that
        name when there is one; with names unique that is exactly one row. */
    method RemoveSavings(userId: int, assetName: string) returns (r: Result<()>)
      requires Valid()
      modifies this`savings
      ensures Valid()
      ensures r.Ok? <==> HasAsset(old(savings), userId, assetName)
      ensures r.Ok? ==> savings == WithoutAsset(old(savings), userId, assetName)
      ensures r.Ok? ==> exists k :: RemovedGoal(old(savings), savings, k, userId, assetName)
      ensures r.Err? ==> r.error == AssetNotFound && savings == old(savings)
    {
      if HasAsset(savings, userId, assetName) {
        var k :| 0 <= k < |savings| && savings[k].userId == userId && savings[k].assetName == assetName;
        RemoveGoalAt(savings, k);
        savings := WithoutAsset(savings, userId, assetName);
        r := Ok(());
        assert RemovedGoal(old(savings), savings, k, userId, assetName);
      } else {
        r := Err(AssetNotFound);
      }
    }

    /** `emergency_fund`, "Set Up Emergency Fund": update the user's row if
        there is one, else insert one. */
    method SetUpEmergencyFund(userId: int, monthlySavings: real)
      requires Valid()
      modifies this`emergencyFund
      ensures Valid()
      ensures emergencyFund == Upserted(old(emergencyFund), userId, monthlySavings)
      ensures FundOf(emergencyFund, userId) == Some(EmergencyFundRow(userId, monthlySavings))
      ensures TotalEmergencyFund(emergencyFund, userId) == monthlySavings
    {
      UpsertedKeepsOne(emergencyFund, userId, monthlySavings);
      UpsertedSetsFund(emergencyFund, userId, monthlySavings);
      TotalEmergencyFundAfterUpsert(emergencyFund, userId, monthlySavings);
      if FundOf(emergencyFund, userId).Some? {
        emergencyFund := SetFund(emergencyFund, userId, monthlySavings);
      } else {
        emergencyFund := emergencyFund + [EmergencyFundRow(userId, monthlySavings)];
      }
    }

    /** `emergency_fund`, "Remove Emergency Fund": delete the user's rows. */
    method RemoveEmergencyFund(userId: int)
      requires Valid()
      modifies this`emergencyFund
      ensures Valid()
      ensures emergencyFund == WithoutFund(old(emergencyFund), userId)
      ensures FundOf(emergencyFund, userId).None?
    {
      WithoutFundKeepsOne(emergencyFund, userId);
      emergencyFund := WithoutFund(emergencyFund, userId);
    }
  }
}

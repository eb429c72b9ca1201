/** The read side of FinFlow: the SUM queries with their zero default, the
    per-product groupby behind the charts, the benchmark comparison, the
    available balance, the months-to-goal projection and the fixed-rate
    currency converter. Every function is a pure function of the tables. */
module Aggregation {
  import opened Tables

  // ---------------------------------------------------------------------
  // Sums

  /** The arithmetic sum of a column of amounts. */
  function Sum(xs: seq<real>): real
  {
    if xs == [] then 0.0 else xs[0] + Sum(xs[1..])
  }

  lemma {:induction false} SumAppend(a: seq<real>, b: seq<real>)
    ensures Sum(a + b) == Sum(a) + Sum(b)
  {
    if a == [] {
      assert a + b == b;
    } else {
      assert (a + b)[1..] == a[1..] + b;
      SumAppend(a[1..], b);
    }
  }

  lemma SumSingle(x: real)
    ensures Sum([x]) == x
  {
    assert [x][1..] == [];
  }

  lemma {:induction false} SumNonNegative(xs: seq<real>)
    requires forall i :: 0 <= i < |xs| ==> xs[i] >= 0.0
    ensures Sum(xs) >= 0.0
  {
    if xs != [] {
      SumNonNegative(xs[1..]);
    }
  }

  /** SQL's `SUM(...)`: NULL when no row matches. */
  function SqlSum(xs: seq<real>): Option<real>
  {
    if xs == [] then None else Some(Sum(xs))
  }

  /** The pages' `r[0] if r is not None and r[0] is not None else 0`. */
  function OrZero(r: Option<real>): real
  {
    match r
    case None => 0.0
    case Some(v) => v
  }

  function Amounts(rows: seq<Expense>): seq<real>
  {
    seq(|rows|, i requires 0 <= i < |rows| => rows[i].amount)
  }

  function MonthlyAmounts(rows: seq<SavingsGoal>): seq<real>
  {
    seq(|rows|, i requires 0 <= i < |rows| => rows[i].monthlySavings)
  }

  function FundAmounts(rows: seq<EmergencyFundRow>): seq<real>
  {
    seq(|rows|, i requires 0 <= i < |rows| => rows[i].monthlySavings)
  }

  /** `SELECT SUM(amount) FROM expenses WHERE user_id=?`, NULL read as 0. */
  function TotalExpenses(expenses: seq<Expense>, userId: int): (t: real)
    ensures t == Sum(Amounts(ExpensesOf(expenses, userId)))
    ensures ExpensesOf(expenses, userId) == [] ==> t == 0.0
  {
    OrZero(SqlSum(Amounts(ExpensesOf(expenses, userId))))
  }

  /** `SELECT SUM(monthly_savings) FROM savings WHERE user_id=?`, NULL read
      as 0: the monthly contributions, not the goals' total worth. */
  function TotalSavings(savings: seq<SavingsGoal>, userId: int): (t: real)
    ensures t == Sum(MonthlyAmounts(SavingsOf(savings, userId)))
    ensures SavingsOf(savings, userId) == [] ==> t == 0.0
  {
    OrZero(SqlSum(MonthlyAmounts(SavingsOf(savings, userId))))
  }

  /** `SELECT SUM(monthly_savings) FROM emergency_fund WHERE user_id=?`,
      NULL read as 0. */
  function TotalEmergencyFund(funds: seq<EmergencyFundRow>, userId: int): (t: real)
    ensures t == Sum(FundAmounts(FundsOf(funds, userId)))
    ensures FundsOf(funds, userId) == [] ==> t == 0.0
  {
    OrZero(SqlSum(FundAmounts(FundsOf(funds, userId))))
  }

  lemma AmountsAppend(x: seq<Expense>, y: seq<Expense>)
    ensures Amounts(x + y) == Amounts(x) + Amounts(y)
  {
  }

  lemma MonthlyAmountsAppend(x: seq<SavingsGoal>, y: seq<SavingsGoal>)
    ensures MonthlyAmounts(x + y) == MonthlyAmounts(x) + MonthlyAmounts(y)
  {
  }

  /** The total over two stretches of the table is the sum of their totals. */
  lemma TotalExpensesAppend(a: seq<Expense>, b: seq<Expense>, userId: int)
    ensures TotalExpenses(a + b, userId) == TotalExpenses(a, userId) + TotalExpenses(b, userId)
  {
    ExpensesOfAppend(a, b, userId);
    var x, y := ExpensesOf(a, userId), ExpensesOf(b, userId);
    AmountsAppend(x, y);
    SumAppend(Amounts(x), Amounts(y));
  }

  lemma TotalExpensesOne(e: Expense, userId: int)
    ensures TotalExpenses([e], userId) == if e.userId == userId then e.amount else 0.0
  {
    assert [e][1..] == [];
    assert ExpensesOf([], userId) == [];
    if e.userId == userId {
      assert ExpensesOf([e], userId) == [e];
      assert Amounts([e]) == [e.amount];
      SumSingle(e.amount);
    } else {
      assert ExpensesOf([e], userId) == [];
    }
  }

  /** Adding an expense raises its owner's total by its amount and leaves
      every other user's total alone. */
  lemma TotalExpensesAfterAdd(expenses: seq<Expense>, e: Expense, userId: int)
    ensures TotalExpenses(expenses + [e], userId) ==
            TotalExpenses(expenses, userId) + (if e.userId == userId then e.amount else 0.0)
  {
    TotalExpensesAppend(expenses, [e], userId);
    TotalExpensesOne(e, userId);
  }

  /** With distinct expense ids, deleting the id of row k lowers its owner's
      total by exactly that row's amount. */
  lemma TotalExpensesAfterDelete(expenses: seq<Expense>, k: nat, userId: int)
    requires ExpenseIdsValid(expenses)
    requires k < |expenses|
    ensures TotalExpenses(WithoutExpense(expenses, expenses[k].id), userId) ==
            TotalExpenses(expenses, userId) - (if expenses[k].userId == userId then expenses[k].amount else 0.0)
  {
    WithoutExpenseAt(expenses, k);
    TotalExpensesSplice(expenses, k, userId);
  }

  /** Row k's amount, if its owner's, is what separates the total of the
      table from the total of the table without that row. */
  lemma TotalExpensesSplice(expenses: seq<Expense>, k: nat, userId: int)
    requires k < |expenses|
    ensures TotalExpenses(expenses[..k] + expenses[k + 1..], userId) ==
            TotalExpenses(expenses, userId) - (if expenses[k].userId == userId then expenses[k].amount else 0.0)
  {
    var front, gone, back := expenses[..k], expenses[k], expenses[k + 1..];
    assert expenses == front + [gone] + back;
    TotalExpensesAppend(front, back, userId);
    TotalExpensesAppend(front + [gone], back, userId);
    TotalExpensesAfterAdd(front, gone, userId);
  }

  /** Amounts entered through the form are non-negative, and so is their total. */
  lemma TotalExpensesNonNegative(expenses: seq<Expense>, userId: int)
    requires forall i :: 0 <= i < |expenses| ==> expenses[i].amount >= 0.0
    ensures TotalExpenses(expenses, userId) >= 0.0
  {
    var mine := ExpensesOf(expenses, userId);
    forall i | 0 <= i < |mine|
      ensures Amounts(mine)[i] >= 0.0
    {
      assert mine[i] in expenses;
    }
    SumNonNegative(Amounts(mine));
  }

  lemma TotalSavingsAppend(a: seq<SavingsGoal>, b: seq<SavingsGoal>, userId: int)
    ensures TotalSavings(a + b, userId) == TotalSavings(a, userId) + TotalSavings(b, userId)
  {
    SavingsOfAppend(a, b, userId);
    var x, y := SavingsOf(a, userId), SavingsOf(b, userId);
    MonthlyAmountsAppend(x, y);
    SumAppend(MonthlyAmounts(x), MonthlyAmounts(y));
  }

  /** A new goal adds its monthly contribution to its owner's savings total. */
  lemma TotalSavingsAfterAdd(savings: seq<SavingsGoal>, g: SavingsGoal, userId: int)
    ensures TotalSavings(savings + [g], userId) ==
            TotalSavings(savings, userId) + (if g.userId == userId then g.monthlySavings else 0.0)
  {
    TotalSavingsAppend(savings, [g], userId);
    assert [g][1..] == [];
    assert SavingsOf([], userId) == [];
    if g.userId == userId {
      assert SavingsOf([g], userId) == [g];
      assert MonthlyAmounts([g]) == [g.monthlySavings];
      SumSingle(g.monthlySavings);
    } else {
      assert SavingsOf([g], userId) == [];
    }
  }

  /** With unique asset names, removing goal k takes exactly its monthly
      contribution off its owner's savings total. */
  lemma TotalSavingsAfterRemove(savings: seq<SavingsGoal>, k: nat, userId: int)
    requires AssetNamesUnique(savings)
    requires k < |savings|
    ensures TotalSavings(WithoutAsset(savings, savings[k].userId, savings[k].assetName), userId) ==
            TotalSavings(savings, userId) - (if savings[k].userId == userId then savings[k].monthlySavings else 0.0)
  {
    WithoutPresentAsset(savings, k);
    TotalSavingsSplice(savings, k, userId);
  }

  /** Goal k's contribution, if its owner's, is what separates the total of
      the table from the total of the table without that goal. */
  lemma TotalSavingsSplice(savings: seq<SavingsGoal>, k: nat, userId: int)
    requires k < |savings|
    ensures TotalSavings(savings[..k] + savings[k + 1..], userId) ==
            TotalSavings(savings, userId) - (if savings[k].userId == userId then savings[k].monthlySavings else 0.0)
  {
    var front, gone, back := savings[..k], savings[k], savings[k + 1..];
    assert savings == front + [gone] + back;
    TotalSavingsAppend(front, back, userId);
    TotalSavingsAppend(front + [gone], back, userId);
    TotalSavingsAfterAdd(front, gone, userId);
  }

  /** The goal at index k of `before`, of that user and name, is the one
      row missing from `after`, and its contribution is off the total. */
  ghost predicate RemovedGoal(before: seq<SavingsGoal>, after: seq<SavingsGoal>, k: int,
                              userId: int, assetName: string)
  {
    0 <= k < |before| && before[k].userId == userId && before[k].assetName == assetName &&
    after == before[..k] + before[k + 1..] &&
    TotalSavings(after, userId) == TotalSavings(before, userId) - before[k].monthlySavings
  }

  /** Removing goal k of a table with unique names: that row alone goes,
      names stay unique, and its contribution comes off its owner's total. */
  lemma RemoveGoalAt(savings: seq<SavingsGoal>, k: nat)
    requires AssetNamesUnique(savings)
    requires k < |savings|
    ensures var r := WithoutAsset(savings, savings[k].userId, savings[k].assetName);
      AssetNamesUnique(r) && RemovedGoal(savings, r, k, savings[k].userId, savings[k].assetName)
  {
    WithoutPresentAsset(savings, k);
    TotalSavingsAfterRemove(savings, k, savings[k].userId);
    WithoutAssetKeepsUnique(savings, savings[k].userId, savings[k].assetName);
  }

  /** With at most one row per user, the emergency-fund SUM is the single
      row's monthly amount, or 0 when the user has none. */
  lemma TotalEmergencyFundSingle(funds: seq<EmergencyFundRow>, userId: int)
    requires AtMostOneFundPerUser(funds)
    ensures TotalEmergencyFund(funds, userId) ==
            match FundOf(funds, userId) case None => 0.0 case Some(f) => f.monthlySavings
  {
    FundsOfAtMostOne(funds, userId);
    match FundOf(funds, userId)
    case None =>
    case Some(f) =>
      assert FundAmounts([f]) == [f.monthlySavings];
      SumSingle(f.monthlySavings);
  }

  /** After setting the fund up, the user's emergency-fund total is the new
      amount; after removing it, the total is 0. */
  lemma TotalEmergencyFundAfterUpsert(funds: seq<EmergencyFundRow>, userId: int, monthlySavings: real)
    requires AtMostOneFundPerUser(funds)
    ensures TotalEmergencyFund(Upserted(funds, userId, monthlySavings), userId) == monthlySavings
    ensures TotalEmergencyFund(WithoutFund(funds, userId), userId) == 0.0
  {
    UpsertedKeepsOne(funds, userId, monthlySavings);
    UpsertedSetsFund(funds, userId, monthlySavings);
    TotalEmergencyFundSingle(Upserted(funds, userId, monthlySavings), userId);
    WithoutFundKeepsOne(funds, userId);
    TotalEmergencyFundSingle(WithoutFund(funds, userId), userId);
  }

  // ---------------------------------------------------------------------
  // Grouping by product

  /** The sum of a map's values, in no particular key order. */
  ghost function SumValues(m: map<string, real>): real
    decreases |m.Keys|
  {
    if m == map[] then 0.0
    else
      var k :| k in m;
      assert |(m - {k}).Keys| < |m.Keys| by {
        assert (m - {k}).Keys == m.Keys - {k};
      }
      m[k] + SumValues(m - {k})
  }

  /** The sum does not depend on which key is taken first. */
  lemma {:induction false} SumValuesRemove(m: map<string, real>, k: string)
    requires k in m
    ensures SumValues(m) == m[k] + SumValues(m - {k})
    decreases |m.Keys|
  {
    var j :| j in m && SumValues(m) == m[j] + SumValues(m - {j});
    if j != k {
      assert (m - {j}).Keys == m.Keys - {j};
      assert (m - {k}).Keys == m.Keys - {k};
      SumValuesRemove(m - {j}, k);
      SumValuesRemove(m - {k}, j);
      assert m - {j} - {k} == m - {k} - {j};
    }
  }

  /** One row folded into the running group sums. */
  function AddTo(m: map<string, real>, product: string, amount: real): map<string, real>
  {
    m[product := (if product in m then m[product] else 0.0) + amount]
  }

  /** `groupby("Product Name")["Amount"].sum()` over a list of rows. */
  function ProductTotals(rows: seq<Expense>): (r: map<string, real>)
    ensures |r| <= |rows|
    ensures r == map[] <==> rows == []
  {
    if rows == [] then map[] else AddTo(ProductTotals(rows[1..]), rows[0].productName, rows[0].amount)
  }

  /** There is a group for exactly the products that occur in the rows. */
  lemma {:induction false} ProductTotalsKeys(rows: seq<Expense>, product: string)
    ensures product in ProductTotals(rows) <==> exists i :: 0 <= i < |rows| && rows[i].productName == product
  {
    if rows != [] {
      ProductTotalsKeys(rows[1..], product);
      if product != rows[0].productName {
        if exists i :: 0 <= i < |rows| && rows[i].productName == product {
          var i :| 0 <= i < |rows| && rows[i].productName == product;
          assert rows[1..][i - 1] == rows[i];
        }
      }
    }
  }

  /** Each group holds the sum of its own product's rows and of no other. */
  lemma {:induction false} ProductTotalsAt(rows: seq<Expense>, product: string)
    requires product in ProductTotals(rows)
    ensures ProductTotals(rows)[product] == Sum(Amounts(OfProduct(rows, product)))
  {
    var rest := rows[1..];
    var e := rows[0];
    if e.productName == product {
      assert Amounts([e] + OfProduct(rest, product)) == [e.amount] + Amounts(OfProduct(rest, product));
      if product in ProductTotals(rest) {
        ProductTotalsAt(rest, product);
      } else {
        ProductTotalsKeys(rest, product);
        NoneOfProduct(rest, product);
      }
    } else {
      ProductTotalsAt(rest, product);
    }
  }

  lemma {:induction false} NoneOfProduct(rows: seq<Expense>, product: string)
    requires forall i :: 0 <= i < |rows| ==> rows[i].productName != product
    ensures OfProduct(rows, product) == []
  {
    if rows != [] {
      NoneOfProduct(rows[1..], product);
    }
  }

  /** The group sums add up to the total of all the rows. */
  lemma {:induction false} ProductTotalsSum(rows: seq<Expense>)
    ensures SumValues(ProductTotals(rows)) == Sum(Amounts(rows))
  {
    if rows != [] {
      ProductTotalsSum(rows[1..]);
      SumValuesAddTo(ProductTotals(rows[1..]), rows[0].productName, rows[0].amount);
      assert Amounts(rows) == [rows[0].amount] + Amounts(rows[1..]);
    }
  }

  /** Folding one row into the group sums adds its amount to their total. */
  lemma SumValuesAddTo(m: map<string, real>, p: string, a: real)
    ensures SumValues(AddTo(m, p, a)) == SumValues(m) + a
  {
    var after := AddTo(m, p, a);
    SumValuesRemove(after, p);
    assert after - {p} == m - {p};
    if p in m {
      SumValuesRemove(m, p);
    } else {
      assert m - {p} == m;
    }
  }

  // ---------------------------------------------------------------------
  // The graphs page

  /** The average student expense the graphs page compares against. */
  const Benchmark: real := 2000.0

  /** Which of the page's two messages the total draws; equal to the
      benchmark draws neither. */
  datatype Standing = AboveBenchmark | BelowBenchmark | AtBenchmark

  function CompareToBenchmark(total: real): (s: Standing)
    ensures s == AboveBenchmark <==> total > Benchmark
    ensures s == BelowBenchmark <==> total < Benchmark
    ensures s == AtBenchmark <==> total == Benchmark
  {
    if total > Benchmark then AboveBenchmark
    else if total < Benchmark then BelowBenchmark
    else AtBenchmark
  }

  datatype GraphStats = GraphStats(byProduct: map<string, real>, total: real, standing: Standing)

  /** `show_graphs_page`: nothing when the user has no expenses; otherwise
      the per-product sums behind the bar and pie charts, the SUM total and
      the benchmark standing. */
  function ShowGraphs(expenses: seq<Expense>, userId: int): (r: Option<GraphStats>)
    ensures r.None? <==> ExpensesOf(expenses, userId) == []
    ensures r.Some? ==>
      var mine := ExpensesOf(expenses, userId);
      var g := r.value;
      (forall p :: p in g.byProduct <==> exists i :: 0 <= i < |mine| && mine[i].productName == p) &&
      (forall p :: p in g.byProduct ==> g.byProduct[p] == Sum(Amounts(OfProduct(mine, p)))) &&
      SumValues(g.byProduct) == g.total &&
      g.total == Sum(Amounts(mine)) &&
      (g.standing == AboveBenchmark <==> g.total > Benchmark) &&
      (g.standing == BelowBenchmark <==> g.total < Benchmark)
  {
    var mine := ExpensesOf(expenses, userId);
    if mine == [] then None
    else
      var byProduct := ProductTotals(mine);
      var total := TotalExpenses(expenses, userId);
      ProductTotalsSum(mine);
      assert forall p :: p in byProduct <==> exists i :: 0 <= i < |mine| && mine[i].productName == p by {
        forall p { ProductTotalsKeys(mine, p); }
      }
      assert forall p :: p in byProduct ==> byProduct[p] == Sum(Amounts(OfProduct(mine, p))) by {
        forall p | p in byProduct { ProductTotalsAt(mine, p); }
      }
      Some(GraphStats(byProduct, total, CompareToBenchmark(total)))
  }

  /** Food 300, Transport 150 and Food 200 give the groups Food 500 and
      Transport 150, a total of 650, below the benchmark. */
  lemma GraphsWalkThrough(userId: int)
    ensures ShowGraphs([Expense(1, userId, "Food", 300.0, "", ""), Expense(2, userId, "Transport", 150.0, "", ""),
                        Expense(3, userId, "Food", 200.0, "", "")], userId) ==
            Some(GraphStats(map["Food" := 500.0, "Transport" := 150.0], 650.0, BelowBenchmark))
  {
    var rows := [Expense(1, userId, "Food", 300.0, "", ""), Expense(2, userId, "Transport", 150.0, "", ""),
                 Expense(3, userId, "Food", 200.0, "", "")];
    assert rows[1..][1..] == rows[2..] && rows[2..][1..] == [];
    assert ExpensesOf(rows[2..], userId) == rows[2..];
    assert ExpensesOf(rows[1..], userId) == rows[1..];
    assert ExpensesOf(rows, userId) == rows;
    assert ProductTotals(rows[2..]) == map["Food" := 200.0];
    assert ProductTotals(rows[1..]) == map["Food" := 200.0, "Transport" := 150.0];
    assert ProductTotals(rows) == map["Food" := 500.0, "Transport" := 150.0];
    assert Amounts(rows) == [300.0, 150.0, 200.0];
    assert Sum([300.0, 150.0, 200.0]) == 650.0 by {
      assert [300.0, 150.0, 200.0][1..] == [150.0, 200.0];
      assert [150.0, 200.0][1..] == [200.0];
      SumSingle(200.0);
    }
  }

  // ---------------------------------------------------------------------
  // The total expenses page

  datatype Summary = Summary(totalExpenses: real, totalSavings: real, totalEmergencyFund: real, availableBalance: real)

  /** `total_expenses_page`: the three SUMs and what is left of the bank
      balance after them, never clamped at zero. */
  function TotalExpensesSummary(bankBalance: real, expenses: seq<Expense>, savings: seq<SavingsGoal>,
                                funds: seq<EmergencyFundRow>, userId: int): (s: Summary)
    ensures s.totalExpenses == Sum(Amounts(ExpensesOf(expenses, userId)))
    ensures s.totalSavings == Sum(MonthlyAmounts(SavingsOf(savings, userId)))
    ensures s.totalEmergencyFund == Sum(FundAmounts(FundsOf(funds, userId)))
    ensures s.availableBalance + s.totalExpenses + s.totalSavings + s.totalEmergencyFund == bankBalance
    ensures s.availableBalance < 0.0 <==> bankBalance < s.totalExpenses + s.totalSavings + s.totalEmergencyFund
  {
    var te := TotalExpenses(expenses, userId);
    var ts := TotalSavings(savings, userId);
    var tf := TotalEmergencyFund(funds, userId);
    Summary(te, ts, tf, bankBalance - te - ts - tf)
  }

  /** Recording an expense takes its amount off the owner's available balance. */
  lemma AvailableAfterExpense(bankBalance: real, expenses: seq<Expense>, savings: seq<SavingsGoal>,
                              funds: seq<EmergencyFundRow>, e: Expense)
    ensures TotalExpensesSummary(bankBalance, expenses + [e], savings, funds, e.userId).availableBalance ==
            TotalExpensesSummary(bankBalance, expenses, savings, funds, e.userId).availableBalance - e.amount
  {
    TotalExpensesAfterAdd(expenses, e, e.userId);
  }

  /** With the emergency fund set up, its monthly amount is what the
      summary deducts for it. */
  lemma AvailableAfterUpsert(bankBalance: real, expenses: seq<Expense>, savings: seq<SavingsGoal>,
                             funds: seq<EmergencyFundRow>, userId: int, monthlySavings: real)
    requires AtMostOneFundPerUser(funds)
    ensures var s := TotalExpensesSummary(bankBalance, expenses, savings, Upserted(funds, userId, monthlySavings), userId);
      s.totalEmergencyFund == monthlySavings &&
      s.availableBalance == bankBalance - s.totalExpenses - s.totalSavings - monthlySavings
  {
    TotalEmergencyFundAfterUpsert(funds, userId, monthlySavings);
  }

  /** The balance goes negative rather than stopping at zero: a bank balance
      of 1000 against a single expense of 1200 leaves -200. */
  lemma OverspendingShowsNegative(e: Expense)
    requires e.amount == 1200.0
    ensures TotalExpensesSummary(1000.0, [e], [], [], e.userId).availableBalance == -200.0
  {
    TotalExpensesOne(e, e.userId);
  }

  // ---------------------------------------------------------------------
  // Months to goal

  /** Python's `int()` on a float: truncation toward zero. */
  function Truncate(x: real): (n: int)
    ensures x >= 0.0 ==> n >= 0 && n as real <= x < n as real + 1.0
    ensures x < 0.0 ==> n <= 0 && n as real - 1.0 < x <= n as real
  {
    if x >= 0.0 then x.Floor else -((-x).Floor)
  }

  /** `int(total_worth / monthly_savings) if monthly_savings > 0 else None`:
      the whole number of months the contributions take to reach the worth. */
  function MonthsToGoal(totalWorth: real, monthlySavings: real): (months: Option<int>)
    ensures months.Some? <==> monthlySavings > 0.0
    ensures months.Some? && totalWorth >= 0.0 ==>
      months.value >= 0 &&
      months.value as real * monthlySavings <= totalWorth < (months.value + 1) as real * monthlySavings
  {
    if monthlySavings > 0.0 then
      QuotientBounds(totalWorth, monthlySavings);
      Some(Truncate(totalWorth / monthlySavings))
    else None
  }

  /** A non-negative quotient truncated to n satisfies n * m <= t < (n + 1) * m. */
  lemma QuotientBounds(t: real, m: real)
    requires m > 0.0
    ensures var n := Truncate(t / m);
      t >= 0.0 ==> n >= 0 && n as real * m <= t < (n + 1) as real * m
  {
    if t >= 0.0 {
      var q := t / m;
      assert q >= 0.0;
      FloorTimes(t, m, Truncate(q));
    }
  }

  /** Scaling the bounds `n <= t / m < n + 1` of `n == (t / m).Floor` by m > 0. */
  lemma FloorTimes(t: real, m: real, n: int)
    requires m > 0.0 && n == (t / m).Floor
    ensures n as real * m <= t < (n + 1) as real * m
  {
    ScaleBounds(t, m, t / m, n);
  }

  lemma ScaleBounds(t: real, m: real, q: real, n: int)
    requires m > 0.0 && q * m == t && n as real <= q < (n + 1) as real
    ensures n as real * m <= t < (n + 1) as real * m
  {
    assert (q - n as real) * m >= 0.0;
    assert ((n + 1) as real - q) * m > 0.0;
  }

  /** A goal worth 1200 saved at 100 a month takes 12 months; at 250 a
      month, 4 (4.8 truncated); with nothing saved there is no projection. */
  lemma MonthsToGoalExamples()
    ensures MonthsToGoal(1200.0, 100.0) == Some(12)
    ensures MonthsToGoal(1200.0, 250.0) == Some(4)
    ensures MonthsToGoal(100.0, 0.0) == None
  {
    assert (1200.0 / 100.0).Floor == 12;
    assert (1200.0 / 250.0).Floor == 4;
  }

  // ---------------------------------------------------------------------
  // Currency converter

  /** The two currencies the converter's select boxes offer. */
  datatype Currency = INR | USD

  const InrToUsd: real := 0.012
  const UsdToInr: real := 83.12

  /** `currency_converter_page`: multiply by the fixed factor of the pair,
      identity for the same currency. */
  function Convert(amount: real, from: Currency, to: Currency): (r: real)
    ensures from == to ==> r == amount
    ensures amount == 0.0 ==> r == 0.0
    ensures amount > 0.0 ==> r > 0.0
    ensures from == INR && to == USD && amount > 0.0 ==> r < amount
    ensures from == USD && to == INR && amount > 0.0 ==> r > amount
  {
    if from == INR && to == USD then amount * InrToUsd
    else if from == USD && to == INR then amount * UsdToInr
    else amount
  }

  /** The two fixed rates are not inverse to each other: a round trip keeps
      99.744% of the amount, whichever way it starts. */
  lemma ConvertRoundTrip(amount: real, from: Currency, to: Currency)
    requires from != to
    ensures Convert(Convert(amount, from, to), to, from) == amount * 0.99744
    ensures amount != 0.0 ==> Convert(Convert(amount, from, to), to, from) != amount
  {
  }

  lemma ConvertExamples()
    ensures Convert(100.0, INR, USD) == 1.2
    ensures Convert(100.0, USD, INR) == 8312.0
    ensures Convert(50.0, INR, INR) == 50.0
  {
  }
}

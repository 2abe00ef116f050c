/**
 * The values the report methods compute before printing them: income and
 * expense totals and the net balance, the per-category breakdown sorted by
 * total (largest first) and the per-month breakdown of a year.
 */
module Reports {
  import opened Wrappers
  import opened Ledger
  import opened Queries

  // ---------------------------------------------------------------------
  // Totals

  /** mapToDouble(Transaction::getAmount).sum(), in cents. */
  function SumAmounts(ts: seq<Transaction>): nat
  {
    if ts == [] then 0 else ts[0].amount + SumAmounts(ts[1..])
  }

  lemma {:induction false} SumAmountsAppend(a: seq<Transaction>, b: seq<Transaction>)
    ensures SumAmounts(a + b) == SumAmounts(a) + SumAmounts(b)
  {
    if a == [] {
      assert a + b == b;
    } else {
      assert (a + b)[0] == a[0];
      assert (a + b)[1..] == a[1..] + b;
      SumAmountsAppend(a[1..], b);
    }
  }

  /**
   * Summing a filter whose test is the disjoint union of two others is
   * adding the sums of the two filters.
   */
  lemma {:induction false} SumPartition(s: seq<Transaction>, p: Transaction -> bool,
                                        q: Transaction -> bool, r: Transaction -> bool)
    requires forall x :: p(x) == (q(x) || r(x))
    requires forall x :: !(q(x) && r(x))
    ensures SumAmounts(Filter(s, p)) == SumAmounts(Filter(s, q)) + SumAmounts(Filter(s, r))
  {
    if s != [] {
      SumPartition(s[1..], p, q, r);
      var x := s[0];
      SumAmountsAppend(if p(x) then [x] else [], Filter(s[1..], p));
      SumAmountsAppend(if q(x) then [x] else [], Filter(s[1..], q));
      SumAmountsAppend(if r(x) then [x] else [], Filter(s[1..], r));
    }
  }

  /** The type test of the reports: String.equals, so case and spelling must match exactly. */
  function KindIs(kind: string): Transaction -> bool
  {
    (t: Transaction) => t.kind == kind
  }

  function ByKind(ts: seq<Transaction>, kind: string): (r: seq<Transaction>)
    ensures forall t :: t in r <==> t in ts && t.kind == kind
  {
    Filter(ts, KindIs(kind))
  }

  /** The sum of the amounts of the transactions of one type. */
  function TotalOf(ts: seq<Transaction>, kind: string): (r: nat)
    ensures r <= SumAmounts(ts)
  {
    SumFilterAtMost(ts, KindIs(kind));
    SumAmounts(ByKind(ts, kind))
  }

  /** Income, expense and their difference, as every report prints them. */
  datatype Totals = Totals(income: nat, expense: nat, net: int)

  function TotalsOf(ts: seq<Transaction>): (r: Totals)
    ensures r.income + r.expense <= SumAmounts(ts)
    ensures r.net == r.income - r.expense
  {
    IncomeExpenseWithinAll(ts);
    var income := TotalOf(ts, Income);
    var expense := TotalOf(ts, Expense);
    Totals(income, expense, income - expense)
  }

  /**
   * getCurrentBalance: the totals over the whole stored list. Income and
   * expense are drawn from disjoint transactions, so together they never
   * exceed the sum of all amounts.
   */
  function CurrentBalance(ts: seq<Transaction>): (r: Totals)
    ensures r.income + r.expense <= SumAmounts(ts)
    ensures r.net == r.income - r.expense
  {
    TotalsOf(ts)
  }

  function KindIsEither(a: string, b: string): Transaction -> bool
  {
    (t: Transaction) => t.kind == a || t.kind == b
  }

  /** A filter never sums to more than the whole list. */
  lemma {:induction false} SumFilterAtMost(s: seq<Transaction>, p: Transaction -> bool)
    ensures SumAmounts(Filter(s, p)) <= SumAmounts(s)
  {
    if s != [] {
      SumFilterAtMost(s[1..], p);
      SumAmountsAppend(if p(s[0]) then [s[0]] else [], Filter(s[1..], p));
    }
  }

  lemma IncomeExpenseWithinAll(ts: seq<Transaction>)
    ensures TotalOf(ts, Income) + TotalOf(ts, Expense) <= SumAmounts(ts)
  {
    SumPartition(ts, KindIsEither(Income, Expense), KindIs(Income), KindIs(Expense));
    SumFilterAtMost(ts, KindIsEither(Income, Expense));
  }

  /** A type total over two lists is the sum of the totals over each. */
  lemma TotalOfAppend(a: seq<Transaction>, b: seq<Transaction>, kind: string)
    ensures TotalOf(a + b, kind) == TotalOf(a, kind) + TotalOf(b, kind)
  {
    FilterAppend(a, b, KindIs(kind));
    SumAmountsAppend(ByKind(a, kind), ByKind(b, kind));
  }

  /**
   * The balance of an empty list is zero, and one more transaction adds
   * its amount to income if its type is exactly "INCOME", to expense if it
   * is exactly "EXPENSE", and to neither otherwise.
   */
  lemma BalanceStep(ts: seq<Transaction>, t: Transaction)
    ensures CurrentBalance([]) == Totals(0, 0, 0)
    ensures var before, after := CurrentBalance(ts), CurrentBalance(ts + [t]);
      && after.income == before.income + (if t.kind == Income then t.amount else 0)
      && after.expense == before.expense + (if t.kind == Expense then t.amount else 0)
      && after.net == before.net + (if t.kind == Income then t.amount as int else if t.kind == Expense then -(t.amount as int) else 0)
  {
    TotalOfAppend(ts, [t], Income);
    TotalOfAppend(ts, [t], Expense);
    assert ByKind([t], Income) == (if t.kind == Income then [t] else []);
    assert ByKind([t], Expense) == (if t.kind == Expense then [t] else []);
  }

  // ---------------------------------------------------------------------
  // Per-category breakdown

  /** One entry of the grouping: a category and the sum of its amounts. */
  datatype CategoryTotal = CategoryTotal(category: string, total: nat)

  function CategoryIs(category: string): Transaction -> bool
  {
    (t: Transaction) => t.category == category
  }

  /** The sum of the amounts of one category (exact match, as groupingBy compares keys). */
  function CategorySum(xs: seq<Transaction>, category: string): nat
  {
    SumAmounts(Filter(xs, CategoryIs(category)))
  }

  function TxCategories(xs: seq<Transaction>): set<string>
  {
    if xs == [] then {} else {xs[0].category} + TxCategories(xs[1..])
  }

  function Categories(g: seq<CategoryTotal>): set<string>
  {
    if g == [] then {} else {g[0].category} + Categories(g[1..])
  }

  predicate Distinct(g: seq<CategoryTotal>)
  {
    g == [] || (g[0].category !in Categories(g[1..]) && Distinct(g[1..]))
  }

  function SumTotals(g: seq<CategoryTotal>): nat
  {
    if g == [] then 0 else g[0].total + SumTotals(g[1..])
  }

  /** The total recorded for a category (zero when absent). */
  function TotalFor(g: seq<CategoryTotal>, category: string): nat
  {
    if g == [] then 0 else (if g[0].category == category then g[0].total else 0) + TotalFor(g[1..], category)
  }

  predicate NonIncreasing(g: seq<CategoryTotal>)
  {
    forall i, j :: 0 <= i < j < |g| ==> g[i].total >= g[j].total
  }

  /** Adds an amount to a category's running total, opening the entry if the category is new. */
  function AddTo(g: seq<CategoryTotal>, category: string, amount: nat): (r: seq<CategoryTotal>)
    ensures Categories(r) == Categories(g) + {category}
    ensures Distinct(g) ==> Distinct(r)
    ensures SumTotals(r) == SumTotals(g) + amount
    ensures forall c :: TotalFor(r, c) == TotalFor(g, c) + (if c == category then amount else 0)
    ensures |r| <= |g| + 1
  {
    if g == [] then [CategoryTotal(category, amount)]
    else if g[0].category == category then [CategoryTotal(category, g[0].total + amount)] + g[1..]
    else [g[0]] + AddTo(g[1..], category, amount)
  }

  /** Collectors.groupingBy(getCategory, summingDouble(getAmount)), as a list of entries. */
  function GroupByCategory(xs: seq<Transaction>): (r: seq<CategoryTotal>)
    ensures |r| <= |xs| && SumTotals(r) == SumAmounts(xs)
  {
    if xs == [] then [] else AddTo(GroupByCategory(xs[1..]), xs[0].category, xs[0].amount)
  }

  lemma CategorySumStep(xs: seq<Transaction>, c: string)
    requires xs != []
    ensures CategorySum(xs, c) == (if xs[0].category == c then xs[0].amount else 0) + CategorySum(xs[1..], c)
  {
    var x := xs[0];
    SumAmountsAppend(if x.category == c then [x] else [], Filter(xs[1..], CategoryIs(c)));
  }

  /**
   * The grouping has one entry per distinct category, each holding the sum
   * of that category's amounts, and its totals add up to the sum of all
   * amounts.
   */
  lemma {:induction false} GroupByCategorySpec(xs: seq<Transaction>)
    ensures Distinct(GroupByCategory(xs))
    ensures Categories(GroupByCategory(xs)) == TxCategories(xs)
    ensures SumTotals(GroupByCategory(xs)) == SumAmounts(xs)
    ensures forall c :: TotalFor(GroupByCategory(xs), c) == CategorySum(xs, c)
  {
    if xs != [] {
      GroupByCategorySpec(xs[1..]);
      forall c ensures TotalFor(GroupByCategory(xs), c) == CategorySum(xs, c) {
        CategorySumStep(xs, c);
      }
    }
  }

  /** In a list without repeated categories, an entry's total is the category's total. */
  lemma {:induction false} EntryTotal(g: seq<CategoryTotal>, i: nat)
    requires Distinct(g) && i < |g|
    ensures g[i].total == TotalFor(g, g[i].category)
  {
    if i == 0 {
      TotalForAbsent(g[1..], g[0].category);
    } else {
      EntryTotal(g[1..], i - 1);
      CategoriesHoldEntries(g[1..], i - 1);
    }
  }

  lemma {:induction false} TotalForAbsent(g: seq<CategoryTotal>, c: string)
    requires c !in Categories(g)
    ensures TotalFor(g, c) == 0
  {
    if g != [] {
      TotalForAbsent(g[1..], c);
    }
  }

  lemma {:induction false} CategoriesHoldEntries(g: seq<CategoryTotal>, i: nat)
    requires i < |g|
    ensures g[i].category in Categories(g)
  {
    if i > 0 {
      CategoriesHoldEntries(g[1..], i - 1);
    }
  }

  lemma {:induction false} CategoriesHaveEntries(g: seq<CategoryTotal>, c: string)
    requires c in Categories(g)
    ensures exists i :: 0 <= i < |g| && g[i].category == c
  {
    if g[0].category != c {
      CategoriesHaveEntries(g[1..], c);
      var i :| 0 <= i < |g[1..]| && g[1..][i].category == c;
      assert g[i + 1].category == c;
    }
  }

  lemma {:induction false} TxCategoriesMembers(xs: seq<Transaction>, c: string)
    ensures c in TxCategories(xs) <==> exists t :: t in xs && t.category == c
  {
    if xs != [] {
      TxCategoriesMembers(xs[1..], c);
      assert xs == [xs[0]] + xs[1..];
    }
  }

  /** No two entries name the same category. */
  lemma {:induction false} DistinctPairwise(g: seq<CategoryTotal>)
    requires Distinct(g)
    ensures forall i, j :: 0 <= i < j < |g| ==> g[i].category != g[j].category
  {
    if g != [] {
      DistinctPairwise(g[1..]);
      forall j | 0 < j < |g| ensures g[0].category != g[j].category {
        CategoriesHoldEntries(g[1..], j - 1);
      }
    }
  }

  /** Places an entry before the first entry whose total is not larger. */
  function Insert(e: CategoryTotal, s: seq<CategoryTotal>): (r: seq<CategoryTotal>)
    ensures |r| == |s| + 1
    ensures multiset(r) == multiset(s) + multiset{e}
  {
    if s == [] || s[0].total <= e.total then
      assert multiset([e] + s) == multiset{e} + multiset(s);
      [e] + s
    else
      var rest := Insert(e, s[1..]);
      assert s == [s[0]] + s[1..];
      assert multiset([s[0]] + rest) == multiset{s[0]} + multiset(rest);
      [s[0]] + rest
  }

  /** Inserting into a list sorted largest first keeps it sorted. */
  lemma {:induction false} InsertSorted(e: CategoryTotal, s: seq<CategoryTotal>)
    requires NonIncreasing(s)
    ensures NonIncreasing(Insert(e, s))
  {
    if s != [] && s[0].total > e.total {
      var rest := Insert(e, s[1..]);
      InsertSorted(e, s[1..]);
      var r := [s[0]] + rest;
      forall j | 0 < j < |r| ensures r[0].total >= r[j].total {
        assert r[j] in multiset(rest);
        assert r[j] in multiset(s[1..]) || r[j] == e;
        if r[j] != e {
          var k :| 0 <= k < |s[1..]| && s[1..][k] == r[j];
          assert s[k + 1] == r[j];
        }
      }
    }
  }

  /** Inserting adds the entry's total and its category, and keeps categories distinct when the category is new. */
  lemma {:induction false} InsertEntries(e: CategoryTotal, s: seq<CategoryTotal>)
    ensures SumTotals(Insert(e, s)) == SumTotals(s) + e.total
    ensures Categories(Insert(e, s)) == Categories(s) + {e.category}
    ensures Distinct(s) && e.category !in Categories(s) ==> Distinct(Insert(e, s))
  {
    if s != [] && s[0].total > e.total {
      InsertEntries(e, s[1..]);
    }
  }

  /**
   * sorted(comparingByValue().reversed()): the entries, largest total
   * first. Entries with equal totals may come in any order.
   */
  function SortByTotalDesc(g: seq<CategoryTotal>): (r: seq<CategoryTotal>)
    ensures multiset(r) == multiset(g)
  {
    if g == [] then []
    else
      assert g == [g[0]] + g[1..];
      Insert(g[0], SortByTotalDesc(g[1..]))
  }

  /** The sort orders the entries largest first and keeps their totals, categories and distinctness. */
  lemma {:induction false} SortByTotalDescSpec(g: seq<CategoryTotal>)
    ensures NonIncreasing(SortByTotalDesc(g))
    ensures SumTotals(SortByTotalDesc(g)) == SumTotals(g)
    ensures Categories(SortByTotalDesc(g)) == Categories(g)
    ensures Distinct(g) ==> Distinct(SortByTotalDesc(g))
  {
    if g != [] {
      var rest := SortByTotalDesc(g[1..]);
      SortByTotalDescSpec(g[1..]);
      InsertSorted(g[0], rest);
      InsertEntries(g[0], rest);
    }
  }

  /** generateCategoryReport(list, type): group the transactions of that type by category, then sort. */
  function CategoryBreakdown(ts: seq<Transaction>, kind: string): (r: seq<CategoryTotal>)
    ensures NonIncreasing(r)
  {
    SortByTotalDescSpec(GroupByCategory(ByKind(ts, kind)));
    SortByTotalDesc(GroupByCategory(ByKind(ts, kind)))
  }

  /** The breakdown lists entries largest total first, and no category twice. */
  lemma CategoryBreakdownSorted(ts: seq<Transaction>, kind: string)
    ensures NonIncreasing(CategoryBreakdown(ts, kind))
    ensures var r := CategoryBreakdown(ts, kind);
      forall i, j :: 0 <= i < j < |r| ==> r[i].category != r[j].category
  {
    var g := GroupByCategory(ByKind(ts, kind));
    GroupByCategorySpec(ByKind(ts, kind));
    SortByTotalDescSpec(g);
    DistinctPairwise(SortByTotalDesc(g));
  }

  /** Each entry of the breakdown holds the sum of the amounts of its category within the type. */
  lemma CategoryBreakdownEntry(ts: seq<Transaction>, kind: string, i: int)
    requires 0 <= i < |CategoryBreakdown(ts, kind)|
    ensures var e := CategoryBreakdown(ts, kind)[i];
      e.total == CategorySum(ByKind(ts, kind), e.category)
  {
    var g := GroupByCategory(ByKind(ts, kind));
    var r := CategoryBreakdown(ts, kind);
    GroupByCategorySpec(ByKind(ts, kind));
    assert r[i] in multiset(g);
    var j :| 0 <= j < |g| && g[j] == r[i];
    EntryTotal(g, j);
  }

  /** A category appears in the breakdown iff some transaction of that type has it. */
  lemma CategoryBreakdownCategories(ts: seq<Transaction>, kind: string, c: string)
    ensures c in Categories(CategoryBreakdown(ts, kind))
      <==> exists t :: t in ts && t.kind == kind && t.category == c
  {
    var xs := ByKind(ts, kind);
    GroupByCategorySpec(xs);
    SortByTotalDescSpec(GroupByCategory(xs));
    TxCategoriesMembers(xs, c);
  }

  /** The breakdown's totals add up to the type's total. */
  lemma CategoryBreakdownSum(ts: seq<Transaction>, kind: string)
    ensures SumTotals(CategoryBreakdown(ts, kind)) == TotalOf(ts, kind)
  {
    GroupByCategorySpec(ByKind(ts, kind));
    SortByTotalDescSpec(GroupByCategory(ByKind(ts, kind)));
  }

  // ---------------------------------------------------------------------
  // Per-month breakdown of a year

  /** One line of the yearly report's monthly breakdown. */
  datatype MonthRow = MonthRow(month: int, income: nat, expense: nat, net: int)

  /** The row for one month: none when the month has no transaction. */
  function RowFor(ys: seq<Transaction>, month: int): (r: seq<MonthRow>)
    ensures |r| <= 1 && forall i :: 0 <= i < |r| ==> r[i].month == month
  {
    var data := Filter(ys, InMonth(month));
    var income := TotalOf(data, Income);
    var expense := TotalOf(data, Expense);
    if data == [] then [] else [MonthRow(month, income, expense, income - expense)]
  }

  /**
   * The loop `for month = from .. 12` over the year's transactions: a row
   * for each month that has at least one transaction.
   */
  function MonthRowsFrom(ys: seq<Transaction>, from: int): (r: seq<MonthRow>)
    requires 1 <= from <= 13
    ensures forall i :: 0 <= i < |r| ==> from <= r[i].month <= 12
    ensures forall i, j :: 0 <= i < j < |r| ==> r[i].month < r[j].month
    decreases 13 - from
  {
    if from == 13 then [] else RowFor(ys, from) + MonthRowsFrom(ys, from + 1)
  }

  /** The monthly breakdown of a year: at most one row per month, January first. */
  function MonthlyBreakdown(ys: seq<Transaction>): (r: seq<MonthRow>)
    ensures forall i :: 0 <= i < |r| ==> 1 <= r[i].month <= 12
    ensures forall i, j :: 0 <= i < j < |r| ==> r[i].month < r[j].month
  {
    MonthRowsFrom(ys, 1)
  }

  function SumIncome(rows: seq<MonthRow>): nat
  {
    if rows == [] then 0 else rows[0].income + SumIncome(rows[1..])
  }

  function SumExpense(rows: seq<MonthRow>): nat
  {
    if rows == [] then 0 else rows[0].expense + SumExpense(rows[1..])
  }

  lemma {:induction false} SumRowsAppend(a: seq<MonthRow>, b: seq<MonthRow>)
    ensures SumIncome(a + b) == SumIncome(a) + SumIncome(b)
    ensures SumExpense(a + b) == SumExpense(a) + SumExpense(b)
  {
    if a == [] {
      assert a + b == b;
    } else {
      assert (a + b)[1..] == a[1..] + b;
      SumRowsAppend(a[1..], b);
    }
  }

  predicate HasRow(rows: seq<MonthRow>, month: int)
  {
    exists i :: 0 <= i < |rows| && rows[i].month == month
  }

  predicate HasMonth(ys: seq<Transaction>, month: int)
  {
    exists t :: t in ys && t.date.month == month
  }

  function KindFromMonth(kind: string, from: int): Transaction -> bool
  {
    (t: Transaction) => t.kind == kind && t.date.month >= from
  }

  function KindInMonth(kind: string, month: int): Transaction -> bool
  {
    (t: Transaction) => t.kind == kind && t.date.month == month
  }

  /** The type total of the transactions dated in month `from` or later. */
  function KindTotalFrom(ys: seq<Transaction>, kind: string, from: int): nat
  {
    SumAmounts(Filter(ys, KindFromMonth(kind, from)))
  }

  lemma KindTotalFromStep(ys: seq<Transaction>, kind: string, month: int)
    ensures KindTotalFrom(ys, kind, month)
      == TotalOf(Filter(ys, InMonth(month)), kind) + KindTotalFrom(ys, kind, month + 1)
  {
    SumPartition(ys, KindFromMonth(kind, month), KindInMonth(kind, month), KindFromMonth(kind, month + 1));
    FilterFilter(ys, InMonth(month), KindIs(kind), KindInMonth(kind, month));
  }

  /** A month's row, when present, holds that month's totals; it is present iff the month has a transaction. */
  lemma RowForSpec(ys: seq<Transaction>, month: int)
    ensures var r := RowFor(ys, month);
      && (r != [] <==> HasMonth(ys, month))
      && SumIncome(r) == TotalOf(Filter(ys, InMonth(month)), Income)
      && SumExpense(r) == TotalOf(Filter(ys, InMonth(month)), Expense)
  {
    var data := Filter(ys, InMonth(month));
    if data != [] {
      assert data[0] in data;
    }
  }

  /** No transaction is dated after December. */
  lemma KindTotalFromEnd(ys: seq<Transaction>, kind: string)
    ensures KindTotalFrom(ys, kind, 13) == 0
  {
    FilterKeepsNone(ys, KindFromMonth(kind, 13));
  }

  /** The rows from a month on are that month's row followed by the rows from the next month on. */
  lemma MonthRowsStep(ys: seq<Transaction>, from: int)
    requires 1 <= from <= 12
    ensures SumIncome(MonthRowsFrom(ys, from))
      == TotalOf(Filter(ys, InMonth(from)), Income) + SumIncome(MonthRowsFrom(ys, from + 1))
    ensures SumExpense(MonthRowsFrom(ys, from))
      == TotalOf(Filter(ys, InMonth(from)), Expense) + SumExpense(MonthRowsFrom(ys, from + 1))
  {
    var head, rest := RowFor(ys, from), MonthRowsFrom(ys, from + 1);
    assert MonthRowsFrom(ys, from) == head + rest;
    SumRowsAppend(head, rest);
    RowForSpec(ys, from);
  }

  /** The rows from month `from` on add up to the type totals of the months from `from` on. */
  lemma {:induction false} MonthRowsSum(ys: seq<Transaction>, from: int)
    requires 1 <= from <= 13
    ensures SumIncome(MonthRowsFrom(ys, from)) == KindTotalFrom(ys, Income, from)
    ensures SumExpense(MonthRowsFrom(ys, from)) == KindTotalFrom(ys, Expense, from)
    decreases 13 - from
  {
    if from == 13 {
      KindTotalFromEnd(ys, Income);
      KindTotalFromEnd(ys, Expense);
      assert MonthRowsFrom(ys, from) == [];
    } else {
      MonthRowsSum(ys, from + 1);
      MonthRowsStep(ys, from);
      KindTotalFromStep(ys, Income, from);
      KindTotalFromStep(ys, Expense, from);
    }
  }

  /** A row holds the totals of its month's transactions. */
  predicate RowHolds(ys: seq<Transaction>, row: MonthRow)
  {
    && row.income == TotalOf(Filter(ys, InMonth(row.month)), Income)
    && row.expense == TotalOf(Filter(ys, InMonth(row.month)), Expense)
    && row.net == row.income - row.expense
  }

  lemma HasRowAppend(a: seq<MonthRow>, b: seq<MonthRow>, m: int)
    ensures HasRow(a + b, m) <==> HasRow(a, m) || HasRow(b, m)
  {
    if HasRow(a + b, m) {
      var i :| 0 <= i < |a + b| && (a + b)[i].month == m;
      if i >= |a| {
        assert b[i - |a|] == (a + b)[i];
      }
    }
    if HasRow(a, m) {
      var i :| 0 <= i < |a| && a[i].month == m;
      assert (a + b)[i] == a[i];
    }
    if HasRow(b, m) {
      var i :| 0 <= i < |b| && b[i].month == m;
      assert (a + b)[|a| + i] == b[i];
    }
  }

  lemma RowForHas(ys: seq<Transaction>, month: int, m: int)
    ensures HasRow(RowFor(ys, month), m) <==> m == month && HasMonth(ys, month)
  {
    var r := RowFor(ys, month);
    RowForSpec(ys, month);
    if HasRow(r, m) {
      var i :| 0 <= i < |r| && r[i].month == m;
      assert r != [];
    }
    if m == month && HasMonth(ys, month) {
      assert r[0].month == m;
    }
  }

  predicate AllRowsHold(ys: seq<Transaction>, rows: seq<MonthRow>)
  {
    forall i :: 0 <= i < |rows| ==> RowHolds(ys, rows[i])
  }

  lemma AllRowsHoldAppend(ys: seq<Transaction>, a: seq<MonthRow>, b: seq<MonthRow>)
    requires AllRowsHold(ys, a) && AllRowsHold(ys, b)
    ensures AllRowsHold(ys, a + b)
  {
    forall i | 0 <= i < |a + b| ensures RowHolds(ys, (a + b)[i]) {
      if i >= |a| {
        assert (a + b)[i] == b[i - |a|];
      }
    }
  }

  lemma RowForHolds(ys: seq<Transaction>, month: int)
    ensures AllRowsHold(ys, RowFor(ys, month))
  {
  }

  /** A month from `from` on has a row iff it is in range and has a transaction. */
  lemma {:induction false} MonthRowsHas(ys: seq<Transaction>, from: int, m: int)
    requires 1 <= from <= 13
    ensures HasRow(MonthRowsFrom(ys, from), m) <==> from <= m <= 12 && HasMonth(ys, m)
    decreases 13 - from
  {
    if from == 13 {
      assert MonthRowsFrom(ys, from) == [];
    } else {
      MonthRowsHas(ys, from + 1, m);
      HasRowAppend(RowFor(ys, from), MonthRowsFrom(ys, from + 1), m);
      RowForHas(ys, from, m);
    }
  }

  /** Every row from `from` on holds its month's totals. */
  lemma {:induction false} MonthRowsHold(ys: seq<Transaction>, from: int)
    requires 1 <= from <= 13
    ensures AllRowsHold(ys, MonthRowsFrom(ys, from))
    decreases 13 - from
  {
    if from == 13 {
      assert MonthRowsFrom(ys, from) == [];
    } else {
      MonthRowsHold(ys, from + 1);
      RowForHolds(ys, from);
      AllRowsHoldAppend(ys, RowFor(ys, from), MonthRowsFrom(ys, from + 1));
    }
  }

  /** A month of the year has a row iff some transaction is dated in that month of that year. */
  lemma MonthlyBreakdownMonths(ts: seq<Transaction>, year: int, m: int)
    ensures HasRow(MonthlyBreakdown(ByYear(ts, year)), m)
      <==> exists t :: t in ts && t.date.year == year && t.date.month == m
  {
    var ys := ByYear(ts, year);
    MonthRowsHas(ys, 1, m);
    if exists t :: t in ts && t.date.year == year && t.date.month == m {
      var t :| t in ts && t.date.year == year && t.date.month == m;
      assert t in ys;
    }
  }

  /** Each row of the year's breakdown holds the totals of the monthly view of its month. */
  lemma MonthlyBreakdownRows(ts: seq<Transaction>, year: int, i: int)
    requires 0 <= i < |MonthlyBreakdown(ByYear(ts, year))|
    ensures var row := MonthlyBreakdown(ByYear(ts, year))[i];
      && row.income == TotalOf(ByMonth(ts, row.month, year), Income)
      && row.expense == TotalOf(ByMonth(ts, row.month, year), Expense)
      && row.net == row.income - row.expense
  {
    var ys := ByYear(ts, year);
    MonthRowsHold(ys, 1);
    assert RowHolds(ys, MonthlyBreakdown(ys)[i]);
    ByMonthWithinYear(ts, MonthlyBreakdown(ys)[i].month, year);
  }

  /** The rows' incomes and expenses add up to the year's totals. */
  lemma MonthlyBreakdownSums(ys: seq<Transaction>)
    ensures SumIncome(MonthlyBreakdown(ys)) == TotalOf(ys, Income)
    ensures SumExpense(MonthlyBreakdown(ys)) == TotalOf(ys, Expense)
  {
    MonthRowsSum(ys, 1);
    FilterCongruent(ys, KindFromMonth(Income, 1), KindIs(Income));
    FilterCongruent(ys, KindFromMonth(Expense, 1), KindIs(Expense));
  }

  // ---------------------------------------------------------------------
  // The reports

  /** One type within one month of one year, tested in a single filter. */
  function KindInMonthOfYear(kind: string, month: int, year: int): Transaction -> bool
  {
    (t: Transaction) => t.kind == kind && t.date.month == month && t.date.year == year
  }

  datatype MonthlyReport = MonthlyReport(totals: Totals, incomeByCategory: seq<CategoryTotal>,
                                         expenseByCategory: seq<CategoryTotal>)

  /** generateMonthlyReport: nothing when the month has no transaction, else totals and both breakdowns. */
  function MonthlyReportOf(ts: seq<Transaction>, month: int, year: int): (r: Option<MonthlyReport>)
    ensures r.Some? ==> r.value.totals.net == r.value.totals.income - r.value.totals.expense
    ensures r.Some? ==> NonIncreasing(r.value.incomeByCategory) && NonIncreasing(r.value.expenseByCategory)
  {
    var monthly := ByMonth(ts, month, year);
    if monthly == [] then None
    else Some(MonthlyReport(TotalsOf(monthly), CategoryBreakdown(monthly, Income), CategoryBreakdown(monthly, Expense)))
  }

  datatype YearlyReport = YearlyReport(totals: Totals, months: seq<MonthRow>)

  /** generateYearlyReport: nothing when the year has no transaction, else totals and the monthly breakdown. */
  function YearlyReportOf(ts: seq<Transaction>, year: int): (r: Option<YearlyReport>)
    ensures r.Some? ==> r.value.totals.net == r.value.totals.income - r.value.totals.expense
    ensures r.Some? ==> forall i, j :: 0 <= i < j < |r.value.months| ==> r.value.months[i].month < r.value.months[j].month
  {
    var yearly := ByYear(ts, year);
    if yearly == [] then None
    else Some(YearlyReport(TotalsOf(yearly), MonthlyBreakdown(yearly)))
  }

  /**
   * A monthly report exists iff the month has a transaction; its
   * category breakdowns add up to its income and expense totals and are
   * sorted largest first; its net is income minus expense.
   */
  lemma MonthlyReportSpec(ts: seq<Transaction>, month: int, year: int)
    ensures MonthlyReportOf(ts, month, year).None?
      <==> forall t :: t in ts ==> !(t.date.month == month && t.date.year == year)
    ensures MonthlyReportOf(ts, month, year).Some? ==>
      var rep := MonthlyReportOf(ts, month, year).value;
      && SumTotals(rep.incomeByCategory) == rep.totals.income
      && SumTotals(rep.expenseByCategory) == rep.totals.expense
      && rep.totals.net == rep.totals.income - rep.totals.expense
      && NonIncreasing(rep.incomeByCategory) && NonIncreasing(rep.expenseByCategory)
    ensures MonthlyReportOf(ts, month, year).Some? ==>
      var rep := MonthlyReportOf(ts, month, year).value;
      && rep.totals.income == SumAmounts(Filter(ts, KindInMonthOfYear(Income, month, year)))
      && rep.totals.expense == SumAmounts(Filter(ts, KindInMonthOfYear(Expense, month, year)))
  {
    var monthly := ByMonth(ts, month, year);
    FilterFilter(ts, InMonthOfYear(month, year), KindIs(Income), KindInMonthOfYear(Income, month, year));
    FilterFilter(ts, InMonthOfYear(month, year), KindIs(Expense), KindInMonthOfYear(Expense, month, year));
    if monthly != [] {
      assert monthly[0] in monthly;
      CategoryBreakdownSorted(monthly, Income);
      CategoryBreakdownSorted(monthly, Expense);
      CategoryBreakdownSum(monthly, Income);
      CategoryBreakdownSum(monthly, Expense);
    }
  }

  /** Each row of the year's breakdown agrees with the monthly report of its month. */
  lemma YearRowAgrees(ts: seq<Transaction>, year: int, i: int)
    requires 0 <= i < |MonthlyBreakdown(ByYear(ts, year))|
    ensures var row := MonthlyBreakdown(ByYear(ts, year))[i];
      && MonthlyReportOf(ts, row.month, year).Some?
      && MonthlyReportOf(ts, row.month, year).value.totals == Totals(row.income, row.expense, row.net)
  {
    var r := MonthlyBreakdown(ByYear(ts, year));
    var m := r[i].month;
    assert HasRow(r, m);
    MonthlyBreakdownMonths(ts, year, m);
    MonthlyBreakdownRows(ts, year, i);
    var t :| t in ts && t.date.year == year && t.date.month == m;
    assert t in ByMonth(ts, m, year);
  }

  /**
   * A yearly report exists iff the year has a transaction; its monthly
   * rows add up to its totals, and each row agrees with the monthly
   * report of that month.
   */
  lemma YearlyReportSpec(ts: seq<Transaction>, year: int)
    ensures YearlyReportOf(ts, year).None? <==> forall t :: t in ts ==> t.date.year != year
    ensures YearlyReportOf(ts, year).Some? ==>
      var rep := YearlyReportOf(ts, year).value;
      && SumIncome(rep.months) == rep.totals.income
      && SumExpense(rep.months) == rep.totals.expense
      && forall i :: 0 <= i < |rep.months| ==>
           MonthlyReportOf(ts, rep.months[i].month, year).Some?
           && MonthlyReportOf(ts, rep.months[i].month, year).value.totals
              == Totals(rep.months[i].income, rep.months[i].expense, rep.months[i].net)
  {
    var yearly := ByYear(ts, year);
    if yearly != [] {
      assert yearly[0] in yearly;
      MonthlyBreakdownSums(yearly);
      forall i | 0 <= i < |MonthlyBreakdown(yearly)|
        ensures MonthlyReportOf(ts, MonthlyBreakdown(yearly)[i].month, year).Some?
        ensures MonthlyReportOf(ts, MonthlyBreakdown(yearly)[i].month, year).value.totals
          == Totals(MonthlyBreakdown(yearly)[i].income, MonthlyBreakdown(yearly)[i].expense,
                    MonthlyBreakdown(yearly)[i].net)
      {
        YearRowAgrees(ts, year, i);
      }
    }
  }

  /** When a type has a single transaction, its breakdown is that transaction's category and amount. */
  lemma SingleTransactionBreakdown(ts: seq<Transaction>, kind: string, t: Transaction)
    requires ByKind(ts, kind) == [t]
    ensures CategoryBreakdown(ts, kind) == [CategoryTotal(t.category, t.amount)]
    ensures TotalOf(ts, kind) == t.amount
  {
    var e := CategoryTotal(t.category, t.amount);
    assert [t][1..] == [];
    assert GroupByCategory([t]) == [e];
    assert [e][1..] == [];
    assert SortByTotalDesc([e]) == Insert(e, []) == [e] + [];
    assert [e] + [] == [e];
    assert CategoryBreakdown(ts, kind) == SortByTotalDesc(GroupByCategory([t]));
    assert SumAmounts([t]) == t.amount + SumAmounts([]);
  }

  /**
   * A salary of 1000.00 and a lunch of 50.25 on 1 March 2024 give a March
   * report of 1000.00 income, 50.25 expense, 949.75 net, one income
   * category and one expense category.
   */
  lemma MarchScenario()
    ensures var salary := Transaction("1", Income, "Salary", 100000, "pay", Date(2024, 3, 1));
      var lunch := Transaction("2", Expense, "Food", 5025, "lunch", Date(2024, 3, 1));
      MonthlyReportOf([salary, lunch], 3, 2024)
        == Some(MonthlyReport(Totals(100000, 5025, 94975),
                              [CategoryTotal("Salary", 100000)], [CategoryTotal("Food", 5025)]))
  {
    var salary := Transaction("1", Income, "Salary", 100000, "pay", Date(2024, 3, 1));
    var lunch := Transaction("2", Expense, "Food", 5025, "lunch", Date(2024, 3, 1));
    var ts := [salary, lunch];
    FilterKeepsAll(ts, InMonthOfYear(3, 2024));
    assert ts == [salary] + [lunch];
    assert [salary][1..] == [] && [lunch][1..] == [];
    FilterAppend([salary], [lunch], KindIs(Income));
    FilterAppend([salary], [lunch], KindIs(Expense));
    SingleTransactionBreakdown(ts, Income, salary);
    SingleTransactionBreakdown(ts, Expense, lunch);
  }
}

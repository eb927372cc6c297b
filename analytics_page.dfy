/** The derived figures of Analytics.jsx: the top category, the monthly average, current and
    previous month with the month-over-month change, the highest and lowest month, and the rows of
    the category analysis. */
module AnalyticsPage {

  import opened Expenses
  import opened StableSort
  import opened AnalyticsUtils

  // ---------------------------------------------------------------------------------------------
  // topCategory

  /** One step of the reduce, `categoryTotals[a[0]] > categoryTotals[b[0]] ? a : b`. A missing key
      reads as undefined and the comparison is then false, so `b` wins. */
  function Pick(a: (string, real), b: (string, real), m: map<string, real>): (r: (string, real))
    ensures r == a || r == b
    ensures r == b || (a.0 in m && b.0 in m && m[a.0] > m[b.0])
  {
    if a.0 in m && b.0 in m && m[a.0] > m[b.0] then a else b
  }

  /** The reduce over the entries, starting from `['', 0]`. */
  function TopOf(entries: seq<(string, real)>, m: map<string, real>): (r: (string, real))
    ensures r == ("", 0.0) || r in entries
  {
    if entries == [] then ("", 0.0)
    else Pick(TopOf(entries[..|entries| - 1], m), entries[|entries| - 1], m)
  }

  /** `Object.entries(categoryTotals).reduce(...)`: the seed, or a category paired with its total. */
  function TopCategory(t: CategoryTotals): (r: (string, real))
    requires WellFormed(t)
    ensures r == ("", 0.0) || (r.0 in t.amount && r.1 == t.amount[r.0])
  {
    TopOf(Entries(t), t.amount)
  }

  /** `a` is an entry of the keys with the highest amount, and no later key reaches that amount. */
  predicate LastMaximum(keys: seq<string>, m: map<string, real>, a: (string, real))
    requires forall c :: c in keys ==> c in m
  {
    && a.0 in keys
    && a.0 in m && a.1 == m[a.0]
    && (forall j :: 0 <= j < |keys| ==> m[keys[j]] <= a.1)
    && (forall i, j :: 0 <= i < j < |keys| && keys[i] == a.0 ==> m[keys[j]] < a.1)
  }

  /** The start value `['', 0]` is still held because the category '' exists, has not been reached
      yet, and is above every key seen so far. */
  predicate HeldByEmptyKey(keys: seq<string>, m: map<string, real>, a: (string, real))
    requires forall c :: c in keys ==> c in m
  {
    && a == ("", 0.0)
    && "" in m && "" !in keys
    && forall j :: 0 <= j < |keys| ==> m[keys[j]] < m[""]
  }

  lemma StepFromLastMaximum(p: seq<string>, k: string, m: map<string, real>, a0: (string, real))
    requires k !in p && k in m
    requires forall c :: c in p ==> c in m
    requires LastMaximum(p, m, a0)
    ensures LastMaximum(p + [k], m, Pick(a0, (k, m[k]), m))
  {
    var keys := p + [k];
    assert forall j :: 0 <= j < |p| ==> keys[j] == p[j];
    assert keys[|p|] == k;
  }

  lemma StepFromHeld(p: seq<string>, k: string, m: map<string, real>, a0: (string, real))
    requires k !in p && k in m
    requires forall c :: c in p ==> c in m
    requires HeldByEmptyKey(p, m, a0)
    ensures LastMaximum(p + [k], m, Pick(a0, (k, m[k]), m)) || HeldByEmptyKey(p + [k], m, Pick(a0, (k, m[k]), m))
  {
    var keys := p + [k];
    assert forall j :: 0 <= j < |p| ==> keys[j] == p[j];
    assert keys[|p|] == k;
  }

  lemma StepFromStart(k: string, m: map<string, real>)
    requires k in m
    ensures LastMaximum([k], m, Pick(("", 0.0), (k, m[k]), m)) || HeldByEmptyKey([k], m, Pick(("", 0.0), (k, m[k]), m))
  {
  }

  lemma {:induction false} TopOfInvariant(keys: seq<string>, m: map<string, real>)
    requires Distinct(keys)
    requires forall c :: c in keys ==> c in m
    ensures keys == [] ==> TopOf(EntriesOf(keys, m), m) == ("", 0.0)
    ensures keys != [] ==>
      LastMaximum(keys, m, TopOf(EntriesOf(keys, m), m)) || HeldByEmptyKey(keys, m, TopOf(EntriesOf(keys, m), m))
  {
    if keys != [] {
      var p := keys[..|keys| - 1];
      var k := keys[|keys| - 1];
      assert keys == p + [k];
      assert Distinct(p);
      assert k !in p;
      var e := EntriesOf(keys, m);
      assert e[..|e| - 1] == EntriesOf(p, m);
      TopOfInvariant(p, m);
      var a0 := TopOf(EntriesOf(p, m), m);
      assert TopOf(e, m) == Pick(a0, (k, m[k]), m);
      if p == [] {
        StepFromStart(k, m);
      } else if LastMaximum(p, m, a0) {
        StepFromLastMaximum(p, k, m, a0);
      } else {
        StepFromHeld(p, k, m, a0);
      }
    }
  }

  /** With no categories the top category is `['', 0]`. */
  lemma TopCategoryOfNothing(t: CategoryTotals)
    requires WellFormed(t) && t.order == []
    ensures TopCategory(t) == ("", 0.0)
  {
    TopOfInvariant(t.order, t.amount);
  }

  /** Otherwise it is a category with the highest total, paired with that total; on a tie the later
      entry wins, because the comparison is strict and keeps `b`. */
  lemma TopCategoryIsLastMaximum(t: CategoryTotals)
    requires WellFormed(t) && t.order != []
    ensures var r := TopCategory(t);
      && r.0 in t.amount && r.1 == t.amount[r.0]
      && (forall c :: c in t.amount ==> t.amount[c] <= r.1)
      && (forall i, j :: 0 <= i < j < |t.order| && t.order[i] == r.0 ==> t.amount[t.order[j]] < r.1)
  {
    TopOfInvariant(t.order, t.amount);
    var r := TopOf(EntriesOf(t.order, t.amount), t.amount);
    assert TopCategory(t) == r;
    assert "" in t.amount ==> "" in t.order;
    assert !HeldByEmptyKey(t.order, t.amount, r);
    assert LastMaximum(t.order, t.amount, r);
    forall c | c in t.amount ensures t.amount[c] <= r.1 {
      var j :| 0 <= j < |t.order| && t.order[j] == c;
    }
  }

  // ---------------------------------------------------------------------------------------------
  // Monthly figures

  /** `getMonthlyExpenses(expenses)` with its default of six months. */
  function MonthlyData(es: seq<Expense>, now: Date): (r: seq<MonthBucket>)
    ensures |r| == 6
  {
    MonthlyExpenses(es, 6, now)
  }

  /** `monthlyData.reduce(sum + total, 0) / monthlyData.length`. */
  function AverageMonthly(bs: seq<MonthBucket>): (r: real)
    requires |bs| > 0
    ensures r * (|bs| as real) == SumTotals(bs)
  {
    SumTotals(bs) / (|bs| as real)
  }

  /** `monthlyData[monthlyData.length - 1]?.total || 0`. */
  function CurrentMonth(bs: seq<MonthBucket>): (r: real)
    ensures bs == [] ==> r == 0.0
    ensures bs != [] ==> r == bs[|bs| - 1].total
    ensures bs != [] ==> Lowest(bs) <= r <= Highest(bs)
  {
    if |bs| >= 1 then bs[|bs| - 1].total else 0.0
  }

  /** `monthlyData[monthlyData.length - 2]?.total || 0`. */
  function PreviousMonth(bs: seq<MonthBucket>): (r: real)
    ensures |bs| < 2 ==> r == 0.0
    ensures |bs| >= 2 ==> r == bs[|bs| - 2].total
    ensures |bs| >= 2 ==> Lowest(bs) <= r <= Highest(bs)
  {
    if |bs| >= 2 then bs[|bs| - 2].total else 0.0
  }

  /** The change in percent, 0 unless the previous month is positive. */
  function MonthlyChange(current: real, previous: real): (r: real)
    ensures previous <= 0.0 ==> r == 0.0
    ensures previous > 0.0 ==> previous + r / 100.0 * previous == current
  {
    if previous > 0.0 then (current - previous) / previous * 100.0 else 0.0
  }

  /** The sign shown in front of the change. */
  function ChangePrefix(change: real): (r: string)
    ensures r == "+" <==> change > 0.0
    ensures r == "" || r == "+"
  {
    if change > 0.0 then "+" else ""
  }

  /** `Math.max(...monthlyData.map(m => m.total))`. */
  function Highest(bs: seq<MonthBucket>): (h: real)
    requires |bs| > 0
    ensures exists k :: 0 <= k < |bs| && bs[k].total == h
    ensures forall k :: 0 <= k < |bs| ==> bs[k].total <= h
  {
    if |bs| == 1 then bs[0].total
    else
      var h := Highest(bs[..|bs| - 1]);
      var last := bs[|bs| - 1].total;
      assert forall k :: 0 <= k < |bs| - 1 ==> bs[..|bs| - 1][k] == bs[k];
      if last > h then last else h
  }

  /** `Math.min(...monthlyData.map(m => m.total))`. */
  function Lowest(bs: seq<MonthBucket>): (l: real)
    requires |bs| > 0
    ensures exists k :: 0 <= k < |bs| && bs[k].total == l
    ensures forall k :: 0 <= k < |bs| ==> l <= bs[k].total
  {
    if |bs| == 1 then bs[0].total
    else
      var l := Lowest(bs[..|bs| - 1]);
      var last := bs[|bs| - 1].total;
      assert forall k :: 0 <= k < |bs| - 1 ==> bs[..|bs| - 1][k] == bs[k];
      if last < l then last else l
  }

  /** The month-over-month change is positive iff the previous month is positive and the current
      one is larger, negative iff it is positive and the current one is smaller; the '+' sign
      appears exactly when it is positive. */
  lemma MonthlyChangeSign(current: real, previous: real)
    ensures MonthlyChange(current, previous) > 0.0 <==> previous > 0.0 && current > previous
    ensures MonthlyChange(current, previous) < 0.0 <==> previous > 0.0 && current < previous
    ensures previous <= 0.0 ==> MonthlyChange(current, previous) == 0.0
    ensures ChangePrefix(MonthlyChange(current, previous)) == "+" <==> MonthlyChange(current, previous) > 0.0
  {
    if previous > 0.0 {
      var q := (current - previous) / previous;
      assert q * previous == current - previous;
      if q > 0.0 {
        assert q * previous > 0.0;
      } else if q < 0.0 {
        assert q * previous < 0.0;
      }
    }
  }

  lemma {:induction false} SumTotalsBounds(bs: seq<MonthBucket>, lo: real, hi: real)
    requires forall k :: 0 <= k < |bs| ==> lo <= bs[k].total <= hi
    ensures (|bs| as real) * lo <= SumTotals(bs) <= (|bs| as real) * hi
  {
    if bs != [] {
      var p := bs[..|bs| - 1];
      assert forall k :: 0 <= k < |p| ==> p[k] == bs[k];
      SumTotalsBounds(p, lo, hi);
    }
  }

  /** Lowest month <= average <= highest month. */
  lemma AverageBetweenLowestAndHighest(bs: seq<MonthBucket>)
    requires |bs| > 0
    ensures Lowest(bs) <= AverageMonthly(bs) <= Highest(bs)
  {
    AverageWithin(bs, Lowest(bs), Highest(bs));
  }

  lemma AverageWithin(bs: seq<MonthBucket>, lo: real, hi: real)
    requires |bs| > 0
    requires forall k :: 0 <= k < |bs| ==> lo <= bs[k].total <= hi
    ensures lo <= AverageMonthly(bs) <= hi
  {
    SumTotalsBounds(bs, lo, hi);
    DivBounds(SumTotals(bs), |bs| as real, lo, hi);
  }

  lemma DivBounds(s: real, n: real, lo: real, hi: real)
    requires n > 0.0 && n * lo <= s <= n * hi
    ensures lo <= s / n <= hi
  {
    assert s / n - lo == (s - n * lo) / n;
    assert hi - s / n == (n * hi - s) / n;
  }

  /** On the page the current month is the total of the records in the month of `now`. */
  lemma PageCurrentMonth(es: seq<Expense>, now: Date)
    requires ValidMonth(MonthOf(now))
    ensures CurrentMonth(MonthlyData(es, now)) == Total(InMonth(es, MonthOf(now)))
  {
    var bs := MonthlyData(es, now);
    var k := WindowStart(6, now) + 5;
    WindowAt(es, WindowStart(6, now), 6, 5);
    MonthAtIndex(MonthOf(now));
    assert MonthAt(k) == MonthOf(now);
  }

  /** The previous month is the total of the records in the calendar month before that of `now`. */
  lemma PagePreviousMonth(es: seq<Expense>, now: Date)
    ensures PreviousMonth(MonthlyData(es, now)) == Total(InMonth(es, SubMonths(MonthOf(now), 1)))
  {
    var bs := MonthlyData(es, now);
    var k := WindowStart(6, now) + 4;
    WindowAt(es, WindowStart(6, now), 6, 4);
    assert MonthAt(k) == SubMonths(MonthOf(now), 1);
  }

  /** The average is the total of the records dated inside the six-month window, divided by six. */
  lemma PageAverage(es: seq<Expense>, now: Date)
    requires DatesValid(es)
    ensures AverageMonthly(MonthlyData(es, now)) == Total(InRange(es, WindowStart(6, now), WindowStart(6, now) + 6)) / 6.0
  {
    var lo := WindowStart(6, now);
    var bs := MonthlyExpenses(es, 6, now);
    MonthlyConservation(es, 6, now);
    AverageOfSix(bs, Total(InRange(es, lo, lo + 6)));
    assert MonthlyData(es, now) == bs;
  }

  lemma AverageOfSix(bs: seq<MonthBucket>, sum: real)
    requires |bs| == 6 && SumTotals(bs) == sum
    ensures AverageMonthly(bs) == sum / 6.0
  {
  }

  // ---------------------------------------------------------------------------------------------
  // Category analysis

  /** One row of the analysis: the category, its amount and its share of the total in percent. */
  datatype CategoryRow = CategoryRow(category: string, amount: real, percentage: real)

  /** `([, a], [, b]) => b - a`: larger amounts first. */
  function LargerEntryFirst(a: (string, real), b: (string, real)): (r: bool)
    ensures r ==> a.1 != b.1 && !(b.1 > a.1)
  {
    a.1 > b.1
  }

  lemma LargerEntryFirstIsStrictWeakOrder()
    ensures StrictWeakOrder(LargerEntryFirst)
  {
  }

  /** `(amount / totalExpenses) * 100`; a zero total gives 0 here (see the README). */
  function Percentage(amount: real, total: real): (r: real)
    ensures total == 0.0 ==> r == 0.0
    ensures total != 0.0 ==> r / 100.0 * total == amount
  {
    if total == 0.0 then 0.0 else amount / total * 100.0
  }

  function RowsOf(entries: seq<(string, real)>, total: real): (r: seq<CategoryRow>)
    ensures |r| == |entries|
    ensures forall i :: 0 <= i < |r| ==> r[i].category == entries[i].0 && r[i].amount == entries[i].1
    ensures forall i :: 0 <= i < |r| ==> r[i].percentage == Percentage(entries[i].1, total)
  {
    if entries == [] then []
    else
      var e := entries[|entries| - 1];
      RowsOf(entries[..|entries| - 1], total) + [CategoryRow(e.0, e.1, Percentage(e.1, total))]
  }

  /** The rows as the page lists them: the entries of calculateCategoryTotals sorted by amount. */
  function CategoryRows(es: seq<Expense>): (rows: seq<CategoryRow>)
    ensures Total(es) != 0.0 ==> forall r :: r in rows ==> r.percentage == r.amount / Total(es) * 100.0
    ensures Total(es) == 0.0 ==> forall r :: r in rows ==> r.percentage == 0.0
  {
    RowsOf(Sort(Entries(CategoryTotalsOf(es)), LargerEntryFirst), Total(es))
  }

  function SumPercentages(rows: seq<CategoryRow>): real {
    if rows == [] then 0.0 else SumPercentages(rows[..|rows| - 1]) + rows[|rows| - 1].percentage
  }

  /** The rows are ordered by amount, largest first. */
  lemma CategoryRowsOrder(es: seq<Expense>)
    ensures var rows := CategoryRows(es);
      forall i, j :: 0 <= i < j < |rows| ==> rows[i].amount >= rows[j].amount
  {
    var sorted := Sort(Entries(CategoryTotalsOf(es)), LargerEntryFirst);
    LargerEntryFirstIsStrictWeakOrder();
    SortSorted(Entries(CategoryTotalsOf(es)), LargerEntryFirst);
    var rows := RowsOf(sorted, Total(es));
    assert rows == CategoryRows(es);
    forall i, j | 0 <= i < j < |rows| ensures rows[i].amount >= rows[j].amount {
      assert !LargerEntryFirst(sorted[j], sorted[i]);
    }
  }

  /** Every row is a category of the records with its total. */
  lemma RowsAreCategories(es: seq<Expense>)
    ensures forall r :: r in CategoryRows(es) ==> r.category in Categories(es) && r.amount == CategorySum(es, r.category)
  {
    var t := CategoryTotalsOf(es);
    var entries := Entries(t);
    var sorted := Sort(entries, LargerEntryFirst);
    var rows := CategoryRows(es);
    forall r | r in rows ensures r.category in Categories(es) && r.amount == CategorySum(es, r.category) {
      var i :| 0 <= i < |rows| && rows[i] == r;
      assert sorted[i] in multiset(entries);
      var j :| 0 <= j < |entries| && entries[j] == sorted[i];
    }
  }

  /** Every category of the records has a row. */
  lemma CategoriesHaveRows(es: seq<Expense>)
    ensures forall c :: c in Categories(es) ==> exists r :: r in CategoryRows(es) && r.category == c
  {
    var t := CategoryTotalsOf(es);
    var entries := Entries(t);
    var sorted := Sort(entries, LargerEntryFirst);
    var rows := CategoryRows(es);
    forall c | c in Categories(es) ensures exists r :: r in rows && r.category == c {
      var j :| 0 <= j < |t.order| && t.order[j] == c;
      assert entries[j] in multiset(sorted);
      var i :| 0 <= i < |sorted| && sorted[i] == entries[j];
      assert rows[i] in rows;
    }
  }

  /** There is one row per category, carrying that category's total. */
  lemma CategoryRowsContents(es: seq<Expense>)
    ensures var rows := CategoryRows(es);
      && |rows| == |Categories(es)|
      && (forall r :: r in rows ==> r.category in Categories(es) && r.amount == CategorySum(es, r.category))
      && (forall c :: c in Categories(es) ==> exists r :: r in rows && r.category == c)
  {
    RowsAreCategories(es);
    CategoriesHaveRows(es);
  }

  lemma {:induction false} SumAmountsCons(x: (string, real), s: seq<(string, real)>)
    ensures SumAmounts([x] + s) == x.1 + SumAmounts(s)
  {
    if s != [] {
      var p := s[..|s| - 1];
      assert ([x] + s)[..|[x] + s| - 1] == [x] + p;
      SumAmountsCons(x, p);
    }
  }

  lemma {:induction false} SumAmountsInsert(x: (string, real), s: seq<(string, real)>)
    ensures SumAmounts(Insert(x, s, LargerEntryFirst)) == x.1 + SumAmounts(s)
  {
    if s != [] && LargerEntryFirst(s[0], x) {
      SumAmountsInsert(x, s[1..]);
      SumAmountsCons(s[0], Insert(x, s[1..], LargerEntryFirst));
      SumAmountsCons(s[0], s[1..]);
      assert [s[0]] + s[1..] == s;
    } else {
      SumAmountsCons(x, s);
    }
  }

  /** Sorting the entries does not change their sum. */
  lemma {:induction false} SumAmountsSort(s: seq<(string, real)>)
    ensures SumAmounts(Sort(s, LargerEntryFirst)) == SumAmounts(s)
  {
    if s != [] {
      SumAmountsSort(s[1..]);
      SumAmountsInsert(s[0], Sort(s[1..], LargerEntryFirst));
      SumAmountsCons(s[0], s[1..]);
      assert [s[0]] + s[1..] == s;
    }
  }

  lemma {:induction false} SumPercentagesOf(entries: seq<(string, real)>, total: real)
    requires total != 0.0
    ensures SumPercentages(RowsOf(entries, total)) == SumAmounts(entries) / total * 100.0
  {
    if entries != [] {
      var p := entries[..|entries| - 1];
      var e := entries[|entries| - 1];
      SumPercentagesOf(p, total);
      var rp := RowsOf(p, total);
      var row := CategoryRow(e.0, e.1, Percentage(e.1, total));
      assert RowsOf(entries, total) == rp + [row];
      SumPercentagesSnoc(rp, row);
      var a := SumAmounts(p);
      assert SumAmounts(entries) == a + e.1;
      DivAdd(a, e.1, total);
    }
  }

  lemma SumPercentagesSnoc(rows: seq<CategoryRow>, row: CategoryRow)
    ensures SumPercentages(rows + [row]) == SumPercentages(rows) + row.percentage
  {
    assert (rows + [row])[..|rows|] == rows;
  }

  lemma DivAdd(a: real, b: real, t: real)
    requires t != 0.0
    ensures (a + b) / t * 100.0 == a / t * 100.0 + b / t * 100.0
  {
  }

  /** With a non-zero total the percentages add up to 100. */
  lemma CategoryPercentagesSumTo100(es: seq<Expense>)
    requires Total(es) != 0.0
    ensures SumPercentages(CategoryRows(es)) == 100.0
  {
    var entries := Entries(CategoryTotalsOf(es));
    var total := Total(es);
    SumPercentagesOf(Sort(entries, LargerEntryFirst), total);
    SumAmountsSort(entries);
    CategoryTotalsConserveTotal(es);
    SelfPercentage(total);
  }

  lemma SelfPercentage(t: real)
    requires t != 0.0
    ensures t / t * 100.0 == 100.0
  {
  }
}

/** The aggregation functions of src/utils/analytics.js: the grand total, per-category totals,
    the sliding window of monthly buckets, the savings rate and the category colour table. */
module AnalyticsUtils {
  import opened Expenses

  // ---------------------------------------------------------------------------------------------
  // calculateTotalExpenses

  /** `expenses.reduce((total, expense) => total + expense.amount, 0)`: the sum of the amounts,
      accumulated from the first record to the last. */
  function Total(es: seq<Expense>): (r: real)
    ensures es == [] ==> r == 0.0
  {
    if es == [] then 0.0 else Total(es[..|es| - 1]) + es[|es| - 1].amount
  }

  lemma {:induction false} TotalConcat(a: seq<Expense>, b: seq<Expense>)
    ensures Total(a + b) == Total(a) + Total(b)
  {
    if b == [] {
      assert a + b == a;
    } else {
      assert (a + b)[..|a + b| - 1] == a + b[..|b| - 1];
      TotalConcat(a, b[..|b| - 1]);
    }
  }

  lemma MultisetRemove(b: seq<Expense>, j: int)
    requires 0 <= j < |b|
    ensures multiset(b[..j] + b[j + 1..]) == multiset(b) - multiset{b[j]}
  {
    assert b == b[..j] + [b[j]] + b[j + 1..];
  }

  lemma TotalRemove(b: seq<Expense>, j: int)
    requires 0 <= j < |b|
    ensures Total(b) == Total(b[..j] + b[j + 1..]) + b[j].amount
  {
    var pre := b[..j];
    var post := b[j + 1..];
    var px := b[..j + 1];
    assert px + post == b;
    assert px[..j] == pre;
    assert Total(px) == Total(pre) + b[j].amount;
    TotalConcat(px, post);
    TotalConcat(pre, post);
  }

  /** The total does not depend on the order of the records. */
  lemma {:induction false} TotalPermutation(a: seq<Expense>, b: seq<Expense>)
    requires multiset(a) == multiset(b)
    ensures Total(a) == Total(b)
    decreases |a|
  {
    if a == [] {
      assert |b| == |multiset(b)| == 0;
    } else {
      var x := a[|a| - 1];
      var a' := a[..|a| - 1];
      assert a == a' + [x];
      assert x in multiset(b);
      var j :| 0 <= j < |b| && b[j] == x;
      MultisetRemove(b, j);
      TotalPermutation(a', b[..j] + b[j + 1..]);
      TotalRemove(b, j);
    }
  }

  lemma {:induction false} TotalNonNegative(es: seq<Expense>)
    requires forall e :: e in es ==> e.amount >= 0.0
    ensures Total(es) >= 0.0
  {
    if es != [] {
      TotalNonNegative(es[..|es| - 1]);
    }
  }

  // ---------------------------------------------------------------------------------------------
  // calculateCategoryTotals

  predicate Distinct(s: seq<string>) {
    forall i, j :: 0 <= i < j < |s| ==> s[i] != s[j]
  }

  /** The distinct categories of `es` in order of first occurrence: the order in which
      calculateCategoryTotals creates its keys, and the iteration order of `new Set(...)`. */
  function Categories(es: seq<Expense>): (cs: seq<string>)
    ensures |cs| <= |es|
  {
    if es == [] then []
    else
      var cs := Categories(es[..|es| - 1]);
      var c := es[|es| - 1].category;
      if c in cs then cs else cs + [c]
  }

  /** Each category of the records appears exactly once. */
  lemma {:induction false} CategoriesDistinctMembers(es: seq<Expense>)
    ensures Distinct(Categories(es))
    ensures forall c :: c in Categories(es) <==> exists e :: e in es && e.category == c
  {
    if es != [] {
      var p := es[..|es| - 1];
      var e := es[|es| - 1];
      assert es == p + [e];
      CategoriesDistinctMembers(p);
    }
  }

  lemma NotAmongCategories(es: seq<Expense>, c: string)
    requires c !in Categories(es)
    ensures forall k :: 0 <= k < |es| ==> es[k].category != c
  {
    CategoriesDistinctMembers(es);
    forall k | 0 <= k < |es| ensures es[k].category != c {
      assert es[k] in es;
    }
  }

  /** First-occurrence order: every record of a later category is preceded by a record of each
      earlier category. */
  predicate FirstOccurrenceOrder(es: seq<Expense>, cs: seq<string>) {
    forall i, j, k :: 0 <= i < j < |cs| && 0 <= k < |es| && es[k].category == cs[j] ==>
      exists l :: 0 <= l < k && es[l].category == cs[i]
  }

  lemma CategoryWitness(es: seq<Expense>, c: string)
    requires c in Categories(es)
    ensures exists l :: 0 <= l < |es| && es[l].category == c
  {
    CategoriesDistinctMembers(es);
    var x :| x in es && x.category == c;
    var l :| 0 <= l < |es| && es[l] == x;
  }

  lemma FirstOccurrenceAt(es: seq<Expense>, cs: seq<string>, i: int, j: int, k: int)
    requires FirstOccurrenceOrder(es, cs)
    requires 0 <= i < j < |cs| && 0 <= k < |es| && es[k].category == cs[j]
    ensures exists l :: 0 <= l < k && es[l].category == cs[i]
  {
    assert cs[i] in cs;
  }

  /** The step for two categories that already occur before the last record. */
  lemma FirstOccurrenceOld(p: seq<Expense>, e: Expense, i: int, j: int, k: int)
    requires FirstOccurrenceOrder(p, Categories(p))
    requires 0 <= i < j < |Categories(p)| && 0 <= k <= |p|
    requires (p + [e])[k].category == Categories(p)[j]
    ensures exists l :: 0 <= l < k && (p + [e])[l].category == Categories(p)[i]
  {
    var cp := Categories(p);
    var es := p + [e];
    var k' := k;
    if k == |p| {
      CategoryWitness(p, cp[j]);
      k' :| 0 <= k' < |p| && p[k'].category == cp[j];
    } else {
      assert p[k] == es[k];
    }
    FirstOccurrenceAt(p, cp, i, j, k');
    var l :| 0 <= l < k' && p[l].category == cp[i];
    assert es[l] == p[l];
  }

  /** The step when the later category is the one the last record introduces. */
  lemma FirstOccurrenceNew(p: seq<Expense>, e: Expense, i: int, k: int)
    requires e.category !in Categories(p)
    requires 0 <= i < |Categories(p)| && 0 <= k <= |p|
    requires (p + [e])[k].category == e.category
    ensures exists l :: 0 <= l < k && (p + [e])[l].category == Categories(p)[i]
  {
    var cp := Categories(p);
    var es := p + [e];
    if k < |p| {
      NotAmongCategories(p, e.category);
      assert false;
    }
    CategoryWitness(p, cp[i]);
    var l :| 0 <= l < |p| && p[l].category == cp[i];
    assert es[l] == p[l];
  }

  lemma {:induction false} CategoriesFirstOccurrenceOrder(es: seq<Expense>)
    ensures FirstOccurrenceOrder(es, Categories(es))
  {
    if es != [] {
      var p := es[..|es| - 1];
      var e := es[|es| - 1];
      assert es == p + [e];
      CategoriesFirstOccurrenceOrder(p);
      CategoriesSnoc(p, e);
      var cp := Categories(p);
      var cs := Categories(es);
      forall i, j, k | 0 <= i < j < |cs| && 0 <= k < |es| && es[k].category == cs[j]
        ensures exists l :: 0 <= l < k && es[l].category == cs[i]
      {
        assert cs[i] == cp[i];
        if j < |cp| {
          assert cs[j] == cp[j];
          FirstOccurrenceOld(p, e, i, j, k);
        } else {
          assert cs[j] == e.category;
          FirstOccurrenceNew(p, e, i, k);
        }
      }
    }
  }

  /** What one record adds to the sum of category `c`: `(categoryTotals[c] || 0) + amount` for its
      own category, nothing for any other. */
  function AmountIn(e: Expense, c: string): real {
    if e.category == c then e.amount else 0.0
  }

  /** The sum of the amounts of the records in category `c`, in input order; when every record is
      in `c` it is the grand total. */
  function CategorySum(es: seq<Expense>, c: string): (r: real)
    ensures (forall k :: 0 <= k < |es| ==> es[k].category == c) ==> r == Total(es)
  {
    if es == [] then 0.0
    else CategorySum(es[..|es| - 1], c) + AmountIn(es[|es| - 1], c)
  }

  /** The sum of one category distributes over concatenation. */
  lemma {:induction false} CategorySumConcat(a: seq<Expense>, b: seq<Expense>, c: string)
    ensures CategorySum(a + b, c) == CategorySum(a, c) + CategorySum(b, c)
  {
    if b == [] {
      assert a + b == a;
    } else {
      assert (a + b)[..|a + b| - 1] == a + b[..|b| - 1];
      CategorySumConcat(a, b[..|b| - 1], c);
    }
  }

  lemma {:induction false} CategorySumAbsent(es: seq<Expense>, c: string)
    requires forall e :: e in es ==> e.category != c
    ensures CategorySum(es, c) == 0.0
  {
    if es != [] {
      CategorySumAbsent(es[..|es| - 1], c);
    }
  }

  /** The object that calculateCategoryTotals fills: a dictionary from category to amount whose keys
      keep their insertion order (the order that Object.entries reports). */
  datatype CategoryTotals = CategoryTotals(order: seq<string>, amount: map<string, real>)

  predicate WellFormed(t: CategoryTotals) {
    Distinct(t.order) && t.amount.Keys == set c | c in t.order
  }

  /** What calculateCategoryTotals returns for `es`. */
  function CategoryTotalsOf(es: seq<Expense>): (t: CategoryTotals)
    ensures WellFormed(t)
  {
    CategoriesDistinctMembers(es);
    var cs := Categories(es);
    CategoryTotals(cs, map c | c in cs :: CategorySum(es, c))
  }

  /** The dictionary holds the totals of the records `p`. */
  ghost predicate TotalsOfPrefix(p: seq<Expense>, order: seq<string>, amount: map<string, real>) {
    && order == Categories(p)
    && (forall c :: c in amount <==> c in order)
    && forall c :: c in amount ==> amount[c] == CategorySum(p, c)
  }

  lemma CategoriesSnoc(p: seq<Expense>, e: Expense)
    ensures Categories(p + [e]) == if e.category in Categories(p) then Categories(p) else Categories(p) + [e.category]
  {
    var q := p + [e];
    assert q[..|q| - 1] == p && q[|q| - 1] == e;
  }

  lemma CategorySumSnoc(p: seq<Expense>, e: Expense, c: string)
    ensures CategorySum(p + [e], c) == CategorySum(p, c) + (if e.category == c then e.amount else 0.0)
  {
    var q := p + [e];
    assert q[..|q| - 1] == p && q[|q| - 1] == e;
  }

  /** One iteration of the loop: adding `e` to its category's entry, or creating the entry. */
  lemma TotalsStep(p: seq<Expense>, e: Expense, order: seq<string>, amount: map<string, real>,
                   order': seq<string>, amount': map<string, real>)
    requires TotalsOfPrefix(p, order, amount)
    requires order' == if e.category in amount then order else order + [e.category]
    requires amount' == amount[e.category := (if e.category in amount then amount[e.category] else 0.0) + e.amount]
    ensures TotalsOfPrefix(p + [e], order', amount')
  {
    CategoriesSnoc(p, e);
    if e.category !in amount {
      CategoriesDistinctMembers(p);
      CategorySumAbsent(p, e.category);
    }
    forall c | c in amount' ensures amount'[c] == CategorySum(p + [e], c) {
      CategorySumSnoc(p, e, c);
    }
  }

  lemma PrefixSnoc<T>(s: seq<T>, i: int)
    requires 0 <= i < |s|
    ensures s[..i + 1] == s[..i] + [s[i]]
  {
  }

  /** The loop step at position `i` of `es`. */
  lemma TotalsStepAt(es: seq<Expense>, i: int, order: seq<string>, amount: map<string, real>,
                     order': seq<string>, amount': map<string, real>)
    requires 0 <= i < |es|
    requires TotalsOfPrefix(es[..i], order, amount)
    requires order' == if es[i].category in amount then order else order + [es[i].category]
    requires amount' == amount[es[i].category := (if es[i].category in amount then amount[es[i].category] else 0.0) + es[i].amount]
    ensures TotalsOfPrefix(es[..i + 1], order', amount')
  {
    PrefixSnoc(es, i);
    TotalsStep(es[..i], es[i], order, amount, order', amount');
  }

  /** After the last record the dictionary is the one CategoryTotalsOf describes. */
  lemma TotalsComplete(es: seq<Expense>, order: seq<string>, amount: map<string, real>)
    requires TotalsOfPrefix(es[..|es|], order, amount)
    ensures CategoryTotals(order, amount) == CategoryTotalsOf(es)
  {
    assert es[..|es|] == es;
    assert amount == map c | c in order :: CategorySum(es, c);
  }

  /** The category of any record has an entry, and the entry is that category's sum. */
  lemma CategoryTotalsEntry(es: seq<Expense>, k: int)
    requires 0 <= k < |es|
    ensures es[k].category in CategoryTotalsOf(es).amount
    ensures CategoryTotalsOf(es).amount[es[k].category] == CategorySum(es, es[k].category)
  {
    CategoriesDistinctMembers(es);
    assert es[k] in es;
  }

  /** calculateCategoryTotals: one pass over the records, adding each amount to its category's entry
      and creating the entry the first time the category is seen. */
  method CalculateCategoryTotals(es: seq<Expense>) returns (t: CategoryTotals)
    ensures t == CategoryTotalsOf(es)
  {
    var order: seq<string> := [];
    var amount: map<string, real> := map[];
    for i := 0 to |es|
      invariant TotalsOfPrefix(es[..i], order, amount)
    {
      var e := es[i];
      ghost var order0, amount0 := order, amount;
      var previous := if e.category in amount then amount[e.category] else 0.0;
      if e.category !in amount {
        order := order + [e.category];
      }
      amount := amount[e.category := previous + e.amount];
      TotalsStepAt(es, i, order0, amount0, order, amount);
    }
    TotalsComplete(es, order, amount);
    t := CategoryTotals(order, amount);
  }

  /** `[category, amount]` pairs in key order, as Object.entries returns them. */
  function EntriesOf(keys: seq<string>, amount: map<string, real>): (r: seq<(string, real)>)
    requires forall c :: c in keys ==> c in amount
    ensures |r| == |keys|
    ensures forall i :: 0 <= i < |r| ==> r[i] == (keys[i], amount[keys[i]])
  {
    if keys == [] then []
    else EntriesOf(keys[..|keys| - 1], amount) + [(keys[|keys| - 1], amount[keys[|keys| - 1]])]
  }

  /** `Object.entries(categoryTotals)`: one `[category, amount]` pair per key, in insertion order. */
  function Entries(t: CategoryTotals): (r: seq<(string, real)>)
    requires WellFormed(t)
    ensures |r| == |t.order|
    ensures forall p :: p in r ==> p.0 in t.amount && p.1 == t.amount[p.0]
  {
    EntriesOf(t.order, t.amount)
  }

  /** The sum of the amounts of `[category, amount]` entries, from the first to the last. */
  function SumAmounts(entries: seq<(string, real)>): real {
    if entries == [] then 0.0 else SumAmounts(entries[..|entries| - 1]) + entries[|entries| - 1].1
  }

  /** The sum over the categories `cs` of their totals in `es`. */
  function SumOver(cs: seq<string>, es: seq<Expense>): real {
    if cs == [] then 0.0 else SumOver(cs[..|cs| - 1], es) + CategorySum(es, cs[|cs| - 1])
  }

  lemma {:induction false} SumOverAppend(cs: seq<string>, es: seq<Expense>, e: Expense)
    requires Distinct(cs)
    ensures SumOver(cs, es + [e]) == SumOver(cs, es) + (if e.category in cs then e.amount else 0.0)
  {
    if cs != [] {
      var p := cs[..|cs| - 1];
      assert Distinct(p);
      assert cs == p + [cs[|cs| - 1]];
      assert (es + [e])[..|es|] == es;
      SumOverAppend(p, es, e);
    }
  }

  /** Adding up the per-category totals over all categories gives the grand total. */
  lemma {:induction false} CategoriesSumToTotal(es: seq<Expense>)
    ensures SumOver(Categories(es), es) == Total(es)
  {
    if es != [] {
      var p := es[..|es| - 1];
      var e := es[|es| - 1];
      assert es == p + [e];
      CategoriesSumToTotal(p);
      CategoriesDistinctMembers(p);
      var cs := Categories(p);
      SumOverAppend(cs, p, e);
      if e.category !in cs {
        assert (cs + [e.category])[..|cs|] == cs;
        CategorySumAbsent(p, e.category);
      }
    }
  }

  lemma {:induction false} EntriesSum(keys: seq<string>, amount: map<string, real>, es: seq<Expense>)
    requires forall c :: c in keys ==> c in amount && amount[c] == CategorySum(es, c)
    ensures SumAmounts(EntriesOf(keys, amount)) == SumOver(keys, es)
  {
    if keys != [] {
      var p := keys[..|keys| - 1];
      EntriesSum(p, amount, es);
      var r := EntriesOf(keys, amount);
      assert r[..|r| - 1] == EntriesOf(p, amount);
    }
  }

  /** The values of calculateCategoryTotals add up to calculateTotalExpenses of the same records,
      and the empty list gives the empty dictionary. */
  lemma CategoryTotalsConserveTotal(es: seq<Expense>)
    ensures SumAmounts(Entries(CategoryTotalsOf(es))) == Total(es)
    ensures es == [] ==> CategoryTotalsOf(es).amount == map[]
  {
    var t := CategoryTotalsOf(es);
    EntriesSum(t.order, t.amount, es);
    CategoriesSumToTotal(es);
  }

  // ---------------------------------------------------------------------------------------------
  // getMonthlyExpenses

  /** One element of the monthly series: its calendar month (the 'MMM yyyy' label), the total,
      and the records that fall in the month. */
  datatype MonthBucket = MonthBucket(month: YearMonth, total: real, expenses: seq<Expense>)

  /** The records dated inside the inclusive interval [startOfMonth, endOfMonth], in input order. */
  function InMonth(es: seq<Expense>, ym: YearMonth): (r: seq<Expense>)
    requires ValidMonth(ym)
    ensures |r| <= |es|
    ensures forall k :: 0 <= k < |r| ==> WithinInterval(r[k].date, StartOfMonth(ym), EndOfMonth(ym))
  {
    if es == [] then []
    else
      var e := es[|es| - 1];
      InMonth(es[..|es| - 1], ym) + (if WithinInterval(e.date, StartOfMonth(ym), EndOfMonth(ym)) then [e] else [])
  }

  lemma {:induction false} InMonthMembers(es: seq<Expense>, ym: YearMonth)
    requires ValidMonth(ym)
    ensures forall e :: e in InMonth(es, ym) <==> e in es && WithinInterval(e.date, StartOfMonth(ym), EndOfMonth(ym))
  {
    if es != [] {
      var p := es[..|es| - 1];
      assert es == p + [es[|es| - 1]];
      InMonthMembers(p, ym);
    }
  }

  /** Filtering keeps the input order: it distributes over concatenation. */
  lemma {:induction false} InMonthConcat(a: seq<Expense>, b: seq<Expense>, ym: YearMonth)
    requires ValidMonth(ym)
    ensures InMonth(a + b, ym) == InMonth(a, ym) + InMonth(b, ym)
  {
    if b == [] {
      assert a + b == a;
    } else {
      assert (a + b)[..|a + b| - 1] == a + b[..|b| - 1];
      InMonthConcat(a, b[..|b| - 1], ym);
    }
  }

  /** The object pushed for month `ym`: its month, the records inside the month and their total. */
  function BucketOf(es: seq<Expense>, ym: YearMonth): (b: MonthBucket)
    requires ValidMonth(ym)
    ensures b.month == ym
    ensures b.total == Total(b.expenses)
    ensures forall k :: 0 <= k < |b.expenses| ==> WithinInterval(b.expenses[k].date, StartOfMonth(ym), EndOfMonth(ym))
  {
    var monthExpenses := InMonth(es, ym);
    MonthBucket(ym, Total(monthExpenses), monthExpenses)
  }

  /** The buckets of the `n` consecutive months whose first month has index `first`. */
  function Window(es: seq<Expense>, first: int, n: int): (r: seq<MonthBucket>)
    ensures |r| == if n > 0 then n else 0
  {
    if n <= 0 then [] else Window(es, first, n - 1) + [BucketOf(es, MonthAt(first + (n - 1)))]
  }

  /** The `k`-th bucket of the window is the bucket of the `k`-th month after the first. */
  lemma {:induction false} WindowAt(es: seq<Expense>, first: int, n: int, k: int)
    requires 0 <= k < n
    ensures Window(es, first, n)[k] == BucketOf(es, MonthAt(first + k))
  {
    var w := Window(es, first, n - 1);
    var last := BucketOf(es, MonthAt(first + (n - 1)));
    assert Window(es, first, n) == w + [last];
    if k < n - 1 {
      WindowAt(es, first, n - 1, k);
      assert (w + [last])[k] == w[k];
    } else {
      assert first + k == first + (n - 1);
      assert (w + [last])[k] == last;
    }
  }

  /** The index of the oldest month of a window of `monthsBack` months ending at the month of `now`. */
  function WindowStart(monthsBack: int, now: Date): int {
    MonthIndex(MonthOf(now)) - (monthsBack - 1)
  }

  /** What getMonthlyExpenses(es, monthsBack) returns when the clock reads `now`: one bucket per
      month from `monthsBack - 1` months before the month of `now` up to that month, oldest first. */
  function MonthlyExpenses(es: seq<Expense>, monthsBack: int, now: Date): (r: seq<MonthBucket>)
    ensures |r| == if monthsBack > 0 then monthsBack else 0
  {
    Window(es, WindowStart(monthsBack, now), monthsBack)
  }

  /** getMonthlyExpenses: a loop counting `i` down from `monthsBack - 1` to 0 that pushes the
      bucket of the month `i` months before `now`. */
  method GetMonthlyExpenses(es: seq<Expense>, monthsBack: int, now: Date) returns (monthlyData: seq<MonthBucket>)
    ensures monthlyData == MonthlyExpenses(es, monthsBack, now)
  {
    monthlyData := [];
    var i := monthsBack - 1;
    while i >= 0
      invariant monthsBack <= 0 ==> monthlyData == []
      invariant monthsBack > 0 ==> -1 <= i < monthsBack
      invariant monthlyData == Window(es, WindowStart(monthsBack, now), monthsBack - 1 - i)
    {
      var month := SubMonths(MonthOf(now), i);
      var monthExpenses := InMonth(es, month);
      monthlyData := monthlyData + [MonthBucket(month, Total(monthExpenses), monthExpenses)];
      i := i - 1;
    }
  }

  /** Shape of the window: oldest first, each bucket the calendar month after the previous one
      (December is followed by January of the next year), the last one the month of `now`. */
  lemma MonthlyWindowShape(es: seq<Expense>, monthsBack: int, now: Date)
    requires monthsBack > 0 && ValidMonth(MonthOf(now))
    ensures var r := MonthlyExpenses(es, monthsBack, now);
      && r[|r| - 1].month == MonthOf(now)
      && MonthIndex(r[0].month) == WindowStart(monthsBack, now)
      && forall k :: 0 <= k < |r| - 1 ==> r[k + 1].month == NextMonth(r[k].month)
  {
    var first := WindowStart(monthsBack, now);
    var r := Window(es, first, monthsBack);
    MonthAtIndex(MonthOf(now));
    WindowAt(es, first, monthsBack, 0);
    WindowAt(es, first, monthsBack, monthsBack - 1);
    forall k | 0 <= k < monthsBack - 1 ensures r[k + 1].month == NextMonth(r[k].month) {
      WindowNext(es, first, monthsBack, k);
    }
  }

  lemma WindowNext(es: seq<Expense>, first: int, n: int, k: int)
    requires 0 <= k < n - 1
    ensures Window(es, first, n)[k + 1].month == NextMonth(Window(es, first, n)[k].month)
  {
    WindowAt(es, first, n, k);
    WindowAt(es, first, n, k + 1);
    MonthAtSucc(first + k);
  }

  /** A bucket holds exactly the records dated inside its inclusive month interval, in input order,
      and its total is calculateTotalExpenses of them. */
  lemma MonthlyBucketContents(es: seq<Expense>, monthsBack: int, now: Date, k: int)
    requires 0 <= k < monthsBack
    ensures var b := MonthlyExpenses(es, monthsBack, now)[k];
      && ValidMonth(b.month)
      && b.expenses == InMonth(es, b.month)
      && b.total == Total(b.expenses)
      && forall e :: e in b.expenses <==> e in es && WithinInterval(e.date, StartOfMonth(b.month), EndOfMonth(b.month))
  {
    WindowAt(es, WindowStart(monthsBack, now), monthsBack, k);
    InMonthMembers(es, MonthlyExpenses(es, monthsBack, now)[k].month);
  }

  /** Two different buckets never share a record with a valid date. */
  lemma MonthlyBucketsDisjoint(es: seq<Expense>, monthsBack: int, now: Date, j: int, k: int, e: Expense)
    requires 0 <= j < k < monthsBack
    requires ValidDate(e.date)
    ensures var r := MonthlyExpenses(es, monthsBack, now);
      !(e in r[j].expenses && e in r[k].expenses)
  {
    var r := MonthlyExpenses(es, monthsBack, now);
    WindowAt(es, WindowStart(monthsBack, now), monthsBack, j);
    WindowAt(es, WindowStart(monthsBack, now), monthsBack, k);
    if e in r[j].expenses && e in r[k].expenses {
      InMonthMembers(es, r[j].month);
      InMonthMembers(es, r[k].month);
      WithinMonthIff(e.date, r[j].month);
      WithinMonthIff(e.date, r[k].month);
      assert false;
    }
  }

  /** The records whose calendar month has an index in [lo, hi), in input order. */
  function InRange(es: seq<Expense>, lo: int, hi: int): seq<Expense> {
    if es == [] then []
    else
      var e := es[|es| - 1];
      InRange(es[..|es| - 1], lo, hi) + (if lo <= MonthIndex(MonthOf(e.date)) < hi then [e] else [])
  }

  lemma {:induction false} InRangeConcat(a: seq<Expense>, b: seq<Expense>, lo: int, hi: int)
    ensures InRange(a + b, lo, hi) == InRange(a, lo, hi) + InRange(b, lo, hi)
  {
    if b == [] {
      assert a + b == a;
    } else {
      assert (a + b)[..|a + b| - 1] == a + b[..|b| - 1];
      InRangeConcat(a, b[..|b| - 1], lo, hi);
    }
  }

  lemma {:induction false} InMonthIsRange(es: seq<Expense>, k: int, hi: int)
    requires DatesValid(es)
    requires hi == k + 1
    ensures InMonth(es, MonthAt(k)) == InRange(es, k, hi)
  {
    if es != [] {
      var p := es[..|es| - 1];
      var e := es[|es| - 1];
      assert e in es;
      assert forall x :: x in p ==> x in es;
      InMonthIsRange(p, k, hi);
      WithinMonthIff(e.date, MonthAt(k));
      MonthAtIndex(MonthOf(e.date));
    }
  }

  lemma TotalSnoc(s: seq<Expense>, e: Expense)
    ensures Total(s + [e]) == Total(s) + e.amount
  {
    assert (s + [e])[..|s|] == s;
  }

  lemma {:induction false} RangeSplit(es: seq<Expense>, lo: int, mid: int, hi: int)
    requires lo <= mid <= hi
    ensures Total(InRange(es, lo, hi)) == Total(InRange(es, lo, mid)) + Total(InRange(es, mid, hi))
  {
    if es != [] {
      var p := es[..|es| - 1];
      var e := es[|es| - 1];
      var i := MonthIndex(MonthOf(e.date));
      RangeSplit(p, lo, mid, hi);
      if lo <= i < mid {
        assert InRange(es, lo, hi) == InRange(p, lo, hi) + [e];
        assert InRange(es, lo, mid) == InRange(p, lo, mid) + [e];
        TotalSnoc(InRange(p, lo, hi), e);
        TotalSnoc(InRange(p, lo, mid), e);
        assert InRange(es, mid, hi) == InRange(p, mid, hi) + [] == InRange(p, mid, hi);
      } else if mid <= i < hi {
        assert InRange(es, lo, hi) == InRange(p, lo, hi) + [e];
        assert InRange(es, mid, hi) == InRange(p, mid, hi) + [e];
        TotalSnoc(InRange(p, lo, hi), e);
        TotalSnoc(InRange(p, mid, hi), e);
        assert InRange(es, lo, mid) == InRange(p, lo, mid) + [] == InRange(p, lo, mid);
      } else {
        assert InRange(es, lo, hi) == InRange(p, lo, hi) + [] == InRange(p, lo, hi);
        assert InRange(es, lo, mid) == InRange(p, lo, mid) + [] == InRange(p, lo, mid);
        assert InRange(es, mid, hi) == InRange(p, mid, hi) + [] == InRange(p, mid, hi);
      }
    }
  }

  /** `monthlyData.reduce((sum, month) => sum + month.total, 0)`: the sum of the bucket totals. */
  function SumTotals(bs: seq<MonthBucket>): (r: real)
    ensures bs == [] ==> r == 0.0
  {
    if bs == [] then 0.0 else SumTotals(bs[..|bs| - 1]) + bs[|bs| - 1].total
  }

  lemma SumTotalsSnoc(bs: seq<MonthBucket>, b: MonthBucket)
    ensures SumTotals(bs + [b]) == SumTotals(bs) + b.total
  {
    assert (bs + [b])[..|bs|] == bs;
  }

  lemma WindowSumStep(es: seq<Expense>, w: seq<MonthBucket>, b: MonthBucket, lo: int, mid: int, hi: int)
    requires lo <= mid <= hi
    requires SumTotals(w) == Total(InRange(es, lo, mid))
    requires b.total == Total(InRange(es, mid, hi))
    ensures SumTotals(w + [b]) == Total(InRange(es, lo, hi))
  {
    SumTotalsSnoc(w, b);
    RangeSplit(es, lo, mid, hi);
  }

  /** The buckets of the `n` months from index `first` add up to the records dated in those months. */
  ghost predicate WindowSumHolds(es: seq<Expense>, first: int, n: int) {
    SumTotals(Window(es, first, n)) == Total(InRange(es, first, first + n))
  }

  lemma WindowSumEmpty(es: seq<Expense>, first: int)
    ensures WindowSumHolds(es, first, 0)
  {
    InRangeEmpty(es, first);
    assert Window(es, first, 0) == [];
  }

  lemma WindowSumNext(es: seq<Expense>, first: int, n: int)
    requires DatesValid(es)
    requires n > 0
    requires WindowSumHolds(es, first, n - 1)
    ensures WindowSumHolds(es, first, n)
  {
    var mid := first + (n - 1);
    var hi := first + n;
    var w := Window(es, first, n - 1);
    var b := BucketOf(es, MonthAt(mid));
    InMonthIsRange(es, mid, hi);
    assert Window(es, first, n) == w + [b];
    WindowSumStep(es, w, b, first, mid, hi);
  }

  lemma {:induction false} WindowSumInduction(es: seq<Expense>, first: int, n: nat)
    requires DatesValid(es)
    ensures WindowSumHolds(es, first, n)
  {
    if n == 0 {
      WindowSumEmpty(es, first);
    } else {
      WindowSumInduction(es, first, n - 1);
      WindowSumNext(es, first, n);
    }
  }

  /** The buckets of `n` consecutive months add up to the records whose month index lies in that range. */
  lemma WindowSum(es: seq<Expense>, first: int, n: nat)
    requires DatesValid(es)
    ensures SumTotals(Window(es, first, n)) == Total(InRange(es, first, first + n))
  {
    WindowSumInduction(es, first, n);
  }

  lemma {:induction false} InRangeEmpty(es: seq<Expense>, lo: int)
    ensures InRange(es, lo, lo) == []
  {
    if es != [] {
      InRangeEmpty(es[..|es| - 1], lo);
    }
  }

  /** Conservation: the bucket totals add up to the total of exactly the records dated inside the
      window; records outside it contribute nothing. */
  lemma MonthlyConservation(es: seq<Expense>, monthsBack: int, now: Date)
    requires DatesValid(es)
    requires monthsBack > 0
    ensures var lo := WindowStart(monthsBack, now);
      SumTotals(MonthlyExpenses(es, monthsBack, now)) == Total(InRange(es, lo, lo + monthsBack))
  {
    WindowSum(es, WindowStart(monthsBack, now), monthsBack);
  }

  /** The window's grand total depends only on the records dated inside the window. */
  lemma MonthlyDependsOnRange(a: seq<Expense>, b: seq<Expense>, monthsBack: int, now: Date)
    requires DatesValid(a)
    requires DatesValid(b)
    requires monthsBack > 0
    requires var lo := WindowStart(monthsBack, now);
      InRange(a, lo, lo + monthsBack) == InRange(b, lo, lo + monthsBack)
    ensures SumTotals(MonthlyExpenses(a, monthsBack, now)) == SumTotals(MonthlyExpenses(b, monthsBack, now))
  {
    MonthlyConservation(a, monthsBack, now);
    MonthlyConservation(b, monthsBack, now);
  }

  /** Adding records dated outside the window leaves the window's grand total unchanged. */
  lemma MonthlyIgnoresOutside(es: seq<Expense>, outside: seq<Expense>, monthsBack: int, now: Date)
    requires DatesValid(es)
    requires DatesValid(outside)
    requires monthsBack > 0
    requires InRange(outside, WindowStart(monthsBack, now), WindowStart(monthsBack, now) + monthsBack) == []
    ensures SumTotals(MonthlyExpenses(es + outside, monthsBack, now)) == SumTotals(MonthlyExpenses(es, monthsBack, now))
  {
    var lo := WindowStart(monthsBack, now);
    var hi := lo + monthsBack;
    var all := es + outside;
    forall e | e in all ensures ValidDate(e.date) {
      assert e in es || e in outside;
    }
    InRangeConcat(es, outside, lo, hi);
    assert InRange(es, lo, hi) + [] == InRange(es, lo, hi);
    MonthlyDependsOnRange(all, es, monthsBack, now);
  }

  // ---------------------------------------------------------------------------------------------
  // calculateSavingsRate

  /** The share of `income` left after the expenses, in percent; 0 when income is not positive. */
  function SavingsRate(income: real, es: seq<Expense>): (r: real)
    ensures income <= 0.0 ==> r == 0.0
  {
    if income <= 0.0 then 0.0 else (income - Total(es)) / income * 100.0
  }

  /** The boundary cases: 100 with no expenses, 0 at break-even, negative (unclamped) when the
      expenses exceed the income. */
  lemma SavingsRateCases(income: real, es: seq<Expense>)
    requires income > 0.0
    ensures Total(es) == 0.0 <==> SavingsRate(income, es) == 100.0
    ensures Total(es) == income <==> SavingsRate(income, es) == 0.0
    ensures Total(es) > income <==> SavingsRate(income, es) < 0.0
  {
    var t := Total(es);
    var q := (income - t) / income;
    assert q * income == income - t;
    assert (q - 1.0) * income == -t;
    assert SavingsRate(income, es) == q * 100.0;
    SignOfProduct(q, income);
    SignOfProduct(q - 1.0, income);
  }

  /** Multiplying by a positive number keeps the sign. */
  lemma SignOfProduct(a: real, b: real)
    requires b > 0.0
    ensures a < 0.0 <==> a * b < 0.0
    ensures a == 0.0 <==> a * b == 0.0
  {
    if a < 0.0 {
      assert a * b < 0.0 * b;
    } else if a > 0.0 {
      assert a * b > 0.0 * b;
    }
  }

  // ---------------------------------------------------------------------------------------------
  // getCategoryColors

  /** The eight categories the entry form offers. */
  const CanonicalCategories: seq<string> :=
    ["Food", "Transportation", "Entertainment", "Health", "Education", "Shopping", "Bills", "Other"]

  predicate IsHexDigit(ch: char) {
    '0' <= ch <= '9' || 'a' <= ch <= 'f'
  }

  predicate IsHexColor(s: string) {
    |s| == 7 && s[0] == '#' && forall i :: 1 <= i < 7 ==> IsHexDigit(s[i])
  }

  /** `getCategoryColors()`: a colour for each canonical category and nothing else. */
  function CategoryColors(): (m: map<string, string>)
    ensures m.Keys == set c | c in CanonicalCategories
    ensures m["Food"] == "#ef4444" && m["Bills"] == "#6b7280"
  {
    map[
      "Food" := "#ef4444",
      "Transportation" := "#3b82f6",
      "Entertainment" := "#8b5cf6",
      "Health" := "#10b981",
      "Education" := "#f59e0b",
      "Shopping" := "#ec4899",
      "Bills" := "#6b7280",
      "Other" := "#14b8a6"
    ]
  }

  /** Every palette entry is a '#rrggbb' colour. */
  lemma CategoryColorsAreHex()
    ensures forall c :: c in CategoryColors() ==> IsHexColor(CategoryColors()[c])
  {
    var m := CategoryColors();
    forall c | c in m ensures IsHexColor(m[c]) {
      assert c in CanonicalCategories;
    }
  }
}

/** The expense store of useExpenses.js: the list kept in hook state, its initial newest-first load
    from the demo data, and the add and delete updates. */
module UseExpenses {

  import opened Expenses
  import opened StableSort
  import opened AnalyticsUtils

  /** What the entry form hands to addExpense. The form never sets `id`, but a caller may. */
  datatype Draft = Draft(
    id: Option<string>,
    title: string,
    amount: real,
    category: string,
    date: Date,
    description: Option<string>)

  /** `{ id: Date.now().toString(), ...expense, date: new Date(expense.date), createdAt: new Date() }`:
      the spread comes after the generated id, so an id in the draft wins; `generatedId` and
      `createdAt` stand for the two clock reads. */
  function NewRecord(draft: Draft, generatedId: string, createdAt: int): (r: Expense)
    ensures draft.id.None? ==> r.id == generatedId
    ensures draft.id.Some? ==> r.id == draft.id.value
    ensures r.title == draft.title && r.amount == draft.amount && r.category == draft.category
    ensures r.date == draft.date && r.description == draft.description
    ensures r.createdAt == Some(createdAt)
  {
    var id := if draft.id.Some? then draft.id.value else generatedId;
    Expense(id, draft.title, draft.amount, draft.category, draft.date, draft.description, Some(createdAt))
  }

  /** `[newExpense, ...expenses].sort(newest first)`: one record more, the old ones all kept. */
  function Added(es: seq<Expense>, n: Expense): (r: seq<Expense>)
    ensures |r| == |es| + 1
    ensures multiset(r) == multiset(es) + multiset{n}
  {
    Sort([n] + es, NewerFirst)
  }

  /** `expenses.filter(expense => expense.id !== id)`. */
  function WithoutId(es: seq<Expense>, id: string): (r: seq<Expense>)
    ensures |r| <= |es|
    ensures forall k :: 0 <= k < |r| ==> r[k].id != id
  {
    if es == [] then [] else (if es[0].id != id then [es[0]] else []) + WithoutId(es[1..], id)
  }

  /** The demo records the hook loads, dated 15 down to 8 January 2024. */
  function MockExpenses(): (r: seq<Expense>)
    ensures |r| == 8
  {
    [ Expense("1", "Grocery Shopping", 85.50, "Food", Date(2024, 1, 15), Some("Weekly groceries from Whole Foods"), None),
      Expense("2", "Gas Station", 45.20, "Transportation", Date(2024, 1, 14), Some("Fuel for car"), None),
      Expense("3", "Netflix Subscription", 15.99, "Entertainment", Date(2024, 1, 13), Some("Monthly streaming subscription"), None),
      Expense("4", "Coffee Shop", 12.75, "Food", Date(2024, 1, 12), Some("Morning coffee and pastry"), None),
      Expense("5", "Gym Membership", 49.99, "Health", Date(2024, 1, 11), Some("Monthly gym membership fee"), None),
      Expense("6", "Online Course", 89.99, "Education", Date(2024, 1, 10), Some("React development course"), None),
      Expense("7", "Restaurant Dinner", 67.80, "Food", Date(2024, 1, 9), Some("Dinner with friends"), None),
      Expense("8", "Uber Ride", 18.50, "Transportation", Date(2024, 1, 8), Some("Ride to downtown"), None) ]
  }

  /** The hook's state. `loading` is true until the initial load has run. */
  class ExpenseStore {
    var expenses: seq<Expense>
    var loading: bool

    /** The list is always newest first. */
    ghost predicate Valid()
      reads this
    {
      Sorted(expenses, NewerFirst)
    }

    /** `useState([])` and `useState(true)`. */
    constructor ()
      ensures expenses == [] && loading
      ensures Valid()
    {
      expenses := [];
      loading := true;
    }

    /** The mount effect: `mockExpenses.sort(newest first)` reorders the module's array itself, and the
        store then holds that array; loading ends. */
    method Load(mock: array<Expense>)
      modifies this, mock
      ensures mock[..] == Sort(old(mock[..]), NewerFirst)
      ensures expenses == mock[..]
      ensures !loading
      ensures Valid()
    {
      var sorted := Sort(mock[..], NewerFirst);
      NewerFirstIsStrictWeakOrder();
      SortSorted(mock[..], NewerFirst);
      forall i | 0 <= i < mock.Length {
        mock[i] := sorted[i];
      }
      expenses := mock[..];
      loading := false;
    }

    /** addExpense: builds the new record, prepends it and sorts newest first. */
    method Add(draft: Draft, generatedId: string, createdAt: int)
      modifies this
      ensures expenses == Added(old(expenses), NewRecord(draft, generatedId, createdAt))
      ensures loading == old(loading)
      ensures Valid()
    {
      var newExpense := NewRecord(draft, generatedId, createdAt);
      NewerFirstIsStrictWeakOrder();
      SortSorted([newExpense] + expenses, NewerFirst);
      expenses := Sort([newExpense] + expenses, NewerFirst);
    }

    /** deleteExpense: drops every record with the given id. */
    method Delete(id: string)
      modifies this
      requires Valid()
      ensures expenses == WithoutId(old(expenses), id)
      ensures loading == old(loading)
      ensures Valid()
    {
      WithoutIdSorted(expenses, id);
      expenses := WithoutId(expenses, id);
    }
  }

  // ---------------------------------------------------------------------------------------------
  // Properties of the load

  /** The demo data already is newest first, so the load keeps its order. */
  lemma MockLoadKeepsOrder()
    ensures Sort(MockExpenses(), NewerFirst) == MockExpenses()
  {
    NewerFirstIsStrictWeakOrder();
    var m := MockExpenses();
    SortedFromNeighbours(m, NewerFirst);
    SortOfSorted(m, NewerFirst);
  }

  lemma TotalPrefixStep(s: seq<Expense>, k: int)
    requires 0 < k <= |s|
    ensures Total(s[..k]) == Total(s[..k - 1]) + s[k - 1].amount
  {
    assert s[..k][..k - 1] == s[..k - 1];
  }

  lemma CategorySumPrefixStep(s: seq<Expense>, k: int, c: string)
    requires 0 < k <= |s|
    ensures CategorySum(s[..k], c) == CategorySum(s[..k - 1], c) + AmountIn(s[k - 1], c)
  {
    assert s[..k][..k - 1] == s[..k - 1];
  }

  /** The total of four records, written out. */
  lemma TotalOfFour(s: seq<Expense>)
    requires |s| == 4
    ensures Total(s) == s[0].amount + s[1].amount + s[2].amount + s[3].amount
  {
    assert Total(s[..0]) == 0.0;
    TotalPrefixStep(s, 1);
    TotalPrefixStep(s, 2);
    TotalPrefixStep(s, 3);
    TotalPrefixStep(s, 4);
    assert s[..4] == s;
  }

  /** The grand total of eight records, written out. */
  lemma TotalOfEight(s: seq<Expense>)
    requires |s| == 8
    ensures Total(s) == s[0].amount + s[1].amount + s[2].amount + s[3].amount
                      + s[4].amount + s[5].amount + s[6].amount + s[7].amount
  {
    var a, b := s[..4], s[4..];
    assert a + b == s;
    TotalConcat(a, b);
    TotalOfFour(a);
    TotalOfFour(b);
  }

  /** The demo data adds up to 385.72. */
  lemma MockTotal()
    ensures Total(MockExpenses()) == 385.72
  {
    TotalOfEight(MockExpenses());
  }

  /** The sum of one category over four records, written out. */
  lemma CategorySumOfFour(s: seq<Expense>, c: string)
    requires |s| == 4
    ensures CategorySum(s, c) == AmountIn(s[0], c) + AmountIn(s[1], c) + AmountIn(s[2], c) + AmountIn(s[3], c)
  {
    assert CategorySum(s[..0], c) == 0.0;
    CategorySumPrefixStep(s, 1, c);
    CategorySumPrefixStep(s, 2, c);
    CategorySumPrefixStep(s, 3, c);
    CategorySumPrefixStep(s, 4, c);
    assert s[..4] == s;
  }

  /** The sum of one category over eight records, written out. */
  lemma CategorySumOfEight(s: seq<Expense>, c: string)
    requires |s| == 8
    ensures CategorySum(s, c) == AmountIn(s[0], c) + AmountIn(s[1], c) + AmountIn(s[2], c) + AmountIn(s[3], c)
                               + AmountIn(s[4], c) + AmountIn(s[5], c) + AmountIn(s[6], c) + AmountIn(s[7], c)
  {
    var a, b := s[..4], s[4..];
    assert a + b == s;
    CategorySumConcat(a, b, c);
    CategorySumOfFour(a, c);
    CategorySumOfFour(b, c);
  }

  /** Of the demo data 166.05 is Food (85.50 + 12.75 + 67.80). */
  lemma MockFood()
    ensures CategorySum(MockExpenses(), "Food") == 166.05
  {
    CategorySumOfEight(MockExpenses(), "Food");
  }

  /** calculateCategoryTotals of the demo data has the Food entry 166.05. */
  lemma MockFoodEntry()
    ensures CategoryTotalsOf(MockExpenses()).amount["Food"] == 166.05
  {
    var m := MockExpenses();
    MockFood();
    CategoryTotalsEntry(m, 0);
  }

  // ---------------------------------------------------------------------------------------------
  // Properties of addExpense

  /** After an add the list is newest first, whatever it was before. */
  lemma AddedSorted(es: seq<Expense>, n: Expense)
    ensures Sorted(Added(es, n), NewerFirst)
  {
    NewerFirstIsStrictWeakOrder();
    SortSorted([n] + es, NewerFirst);
  }

  /** On a newest-first list the sort only moves the new record: it lands in front of the first
      record that is not newer than it. */
  lemma AddedIsInsert(es: seq<Expense>, n: Expense)
    requires Sorted(es, NewerFirst)
    ensures Added(es, n) == Insert(n, es, NewerFirst)
  {
    NewerFirstIsStrictWeakOrder();
    SortOfSorted(es, NewerFirst);
    assert ([n] + es)[0] == n && ([n] + es)[1..] == es;
  }

  /** Stability: among the records of any one date the order is the order of `[n] + es`; in particular
      the new record comes before every old record of its own date, which keep their order. */
  lemma AddedKeepsTies(es: seq<Expense>, n: Expense, z: Expense)
    ensures TiesWith(Added(es, n), z, NewerFirst) == TiesWith([n] + es, z, NewerFirst)
    ensures TiesWith(Added(es, n), n, NewerFirst) == [n] + TiesWith(es, n, NewerFirst)
  {
    NewerFirstIsStrictWeakOrder();
    SortStable([n] + es, z, NewerFirst);
    SortStable([n] + es, n, NewerFirst);
    TiesCons(n, es, n, NewerFirst);
  }

  // ---------------------------------------------------------------------------------------------
  // Properties of deleteExpense

  /** Exactly the records with another id survive. */
  lemma {:induction false} WithoutIdMembers(es: seq<Expense>, id: string)
    ensures forall x :: x in WithoutId(es, id) <==> x in es && x.id != id
  {
    if es != [] {
      WithoutIdMembers(es[1..], id);
      assert es == [es[0]] + es[1..];
    }
  }

  /** The survivors keep their relative order: the filter distributes over concatenation. */
  lemma {:induction false} WithoutIdConcat(a: seq<Expense>, b: seq<Expense>, id: string)
    ensures WithoutId(a + b, id) == WithoutId(a, id) + WithoutId(b, id)
  {
    if a == [] {
      assert a + b == b;
    } else {
      var h := if a[0].id != id then [a[0]] else [];
      assert (a + b)[0] == a[0] && (a + b)[1..] == a[1..] + b;
      assert WithoutId(a + b, id) == h + WithoutId(a[1..] + b, id);
      WithoutIdConcat(a[1..], b, id);
      assert WithoutId(a, id) == h + WithoutId(a[1..], id);
    }
  }

  /** An id that no record carries leaves the list as it is. */
  lemma {:induction false} WithoutUnknownId(es: seq<Expense>, id: string)
    requires forall x :: x in es ==> x.id != id
    ensures WithoutId(es, id) == es
  {
    if es != [] {
      assert forall x :: x in es[1..] ==> x in es;
      WithoutUnknownId(es[1..], id);
      assert es == [es[0]] + es[1..];
    }
  }

  /** Deleting twice is deleting once. */
  lemma WithoutIdIdempotent(es: seq<Expense>, id: string)
    ensures WithoutId(WithoutId(es, id), id) == WithoutId(es, id)
  {
    WithoutIdMembers(es, id);
    WithoutUnknownId(WithoutId(es, id), id);
  }

  /** No record that survives the filter of the tail is newer than the head of a newest-first list. */
  lemma SurvivorsNotNewer(es: seq<Expense>, id: string)
    requires es != [] && Sorted(es, NewerFirst)
    ensures forall k :: 0 <= k < |WithoutId(es[1..], id)| ==> !NewerFirst(WithoutId(es[1..], id)[k], es[0])
  {
    var rest := WithoutId(es[1..], id);
    WithoutIdMembers(es[1..], id);
    forall k | 0 <= k < |rest| ensures !NewerFirst(rest[k], es[0]) {
      assert rest[k] in es[1..];
      var j :| 0 <= j < |es[1..]| && es[1..][j] == rest[k];
      assert es[j + 1] == rest[k];
    }
  }

  /** Deleting keeps the list newest first. */
  lemma {:induction false} WithoutIdSorted(es: seq<Expense>, id: string)
    requires Sorted(es, NewerFirst)
    ensures Sorted(WithoutId(es, id), NewerFirst)
  {
    if es != [] {
      var rest := WithoutId(es[1..], id);
      SortedTail(es, NewerFirst);
      WithoutIdSorted(es[1..], id);
      if es[0].id != id {
        SurvivorsNotNewer(es, id);
        ConsSorted(es[0], rest, NewerFirst);
        assert WithoutId(es, id) == [es[0]] + rest;
      } else {
        assert WithoutId(es, id) == [] + rest;
        assert [] + rest == rest;
      }
    }
  }
}

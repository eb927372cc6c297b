/** The list view of ExpenseList.jsx: the category options, the search-and-category filter followed
    by the chosen sort, and the tile colour lookup. */
module ExpenseList {

  import opened Expenses
  import opened StableSort
  import opened AnalyticsUtils

  // ---------------------------------------------------------------------------------------------
  // Text matching

  /** ASCII `toLowerCase`. */
  function LowerChar(ch: char): char {
    if 'A' <= ch <= 'Z' then (ch as int + 32) as char else ch
  }

  function ToLower(s: string): (r: string)
    ensures |r| == |s|
    ensures forall i :: 0 <= i < |r| ==> !('A' <= r[i] <= 'Z')
    ensures forall i :: 0 <= i < |r| ==> (if 'A' <= s[i] <= 'Z' then r[i] as int == s[i] as int + 32 else r[i] == s[i])
  {
    seq(|s|, i requires 0 <= i < |s| => LowerChar(s[i]))
  }

  /** `s.includes(t)`, scanning the start positions from the left. */
  function Contains(s: string, t: string): (b: bool)
    ensures t == [] ==> b
    ensures b ==> |t| <= |s|
    decreases |s|
  {
    (|t| <= |s| && s[..|t|] == t) || (s != [] && Contains(s[1..], t))
  }

  /** `t` occurs in `s` starting at position `i`. */
  predicate OccursAt(s: string, t: string, i: int) {
    0 <= i && i + |t| <= |s| && s[i..i + |t|] == t
  }

  lemma OccursInTail(s: string, t: string, i: int)
    requires s != [] && i > 0 && OccursAt(s, t, i)
    ensures OccursAt(s[1..], t, i - 1)
  {
    assert s[1..][i - 1..i - 1 + |t|] == s[i..i + |t|];
  }

  lemma OccursFromTail(s: string, t: string, i: int)
    requires s != [] && OccursAt(s[1..], t, i)
    ensures OccursAt(s, t, i + 1)
  {
    assert s[i + 1..i + 1 + |t|] == s[1..][i..i + |t|];
  }

  /** Contains means: `t` occurs in `s` at some position. */
  lemma {:induction false} ContainsIff(s: string, t: string)
    ensures Contains(s, t) <==> exists i :: OccursAt(s, t, i)
    decreases |s|
  {
    if s != [] {
      ContainsIff(s[1..], t);
      if Contains(s[1..], t) {
        var i :| OccursAt(s[1..], t, i);
        OccursFromTail(s, t, i);
      } else if !(|t| <= |s| && s[..|t|] == t) {
        forall i | OccursAt(s, t, i) ensures false {
          if i > 0 {
            OccursInTail(s, t, i);
          }
        }
      } else {
        assert OccursAt(s, t, 0);
      }
    } else if t == [] {
      assert OccursAt(s, t, 0);
    }
  }

  /** Every string includes the empty string. */
  lemma ContainsEmpty(s: string)
    ensures Contains(s, "")
  {
    assert s[..0] == "";
  }

  // ---------------------------------------------------------------------------------------------
  // The filter

  /** The title contains the term, or a description exists and contains it, both lowercased. */
  function MatchesSearch(e: Expense, searchTerm: string): (b: bool)
    ensures searchTerm == "" ==> b
  {
    Contains(ToLower(e.title), ToLower(searchTerm))
    || (e.description.Some? && Contains(ToLower(e.description.value), ToLower(searchTerm)))
  }

  /** `selectedCategory === 'All' || expense.category === selectedCategory`. */
  function MatchesCategory(e: Expense, selectedCategory: string): (b: bool)
    ensures selectedCategory == "All" ==> b
    ensures e.category == selectedCategory ==> b
    ensures b && selectedCategory != "All" ==> e.category == selectedCategory
  {
    selectedCategory == "All" || e.category == selectedCategory
  }

  /** The filter callback: `matchesSearch && matchesCategory`. */
  function Keep(e: Expense, searchTerm: string, selectedCategory: string): (r: bool)
    ensures searchTerm == "" && selectedCategory == "All" ==> r
    ensures r ==> MatchesCategory(e, selectedCategory)
  {
    MatchesSearch(e, searchTerm) && MatchesCategory(e, selectedCategory)
  }

  /** `expenses.filter(...)`: a new array; the input list is a value and stays as it is. */
  function Matching(es: seq<Expense>, searchTerm: string, selectedCategory: string): (r: seq<Expense>)
    ensures |r| <= |es|
    ensures forall k :: 0 <= k < |r| ==> Keep(r[k], searchTerm, selectedCategory)
  {
    if es == [] then []
    else
      var rest := Matching(es[1..], searchTerm, selectedCategory);
      if Keep(es[0], searchTerm, selectedCategory) then [es[0]] + rest else rest
  }

  /** The filter keeps exactly the matching records, each at most as often as it occurs. */
  lemma {:induction false} MatchingMembers(es: seq<Expense>, searchTerm: string, selectedCategory: string)
    ensures forall x :: x in Matching(es, searchTerm, selectedCategory) <==> x in es && Keep(x, searchTerm, selectedCategory)
    ensures multiset(Matching(es, searchTerm, selectedCategory)) <= multiset(es)
  {
    if es != [] {
      MatchingMembers(es[1..], searchTerm, selectedCategory);
      assert es == [es[0]] + es[1..];
    }
  }

  /** With an empty search term and 'All' nothing is filtered out. */
  lemma {:induction false} MatchingEverything(es: seq<Expense>)
    ensures Matching(es, "", "All") == es
  {
    if es != [] {
      ContainsEmpty(ToLower(es[0].title));
      MatchingEverything(es[1..]);
      assert es == [es[0]] + es[1..];
    }
  }

  // ---------------------------------------------------------------------------------------------
  // The three sort orders

  /** `b.amount - a.amount`: larger amounts first. */
  function LargerAmountFirst(a: Expense, b: Expense): (r: bool)
    ensures r ==> a.amount != b.amount && !(b.amount > a.amount)
  {
    a.amount > b.amount
  }

  /** Lexicographic order of character codes, standing for `localeCompare`. */
  function LexLess(a: string, b: string): (r: bool)
    ensures r ==> a != b
    ensures |a| < |b| && a == b[..|a|] ==> r
  {
    if a == [] then b != []
    else if b == [] then false
    else a[0] < b[0] || (a[0] == b[0] && LexLess(a[1..], b[1..]))
  }

  lemma {:induction false} LexLessIrreflexive(a: string)
    ensures !LexLess(a, a)
  {
    if a != [] {
      LexLessIrreflexive(a[1..]);
    }
  }

  lemma {:induction false} LexLessTransitive(a: string, b: string, c: string)
    requires LexLess(a, b) && LexLess(b, c)
    ensures LexLess(a, c)
  {
    if a != [] && b != [] && c != [] && a[0] == b[0] == c[0] {
      LexLessTransitive(a[1..], b[1..], c[1..]);
    }
  }

  lemma {:induction false} LexLessTotal(a: string, b: string)
    ensures LexLess(a, b) || a == b || LexLess(b, a)
  {
    if a != [] && b != [] && a[0] == b[0] {
      LexLessTotal(a[1..], b[1..]);
      if a[1..] == b[1..] {
        assert a == [a[0]] + a[1..] && b == [b[0]] + b[1..];
      }
    }
  }

  /** `a.title.localeCompare(b.title)`: titles in ascending order. */
  function TitleFirst(a: Expense, b: Expense): (r: bool)
    ensures r ==> a.title != b.title
  {
    LexLessIrreflexive(a.title);
    LexLess(a.title, b.title)
  }

  lemma LargerAmountFirstIsStrictWeakOrder()
    ensures StrictWeakOrder(LargerAmountFirst)
  {
  }

  lemma TitleFirstIsStrictWeakOrder()
    ensures StrictWeakOrder(TitleFirst)
  {
    forall a: Expense ensures !TitleFirst(a, a) {
      LexLessIrreflexive(a.title);
    }
    forall a: Expense, b: Expense, c: Expense | TitleFirst(a, b) && TitleFirst(b, c)
      ensures TitleFirst(a, c)
    {
      LexLessTransitive(a.title, b.title, c.title);
    }
    forall a: Expense, b: Expense, c: Expense | TitleFirst(a, c)
      ensures TitleFirst(a, b) || TitleFirst(b, c)
    {
      LexLessTotal(a.title, b.title);
      if LexLess(b.title, a.title) {
        LexLessTransitive(b.title, a.title, c.title);
      }
    }
  }

  /** The `switch (sortBy)`: 'amount', 'title', and the date order for anything else. */
  function ComparatorFor(sortBy: string): (lt: (Expense, Expense) -> bool)
    ensures StrictWeakOrder(lt)
  {
    if sortBy == "amount" then LargerAmountFirstIsStrictWeakOrder(); LargerAmountFirst
    else if sortBy == "title" then TitleFirstIsStrictWeakOrder(); TitleFirst
    else NewerFirstIsStrictWeakOrder(); NewerFirst
  }

  // ---------------------------------------------------------------------------------------------
  // filteredExpenses

  /** The list the view shows: the matching records in the chosen order. */
  function FilteredExpenses(es: seq<Expense>, searchTerm: string, selectedCategory: string, sortBy: string): (r: seq<Expense>)
    ensures multiset(r) == multiset(Matching(es, searchTerm, selectedCategory))
    ensures |r| <= |es|
  {
    Sort(Matching(es, searchTerm, selectedCategory), ComparatorFor(sortBy))
  }

  /** A record is shown iff it matches both the search and the category; the shown list is a
      permutation of a sub-multiset of the input, so "Showing X of Y" has X <= Y. */
  lemma FilteredContents(es: seq<Expense>, searchTerm: string, selectedCategory: string, sortBy: string)
    ensures forall x :: x in FilteredExpenses(es, searchTerm, selectedCategory, sortBy) <==>
      x in es && MatchesSearch(x, searchTerm) && MatchesCategory(x, selectedCategory)
    ensures multiset(FilteredExpenses(es, searchTerm, selectedCategory, sortBy)) <= multiset(es)
  {
    var r := FilteredExpenses(es, searchTerm, selectedCategory, sortBy);
    var m := Matching(es, searchTerm, selectedCategory);
    MatchingMembers(es, searchTerm, selectedCategory);
    forall x ensures x in r <==> x in m {
      assert x in r <==> x in multiset(r);
      assert x in m <==> x in multiset(m);
    }
  }

  /** The initial view (empty search, 'All') shows every record. */
  lemma FilteredShowsAll(es: seq<Expense>, sortBy: string)
    ensures multiset(FilteredExpenses(es, "", "All", sortBy)) == multiset(es)
    ensures |FilteredExpenses(es, "", "All", sortBy)| == |es|
  {
    MatchingEverything(es);
  }

  /** The order of the shown list for each value of `sortBy`. */
  lemma FilteredOrder(es: seq<Expense>, searchTerm: string, selectedCategory: string, sortBy: string)
    ensures var r := FilteredExpenses(es, searchTerm, selectedCategory, sortBy);
      && (sortBy == "amount" ==> forall i, j :: 0 <= i < j < |r| ==> r[i].amount >= r[j].amount)
      && (sortBy == "title" ==> forall i, j :: 0 <= i < j < |r| ==> !LexLess(r[j].title, r[i].title))
      && (sortBy != "amount" && sortBy != "title" ==>
            forall i, j :: 0 <= i < j < |r| ==> !Earlier(r[i].date, r[j].date))
  {
    SortSorted(Matching(es, searchTerm, selectedCategory), ComparatorFor(sortBy));
  }

  /** Records that the chosen order does not separate keep their input order. */
  lemma FilteredStable(es: seq<Expense>, searchTerm: string, selectedCategory: string, sortBy: string, z: Expense)
    ensures TiesWith(FilteredExpenses(es, searchTerm, selectedCategory, sortBy), z, ComparatorFor(sortBy))
      == TiesWith(Matching(es, searchTerm, selectedCategory), z, ComparatorFor(sortBy))
  {
    SortStable(Matching(es, searchTerm, selectedCategory), z, ComparatorFor(sortBy));
  }

  // ---------------------------------------------------------------------------------------------
  // Category options and tile colour

  /** `['All', ...new Set(expenses.map(e => e.category))]`. */
  function CategoryOptions(es: seq<Expense>): (r: seq<string>)
    ensures |r| >= 1 && r[0] == "All"
  {
    ["All"] + Categories(es)
  }

  /** After 'All' each category of the records appears once, in order of first occurrence. */
  lemma CategoryOptionsShape(es: seq<Expense>)
    ensures var r := CategoryOptions(es);
      && Distinct(r[1..])
      && (forall c :: c in r[1..] <==> exists e :: e in es && e.category == c)
      && FirstOccurrenceOrder(es, r[1..])
  {
    CategoriesFirstOccurrenceOrder(es);
    CategoriesDistinctMembers(es);
    assert CategoryOptions(es)[1..] == Categories(es);
  }

  /** `categoryColors[expense.category] || '#6b7280'`. */
  function TileColor(category: string): (r: string)
    ensures category in CategoryColors() ==> r == CategoryColors()[category]
    ensures category !in CategoryColors() ==> r == "#6b7280"
  {
    var colors := CategoryColors();
    if category in colors then colors[category] else "#6b7280"
  }

  /** Every tile gets a '#rrggbb' colour; the eight canonical categories get their palette colour
      and everything else gets grey. */
  lemma TileColorIsHex(category: string)
    ensures IsHexColor(TileColor(category))
    ensures category in CanonicalCategories <==> category in CategoryColors()
  {
    CategoryColorsAreHex();
  }
}

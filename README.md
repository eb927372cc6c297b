# Expense tracker: the aggregation layer and the list logic around it

This project is a Dafny model of the data logic of a small React expense tracker. It covers:

- the aggregation functions in `src/utils/analytics.js`:
  - the grand total;
  - the per-category totals;
  - the sliding window of monthly buckets;
  - the savings rate;
  - the colour palette;
- the expense store of the `useExpenses` hook, which loads the demo records newest first and then adds and deletes records;
- the list view's category options, search/category filter, three sort orders and tile colour fallback;
- the derived figures of the analytics page and the dashboard.

Modules, one per source file, plus two shared ones:

- `Expenses` (`expense.dfy`): the expense record, calendar dates and months, and the date-fns month arithmetic the bucketing uses.
- `StableSort` (`sort.dfy`): `Array.prototype.sort`, which is stable, as a functional insertion sort over a "strictly before" comparator. It is proved sorted, a permutation, stable, and the identity on sorted input.
- `AnalyticsUtils` (`analytics.dfy`): `src/utils/analytics.js`. `calculateCategoryTotals` and `getMonthlyExpenses` are loops in the source. Here they are methods, proved equal to specification functions, and the properties are lemmas about those functions.
- `UseExpenses` (`store.dfy`): the hook's state as a class with `expenses` and `loading` fields. The initial load sorts the module-level array in place.
- `ExpenseList` (`expense_list.dfy`), `AnalyticsPage` (`analytics_page.dfy`), `Dashboard` (`dashboard.dfy`): the component computations as pure functions of their props and state.

Conventions of the model:

- Amounts are exact `real`s.
- Dates are calendar triples. A month has the index `year * 12 + (month - 1)`.
- The clock reads become parameters:
  - `new Date()` in `getMonthlyExpenses` becomes `now`;
  - `Date.now()` and `new Date()` in `addExpense` become `generatedId` and `createdAt`.
- The dictionary built by `calculateCategoryTotals` is a `CategoryTotals` value: a map plus the order in which its keys were created. That order is the one `Object.entries` reports, and it decides the tie-breaks of the analytics page.

## Model

| member | source | states |
|---|---|---|
| AnalyticsUtils.Total | src/utils/analytics.js:3-5 | the `reduce` over the amounts; the total of `[]` is 0 |
| AnalyticsUtils.TotalConcat | src/utils/analytics.js:3-5 | the total of a concatenation is the sum of the totals |
| AnalyticsUtils.TotalPermutation | src/utils/analytics.js:3-5 | two lists holding the same records in any order have the same total |
| AnalyticsUtils.TotalNonNegative | src/utils/analytics.js:3-5 | records with non-negative amounts have a non-negative total |
| AnalyticsUtils.Categories | src/utils/analytics.js:9-11 | the keys in the order the forEach creates them; there are no more keys than records |
| AnalyticsUtils.CategorySum | src/utils/analytics.js:10 | the sum that the forEach updates accumulate (a missing key counting as 0) for one category, starting from 0; when every record is in that category it is the grand total |
| AnalyticsUtils.CategorySumConcat | src/utils/analytics.js:9-11 | the per-category sum over a concatenation is the sum of the per-category sums of the parts |
| AnalyticsUtils.CategoriesDistinctMembers | src/utils/analytics.js:7-13 | the keys that calculateCategoryTotals creates are distinct and are exactly the categories occurring in the input |
| AnalyticsUtils.CategoriesFirstOccurrenceOrder | src/utils/analytics.js:9-11 | the keys come in order of first occurrence: every record of a later key is preceded by a record of each earlier key |
| AnalyticsUtils.CategoryTotalsOf | src/utils/analytics.js:7-13 | the resulting dictionary is well formed: distinct insertion order and key set equal to that order |
| AnalyticsUtils.EntriesOf | src/components/Analytics.jsx:19 | `Object.entries` lists one pair per key, in key order, each key with its own amount |
| AnalyticsUtils.Entries | src/components/Analytics.jsx:189 | the entries of the category dictionary: one per key, each a key paired with its own total |
| AnalyticsUtils.CalculateCategoryTotals | src/utils/analytics.js:7-13 | the forEach loop builds exactly, with keys in exactly that order, a dictionary whose keys are the categories present (no zero-filling) and whose values are the per-category sums |
| AnalyticsUtils.CategoryTotalsConserveTotal | src/utils/analytics.js:3-13 | the values of the category dictionary add up to calculateTotalExpenses of the same list; the empty list gives the empty dictionary |
| AnalyticsUtils.GetMonthlyExpenses | src/utils/analytics.js:15-35 | the descending `for` loop returns the window of monthly buckets `MonthlyExpenses(es, monthsBack, now)` |
| AnalyticsUtils.MonthlyExpenses | src/utils/analytics.js:15-35 | the window has exactly `monthsBack` buckets, none when `monthsBack <= 0` |
| AnalyticsUtils.Window | src/utils/analytics.js:18-31 | a window of `n` consecutive months has exactly `n` buckets, none when `n <= 0` |
| AnalyticsUtils.WindowAt | src/utils/analytics.js:18-31 | bucket `k` of the window is the bucket of the `k`-th month from the oldest one |
| AnalyticsUtils.InMonth | src/utils/analytics.js:23-25 | the month filter keeps no more records than it is given, and each kept record lies in the inclusive [startOfMonth, endOfMonth] interval |
| AnalyticsUtils.BucketOf | src/utils/analytics.js:27-31 | the pushed object carries its month, records inside that month only, and a total equal to calculateTotalExpenses of those records |
| AnalyticsUtils.MonthlyWindowShape | src/utils/analytics.js:18-21 | buckets are oldest first, each is the calendar month after the previous one (December is followed by January of the next year), and the last is the month of `now` |
| AnalyticsUtils.MonthlyBucketContents | src/utils/analytics.js:19-30 | a bucket holds exactly the input records dated inside its inclusive [startOfMonth, endOfMonth] interval, in input order, and its total is calculateTotalExpenses of them |
| AnalyticsUtils.InMonthMembers | src/utils/analytics.js:23-25 | a record is in a month's list iff it is an input record whose date is within the inclusive interval |
| AnalyticsUtils.InMonthConcat | src/utils/analytics.js:23-25 | the month filter keeps input order (it distributes over concatenation) |
| AnalyticsUtils.MonthlyBucketsDisjoint | src/utils/analytics.js:18-25 | no record with a valid date lies in two buckets |
| AnalyticsUtils.MonthlyConservation | src/utils/analytics.js:18-31 | the bucket totals add up to the total of the records whose month lies in the window |
| AnalyticsUtils.SumTotals | src/components/Analytics.jsx:23 | the `reduce((sum, month) => sum + month.total, 0)` over no buckets is 0 |
| AnalyticsUtils.MonthlyIgnoresOutside | src/utils/analytics.js:18-31 | adding records dated outside the window leaves the sum of the bucket totals unchanged |
| AnalyticsUtils.SavingsRate | src/utils/analytics.js:37-41 | the rate is 0 whenever the income is not positive |
| AnalyticsUtils.SavingsRateCases | src/utils/analytics.js:37-41 | for positive income: 100 iff no expenses, 0 iff the total equals the income, negative (not clamped) iff the total exceeds the income |
| AnalyticsUtils.CategoryColors | src/utils/analytics.js:43-52 | the palette has exactly the eight canonical categories as keys, with 'Food' mapped to '#ef4444' and 'Bills' to '#6b7280' |
| AnalyticsUtils.CategoryColorsAreHex | src/utils/analytics.js:43-52 | every palette value is a '#rrggbb' hex colour |
| Expenses.DaysInMonth | src/utils/analytics.js:20-21 | month lengths are 28 to 31 days, 29 exactly for February of a leap year |
| Expenses.SubMonths | src/utils/analytics.js:19 | subMonths gives a valid month whose index is `i` less |
| Expenses.MonthAtSucc | src/utils/analytics.js:18-19 | consecutive month indices are consecutive calendar months, across year ends |
| Expenses.StartOfMonth | src/utils/analytics.js:20 | startOfMonth is a valid day of the month and no valid day of the month precedes it |
| Expenses.EndOfMonth | src/utils/analytics.js:21 | endOfMonth is a valid day of the month and the day after it is not, leap years included |
| Expenses.WithinInterval | src/utils/analytics.js:24 | isWithinInterval includes both ends, and holds only for an interval whose end is not before its start |
| Expenses.WithinMonthIff | src/utils/analytics.js:20-24 | for a valid date, lying within [startOfMonth, endOfMonth] inclusive is the same as being in that calendar month |
| Expenses.MonthBoundaries | src/utils/analytics.js:20-24 | the first and the last day of a month are inside its interval; the last day of the month before and the first day of the month after are outside |
| Expenses.NewerFirst | src/hooks/useExpenses.js:80 | the comparator `new Date(b.date) - new Date(a.date)` puts `a` first only when it is dated strictly later; records of the same day tie |
| Expenses.NewerFirstIsStrictWeakOrder | src/hooks/useExpenses.js:80 | the date comparator `new Date(b.date) - new Date(a.date)` is a strict weak order on records |
| Expenses.EarlierIsStrictTotalOrder | src/hooks/useExpenses.js:80 | the time order `new Date(b.date) - new Date(a.date)` compares by is irreflexive, transitive and total on calendar dates |
| StableSort.SortSorted | src/hooks/useExpenses.js:93 | the model of Array.prototype.sort returns a sorted list |
| StableSort.Sort | src/hooks/useExpenses.js:93 | the sort returns a permutation of its input |
| StableSort.SortStable | src/hooks/useExpenses.js:93 | the sort is stable: the elements that tie with any given value keep their input order |
| StableSort.SortOfSorted | src/hooks/useExpenses.js:80 | sorting an already sorted list leaves it unchanged |
| UseExpenses.ExpenseStore.constructor | src/hooks/useExpenses.js:74-75 | before the load the list is empty and `loading` is true |
| UseExpenses.ExpenseStore.Load | src/hooks/useExpenses.js:77-84 | the load sorts the demo array in place newest first; the store then holds that array and `loading` is false |
| UseExpenses.MockExpenses | src/hooks/useExpenses.js:5-70 | the module-level demo list holds eight records |
| UseExpenses.MockLoadKeepsOrder | src/hooks/useExpenses.js:5-70 | the demo records are already newest first, so the load keeps their order |
| UseExpenses.MockTotal | src/hooks/useExpenses.js:5-70 | the demo records total 385.72 |
| UseExpenses.TotalOfEight | src/hooks/useExpenses.js:5-70 | the total of eight records is the sum of their eight amounts |
| UseExpenses.MockFood | src/hooks/useExpenses.js:5-70 | 166.05 of the demo records is Food |
| UseExpenses.MockFoodEntry | src/hooks/useExpenses.js:5-70 | the Food entry of calculateCategoryTotals over the demo records is 166.05 |
| UseExpenses.NewRecord | src/hooks/useExpenses.js:87-92 | the new record carries the draft's fields and a `createdAt`; its id is the generated one unless the draft has an id, which the spread lets win |
| UseExpenses.ExpenseStore.Add | src/hooks/useExpenses.js:86-96 | addExpense replaces the list by the stable newest-first sort of the new record prepended to the old list; `loading` is untouched |
| UseExpenses.Added | src/hooks/useExpenses.js:93 | after an add the list is one longer and holds the new record and every previous record |
| UseExpenses.AddedSorted | src/hooks/useExpenses.js:93 | after an add the list is newest first |
| UseExpenses.AddedIsInsert | src/hooks/useExpenses.js:93 | on a newest-first list, adding only inserts the new record in front of the first record not newer than it |
| UseExpenses.AddedKeepsTies | src/hooks/useExpenses.js:93 | records of the same date keep their order, and the new record precedes every old record of its date |
| UseExpenses.ExpenseStore.Delete | src/hooks/useExpenses.js:98-101 | deleteExpense replaces the list by the records whose id differs, and keeps the list newest first |
| UseExpenses.WithoutId | src/hooks/useExpenses.js:99 | the filter never gives a longer list, and no surviving record carries the deleted id |
| UseExpenses.WithoutIdMembers | src/hooks/useExpenses.js:99 | a record survives iff it is in the list and its id differs from the argument |
| UseExpenses.WithoutIdConcat | src/hooks/useExpenses.js:99 | the survivors keep their relative order |
| UseExpenses.WithoutUnknownId | src/hooks/useExpenses.js:99 | an id that no record carries leaves the list unchanged |
| UseExpenses.WithoutIdIdempotent | src/hooks/useExpenses.js:99 | deleting the same id twice is deleting it once |
| UseExpenses.WithoutIdSorted | src/hooks/useExpenses.js:99 | deleting keeps a newest-first list newest first |
| ExpenseList.CategoryOptions | src/components/ExpenseList.jsx:12 | the options start with 'All' |
| ExpenseList.CategoryOptionsShape | src/components/ExpenseList.jsx:12 | after 'All' each category of the records appears once, in order of first occurrence |
| ExpenseList.ToLower | src/components/ExpenseList.jsx:17-18 | lowercasing keeps the length, leaves no ASCII capital and maps each capital to its lowercase letter |
| ExpenseList.Contains | src/components/ExpenseList.jsx:17-18 | `includes` of the empty term always holds, and a term longer than the text never occurs |
| ExpenseList.ContainsIff | src/components/ExpenseList.jsx:17-18 | `includes` holds iff the term occurs at some position |
| ExpenseList.ContainsEmpty | src/components/ExpenseList.jsx:17-18 | every string includes the empty term |
| ExpenseList.MatchesSearch | src/components/ExpenseList.jsx:17-18 | `matchesSearch` holds for every record when the search term is empty |
| ExpenseList.MatchesCategory | src/components/ExpenseList.jsx:19 | `matchesCategory` holds for every record under 'All', and otherwise exactly for the records of the selected category |
| ExpenseList.Keep | src/components/ExpenseList.jsx:16-20 | the filter callback keeps every record for an empty term with 'All', and a kept record always passes the category test |
| ExpenseList.Matching | src/components/ExpenseList.jsx:15-21 | the filter gives no more records than it is given, and every kept record passes both tests |
| ExpenseList.MatchingMembers | src/components/ExpenseList.jsx:16-21 | a record is kept iff its title (or an existing description) contains the term case-insensitively and the category is 'All' or equal to the record's; the kept records are a sub-multiset of the input |
| ExpenseList.MatchingEverything | src/components/ExpenseList.jsx:16-21 | an empty term with 'All' keeps every record in order |
| ExpenseList.LargerAmountFirst | src/components/ExpenseList.jsx:25 | `b.amount - a.amount` puts `a` first only when its amount is strictly larger; equal amounts tie |
| ExpenseList.TitleFirst | src/components/ExpenseList.jsx:27 | `a.title.localeCompare(b.title)` puts `a` first only when the titles differ; equal titles tie |
| ExpenseList.ComparatorFor | src/components/ExpenseList.jsx:22-31 | the comparator chosen by the `switch (sortBy)` is a strict weak order for every value of `sortBy` |
| ExpenseList.FilteredExpenses | src/components/ExpenseList.jsx:15-31 | the list shown is a permutation of the filtered records and no longer than the input ("Showing X of Y") |
| ExpenseList.FilteredContents | src/components/ExpenseList.jsx:15-31 | a record is shown iff it is in the input and matches both filters; the shown list is a sub-multiset of the input |
| ExpenseList.FilteredShowsAll | src/components/ExpenseList.jsx:8-10 | the initial view (empty term, 'All') shows every record |
| ExpenseList.FilteredOrder | src/components/ExpenseList.jsx:22-31 | 'amount' gives non-increasing amounts, 'title' non-decreasing titles, any other value newest first |
| ExpenseList.FilteredStable | src/components/ExpenseList.jsx:22-31 | records that the chosen order does not separate keep their input order |
| ExpenseList.TitleFirstIsStrictWeakOrder | src/components/ExpenseList.jsx:27 | the title comparator is a strict weak order |
| ExpenseList.LexLess | src/components/ExpenseList.jsx:27 | `localeCompare` (code-unit order here) never puts a string before itself, and a proper prefix comes first |
| ExpenseList.LexLessTotal | src/components/ExpenseList.jsx:27 | any two titles are equal or ordered one way |
| ExpenseList.TileColor | src/components/ExpenseList.jsx:97 | a tile's colour is the palette colour of its category, or '#6b7280' for a category outside the palette |
| ExpenseList.TileColorIsHex | src/components/ExpenseList.jsx:97 | every tile colour is a '#rrggbb' colour; a category has a palette colour iff it is canonical |
| AnalyticsPage.Pick | src/components/Analytics.jsx:20 | one reduce step returns one of its two entries, and returns `b` unless `a`'s total is strictly larger |
| AnalyticsPage.TopOf | src/components/Analytics.jsx:19-21 | the reduce yields the seed ['', 0] or one of the entries |
| AnalyticsPage.TopCategory | src/components/Analytics.jsx:19-21 | topCategory is the seed ['', 0] or a category paired with its own total |
| AnalyticsPage.TopCategoryOfNothing | src/components/Analytics.jsx:19-21 | with no categories the top category is ['', 0] |
| AnalyticsPage.TopCategoryIsLastMaximum | src/components/Analytics.jsx:19-21 | otherwise it is an existing category paired with its total; no category has more, and no later entry has as much (ties go to the later entry) |
| AnalyticsPage.TopOfInvariant | src/components/Analytics.jsx:19-21 | along the reduce, the accumulator is the last maximal entry seen so far, or still ['', 0] because a category '' exists, lies ahead and is above all seen |
| AnalyticsPage.MonthlyData | src/components/Analytics.jsx:17 | the page works on six buckets |
| AnalyticsPage.AverageMonthly | src/components/Analytics.jsx:23 | the average times the number of buckets is the sum of the bucket totals |
| AnalyticsPage.CurrentMonth | src/components/Analytics.jsx:24 | the current month is 0 without buckets, and otherwise the total of the last bucket, which lies between the lowest and the highest month |
| AnalyticsPage.PreviousMonth | src/components/Analytics.jsx:25 | the previous month is 0 with fewer than two buckets, and otherwise the total of the second-to-last bucket, which lies between the lowest and the highest month |
| AnalyticsPage.MonthlyChange | src/components/Analytics.jsx:26 | the change is 0 unless the previous month is positive; then applying it to the previous month gives the current one |
| AnalyticsPage.ChangePrefix | src/components/Analytics.jsx:52 | the prefix is '+' exactly for a positive change, and empty otherwise |
| AnalyticsPage.PageAverage | src/components/Analytics.jsx:23 | the monthly average is the total of the records dated inside the six-month window, divided by six |
| AnalyticsPage.PageCurrentMonth | src/components/Analytics.jsx:24 | the current month is the total of the records in the calendar month of `now` |
| AnalyticsPage.PagePreviousMonth | src/components/Analytics.jsx:25 | the previous month is the total of the records in the calendar month before that of `now` |
| AnalyticsPage.MonthlyChangeSign | src/components/Analytics.jsx:26-52 | the change is 0 when the previous month is not positive; positive iff the current month is larger, negative iff smaller; the '+' prefix appears iff it is positive |
| AnalyticsPage.Highest | src/components/Analytics.jsx:154 | the highest month is one of the bucket totals and no bucket total exceeds it |
| AnalyticsPage.Lowest | src/components/Analytics.jsx:160 | the lowest month is one of the bucket totals and none is below it |
| AnalyticsPage.AverageBetweenLowestAndHighest | src/components/Analytics.jsx:154-166 | lowest month <= average <= highest month |
| AnalyticsPage.Percentage | src/components/Analytics.jsx:192 | the percentage is the share of the total times 100 (0 for a zero total) |
| AnalyticsPage.RowsOf | src/components/Analytics.jsx:191-192 | there is one row per entry, carrying its category, its amount and its amount's percentage of the total |
| AnalyticsPage.CategoryRows | src/components/Analytics.jsx:189-192 | with a non-zero total every row's percentage is its amount / total × 100 (0 with a zero total) |
| AnalyticsPage.LargerEntryFirst | src/components/Analytics.jsx:190 | `([,a], [,b]) => b - a` puts an entry first only when its amount is strictly larger; equal amounts tie |
| AnalyticsPage.CategoryRowsOrder | src/components/Analytics.jsx:189-190 | the category rows are ordered by amount, non-increasing |
| AnalyticsPage.CategoryRowsContents | src/components/Analytics.jsx:189-192 | there is exactly one row per category, carrying that category's total |
| AnalyticsPage.SumAmountsSort | src/components/Analytics.jsx:190 | sorting the entries keeps the sum of their amounts |
| AnalyticsPage.CategoryPercentagesSumTo100 | src/components/Analytics.jsx:189-192 | with a non-zero total the percentages add up to 100 |
| Dashboard.RemainingBudget | src/components/Dashboard.jsx:10 | the remaining budget and the expenses add up to the income of 5000; it is positive iff the expenses stay below the income |
| Dashboard.DashboardSavingsRate | src/components/Dashboard.jsx:8-9 | the dashboard's savings rate is the remaining budget as a percentage of the income |
| Dashboard.BudgetUsed | src/components/Dashboard.jsx:116 | the uncapped "% of budget used" exceeds 100 iff the expenses exceed the income, and is 100 exactly at the income |
| Dashboard.BarIsRed | src/components/Dashboard.jsx:107 | the bar is red iff the remaining budget is negative |
| Dashboard.Status | src/components/Dashboard.jsx:121 | the status is "Under budget" iff the expenses are below the income |
| Dashboard.RemainingTrend | src/components/Dashboard.jsx:39 | the remaining-budget card shows 5.7 iff the status is "Under budget", and -23.1 otherwise |
| Dashboard.ProgressWidth | src/components/Dashboard.jsx:104 | the bar width never exceeds 100 or the used share, and equals one of them |
| Dashboard.ProgressWidthRange | src/components/Dashboard.jsx:104 | with non-negative amounts the width lies in [0, 100] |
| Dashboard.StatusIff | src/components/Dashboard.jsx:118-121 | the status is "Under budget" iff the expenses are below the income (remaining budget above 0), and the trend card shows 5.7 exactly then |
| Dashboard.BarAndLabel | src/components/Dashboard.jsx:104-116 | the bar is red iff more than 100 % is used; then the width is capped at 100 while the label exceeds it |
| Dashboard.ExactlyAtIncome | src/components/Dashboard.jsx:104-121 | spending exactly the income shows "Over budget" with a full bar that is not red, 0 remaining and a savings rate of 0 |
| Dashboard.SavingsAndUsedAddUp | src/components/Dashboard.jsx:8-10 | the savings rate and the used share add up to 100, and the savings rate is the remaining budget as a percentage of the income of 5000 |

## Left out

- `formatCurrency`: a wrapper over `Intl.NumberFormat`, which is not modelled. The same goes for the `.toFixed(1)` displays.
- The 'MMM yyyy' and 'MMM dd, yyyy' labels from date-fns `format`: a bucket carries its calendar month instead of the label string.
- getMonthlyExpenses reads the clock again on every pass of its loop; the model reads it once, as `now`. A loop that runs across a month change is not modelled.
- The calendar month of `now`: the model assumes it is valid wherever a lemma needs it. Time zones are not modelled: date-only ISO strings parse as UTC while `startOfMonth` works in local time, and here dates are calendar triples.
- The order on dates is lexicographic on (year, month, day). This equals timestamp order for valid dates. Invalid dates (`NaN` timestamps) are not modelled.
- IEEE floating point is not modelled: amounts are exact reals, so summation artifacts and the `NaN` or `Infinity` of a division by zero do not arise.
- AnalyticsPage.Percentage: when the total is 0 the source computes `NaN` or `Infinity`; the model returns 0 in that case. CategoryPercentagesSumTo100 therefore assumes a non-zero total.
- AnalyticsPage.AverageMonthly, Highest and Lowest require at least one bucket. The page always passes six (MonthlyData). An empty list would give `NaN`, `-Infinity` or `Infinity` in the source.
- `toLowerCase` is modelled on ASCII letters only. `localeCompare` is modelled as the order of character codes; locale collation is not modelled.
- JavaScript object-key quirks are not modelled. Three consequences:
  - `Object.entries` lists integer-like keys such as "42" first, in numeric order; the model uses insertion order for every key.
  - A lookup `categoryColors[c]` for an inherited name such as "constructor" finds a prototype member; the model treats such a name as absent.
  - In calculateCategoryTotals, `categoryTotals[c] || 0` for a category named like an inherited member ("constructor", "toString") reads that function, so the entry becomes a string, and a category "__proto__" creates no own key at all. For such names the source's keys are not "exactly the categories"; the model treats every name as an ordinary key.
- Falsy totals: `?.total || 0` also maps a `NaN` total to 0. Without `NaN` this is the plain "0 if absent".
- In the store the React machinery is not modelled: `useState`/`useEffect` re-rendering, the 500 ms `setTimeout`, the `toast` notifications and asynchronous state updates. Each setter call is one method that replaces the field.
- UseExpenses.ExpenseStore.Load: `expenses` receives a copy of the sorted array's contents. Aliasing between the module-level array and the state is left out, since nothing mutates the array afterwards.
- UseExpenses.ExpenseStore.Load: the engine's in-place sorting algorithm is not modelled. Only its result, the stable sort of the old contents, is written back into the array.
- UseExpenses.ExpenseStore.Add and UseExpenses.ExpenseStore.Delete both act on the current state. In the source addExpense builds its list from the `expenses` of the last render, while deleteExpense uses the `prev =>` updater. A delete followed by an add before the next render therefore brings the deleted record back; the model does not capture this.
- UseExpenses.ExpenseStore.Delete requires the newest-first invariant `Valid()`, which every other operation establishes. The filter itself works on any list (WithoutId has no requires).
- The entry form (ExpenseForm.jsx) is not modelled: `parseFloat`, required fields, and the default date. The draft is any `Draft` value.
- Also not modelled: App.jsx and Navigation.jsx (layout, tabs), ExpenseChart.jsx (chart configuration built from the same totals), the animations, and src/firebase.js (static configuration not used by the store).

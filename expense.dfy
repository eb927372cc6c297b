/** The expense record and the calendar arithmetic that the aggregation layer relies on. */
module Expenses {

  import opened StableSort

  datatype Option<T> = None | Some(value: T)

  /** A calendar date. The source builds JavaScript Date values from ISO day strings ("2024-01-15"). */
  datatype Date = Date(year: int, month: int, day: int)

  /** A calendar month; it stands for the 'MMM yyyy' label of a monthly bucket. */
  datatype YearMonth = YearMonth(year: int, month: int)

  /** One expense record as the store keeps it. `createdAt` is a millisecond timestamp that only
      records added through the store carry. */
  datatype Expense = Expense(
    id: string,
    title: string,
    amount: real,
    category: string,
    date: Date,
    description: Option<string>,
    createdAt: Option<int>)

  predicate IsLeapYear(y: int) {
    (y % 4 == 0 && y % 100 != 0) || y % 400 == 0
  }

  function DaysInMonth(y: int, m: int): (n: int)
    requires 1 <= m <= 12
    ensures 28 <= n <= 31
    ensures n == 29 <==> m == 2 && IsLeapYear(y)
  {
    if m == 2 then (if IsLeapYear(y) then 29 else 28)
    else if m == 4 || m == 6 || m == 9 || m == 11 then 30
    else 31
  }

  predicate ValidMonth(ym: YearMonth) {
    1 <= ym.month <= 12
  }

  predicate ValidDate(d: Date) {
    1 <= d.month <= 12 && 1 <= d.day <= DaysInMonth(d.year, d.month)
  }

  /** Every record carries a real calendar date, as the entry form and the store guarantee. */
  predicate DatesValid(es: seq<Expense>) {
    forall e :: e in es ==> ValidDate(e.date)
  }

  /** `a` lies strictly before `b` in time; on valid dates this is the order of their timestamps. */
  predicate Earlier(a: Date, b: Date) {
    a.year < b.year ||
    (a.year == b.year && (a.month < b.month || (a.month == b.month && a.day < b.day)))
  }

  lemma EarlierIsStrictTotalOrder(a: Date, b: Date, c: Date)
    ensures !Earlier(a, a)
    ensures Earlier(a, b) && Earlier(b, c) ==> Earlier(a, c)
    ensures Earlier(a, b) || a == b || Earlier(b, a)
  {
  }

  function MonthOf(d: Date): YearMonth {
    YearMonth(d.year, d.month)
  }

  /** Months counted from January of year 0: `year * 12 + (month - 1)`. */
  function MonthIndex(ym: YearMonth): int {
    ym.year * 12 + (ym.month - 1)
  }

  /** The calendar month with the given index. */
  function MonthAt(k: int): (ym: YearMonth)
    ensures ValidMonth(ym)
    ensures MonthIndex(ym) == k
  {
    YearMonth(k / 12, k % 12 + 1)
  }

  lemma {:induction false} MonthAtIndex(ym: YearMonth)
    requires ValidMonth(ym)
    ensures MonthAt(MonthIndex(ym)) == ym
  {
    var r := MonthAt(MonthIndex(ym));
    assert r.year * 12 + (r.month - 1) == ym.year * 12 + (ym.month - 1);
  }

  /** The month after `ym` on the calendar, written independently of the index arithmetic. */
  function NextMonth(ym: YearMonth): YearMonth {
    if ym.month == 12 then YearMonth(ym.year + 1, 1) else YearMonth(ym.year, ym.month + 1)
  }

  lemma {:induction false} MonthAtSucc(k: int)
    ensures MonthAt(k + 1) == NextMonth(MonthAt(k))
  {
    var m := MonthAt(k);
    var n := NextMonth(m);
    assert ValidMonth(n) && MonthIndex(n) == k + 1;
    MonthAtIndex(n);
  }

  /** date-fns subMonths, seen at the level of the calendar month. */
  function SubMonths(ym: YearMonth, i: int): (r: YearMonth)
    ensures ValidMonth(r)
    ensures MonthIndex(r) == MonthIndex(ym) - i
  {
    MonthAt(MonthIndex(ym) - i)
  }

  /** date-fns startOfMonth: the first day of the month. */
  function StartOfMonth(ym: YearMonth): (d: Date)
    requires ValidMonth(ym)
    ensures ValidDate(d) && MonthOf(d) == ym
    ensures !ValidDate(Date(ym.year, ym.month, d.day - 1))
  {
    Date(ym.year, ym.month, 1)
  }

  /** date-fns endOfMonth: the last day of the month, leap years included. */
  function EndOfMonth(ym: YearMonth): (d: Date)
    requires ValidMonth(ym)
    ensures ValidDate(d) && MonthOf(d) == ym
    ensures !ValidDate(Date(ym.year, ym.month, d.day + 1))
  {
    Date(ym.year, ym.month, DaysInMonth(ym.year, ym.month))
  }

  /** date-fns isWithinInterval: both ends inclusive. */
  function WithinInterval(d: Date, start: Date, end: Date): (b: bool)
    ensures b ==> !Earlier(end, start)
    ensures (d == start || d == end) && !Earlier(end, start) ==> b
  {
    !Earlier(d, start) && !Earlier(end, d)
  }

  /** For a valid date the inclusive month interval is exactly "the same calendar month";
      in particular the first and the last day of a month fall inside it. */
  lemma WithinMonthIff(d: Date, ym: YearMonth)
    requires ValidDate(d) && ValidMonth(ym)
    ensures WithinInterval(d, StartOfMonth(ym), EndOfMonth(ym)) <==> MonthOf(d) == ym
  {
  }

  lemma MonthBoundaries(ym: YearMonth)
    requires ValidMonth(ym)
    ensures ValidDate(StartOfMonth(ym)) && ValidDate(EndOfMonth(ym))
    ensures WithinInterval(StartOfMonth(ym), StartOfMonth(ym), EndOfMonth(ym))
    ensures WithinInterval(EndOfMonth(ym), StartOfMonth(ym), EndOfMonth(ym))
    ensures !WithinInterval(EndOfMonth(MonthAt(MonthIndex(ym) - 1)), StartOfMonth(ym), EndOfMonth(ym))
    ensures !WithinInterval(StartOfMonth(NextMonth(ym)), StartOfMonth(ym), EndOfMonth(ym))
  {
  }

  /** The comparator `(a, b) => new Date(b.date) - new Date(a.date)`: `a` goes first when its date is
      later; records of the same day tie. */
  function NewerFirst(a: Expense, b: Expense): (r: bool)
    ensures r ==> a.date != b.date && !Earlier(a.date, b.date)
  {
    Earlier(b.date, a.date)
  }

  lemma NewerFirstIsStrictWeakOrder()
    ensures StrictWeakOrder(NewerFirst)
  {
    forall a: Expense, b: Expense, c: Expense
      ensures NewerFirst(a, c) ==> NewerFirst(a, b) || NewerFirst(b, c)
    {
      EarlierIsStrictTotalOrder(c.date, b.date, a.date);
    }
  }
}

/** The budget figures of Dashboard.jsx, all computed from the grand total and a fixed income. */
module Dashboard {

  import opened Expenses
  import opened AnalyticsUtils

  /** The mock monthly income. */
  const MonthlyIncome: real := 5000.0

  /** `monthlyIncome - totalExpenses`. */
  function RemainingBudget(es: seq<Expense>): (r: real)
    ensures r > 0.0 <==> Total(es) < MonthlyIncome
    ensures r + Total(es) == MonthlyIncome
  {
    MonthlyIncome - Total(es)
  }

  /** The savings rate the page shows: calculateSavingsRate with the same income. */
  function DashboardSavingsRate(es: seq<Expense>): (r: real)
    ensures r == RemainingBudget(es) / MonthlyIncome * 100.0
  {
    SavingsRate(MonthlyIncome, es)
  }

  /** The "% of budget used" label: not capped. */
  function BudgetUsed(es: seq<Expense>): (r: real)
    ensures r > 100.0 <==> Total(es) > MonthlyIncome
    ensures r == 100.0 <==> Total(es) == MonthlyIncome
  {
    Total(es) / MonthlyIncome * 100.0
  }

  /** `Math.min((totalExpenses / monthlyIncome) * 100, 100)`: the width of the progress bar. */
  function ProgressWidth(es: seq<Expense>): (w: real)
    ensures w <= 100.0
    ensures w <= BudgetUsed(es)
    ensures w == BudgetUsed(es) || w == 100.0
  {
    var used := BudgetUsed(es);
    if used < 100.0 then used else 100.0
  }

  /** The bar turns red when the expenses exceed the income. */
  function BarIsRed(es: seq<Expense>): (red: bool)
    ensures red <==> RemainingBudget(es) < 0.0
  {
    Total(es) > MonthlyIncome
  }

  datatype BudgetStatus = UnderBudget | OverBudget

  /** `remainingBudget > 0 ? 'Under budget' : 'Over budget'`. */
  function Status(es: seq<Expense>): (s: BudgetStatus)
    ensures s == UnderBudget <==> Total(es) < MonthlyIncome
  {
    if RemainingBudget(es) > 0.0 then UnderBudget else OverBudget
  }

  /** The trend figure on the "Remaining Budget" card. */
  function RemainingTrend(es: seq<Expense>): (r: real)
    ensures r == 5.7 <==> Status(es) == UnderBudget
    ensures r == 5.7 || r == -23.1
  {
    if RemainingBudget(es) > 0.0 then 5.7 else -23.1
  }

  /** The status is "Under budget" exactly when the expenses stay below the income, so spending the
      whole income already reads "Over budget"; the trend card follows the same test. */
  lemma StatusIff(es: seq<Expense>)
    ensures Status(es) == UnderBudget <==> Total(es) < MonthlyIncome
    ensures RemainingTrend(es) == 5.7 <==> Status(es) == UnderBudget
  {
  }

  /** The bar is red exactly when more than 100 % of the budget is used; the width is then capped
      at 100 while the label goes above 100. */
  lemma BarAndLabel(es: seq<Expense>)
    ensures BarIsRed(es) <==> BudgetUsed(es) > 100.0
    ensures BarIsRed(es) ==> ProgressWidth(es) == 100.0 && BudgetUsed(es) > ProgressWidth(es)
    ensures !BarIsRed(es) ==> ProgressWidth(es) == BudgetUsed(es)
  {
  }

  /** At exactly the income: "Over budget", yet the bar is not red and is full. */
  lemma ExactlyAtIncome(es: seq<Expense>)
    requires Total(es) == MonthlyIncome
    ensures Status(es) == OverBudget
    ensures !BarIsRed(es)
    ensures ProgressWidth(es) == 100.0 && BudgetUsed(es) == 100.0
    ensures RemainingBudget(es) == 0.0 && DashboardSavingsRate(es) == 0.0
  {
    SavingsRateCases(MonthlyIncome, es);
  }

  /** The savings rate and the used share of the budget add up to 100, and the savings rate is the
      remaining budget as a percentage of the income. */
  lemma SavingsAndUsedAddUp(es: seq<Expense>)
    ensures DashboardSavingsRate(es) + BudgetUsed(es) == 100.0
    ensures DashboardSavingsRate(es) == RemainingBudget(es) / MonthlyIncome * 100.0
  {
  }

  /** With records of non-negative amounts the bar width is a percentage in [0, 100]. */
  lemma ProgressWidthRange(es: seq<Expense>)
    requires forall e :: e in es ==> e.amount >= 0.0
    ensures 0.0 <= ProgressWidth(es) <= 100.0
  {
    TotalNonNegative(es);
  }
}

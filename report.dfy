/**
 * utils/commands/report.ts: the summary of `ExpenseReporter.generateReport`
 * (the total, the per-category totals and counts in first-seen order, sorted
 * by total, descending), the attachment list of `sendReport`, and the
 * environment checks of the constructor.
 *
 * Costs are whole numbers of cents.  The expense list is the result of the
 * database query and is an input here.
 */
module Report {
  import opened Wrappers

  /** An expense with the name of its category; `cost` is in cents. */
  datatype Expense = Expense(description: string, cost: int, categoryName: string)

  /** One entry of `byCategory`. */
  datatype CategorySummary = CategorySummary(category: string, total: int, count: nat)

  /** A value of `categoryMap`. */
  datatype Stats = Stats(total: int, count: nat)

  /** `ReportData`; the range bounds are instants in milliseconds since the epoch. */
  datatype ReportData = ReportData(expenses: seq<Expense>, totalExpenses: int, byCategory: seq<CategorySummary>,
                                   from: int, to: int)

  /* ---------- Specification of the summary ---------- */

  /** The sum of all costs: `expenses.reduce((sum, exp) => sum + exp.cost, 0)`. */
  function SumCosts(es: seq<Expense>): int
  {
    if es == [] then 0 else SumCosts(es[..|es| - 1]) + es[|es| - 1].cost
  }

  /** The number of expenses in category `name`. */
  function Count(es: seq<Expense>, name: string): nat
  {
    if es == [] then 0
    else Count(es[..|es| - 1], name) + (if es[|es| - 1].categoryName == name then 1 else 0)
  }

  /** The sum of the costs of the expenses in category `name`. */
  function TotalOf(es: seq<Expense>, name: string): int
  {
    if es == [] then 0
    else TotalOf(es[..|es| - 1], name) + (if es[|es| - 1].categoryName == name then es[|es| - 1].cost else 0)
  }

  /** The category names in the order of their first occurrence (the insertion order of a `Map`). */
  function FirstSeen(es: seq<Expense>): seq<string>
  {
    if es == [] then []
    else
      var prev := FirstSeen(es[..|es| - 1]);
      if es[|es| - 1].categoryName in prev then prev else prev + [es[|es| - 1].categoryName]
  }

  /** One summary entry per name, with the total and count of that category. */
  function Summarize(names: seq<string>, es: seq<Expense>): (r: seq<CategorySummary>)
    ensures |r| == |names|
    ensures forall j :: 0 <= j < |names| ==>
              r[j] == CategorySummary(names[j], TotalOf(es, names[j]), Count(es, names[j]))
  {
    if names == [] then []
    else [CategorySummary(names[0], TotalOf(es, names[0]), Count(es, names[0]))] + Summarize(names[1..], es)
  }

  /** The entries of `categoryMap`, in insertion order, before sorting. */
  function Summaries(es: seq<Expense>): seq<CategorySummary>
  {
    Summarize(FirstSeen(es), es)
  }

  /* ---------- The stable sort by total, descending ---------- */

  /**
   * Inserts `x` before the first entry whose total is not greater than its
   * own; applied from the last entry to the first, this keeps entries with
   * equal totals in their original order.
   */
  function Insert(x: CategorySummary, s: seq<CategorySummary>): (r: seq<CategorySummary>)
    ensures multiset(r) == multiset{x} + multiset(s)
    ensures |r| == |s| + 1
  {
    if s == [] || x.total >= s[0].total then [x] + s
    else
      assert s == [s[0]] + s[1..];
      [s[0]] + Insert(x, s[1..])
  }

  /** `.sort((a, b) => b.total - a.total)`, which is stable. */
  function SortByTotal(s: seq<CategorySummary>): (r: seq<CategorySummary>)
    ensures multiset(r) == multiset(s)
    ensures |r| == |s|
  {
    if s == [] then []
    else
      assert s == [s[0]] + s[1..];
      Insert(s[0], SortByTotal(s[1..]))
  }

  predicate SortedByTotal(s: seq<CategorySummary>)
  {
    forall i, j :: 0 <= i < j < |s| ==> s[i].total >= s[j].total
  }

  /** The entries whose total is `t`, in order. */
  function WithTotal(s: seq<CategorySummary>, t: int): seq<CategorySummary>
  {
    if s == [] then []
    else (if s[0].total == t then [s[0]] else []) + WithTotal(s[1..], t)
  }

  /* ---------- The report ---------- */

  /**
   * The `expenses.forEach` loop: the names in first-seen order (the key order
   * of `categoryMap`) and, for each, the total and count of its category.
   */
  method GroupByCategory(expenses: seq<Expense>) returns (keys: seq<string>, stats: map<string, Stats>)
    ensures keys == FirstSeen(expenses)
    ensures forall n :: n in stats <==> n in keys
    ensures forall n :: n in stats ==> stats[n] == Stats(TotalOf(expenses, n), Count(expenses, n))
  {
    keys := [];
    stats := map[];
    for i := 0 to |expenses|
      invariant keys == FirstSeen(expenses[..i])
      invariant forall n :: n in stats <==> n in keys
      invariant forall n :: n in stats ==> stats[n] == Stats(TotalOf(expenses[..i], n), Count(expenses[..i], n))
    {
      var exp := expenses[i];
      var current := if exp.categoryName in stats then stats[exp.categoryName] else Stats(0, 0);
      if exp.categoryName !in stats {
        keys := keys + [exp.categoryName];
      }
      stats := stats[exp.categoryName := Stats(current.total + exp.cost, current.count + 1)];
      assert expenses[..i + 1][..i] == expenses[..i];
      if exp.categoryName !in FirstSeen(expenses[..i]) {
        NotSeenIsZero(expenses[..i], exp.categoryName);
      }
    }
    assert expenses[..|expenses|] == expenses;
  }

  /** `Array.from(categoryMap.entries()).map(...)`: one summary per key, in key order. */
  function EntriesOf(keys: seq<string>, stats: map<string, Stats>): (r: seq<CategorySummary>)
    requires forall n :: n in keys ==> n in stats
    ensures |r| == |keys|
    ensures forall j :: 0 <= j < |keys| ==>
              r[j] == CategorySummary(keys[j], stats[keys[j]].total, stats[keys[j]].count)
  {
    if keys == [] then []
    else [CategorySummary(keys[0], stats[keys[0]].total, stats[keys[0]].count)] + EntriesOf(keys[1..], stats)
  }

  /** The summary part of `generateReport`, over the expenses the query returned. */
  method GenerateReport(expenses: seq<Expense>, from: int, to: int) returns (data: ReportData)
    ensures data == ReportData(expenses, SumCosts(expenses), SortByTotal(Summaries(expenses)), from, to)
  {
    var totalExpenses := SumCosts(expenses);
    var keys, stats := GroupByCategory(expenses);
    var entries := EntriesOf(keys, stats);
    EntriesAreSummaries(keys, stats, expenses);
    var byCategory := SortByTotal(entries);
    data := ReportData(expenses, totalExpenses, byCategory, from, to);
  }

  /* ---------- Attachments and configuration ---------- */

  datatype Attachment = Attachment(filename: string, content: string)

  /**
   * The `attachments` array of `sendReport`: one JSON attachment when
   * `includeJson` is set.  `content` is the base64 text of the serialised
   * report, computed by the host.
   */
  method BuildAttachments(includeJson: bool, content: string) returns (attachments: seq<Attachment>)
    ensures !includeJson ==> attachments == []
    ensures includeJson ==> attachments == [Attachment("expense-report.json", content)]
  {
    attachments := [];
    if includeJson {
      attachments := attachments + [Attachment("expense-report.json", content)];
    }
  }

  /** The configuration an `ExpenseReporter` keeps. */
  datatype Reporter = Reporter(resendApiKey: string, recipientEmail: string)

  /** JavaScript truthiness of an environment variable: set and not empty. */
  predicate Present(v: Option<string>)
  {
    v.Some? && v.value != ""
  }

  /**
   * `new ExpenseReporter()`, with the environment variables as parameters:
   * the API key is checked first, then the recipient.
   */
  function NewReporter(resendApiKey: Option<string>, recipientEmail: Option<string>): (r: Result<Reporter, string>)
    ensures r.Success? <==> Present(resendApiKey) && Present(recipientEmail)
    ensures !Present(resendApiKey) ==> r == Failure("RESEND_API_KEY environment variable is not set")
    ensures Present(resendApiKey) && !Present(recipientEmail) ==>
              r == Failure("RECIPIENT_EMAIL environment variable is not set")
    ensures r.Success? ==> r.value == Reporter(resendApiKey.value, recipientEmail.value)
  {
    if !Present(resendApiKey) then Failure("RESEND_API_KEY environment variable is not set")
    else if !Present(recipientEmail) then Failure("RECIPIENT_EMAIL environment variable is not set")
    else Success(Reporter(resendApiKey.value, recipientEmail.value))
  }

  /* ---------- Lemmas used by the loop ---------- */

  lemma {:induction false} NotSeenIsZero(es: seq<Expense>, name: string)
    requires name !in FirstSeen(es)
    ensures Count(es, name) == 0 && TotalOf(es, name) == 0
  {
    if es != [] {
      NotSeenIsZero(es[..|es| - 1], name);
    }
  }

  lemma {:induction false} EntriesAreSummaries(keys: seq<string>, stats: map<string, Stats>, es: seq<Expense>)
    requires forall n :: n in keys ==> n in stats
    requires forall n :: n in stats ==> stats[n] == Stats(TotalOf(es, n), Count(es, n))
    ensures EntriesOf(keys, stats) == Summarize(keys, es)
  {
    if keys != [] {
      EntriesAreSummaries(keys[1..], stats, es);
    }
  }
}

/** Properties of the report summary of utils/commands/report.ts. */
module ReportLemmas {
  import opened Report

  function SumCounts(s: seq<CategorySummary>): int
  {
    if s == [] then 0 else s[0].count + SumCounts(s[1..])
  }

  function SumTotals(s: seq<CategorySummary>): int
  {
    if s == [] then 0 else s[0].total + SumTotals(s[1..])
  }

  predicate DistinctNames(names: seq<string>)
  {
    forall i, j :: 0 <= i < j < |names| ==> names[i] != names[j]
  }

  predicate DistinctCategories(s: seq<CategorySummary>)
  {
    forall i, j :: 0 <= i < j < |s| ==> s[i].category != s[j].category
  }

  /** The `reduce` over two lists one after the other is the sum of the two reductions. */
  lemma {:induction false} SumCostsAppend(a: seq<Expense>, b: seq<Expense>)
    ensures SumCosts(a + b) == SumCosts(a) + SumCosts(b)
    decreases |b|
  {
    if b == [] {
      assert a + b == a;
    } else {
      var front := b[..|b| - 1];
      assert (a + b)[..|a + b| - 1] == a + front;
      SumCostsAppend(a, front);
    }
  }

  /* ---------- The sort ---------- */

  lemma InsertMembers(x: CategorySummary, s: seq<CategorySummary>)
    ensures forall c :: c in Insert(x, s) <==> c == x || c in s
  {
    forall c ensures c in Insert(x, s) <==> c == x || c in s {
      assert c in Insert(x, s) <==> c in multiset(Insert(x, s));
    }
  }

  /** The tail of a sorted list is sorted, and no entry in it exceeds the head. */
  lemma SortedTail(s: seq<CategorySummary>)
    requires s != [] && SortedByTotal(s)
    ensures SortedByTotal(s[1..])
    ensures forall c :: c in s[1..] ==> c.total <= s[0].total
  {
    forall i, j | 0 <= i < j < |s[1..]| ensures s[1..][i].total >= s[1..][j].total {
      assert s[1..][i] == s[i + 1] && s[1..][j] == s[j + 1];
    }
    forall c | c in s[1..] ensures c.total <= s[0].total {
      var i :| 0 <= i < |s[1..]| && s[1..][i] == c;
      assert c == s[i + 1];
    }
  }

  lemma {:induction false} InsertSorted(x: CategorySummary, s: seq<CategorySummary>)
    requires SortedByTotal(s)
    ensures SortedByTotal(Insert(x, s))
  {
    if s != [] && x.total < s[0].total {
      SortedTail(s);
      InsertSorted(x, s[1..]);
      var rest := Insert(x, s[1..]);
      InsertMembers(x, s[1..]);
      var r := [s[0]] + rest;
      forall i, j | 0 <= i < j < |r| ensures r[i].total >= r[j].total {
        if i > 0 {
          assert r[i] == rest[i - 1] && r[j] == rest[j - 1];
        } else {
          assert r[j] == rest[j - 1];
        }
      }
    }
  }

  /** `byCategory` is ordered by total, non-increasing. */
  lemma {:induction false} SortIsSorted(s: seq<CategorySummary>)
    ensures SortedByTotal(SortByTotal(s))
  {
    if s != [] {
      SortIsSorted(s[1..]);
      InsertSorted(s[0], SortByTotal(s[1..]));
    }
  }

  lemma {:induction false} InsertWithTotal(x: CategorySummary, s: seq<CategorySummary>, t: int)
    ensures WithTotal(Insert(x, s), t) == (if x.total == t then [x] else []) + WithTotal(s, t)
  {
    if s == [] || x.total >= s[0].total {
      assert ([x] + s)[1..] == s;
    } else {
      var rest := Insert(x, s[1..]);
      InsertWithTotal(x, s[1..], t);
      assert ([s[0]] + rest)[1..] == rest;
      assert WithTotal(s, t) == (if s[0].total == t then [s[0]] else []) + WithTotal(s[1..], t);
    }
  }

  /**
   * The sort is stable: for every total, the entries with that total appear
   * in the same order before and after sorting.
   */
  lemma {:induction false} SortIsStable(s: seq<CategorySummary>, t: int)
    ensures WithTotal(SortByTotal(s), t) == WithTotal(s, t)
  {
    if s != [] {
      SortIsStable(s[1..], t);
      InsertWithTotal(s[0], SortByTotal(s[1..]), t);
    }
  }

  lemma {:induction false} InsertSums(x: CategorySummary, s: seq<CategorySummary>)
    ensures SumCounts(Insert(x, s)) == x.count + SumCounts(s)
    ensures SumTotals(Insert(x, s)) == x.total + SumTotals(s)
  {
    if s == [] || x.total >= s[0].total {
      assert ([x] + s)[1..] == s;
    } else {
      InsertSums(x, s[1..]);
      assert ([s[0]] + Insert(x, s[1..]))[1..] == Insert(x, s[1..]);
    }
  }

  /** Sorting keeps the sum of the counts and the sum of the totals. */
  lemma {:induction false} SortKeepsSums(s: seq<CategorySummary>)
    ensures SumCounts(SortByTotal(s)) == SumCounts(s)
    ensures SumTotals(SortByTotal(s)) == SumTotals(s)
  {
    if s != [] {
      SortKeepsSums(s[1..]);
      InsertSums(s[0], SortByTotal(s[1..]));
    }
  }

  lemma {:induction false} InsertDistinct(x: CategorySummary, s: seq<CategorySummary>)
    requires DistinctCategories(s)
    requires forall c :: c in s ==> c.category != x.category
    ensures DistinctCategories(Insert(x, s))
  {
    var r := Insert(x, s);
    if s == [] || x.total >= s[0].total {
      forall i, j | 0 <= i < j < |r| ensures r[i].category != r[j].category {
        assert r[j] == s[j - 1];
        if i > 0 { assert r[i] == s[i - 1]; }
      }
    } else {
      var rest := Insert(x, s[1..]);
      InsertDistinct(x, s[1..]);
      InsertMembers(x, s[1..]);
      assert forall c :: c in s[1..] ==> c.category != s[0].category;
      forall i, j | 0 <= i < j < |r| ensures r[i].category != r[j].category {
        assert r[j] == rest[j - 1];
        if i > 0 { assert r[i] == rest[i - 1]; }
      }
    }
  }

  /** Sorting keeps the category names distinct. */
  lemma {:induction false} SortKeepsDistinct(s: seq<CategorySummary>)
    requires DistinctCategories(s)
    ensures DistinctCategories(SortByTotal(s))
  {
    if s != [] {
      assert DistinctCategories(s[1..]) by {
        forall i, j | 0 <= i < j < |s[1..]| ensures s[1..][i].category != s[1..][j].category {
          assert s[1..][i] == s[i + 1] && s[1..][j] == s[j + 1];
        }
      }
      SortKeepsDistinct(s[1..]);
      forall c | c in SortByTotal(s[1..]) ensures c.category != s[0].category {
        assert c in multiset(SortByTotal(s[1..]));
        var k :| 0 <= k < |s[1..]| && s[1..][k] == c;
        assert s[k + 1] == c;
      }
      InsertDistinct(s[0], SortByTotal(s[1..]));
    }
  }

  /* ---------- Grouping ---------- */

  /** The first-seen names are distinct. */
  lemma {:induction false} FirstSeenDistinct(es: seq<Expense>)
    ensures DistinctNames(FirstSeen(es))
  {
    if es != [] {
      FirstSeenDistinct(es[..|es| - 1]);
    }
  }

  /** The first-seen names are exactly the category names that occur. */
  lemma {:induction false} FirstSeenNames(es: seq<Expense>)
    ensures forall n :: n in FirstSeen(es) <==> n in (set e | e in es :: e.categoryName)
  {
    if es != [] {
      var p := es[..|es| - 1];
      FirstSeenNames(p);
      assert es == p + [es[|es| - 1]];
      assert (set e | e in es :: e.categoryName) == (set e | e in p :: e.categoryName) + {es[|es| - 1].categoryName};
    }
  }

  /** Every first-seen name has at least one expense. */
  lemma {:induction false} SeenHasCount(es: seq<Expense>, n: string)
    requires n in FirstSeen(es)
    ensures Count(es, n) >= 1
  {
    var p := es[..|es| - 1];
    if n in FirstSeen(p) {
      SeenHasCount(p, n);
    }
  }

  /** Adding one expense at the end adds one to the count of its category only. */
  lemma {:induction false} SumCountsDropLast(names: seq<string>, es: seq<Expense>)
    requires es != [] && DistinctNames(names)
    ensures SumCounts(Summarize(names, es)) ==
              SumCounts(Summarize(names, es[..|es| - 1])) + (if es[|es| - 1].categoryName in names then 1 else 0)
    ensures SumTotals(Summarize(names, es)) ==
              SumTotals(Summarize(names, es[..|es| - 1])) + (if es[|es| - 1].categoryName in names then es[|es| - 1].cost else 0)
  {
    if names != [] {
      assert DistinctNames(names[1..]) by {
        forall i, j | 0 <= i < j < |names[1..]| ensures names[1..][i] != names[1..][j] {
          assert names[1..][i] == names[i + 1] && names[1..][j] == names[j + 1];
        }
      }
      SumCountsDropLast(names[1..], es);
      assert names == [names[0]] + names[1..];
      if names[0] == es[|es| - 1].categoryName {
        forall k | 0 <= k < |names[1..]| ensures names[1..][k] != names[0] {
          assert names[1..][k] == names[k + 1];
        }
      }
    }
  }

  lemma {:induction false} SummarizeAppend(names: seq<string>, n: string, es: seq<Expense>)
    ensures SumCounts(Summarize(names + [n], es)) == SumCounts(Summarize(names, es)) + Count(es, n)
    ensures SumTotals(Summarize(names + [n], es)) == SumTotals(Summarize(names, es)) + TotalOf(es, n)
  {
    if names == [] {
      assert names + [n] == [n];
      assert Summarize([n], es)[1..] == [];
    } else {
      assert (names + [n])[1..] == names[1..] + [n];
      SummarizeAppend(names[1..], n, es);
    }
  }

  /** The counts of the summaries add up to the number of expenses, and their totals to the sum of all costs. */
  lemma {:induction false} SummariesAddUp(es: seq<Expense>)
    ensures SumCounts(Summaries(es)) == |es|
    ensures SumTotals(Summaries(es)) == SumCosts(es)
  {
    if es != [] {
      var p := es[..|es| - 1];
      var n := es[|es| - 1].categoryName;
      SummariesAddUp(p);
      FirstSeenDistinct(p);
      SumCountsDropLast(FirstSeen(p), es);
      if n !in FirstSeen(p) {
        SummarizeAppend(FirstSeen(p), n, es);
        NotSeenIsZero(p, n);
      }
    }
  }

  /* ---------- The summary ---------- */

  /** The entries of `byCategory` are the summaries, and each holds the count and total of its category. */
  lemma ByCategoryEntries(es: seq<Expense>)
    ensures forall c :: c in SortByTotal(Summaries(es)) ==>
              && c in Summaries(es)
              && c.count == Count(es, c.category) && c.count >= 1
              && c.total == TotalOf(es, c.category)
  {
    var s := Summaries(es);
    var b := SortByTotal(s);
    var names := FirstSeen(es);
    forall c | c in b ensures c in s && c.count == Count(es, c.category) && c.count >= 1 && c.total == TotalOf(es, c.category) {
      assert c in multiset(b);
      var j :| 0 <= j < |s| && s[j] == c;
      SeenHasCount(es, names[j]);
    }
  }

  lemma SortMembers(s: seq<CategorySummary>)
    ensures forall c :: c in SortByTotal(s) <==> c in s
  {
    forall c ensures c in SortByTotal(s) <==> c in s {
      assert c in SortByTotal(s) <==> c in multiset(SortByTotal(s));
    }
  }

  /** The summaries name exactly the categories that occur, each once. */
  lemma SummaryCategories(es: seq<Expense>)
    ensures (set c | c in Summaries(es) :: c.category) == (set e | e in es :: e.categoryName)
    ensures DistinctCategories(Summaries(es))
  {
    var s := Summaries(es);
    var names := FirstSeen(es);
    var inSummaries := set c | c in s :: c.category;
    var occurring := set e | e in es :: e.categoryName;
    FirstSeenNames(es);
    FirstSeenDistinct(es);
    forall n ensures n in inSummaries <==> n in occurring {
      if n in names {
        var j :| 0 <= j < |names| && names[j] == n;
        assert s[j] in s;
      }
      if n in inSummaries {
        var c :| c in s && c.category == n;
        var j :| 0 <= j < |s| && s[j] == c;
      }
    }
    assert inSummaries == occurring;
  }

  /** `byCategory` names each category that occurs exactly once. */
  lemma ByCategoryNames(es: seq<Expense>)
    ensures (set c | c in SortByTotal(Summaries(es)) :: c.category) == (set e | e in es :: e.categoryName)
    ensures DistinctCategories(SortByTotal(Summaries(es)))
  {
    var s := Summaries(es);
    SortMembers(s);
    SummaryCategories(es);
    SortKeepsDistinct(s);
    assert (set c | c in SortByTotal(s) :: c.category) == (set c | c in s :: c.category);
  }

  /**
   * `byCategory` has one entry per distinct category name that occurs, each
   * with the count (at least 1) and the total of its category; it is ordered
   * by total, non-increasing, with ties in first-seen order; its counts add up
   * to the number of expenses and its totals to `totalExpenses`.
   */
  lemma ByCategorySummary(es: seq<Expense>)
    ensures var b := SortByTotal(Summaries(es));
            && (set c | c in b :: c.category) == (set e | e in es :: e.categoryName)
            && DistinctCategories(b)
            && (forall c :: c in b ==> c.count == Count(es, c.category) && c.count >= 1 &&
                                       c.total == TotalOf(es, c.category))
            && SortedByTotal(b)
            && (forall t :: WithTotal(b, t) == WithTotal(Summaries(es), t))
            && SumCounts(b) == |es|
            && SumTotals(b) == SumCosts(es)
  {
    var s := Summaries(es);
    ByCategoryNames(es);
    ByCategoryEntries(es);
    SortIsSorted(s);
    forall t ensures WithTotal(SortByTotal(s), t) == WithTotal(s, t) {
      SortIsStable(s, t);
    }
    SortKeepsSums(s);
    SummariesAddUp(es);
  }
}

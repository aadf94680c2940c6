/**
 * The reporter (`filterPRs` and the body of `main` in main.go): keep the
 * pull requests merged from 2022-08-01T00:00:00Z to 2022-09-01T00:00:00Z,
 * both ends included, sort them by merge instant in place,
 * and produce one CSV row per pull request.  A row is kept as numbers; the
 * date and duration rendering of the printed line is not modelled.
 */
module Reporting {
  import opened Records
  import Paging

  /* ---------------------------------------------------------------------- */
  /* The month filter                                                        */
  /* ---------------------------------------------------------------------- */

  /**
   * The test `filterPRs` applies: not before 2022-08-01T00:00:00Z and not
   * after 2022-09-01T00:00:00Z.  Both comparisons are strict, so both ends
   * are kept.
   */
  predicate InWindow(t: Instant)
  {
    !(t < WindowStart) && !(t > WindowEnd)
  }

  /** The pull requests of `prs` merged in the window, in their order in `prs`. */
  function Filtered(prs: seq<PullRequest>): seq<PullRequest>
  {
    if prs == [] then []
    else
      var last := prs[|prs| - 1];
      Filtered(prs[..|prs| - 1]) + (if InWindow(last.mergedAt) then [last] else [])
  }

  /** The window is the closed interval from 2022-08-01 to 2022-09-01: a merge at exactly 2022-09-01T00:00:00Z is kept. */
  lemma InWindowBounds(t: Instant)
    ensures InWindow(t) <==> 1659312000 <= t <= 1661990400
  {
  }

  /** Filtering distributes over concatenation, so the relative order of the kept pull requests is their input order. */
  lemma {:induction false} FilteredAppend(a: seq<PullRequest>, b: seq<PullRequest>)
    ensures Filtered(a + b) == Filtered(a) + Filtered(b)
    decreases |b|
  {
    if b == [] {
      assert a + b == a;
    } else {
      var init := b[..|b| - 1];
      assert (a + b)[..|a + b| - 1] == a + init;
      FilteredAppend(a, init);
    }
  }

  /** The filter keeps exactly the pull requests merged in the window, each as often as the input holds it. */
  lemma {:induction false} FilteredCounts(prs: seq<PullRequest>)
    ensures forall p :: multiset(Filtered(prs))[p] == if InWindow(p.mergedAt) then multiset(prs)[p] else 0
  {
    if prs != [] {
      var init := prs[..|prs| - 1];
      FilteredCounts(init);
      assert prs == init + [prs[|prs| - 1]];
    }
  }

  /** A pull request is in the filtered list exactly when it is in the input and was merged in the window. */
  lemma FilteredMembers(prs: seq<PullRequest>, p: PullRequest)
    ensures p in Filtered(prs) <==> p in prs && InWindow(p.mergedAt)
  {
  }

  /** Filtering never adds or duplicates a pull request. */
  lemma FilteredSubMultiset(prs: seq<PullRequest>)
    ensures multiset(Filtered(prs)) <= multiset(prs)
    ensures |Filtered(prs)| <= |prs|
  {
    FilteredCounts(prs);
    assert |multiset(Filtered(prs))| <= |multiset(prs)|;
  }

  /** Filtering twice is filtering once. */
  lemma {:induction false} FilteredIdempotent(prs: seq<PullRequest>)
    ensures Filtered(Filtered(prs)) == Filtered(prs)
  {
    if prs != [] {
      var init := prs[..|prs| - 1];
      var last := prs[|prs| - 1];
      FilteredIdempotent(init);
      FilteredAppend(Filtered(init), if InWindow(last.mergedAt) then [last] else []);
      assert Filtered([last]) == if InWindow(last.mergedAt) then [last] else [] by {
        assert [last][..0] == [];
      }
    }
  }

  /**
   * Merges at 2022-07-31T23:59:59Z, 2022-08-01T00:00:00Z,
   * 2022-08-31T23:59:59Z and 2022-09-01T00:00:00Z: all but the first are kept.
   */
  lemma FilterBoundaries(a: PullRequest, b: PullRequest, c: PullRequest, d: PullRequest)
    requires a.mergedAt == 1659311999 && b.mergedAt == 1659312000
    requires c.mergedAt == 1661990399 && d.mergedAt == 1661990400
    ensures Filtered([a, b, c, d]) == [b, c, d]
  {
    assert [a][..0] == [];
    assert Filtered([a]) == [];
    assert [a, b][..1] == [a];
    assert Filtered([a, b]) == [b];
    assert [a, b, c][..2] == [a, b];
    assert Filtered([a, b, c]) == [b, c];
    assert [a, b, c, d][..3] == [a, b, c];
  }

  /** `filterPRs`: append every pull request merged in the window to an initially empty list. */
  method FilterPrs(prs: seq<PullRequest>) returns (filtered: seq<PullRequest>)
    ensures filtered == Filtered(prs)
    ensures forall i :: 0 <= i < |filtered| ==> WindowStart <= filtered[i].mergedAt <= WindowEnd
    ensures forall p :: p in prs && InWindow(p.mergedAt) ==> p in filtered
    ensures multiset(filtered) <= multiset(prs)
  {
    filtered := [];
    for i := 0 to |prs|
      invariant filtered == Filtered(prs[..i])
    {
      var pr := prs[i];
      assert prs[..i + 1][..i] == prs[..i];
      if pr.mergedAt < WindowStart || pr.mergedAt > WindowEnd {
        continue;
      }
      filtered := filtered + [pr];
    }
    assert prs[..|prs|] == prs;
    FilteredSubMultiset(prs);
    forall p | p in prs && InWindow(p.mergedAt)
      ensures p in filtered
    {
      FilteredMembers(prs, p);
    }
    forall i | 0 <= i < |filtered|
      ensures WindowStart <= filtered[i].mergedAt <= WindowEnd
    {
      FilteredMembers(prs, filtered[i]);
    }
  }

  /* ---------------------------------------------------------------------- */
  /* Sorting by merge instant                                                */
  /* ---------------------------------------------------------------------- */

  /** Non-decreasing by merge instant. */
  ghost predicate SortedByMergedAt(s: seq<PullRequest>)
  {
    forall k, l :: 0 <= k < l < |s| ==> s[k].mergedAt <= s[l].mergedAt
  }

  /**
   * The in-place `sort.Slice` with the comparator "merged before": afterwards
   * the array is a permutation of what it held and non-decreasing by merge
   * instant.  The order among equal merge instants is not specified.
   */
  method SortByMergedAt(a: array<PullRequest>)
    modifies a
    ensures SortedByMergedAt(a[..])
    ensures multiset(a[..]) == multiset(old(a[..]))
  {
    var i := 0;
    while i < a.Length
      invariant 0 <= i <= a.Length
      invariant forall k, l :: 0 <= k < l < i ==> a[k].mergedAt <= a[l].mergedAt
      invariant multiset(a[..]) == multiset(old(a[..]))
    {
      var j := i;
      while j > 0 && a[j].mergedAt < a[j - 1].mergedAt
        invariant 0 <= j <= i
        invariant forall k, l :: 0 <= k < l <= i && l != j ==> a[k].mergedAt <= a[l].mergedAt
        invariant multiset(a[..]) == multiset(old(a[..]))
      {
        Swap(a, j - 1, j);
        j := j - 1;
      }
      i := i + 1;
    }
  }

  /** Exchanges two neighbouring elements of `a`. */
  method Swap(a: array<PullRequest>, i: nat, j: nat)
    requires i < j < a.Length
    modifies a
    ensures a[i] == old(a[j]) && a[j] == old(a[i])
    ensures forall k :: 0 <= k < a.Length && k != i && k != j ==> a[k] == old(a[k])
    ensures multiset(a[..]) == multiset(old(a[..]))
  {
    a[i], a[j] := a[j], a[i];
  }

  /** The merge instants of `s`, in order. */
  function MergedAts(s: seq<PullRequest>): (r: seq<Instant>)
    ensures |r| == |s| && forall i :: 0 <= i < |s| ==> r[i] == s[i].mergedAt
  {
    seq(|s|, i requires 0 <= i < |s| => s[i].mergedAt)
  }

  /** Equal multisets of pull requests have equal multisets of merge instants. */
  lemma {:induction false} MergedAtsMultiset(a: seq<PullRequest>, b: seq<PullRequest>)
    requires multiset(a) == multiset(b)
    ensures multiset(MergedAts(a)) == multiset(MergedAts(b))
    decreases |a|
  {
    if a != [] {
      var x := a[0];
      var j := IndexOf(b, x);
      var a', b' := a[..0] + a[1..], b[..j] + b[j + 1..];
      assert multiset(a') == multiset(b') by {
        WithoutAt(a, 0);
        WithoutAt(b, j);
      }
      MergedAtsMultiset(a', b');
      assert multiset(MergedAts(a)) == multiset(MergedAts(a')) + multiset{x.mergedAt} by {
        MergedAtsWithoutAt(a, 0);
      }
      assert multiset(MergedAts(b)) == multiset(MergedAts(b')) + multiset{x.mergedAt} by {
        MergedAtsWithoutAt(b, j);
      }
    }
  }

  /** A position holding `x`, for an `x` that occurs in `s`. */
  lemma IndexOf<T>(s: seq<T>, x: T) returns (j: nat)
    requires x in multiset(s)
    ensures j < |s| && s[j] == x
  {
    assert x in s;
    j :| 0 <= j < |s| && s[j] == x;
  }

  /** Removing the element at `j` removes one occurrence of it from the multiset. */
  lemma WithoutAt<T>(s: seq<T>, j: nat)
    requires j < |s|
    ensures multiset(s[..j] + s[j + 1..]) == multiset(s) - multiset{s[j]}
  {
    assert s == s[..j] + [s[j]] + s[j + 1..];
    assert multiset(s) == multiset(s[..j]) + multiset{s[j]} + multiset(s[j + 1..]);
  }

  /** Removing the element at `j` removes one occurrence of its merge instant. */
  lemma MergedAtsWithoutAt(s: seq<PullRequest>, j: nat)
    requires j < |s|
    ensures multiset(MergedAts(s)) == multiset(MergedAts(s[..j] + s[j + 1..])) + multiset{s[j].mergedAt}
  {
    var m := MergedAts(s);
    assert MergedAts(s[..j] + s[j + 1..]) == m[..j] + m[j + 1..];
    WithoutAt(m, j);
  }

  /** Non-decreasing. */
  ghost predicate Ascending(s: seq<Instant>)
  {
    forall k, l :: 0 <= k < l < |s| ==> s[k] <= s[l]
  }

  /** The first element of a non-decreasing sequence is at most any of its elements. */
  lemma FirstIsLeast(s: seq<Instant>, v: Instant)
    requires Ascending(s)
    requires v in multiset(s)
    ensures s[0] <= v
  {
  }

  /** Two non-empty non-decreasing sequences with the same elements start alike. */
  lemma SameFirst(a: seq<Instant>, b: seq<Instant>)
    requires Ascending(a) && Ascending(b) && a != [] && b != []
    requires multiset(a) == multiset(b)
    ensures a[0] == b[0]
  {
    assert a[0] in multiset(a) && b[0] in multiset(b);
    FirstIsLeast(a, b[0]);
    FirstIsLeast(b, a[0]);
  }

  /** Removing equal first elements keeps equal multisets equal. */
  lemma SameRest<T>(a: seq<T>, b: seq<T>)
    requires a != [] && b != [] && a[0] == b[0]
    requires multiset(a) == multiset(b)
    ensures multiset(a[1..]) == multiset(b[1..])
  {
    assert a == [a[0]] + a[1..] && b == [b[0]] + b[1..];
    assert multiset(a) == multiset{a[0]} + multiset(a[1..]);
    assert multiset(b) == multiset{b[0]} + multiset(b[1..]);
    assert multiset(a[1..]) == multiset(a) - multiset{a[0]};
    assert multiset(b[1..]) == multiset(b) - multiset{b[0]};
  }

  /** Two non-decreasing sequences with the same elements are equal. */
  lemma {:induction false} SortedSameMultisetEqual(a: seq<Instant>, b: seq<Instant>)
    requires Ascending(a) && Ascending(b)
    requires multiset(a) == multiset(b)
    ensures a == b
    decreases |a|
  {
    assert |b| == |a| by { assert |multiset(a)| == |multiset(b)|; }
    if a != [] {
      SameFirst(a, b);
      SameRest(a, b);
      assert Ascending(a[1..]) && Ascending(b[1..]);
      SortedSameMultisetEqual(a[1..], b[1..]);
      assert a == [a[0]] + a[1..] && b == [b[0]] + b[1..];
    }
  }

  /**
   * Any two sorted orders of the same pull requests list the same merge
   * instants position by position: the unspecified order among equal merge
   * instants never changes the merge-date column of the report.
   */
  lemma SortedOrdersAgree(a: seq<PullRequest>, b: seq<PullRequest>)
    requires multiset(a) == multiset(b)
    requires SortedByMergedAt(a) && SortedByMergedAt(b)
    ensures |a| == |b|
    ensures forall i :: 0 <= i < |a| ==> a[i].mergedAt == b[i].mergedAt
  {
    assert |a| == |b| by { assert |multiset(a)| == |multiset(b)|; }
    MergedAtsMultiset(a, b);
    assert Ascending(MergedAts(a)) && Ascending(MergedAts(b));
    SortedSameMultisetEqual(MergedAts(a), MergedAts(b));
  }

  /* ---------------------------------------------------------------------- */
  /* Report rows                                                             */
  /* ---------------------------------------------------------------------- */

  /**
   * One CSV line: pull-request number, number of distinct approvers,
   * creation instant, merge instant and cycle time in seconds.
   */
  datatype Row = Row(id: int, reviewerCount: nat, createdAt: Instant, mergedAt: Instant, cycleTime: int)

  /**
   * `rows` are the CSV lines of `prs`, one per pull request in the same
   * order: number, size of the reviewer set, both instants, and a cycle
   * time that added to the creation instant gives the merge instant.
   */
  ghost predicate RowsFor(rows: seq<Row>, prs: seq<PullRequest>)
  {
    && |rows| == |prs|
    && forall i :: 0 <= i < |prs| ==>
         && rows[i].id == prs[i].id
         && rows[i].reviewerCount == |prs[i].reviewers.Keys|
         && rows[i].createdAt == prs[i].createdAt
         && rows[i].mergedAt == prs[i].mergedAt
         && rows[i].createdAt + rows[i].cycleTime == rows[i].mergedAt
  }

  /** The loop of `main` over the sorted pull requests: one row each, in order. */
  method RenderRows(prs: seq<PullRequest>) returns (rows: seq<Row>)
    ensures RowsFor(rows, prs)
  {
    rows := [];
    for i := 0 to |prs|
      invariant |rows| == i
      invariant forall k :: 0 <= k < i ==>
                  && rows[k].id == prs[k].id
                  && rows[k].reviewerCount == |prs[k].reviewers.Keys|
                  && rows[k].createdAt == prs[k].createdAt
                  && rows[k].mergedAt == prs[k].mergedAt
                  && rows[k].createdAt + rows[k].cycleTime == rows[k].mergedAt
    {
      var pr := prs[i];
      var cycleTime := pr.mergedAt - pr.createdAt;
      rows := rows + [Row(pr.id, |pr.reviewers|, pr.createdAt, pr.mergedAt, cycleTime)];
    }
  }

  /** Created 2022-08-01T00:00:00Z and merged 2022-08-03T12:30:00Z: the cycle time is 60 hours 30 minutes. */
  lemma CycleTimeExample(rows: seq<Row>, pr: PullRequest)
    requires RowsFor(rows, [pr])
    requires pr.createdAt == 1659312000 && pr.mergedAt == 1659529800
    ensures |rows| == 1 && rows[0].cycleTime == 60 * 3600 + 30 * 60
  {
  }

  /**
   * The report of `main` for the pull requests the paginator returned:
   * filter to the month, sort by merge instant, one row per pull request.
   * `ordered` is the sorted list the rows are printed from.
   */
  method Report(allPrs: seq<PullRequest>) returns (ordered: seq<PullRequest>, rows: seq<Row>)
    ensures multiset(ordered) == multiset(Filtered(allPrs))
    ensures multiset(ordered) <= multiset(allPrs)
    ensures SortedByMergedAt(ordered)
    ensures forall i :: 0 <= i < |ordered| ==> WindowStart <= ordered[i].mergedAt <= WindowEnd
    ensures RowsFor(rows, ordered)
    ensures forall i :: 0 <= i < |rows| ==> rows[i].cycleTime == ordered[i].mergedAt - ordered[i].createdAt
    ensures forall k, l :: 0 <= k < l < |rows| ==> rows[k].mergedAt <= rows[l].mergedAt
  {
    var filtered := FilterPrs(allPrs);
    var a := new PullRequest[|filtered|](i requires 0 <= i < |filtered| => filtered[i]);
    assert a[..] == filtered;
    SortByMergedAt(a);
    ordered := a[..];
    FilteredSubMultiset(allPrs);
    forall i | 0 <= i < |ordered|
      ensures WindowStart <= ordered[i].mergedAt <= WindowEnd
    {
      assert ordered[i] in multiset(filtered);
      FilteredMembers(allPrs, ordered[i]);
    }
    rows := RenderRows(ordered);
  }

  /* ---------------------------------------------------------------------- */
  /* The whole run                                                           */
  /* ---------------------------------------------------------------------- */

  /** What a run produces: the rows printed after the header, or nothing when a request failed or the budget ran out. */
  datatype Outcome = Printed(rows: seq<Row>) | Aborted | Unfinished

  /**
   * `main` after the token check: walk from no cursor and an empty
   * accumulator, then report.  `ordered` is the filtered and sorted list
   * the rows are printed from; it is empty when nothing is printed.
   */
  method Run(source: map<string, Page>, fuel: nat) returns (outcome: Outcome, ordered: seq<PullRequest>)
    ensures var w := Paging.WalkFrom(source, [], [], fuel);
      && (outcome.Printed? <==> w.status == Paging.Stopped)
      && (outcome.Aborted? <==> w.status == Paging.FetchFailed)
    ensures fuel > 0 ==> |Paging.WalkFrom(source, [], [], fuel).requests| > 0
    ensures outcome.Printed? ==>
              var w := Paging.WalkFrom(source, [], [], fuel);
              && multiset(ordered) == multiset(Filtered(w.prs))
              && SortedByMergedAt(ordered)
              && RowsFor(outcome.rows, ordered)
              && |outcome.rows| <= |w.prs|
              && (forall i :: 0 <= i < |outcome.rows| ==> WindowStart <= outcome.rows[i].mergedAt <= WindowEnd)
    ensures !outcome.Printed? ==> ordered == []
  {
    var w := Paging.GetPrs(source, [], [], fuel);
    if fuel > 0 {
      Paging.FirstRequest(source, [], [], fuel);
    }
    ordered := [];
    match w.status {
      case Stopped =>
        var rows;
        ordered, rows := Report(w.prs);
        assert |ordered| <= |w.prs| by {
          FilteredSubMultiset(w.prs);
          assert |multiset(ordered)| == |multiset(Filtered(w.prs))|;
        }
        outcome := Printed(rows);
      case FetchFailed =>
        outcome := Aborted;
      case OutOfFuel =>
        outcome := Unfinished;
    }
  }
}

/**
 * The paginator (`getPrs` in main.go): walk the merged pull requests of the
 * repository backwards, one page per request, turning every edge into a
 * `PullRequest` and appending it to an accumulator, until more than one
 * pull request has been accumulated and the last one was merged before
 * 2022-08-01T00:00:00Z.
 *
 * The remote GraphQL endpoint is a finite map from the `before` argument
 * written into the query text ("null" or a double-quoted cursor) to the page
 * it answers with; an argument the map does not hold stands for a request
 * that panics (transport, read or decode error), which aborts the run.  The
 * status code is never checked, so an error answer with a JSON body is a
 * page with no edges and an empty start cursor.  `fuel` bounds the number
 * of requests.
 */
module Paging {
  import opened Records

  datatype Option<T> = None | Some(value: T)

  /* ---------------------------------------------------------------------- */
  /* Reviewers of one pull request                                           */
  /* ---------------------------------------------------------------------- */

  /** The logins of the authors of the reviews whose state is exactly "APPROVED". */
  function ApprovedLogins(reviews: seq<Review>): set<string>
  {
    if reviews == [] then {}
    else
      var last := reviews[|reviews| - 1];
      ApprovedLogins(reviews[..|reviews| - 1]) + (if last.state == Approved then {last.authorLogin} else {})
  }

  /** A login is an approver exactly when some review by it has state "APPROVED". */
  lemma {:induction false} ApprovedLoginsMembers(reviews: seq<Review>, login: string)
    ensures login in ApprovedLogins(reviews) <==>
            exists i :: 0 <= i < |reviews| && reviews[i].state == Approved && reviews[i].authorLogin == login
  {
    if reviews != [] {
      var init := reviews[..|reviews| - 1];
      ApprovedLoginsMembers(init, login);
      if login in ApprovedLogins(init) {
        var i :| 0 <= i < |init| && init[i].state == Approved && init[i].authorLogin == login;
        assert reviews[i] == init[i];
      }
      if exists i :: 0 <= i < |reviews| && reviews[i].state == Approved && reviews[i].authorLogin == login {
        var i :| 0 <= i < |reviews| && reviews[i].state == Approved && reviews[i].authorLogin == login;
        if i < |init| {
          assert init[i] == reviews[i];
        }
      }
    }
  }

  /** There are never more distinct approvers than reviews. */
  lemma {:induction false} ApprovedLoginsBound(reviews: seq<Review>)
    ensures |ApprovedLogins(reviews)| <= |reviews|
  {
    if reviews != [] {
      ApprovedLoginsBound(reviews[..|reviews| - 1]);
    }
  }

  /** A further approval by someone who already approved adds no reviewer. */
  lemma ApprovingTwiceCountsOnce(reviews: seq<Review>, login: string)
    requires login in ApprovedLogins(reviews)
    ensures ApprovedLogins(reviews + [Review(Approved, login)]) == ApprovedLogins(reviews)
  {
  }

  /** The pull request the paginator builds from one edge node. */
  function ToPullRequest(node: PrNode): PullRequest
  {
    PullRequest(node.number, map login | login in ApprovedLogins(node.reviews) :: true,
                node.mergedAt, node.createdAt)
  }

  /**
   * Builds the pull request of one edge: copies number and timestamps and
   * inserts, review by review, the login of every approving author into
   * the reviewer map.
   */
  method BuildPullRequest(node: PrNode) returns (p: PullRequest)
    ensures p == ToPullRequest(node)
    ensures p.id == node.number && p.mergedAt == node.mergedAt && p.createdAt == node.createdAt
    ensures p.reviewers.Keys == ApprovedLogins(node.reviews)
    ensures forall login :: login in p.reviewers ==> p.reviewers[login]
  {
    var reviewers: map<string, bool> := map[];
    for i := 0 to |node.reviews|
      invariant reviewers.Keys == ApprovedLogins(node.reviews[..i])
      invariant forall login :: login in reviewers ==> reviewers[login]
    {
      var r := node.reviews[i];
      assert node.reviews[..i + 1][..i] == node.reviews[..i];
      if r.state == Approved {
        reviewers := reviewers[r.authorLogin := true];
      }
    }
    assert node.reviews[..|node.reviews|] == node.reviews;
    p := PullRequest(node.number, reviewers, node.mergedAt, node.createdAt);
  }

  /** The reviewer count printed for a pull request is at most its number of reviews. */
  lemma ReviewerCountBound(node: PrNode)
    ensures |ToPullRequest(node).reviewers| == |ApprovedLogins(node.reviews)| <= |node.reviews|
  {
    var m := ToPullRequest(node).reviewers;
    assert m.Keys == ApprovedLogins(node.reviews);
    ApprovedLoginsBound(node.reviews);
  }

  /* ---------------------------------------------------------------------- */
  /* One page                                                                */
  /* ---------------------------------------------------------------------- */

  /** The pull requests of a page's edges, one per edge, in edge order. */
  function Converted(edges: seq<PrNode>): (r: seq<PullRequest>)
    ensures |r| == |edges|
    ensures forall i :: 0 <= i < |edges| ==> r[i] == ToPullRequest(edges[i])
  {
    if edges == [] then []
    else Converted(edges[..|edges| - 1]) + [ToPullRequest(edges[|edges| - 1])]
  }

  /** Appends the pull request of every edge of `page`, in order, to `prs`. */
  method ProcessPage(prs: seq<PullRequest>, page: Page) returns (r: seq<PullRequest>)
    ensures r == prs + Converted(page.edges)
    ensures |r| == |prs| + |page.edges| && r[..|prs|] == prs
    ensures forall i :: 0 <= i < |page.edges| ==>
              r[|prs| + i].id == page.edges[i].number &&
              r[|prs| + i].reviewers.Keys == ApprovedLogins(page.edges[i].reviews)
  {
    r := prs;
    for i := 0 to |page.edges|
      invariant r == prs + Converted(page.edges[..i])
    {
      var p := BuildPullRequest(page.edges[i]);
      assert page.edges[..i + 1][..i] == page.edges[..i];
      r := r + [p];
    }
    assert page.edges[..|page.edges|] == page.edges;
  }

  /* ---------------------------------------------------------------------- */
  /* The guard and the cursor argument                                       */
  /* ---------------------------------------------------------------------- */

  /**
   * The guard at the top of `getPrs`: more than one pull request has been
   * accumulated and the last one was merged strictly before the month.
   */
  predicate GuardFires(prs: seq<PullRequest>)
  {
    |prs| > 1 && prs[|prs| - 1].mergedAt < WindowStart
  }

  /** The guard never fires on an accumulator of zero or one pull requests, whatever their dates. */
  lemma GuardNeedsTwo(prs: seq<PullRequest>)
    requires |prs| <= 1
    ensures !GuardFires(prs)
  {
  }

  /** The `before` argument written into the query: `null` for no cursor, else the cursor in double quotes. */
  function EncodeCursor(before: string): (arg: string)
    ensures arg != []
    ensures before == [] ==> arg == "null"
    ensures before != [] ==> |arg| == |before| + 2 && arg[0] == '"' && arg[|arg| - 1] == '"'
  {
    if before == [] then "null" else "\"" + before + "\""
  }

  /** Recovers the cursor from a `before` argument, if it is one EncodeCursor can produce. */
  function DecodeCursor(arg: string): Option<string>
  {
    if arg == "null" then Some([])
    else if |arg| >= 3 && arg[0] == '"' && arg[|arg| - 1] == '"' then Some(arg[1..|arg| - 1])
    else None
  }

  /** Every cursor is recovered from its argument, so distinct cursors give distinct queries. */
  lemma CursorRoundTrip(before: string)
    ensures DecodeCursor(EncodeCursor(before)) == Some(before)
  {
  }

  /** Encoding is injective. */
  lemma EncodeCursorInjective(a: string, b: string)
    requires EncodeCursor(a) == EncodeCursor(b)
    ensures a == b
  {
    CursorRoundTrip(a);
    CursorRoundTrip(b);
  }

  /* ---------------------------------------------------------------------- */
  /* Sequence facts, proved apart from the model's definitions               */
  /* ---------------------------------------------------------------------- */

  lemma AppendAssoc<T>(a: seq<T>, b: seq<T>, c: seq<T>)
    ensures (a + b) + c == a + (b + c)
  {
  }

  lemma AppendNothing<T>(a: seq<T>)
    ensures a + [] == a && [] + a == a
  {
  }

  lemma Uncons<T>(x: T, s: seq<T>)
    ensures ([x] + s)[0] == x && ([x] + s)[1..] == s
  {
  }

  lemma TakeUncons<T>(s: seq<T>, k: nat)
    requires 0 < k <= |s|
    ensures s[..k] == [s[0]] + s[1..][..k - 1]
  {
  }

  /* ---------------------------------------------------------------------- */
  /* The walk                                                                */
  /* ---------------------------------------------------------------------- */

  /** How a walk ended: the guard fired, a request failed, or the request budget ran out. */
  datatype Status = Stopped | FetchFailed | OutOfFuel

  /** The end of a walk: its status, the accumulated pull requests, and the `before` arguments requested, in order. */
  datatype Walk = Walk(status: Status, prs: seq<PullRequest>, requests: seq<string>)

  /**
   * The recursion of `getPrs(before, prs)`: check the guard, request the
   * page before `before`, append its pull requests and continue from the
   * page's start cursor.
   */
  function WalkFrom(source: map<string, Page>, before: string, prs: seq<PullRequest>, fuel: nat): (w: Walk)
    ensures prs <= w.prs
    ensures w.status == Stopped <==> GuardFires(w.prs)
    ensures w.status == OutOfFuel ==> |w.requests| == fuel
    ensures |w.requests| <= fuel
    decreases fuel
  {
    if GuardFires(prs) then Walk(Stopped, prs, [])
    else if fuel == 0 then Walk(OutOfFuel, prs, [])
    else
      var arg := EncodeCursor(before);
      if arg !in source then Walk(FetchFailed, prs, [arg])
      else
        var page := source[arg];
        var rest := WalkFrom(source, page.startCursor, prs + Converted(page.edges), fuel - 1);
        Walk(rest.status, rest.prs, [arg] + rest.requests)
  }

  /** The pull requests of the page answering `arg`; none when the request failed. */
  function Answered(source: map<string, Page>, arg: string): seq<PullRequest>
  {
    if arg in source then Converted(source[arg].edges) else []
  }

  /** The pull requests of the pages answering `requests`, page after page; a failed request adds none. */
  function Fetched(source: map<string, Page>, requests: seq<string>): seq<PullRequest>
  {
    if requests == [] then []
    else Answered(source, requests[0]) + Fetched(source, requests[1..])
  }

  /** The pages fetched by a first request and then by the rest. */
  lemma FetchedFirst(source: map<string, Page>, arg: string, rest: seq<string>)
    ensures Fetched(source, [arg] + rest) ==
            Answered(source, arg) + Fetched(source, rest)
  {
    Uncons(arg, rest);
  }

  /** When the guard holds on entry, the accumulator comes back unchanged and nothing is requested. */
  lemma GuardReturnsAccumulator(source: map<string, Page>, before: string, prs: seq<PullRequest>, fuel: nat)
    requires GuardFires(prs)
    ensures WalkFrom(source, before, prs, fuel) == Walk(Stopped, prs, [])
  {
  }

  /**
   * The walk's result is the accumulator it started from followed by the
   * pull requests of every page it requested, in request order.
   */
  lemma {:induction false} WalkAccumulates(source: map<string, Page>, before: string, prs: seq<PullRequest>, fuel: nat)
    ensures WalkFrom(source, before, prs, fuel).prs == prs + Fetched(source, WalkFrom(source, before, prs, fuel).requests)
    decreases fuel
  {
    if !GuardFires(prs) && fuel > 0 {
      var arg := EncodeCursor(before);
      if arg in source {
        var page := source[arg];
        var next := prs + Converted(page.edges);
        WalkAccumulates(source, page.startCursor, next, fuel - 1);
        var rest := WalkFrom(source, page.startCursor, next, fuel - 1);
        AccumulatesFirst(source, prs, arg, rest.requests, rest.prs);
      } else {
        AccumulatesFirst(source, prs, arg, [], prs);
      }
    }
  }

  /** Appending the pages of a first request and then of the rest is appending the pages of all of them. */
  lemma AccumulatesFirst(source: map<string, Page>, prs: seq<PullRequest>, arg: string, rest: seq<string>, result: seq<PullRequest>)
    requires result == prs + Answered(source, arg) + Fetched(source, rest)
    ensures result == prs + Fetched(source, [arg] + rest)
  {
    FetchedFirst(source, arg, rest);
    AppendAssoc(prs, Answered(source, arg), Fetched(source, rest));
  }

  /**
   * The requests form a chain: the first asks for the page before `before`,
   * each later one for the page before the start cursor of the page that
   * answered the previous one; only the last request may have failed.
   */
  lemma {:induction false} WalkRequestChain(source: map<string, Page>, before: string, prs: seq<PullRequest>, fuel: nat)
    ensures var w := WalkFrom(source, before, prs, fuel);
      && (|w.requests| > 0 ==> w.requests[0] == EncodeCursor(before))
      && (forall k :: 0 <= k < |w.requests| - 1 ==>
            w.requests[k] in source && w.requests[k + 1] == EncodeCursor(source[w.requests[k]].startCursor))
      && (w.status == FetchFailed <==> |w.requests| > 0 && w.requests[|w.requests| - 1] !in source)
    decreases fuel
  {
    var w := WalkFrom(source, before, prs, fuel);
    if !GuardFires(prs) && fuel > 0 {
      var arg := EncodeCursor(before);
      if arg in source {
        var page := source[arg];
        var next := prs + Converted(page.edges);
        WalkRequestChain(source, page.startCursor, next, fuel - 1);
        var rest := WalkFrom(source, page.startCursor, next, fuel - 1);
        assert w.requests == [arg] + rest.requests;
        forall k | 0 <= k < |w.requests| - 1
          ensures w.requests[k] in source && w.requests[k + 1] == EncodeCursor(source[w.requests[k]].startCursor)
        {
          if k > 0 {
            assert w.requests[k] == rest.requests[k - 1] && w.requests[k + 1] == rest.requests[k];
          }
        }
      }
    }
  }

  /**
   * Before each of `requests`, the guard was false of `prs` followed by the
   * pull requests of the pages answering the requests before it.
   */
  ghost predicate GuardFalseAlong(source: map<string, Page>, prs: seq<PullRequest>, requests: seq<string>)
    decreases |requests|
  {
    requests != [] ==>
      !GuardFires(prs) && GuardFalseAlong(source, prs + Answered(source, requests[0]), requests[1..])
  }

  /** The walk issues a request only while the guard is false. */
  lemma {:induction false} WalkGuardFalseAlong(source: map<string, Page>, before: string, prs: seq<PullRequest>, fuel: nat)
    ensures GuardFalseAlong(source, prs, WalkFrom(source, before, prs, fuel).requests)
    decreases fuel
  {
    if !GuardFires(prs) && fuel > 0 {
      var arg := EncodeCursor(before);
      if arg in source {
        var page := source[arg];
        var next := prs + Converted(page.edges);
        WalkGuardFalseAlong(source, page.startCursor, next, fuel - 1);
        Uncons(arg, WalkFrom(source, page.startCursor, next, fuel - 1).requests);
      } else {
        Uncons(arg, []);
      }
    }
  }

  /** Along such requests, the guard is false before the `k`-th one. */
  lemma {:induction false} GuardFalseAt(source: map<string, Page>, prs: seq<PullRequest>, requests: seq<string>, k: nat)
    requires GuardFalseAlong(source, prs, requests) && k < |requests|
    ensures !GuardFires(prs + Fetched(source, requests[..k]))
    decreases k
  {
    if k == 0 {
      assert requests[..0] == [];
      AppendNothing(prs);
    } else {
      var arg := requests[0];
      var next := prs + Answered(source, arg);
      GuardFalseAt(source, next, requests[1..], k - 1);
      TakeUncons(requests, k);
      FetchedFirst(source, arg, requests[1..][..k - 1]);
      AppendAssoc(prs, Answered(source, arg), Fetched(source, requests[1..][..k - 1]));
    }
  }

  /**
   * The walk stops at the first accumulator on which the guard holds: before
   * each request it issues, the guard was false of the accumulator built
   * from the pages answering the requests before it.
   */
  lemma GuardFalseBeforeEachRequest(source: map<string, Page>, before: string, prs: seq<PullRequest>, fuel: nat)
    ensures var w := WalkFrom(source, before, prs, fuel);
      forall k :: 0 <= k < |w.requests| ==> !GuardFires(prs + Fetched(source, w.requests[..k]))
  {
    var w := WalkFrom(source, before, prs, fuel);
    WalkGuardFalseAlong(source, before, prs, fuel);
    forall k | 0 <= k < |w.requests|
      ensures !GuardFires(prs + Fetched(source, w.requests[..k]))
    {
      GuardFalseAt(source, prs, w.requests, k);
    }
  }

  /**
   * Unless the guard already holds, the walk asks for the page before
   * `before` first; in particular a walk from zero or one pull requests
   * always issues that request.
   */
  lemma FirstRequest(source: map<string, Page>, before: string, prs: seq<PullRequest>, fuel: nat)
    requires !GuardFires(prs) && fuel > 0
    ensures var w := WalkFrom(source, before, prs, fuel);
      |w.requests| > 0 && w.requests[0] == EncodeCursor(before)
  {
  }

  /**
   * When the page answering the first request leaves the guard holding,
   * the walk stops right after it: one request, and the result is the
   * accumulator plus that page.
   */
  lemma {:induction false} StopsAfterPage(source: map<string, Page>, before: string, prs: seq<PullRequest>, fuel: nat)
    requires !GuardFires(prs) && fuel > 0
    requires EncodeCursor(before) in source
    requires GuardFires(prs + Converted(source[EncodeCursor(before)].edges))
    ensures WalkFrom(source, before, prs, fuel) ==
            Walk(Stopped, prs + Converted(source[EncodeCursor(before)].edges), [EncodeCursor(before)])
  {
  }

  /** `whole` is the walk that issued `requests` and then continued as `rest`. */
  ghost predicate Resumes(whole: Walk, requests: seq<string>, rest: Walk)
  {
    whole == Walk(rest.status, rest.prs, requests + rest.requests)
  }

  /**
   * One step of the walk from a state it resumes at: it ends there on the
   * guard, on the budget or on a failed request, or it continues from the
   * start cursor of the page that answered.
   */
  lemma ResumesStep(whole: Walk, requests: seq<string>, source: map<string, Page>, cursor: string, acc: seq<PullRequest>, left: nat)
    requires Resumes(whole, requests, WalkFrom(source, cursor, acc, left))
    ensures GuardFires(acc) ==> whole == Walk(Stopped, acc, requests)
    ensures !GuardFires(acc) && left == 0 ==> whole == Walk(OutOfFuel, acc, requests)
    ensures !GuardFires(acc) && left > 0 && EncodeCursor(cursor) !in source ==>
              whole == Walk(FetchFailed, acc, requests + [EncodeCursor(cursor)])
    ensures !GuardFires(acc) && left > 0 && EncodeCursor(cursor) in source ==>
              var page := source[EncodeCursor(cursor)];
              Resumes(whole, requests + [EncodeCursor(cursor)],
                      WalkFrom(source, page.startCursor, acc + Converted(page.edges), left - 1))
  {
    AppendNothing(requests);
    if !GuardFires(acc) && left > 0 && EncodeCursor(cursor) in source {
      var arg := EncodeCursor(cursor);
      var page := source[arg];
      AppendAssoc(requests, [arg], WalkFrom(source, page.startCursor, acc + Converted(page.edges), left - 1).requests);
    }
  }

  /**
   * `getPrs(before, prs)` as a loop over a mutable accumulator and cursor
   * instead of recursion.
   */
  method GetPrs(source: map<string, Page>, before: string, prs: seq<PullRequest>, fuel: nat) returns (w: Walk)
    ensures w == WalkFrom(source, before, prs, fuel)
    ensures prs <= w.prs
    ensures GuardFires(prs) ==> w.prs == prs && w.requests == []
    ensures w.status == Stopped ==> |w.prs| > 1 && w.prs[|w.prs| - 1].mergedAt < WindowStart
  {
    ghost var whole := WalkFrom(source, before, prs, fuel);
    var acc := prs;
    var cursor := before;
    var requests: seq<string> := [];
    var left := fuel;
    var ended: Option<Status> := None;
    while ended.None?
      invariant ended.None? ==> Resumes(whole, requests, WalkFrom(source, cursor, acc, left))
      invariant ended.Some? ==> whole == Walk(ended.value, acc, requests)
      decreases left, ended.None?
    {
      ResumesStep(whole, requests, source, cursor, acc, left);
      if GuardFires(acc) {
        ended := Some(Stopped);
      } else if left == 0 {
        ended := Some(OutOfFuel);
      } else {
        var arg := EncodeCursor(cursor);
        if arg !in source {
          requests := requests + [arg];
          ended := Some(FetchFailed);
        } else {
          var page := source[arg];
          requests := requests + [arg];
          acc := ProcessPage(acc, page);
          cursor := page.startCursor;
          left := left - 1;
        }
      }
    }
    if GuardFires(prs) {
      GuardReturnsAccumulator(source, before, prs, fuel);
    }
    w := Walk(ended.value, acc, requests);
  }
}

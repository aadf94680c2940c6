# gh_stats: pull-request cycle-time report, modelled in Dafny

gh_stats is a small command-line program. It pages backwards through a
repository's merged pull requests over the GitHub GraphQL API. Before
each request it checks the pull requests collected so far. It stops
once more than one has been collected and the last one was merged
strictly before 2022-08-01T00:00:00Z. It then keeps the pull requests
merged from 2022-08-01T00:00:00Z to 2022-09-01T00:00:00Z, both ends
included. It sorts them by merge instant and prints one CSV line for
each: number, count of distinct approvers, opened date, merged date and
cycle time.

This project models the logic of `main.go` and proves properties of it:

- `records.dfy`, module `Records`: the `PullRequest` record of
  `pull_request.go` and the fields of the GraphQL `Page` of `page.go`
  that the program reads. It also holds the two window instants and the
  `"APPROVED"` state. Instants are Unix seconds: 2022-08-01T00:00:00Z is
  1659312000 and 2022-09-01T00:00:00Z is 1661990400.
- `paging.dfy`, module `Paging`: `getPrs`.
  - Building a pull request from an edge fills the reviewer map in place,
    one approving review at a time.
  - Processing a page appends one pull request per edge.
  - The guard stops the walk once more than one pull request has been
    collected and the last one was merged before 2022-08-01.
  - An empty cursor is sent as `null`; any other cursor is sent in double
    quotes.
  - The recursion is written as a recursive function, `WalkFrom`. It is
    also written as a loop over a mutable accumulator and cursor,
    `GetPrs`, and the two are proved equal.
  - The GraphQL endpoint is a finite map. It maps each `before` argument
    written into the query to the page that the endpoint returns. A
    missing key stands for a request that panics in Go: a transport
    error, a body that cannot be read, or a body that is not JSON
    (main.go:166-191). The run then aborts. The status code is never
    checked. So an error answer with a JSON body, such as a 401 for a
    bad token, decodes to an empty page with an empty start cursor. In
    the model that is a key mapped to `Page("", [])`, not a missing key.
  - `fuel` bounds the number of requests.
- `reporting.dfy`, module `Reporting`: `filterPRs`, the in-place sort, and
  the row loop of `main`. It also holds `Run`, which chains the walk from
  an empty cursor and an empty accumulator with the report.

Two behaviours of the code are worth knowing, and the model keeps both:

- The comment at main.go:72 says the filter keeps August. But both
  comparisons at main.go:74 are strict: a merge "not `Before` Aug 1 and
  not `After` Sep 1" passes. So a pull request merged at exactly
  2022-09-01T00:00:00Z is kept. `InWindowBounds` and `FilterBoundaries`
  state this.
- An empty start cursor is sent again as `null` (main.go:103-104,
  main.go:210). The query orders pull requests by `UPDATED_AT` and asks
  for the last 100 before the cursor (main.go:116). So `null` asks for
  the most recently updated ones, and the walk starts over from there
  with everything collected so far. After such a restart only the guard
  can end the walk, for example when the restarted pages leave a pull
  request merged before 2022-08-01 at the end of the accumulator.
  Otherwise nothing in the code ends it; in the model the request budget
  `fuel` does.

## Model

| member | source | states |
|---|---|---|
| Paging.ApprovedLoginsMembers | main.go:197-204 | a login is a reviewer exactly when some review of the pull request has state exactly "APPROVED" and that login as author |
| Paging.ApprovedLoginsBound | main.go:197-204 | there are never more distinct approvers than reviews |
| Paging.ApprovingTwiceCountsOnce | main.go:199-203 | a second approval by a login that already approved leaves the reviewer set unchanged |
| Paging.BuildPullRequest | main.go:196-204 | the built pull request copies number, merge and creation instants; its reviewer map's keys are exactly the approving logins, and every value is true |
| Paging.ReviewerCountBound | main.go:196-204 | the reviewer count, the size of the reviewer map, equals the number of distinct approvers and is at most the number of reviews |
| Paging.Converted | main.go:195-207 | one pull request per edge, in edge order, each built from its edge |
| Paging.ProcessPage | main.go:195-207 | the accumulator after a page is the old accumulator followed by one pull request per edge in edge order; the prefix is unchanged and the length grows by the number of edges |
| Paging.GuardNeedsTwo | main.go:92 | the guard never fires on an accumulator of zero or one pull requests, whatever their dates |
| Paging.EncodeCursor | main.go:103-108 | the `before` argument is `null` for an empty cursor, else the cursor in double quotes (two characters longer); it is never empty |
| Paging.CursorRoundTrip | main.go:103-108 | the cursor is recovered from its argument: `null` gives the empty cursor, and stripping the quotes gives any other cursor back |
| Paging.EncodeCursorInjective | main.go:103-108 | distinct cursors give distinct `before` arguments |
| Paging.WalkFrom | main.go:85-210 | the recursion of `getPrs`: the input accumulator is a prefix of the result; the walk ends in "stopped" exactly when the guard holds of the result; it never issues more requests than the budget. `GuardFalseBeforeEachRequest` adds that it stops at the first accumulator on which the guard holds |
| Paging.GuardReturnsAccumulator | main.go:92-97 | when the guard holds on entry, the accumulator is returned unchanged and no request is issued |
| Paging.WalkAccumulates | main.go:195-210 | the result is the input accumulator followed by the pull requests of every requested page, in request order |
| Paging.WalkRequestChain | main.go:101-210 | the first request carries the encoded initial cursor; each later request carries the encoded start cursor of the page that answered the one before; the walk aborts exactly when its last request has no answer |
| Paging.FirstRequest | main.go:92-108 | unless the guard already holds, the first request is for the page before the initial cursor |
| Paging.GuardFalseBeforeEachRequest | main.go:92-210 | before every request the walk issues, the guard is false of the starting accumulator followed by the pull requests of the pages that answered the earlier requests; so no request is sent once the pages fetched make the guard hold |
| Paging.StopsAfterPage | main.go:92-210 | when the first page fetched makes the guard hold, the walk stops after that one request and issues none for the next page |
| Paging.GetPrs | main.go:85-210 | the loop over accumulator and cursor computes the same walk as the recursion; with the guard holding on entry it returns the accumulator without requests; when stopped, the last pull request was merged before 2022-08-01 and more than one was collected |
| Reporting.InWindowBounds | main.go:74 | a merge instant passes the filter exactly when it lies in the closed interval 2022-08-01T00:00:00Z .. 2022-09-01T00:00:00Z |
| Reporting.FilteredAppend | main.go:73-80 | filtering distributes over concatenation, so kept pull requests keep their input order |
| Reporting.FilteredCounts | main.go:68-82 | each pull request merged in the window occurs in the result as often as in the input; all others do not occur |
| Reporting.FilteredMembers | main.go:73-80 | a pull request is in the result exactly when it is in the input and merged in the window |
| Reporting.FilteredSubMultiset | main.go:68-82 | filtering never adds or duplicates a pull request |
| Reporting.FilteredIdempotent | main.go:68-82 | filtering an already filtered list changes nothing |
| Reporting.FilterBoundaries | main.go:74 | merges at 2022-07-31T23:59:59Z, 2022-08-01T00:00:00Z, 2022-08-31T23:59:59Z and 2022-09-01T00:00:00Z: all but the first are kept |
| Reporting.FilterPrs | main.go:68-82 | the loop returns the filtered list; every kept pull request was merged in the window, every input pull request merged in the window is kept, and nothing is added |
| Reporting.SortByMergedAt | main.go:42-44 | after the in-place sort, the array is non-decreasing by merge instant and a permutation of what it held |
| Reporting.SortedOrdersAgree | main.go:42-44 | any two sorted orders of the same pull requests have the same merge instant at every position |
| Reporting.RenderRows | main.go:50-64 | one row per pull request, in order; each row carries the number, the size of the reviewer set, the creation and merge instants, and a cycle time that added to the creation instant gives the merge instant |
| Reporting.CycleTimeExample | main.go:59-63 | the row built for a pull request created 2022-08-01T00:00:00Z and merged 2022-08-03T12:30:00Z has a cycle time of 60 h 30 min |
| Reporting.Report | main.go:39-64 | the printed pull requests are a permutation of the filtered list, sorted by merge instant and inside the window; row i carries pull request i's number, reviewer-set size, creation and merge instants, and its cycle time is merge minus creation |
| Reporting.Run | main.go:30-64 | a report is printed exactly when the walk from no cursor and no pull requests stops at the guard, and the run aborts exactly when a request fails; at least one request is issued; when printed, the rows are built one by one from a list that is a permutation of the walk's pull requests filtered to the window and sorted by merge instant |

## Left out

- HTTP: building and sending the request, the `Authorization` header and
  reading the body (main.go:147-182). This is network I/O. The model uses
  a map from the `before` argument to the page returned instead.
- JSON encoding of the query and decoding of the response into `Page`
  (main.go:147, main.go:190). These are library calls. `Page` is a
  datatype that keeps only the fields the program reads.
- The rest of the GraphQL query text (main.go:115-144). It is a fixed
  template; only the `before` argument is modelled.
- The two-second `time.Sleep` before every request (main.go:88). It is a
  rate-limit delay with no effect on the result.
- Flag parsing, the missing-token exit and the `panic` paths
  (main.go:17-27, main.go:150-191). These are process-level plumbing. A
  request that panics is the `FetchFailed` status, and `Run` then prints
  nothing. The HTTP status code is not checked in the source, so an
  error answer with a JSON body is a page like any other.
- CSV text, `Format("2006-01-02")` and the `Duration` rendering
  (main.go:47, main.go:63). These are library formatting. Rows keep
  instants and the cycle time as seconds.
- The reviewer-name concatenation (main.go:54-57). It is never printed, and
  Go's map iteration order is unspecified.
- The algorithm of `sort.Slice`. The model sorts by insertion sort and
  promises only what `sort.Slice` promises: sorted and a permutation. Its
  order among equal merge instants is unspecified. So two runs agree on
  every row's merge instant (`SortedOrdersAgree`), but not necessarily on
  which pull request fills a tie.
- Non-termination: a walk whose cursor never leads to a page that makes
  the guard hold would recurse forever in the source. The model stops it
  after `fuel` requests, with status `OutOfFuel`, and `Run` then prints
  nothing.
- 64-bit overflow of Go's `int` and `time.Duration`: instants and cycle
  times are unbounded integers. For dates of this century they stay far
  inside the 64-bit range.

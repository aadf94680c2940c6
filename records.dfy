/**
 * The record shapes the report works on: the pull request the paginator
 * builds (pull_request.go) and the part of one GraphQL response page that
 * the program reads (page.go).  Timestamps are instants in Unix seconds.
 */
module Records {

  /** An instant, in seconds since 1970-01-01T00:00:00Z. */
  type Instant = int

  /** 2022-08-01T00:00:00Z, the first instant of the reported month. */
  const WindowStart: Instant := 1659312000

  /** 2022-09-01T00:00:00Z, the first instant of the following month. */
  const WindowEnd: Instant := 1661990400

  /** The review state that counts as an approval; matched exactly. */
  const Approved: string := "APPROVED"

  /**
   * A merged pull request.  `reviewers` is the Go map used as a set: its
   * keys are the logins of the approvers, every value is `true`.
   */
  datatype PullRequest = PullRequest(
    id: int,
    reviewers: map<string, bool>,
    mergedAt: Instant,
    createdAt: Instant)

  /** One review of a pull request: its state and its author's login. */
  datatype Review = Review(state: string, authorLogin: string)

  /** The node of one pull-request edge of a page. */
  datatype PrNode = PrNode(
    number: int,
    mergedAt: Instant,
    createdAt: Instant,
    reviews: seq<Review>)

  /** One page of the `pullRequests` connection: its start cursor and its edges, in response order. */
  datatype Page = Page(startCursor: string, edges: seq<PrNode>)
}

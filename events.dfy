/**
 * The webhook event as the core sees it: the payload tree handed to the
 * expression evaluator, and the narrow typed view of the `issue` and
 * `pull_request` records that the reconcilers read.
 */
module Events {
  import opened Wrappers
  import opened Json

  /** The `issue` record: the names of its labels and its `body`, whatever its type. */
  datatype Issue = Issue(labels: seq<string>, body: Json)

  /** The `pull_request` record: labels, body, `html_url` and `head.sha`. */
  datatype PullRequest = PullRequest(labels: seq<string>, body: Json, htmlUrl: string, headSha: string)

  /**
   * `data` is the whole payload; `issue` and `pullRequest` are `None` when the
   * payload's field of that name is `null` or absent.
   */
  datatype Payload = Payload(data: Json, issue: Option<Issue>, pullRequest: Option<PullRequest>)

  /** A predicate string (or whatever value the configuration holds in its place). */
  type Expr = Json

  /**
   * The expression evaluator: compiles an expression and evaluates it against
   * the payload, coercing the value to a boolean. It is a foreign library and
   * is taken as an arbitrary function.
   */
  type Evaluator = (Expr, Payload) -> bool

  /** Errors thrown when the payload lacks a record the core needs. */
  datatype PayloadError =
    | NoIssueOrPullRequest   // neither `issue` nor `pull_request` is present
    | NoPullRequest          // statuses requested without a `pull_request`
    | BodyNotString          // the record's `body` is not a string
}

/**
 * What a serverless handler sees of a request and what it sends back.
 * CORS headers are constant and are not part of the model.
 */
module Http {
  import opened Options
  import opened Store

  /** A parsed JSON request body whose fields are strings. */
  type Fields = map<string, string>

  /**
   * `req.method` (as `verb`), `req.headers.authorization` and `req.body`; the body is
   * `None` when the platform left `req.body` undefined.
   */
  datatype Request = Request(verb: string, authorization: Option<string>, body: Option<Fields>)

  /** JavaScript truthiness of `body[key]`: present and not the empty string. */
  predicate Present(body: Fields, key: string) {
    key in body && body[key] != ""
  }

  /** The JSON document a handler sends, or none for `res.end()`. */
  datatype Body =
    | NoBody
    | Message(text: string)
    | CandidateRow(row: Candidate)
    | CandidateRows(rows: seq<Candidate>)
    | Created(message: string, user: UserSummary)
    | SignedIn(token: string, user: UserSummary)

  datatype Response = Response(status: nat, body: Body)

  /** `res.status(status).json({ message: text })` */
  function Error(status: nat, text: string): Response {
    Response(status, Message(text))
  }

  /** `res.status(200).end()`, the answer to a CORS preflight. */
  const Preflight := Response(200, NoBody)

  const MethodNotAllowed := Error(405, "Method not allowed")

  const InternalError := Error(500, "Internal server error")
}

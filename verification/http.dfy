/**
 * The `Response` objects the server functions return, reduced to what the
 * application reads from them: the status code, the JSON body, and the
 * session cookie a `Set-Cookie` header installs.
 */
module Http {
  import opened Wrappers
  import opened Schemas

  /** The JSON bodies the server functions send. */
  datatype Body =
    | Ok                       // { success: true }
    | OkVotes(votes: VoteData) // { success: true, votes }
    | Error(message: string)   // { success: false, error }

  /** The effect of a `Set-Cookie` header on the session cookie. */
  datatype Cookie =
    | SetSession(data: SessionData) // createSessionCookie
    | ClearSession                  // clearSessionCookie: empty value, max-age 0

  datatype Response = Response(status: int, body: Body, setCookie: Option<Cookie>)

  function Reply(body: Body, setCookie: Option<Cookie>): Response {
    Response(200, body, setCookie)
  }

  /**
   * The session the next request presents once the browser has applied a
   * response: a written cookie parses back to its data, a cleared one to no
   * session, and without a `Set-Cookie` header the session stays as it was.
   */
  function SessionAfter(prior: Session, r: Response): Session {
    match r.setCookie
    case None => prior
    case Some(SetSession(d)) => Some(d)
    case Some(ClearSession) => None
  }
}

/**
 * The session transitions of the identity gate: `selectIdentity`,
 * `verifyCodename` (with its `CodenameSchema` validator) and `logout`.
 * A session moves between none, an identity without verification, and a
 * verified identity; each transition is a response whose `Set-Cookie`
 * header, once applied, is the next session.
 */
module Auth {
  import opened Wrappers
  import opened Schemas
  import opened Http
  import opened Text

  /** A provisioned codename: the server refuses to start with an empty one. */
  type Codename = s: string | |s| > 0 witness "x"

  /** The secret codename of each participant. */
  datatype Codenames = Codenames(reco: Codename, beco: Codename, peco: Codename) {
    function Of(u: Username): Codename {
      match u
      case Reco => reco
      case Beco => beco
      case Peco => peco
    }
  }

  /**
   * `selectIdentity`: the chosen username, with the verification flag and
   * timestamp carried over from the existing session (none gives unverified).
   */
  function SelectIdentity(existing: Session, username: Username): (r: Response)
    ensures r.status == 200 && r.body == Ok && r.setCookie.Some? && r.setCookie.value.SetSession?
  {
    var data := SessionData(
      Some(username),
      if existing.Some? then existing.value.isVerified else false,
      if existing.Some? then existing.value.verifiedAt else None);
    Reply(Ok, Some(SetSession(data)))
  }

  const NoIdentitySelected: Response := Response(400, Error("No identity selected"), None)
  const InvalidCodename: Response := Response(400, Error("Invalid codename"), None)

  /** The comparison of the stored codename with what the user typed. */
  predicate CodenameMatches(stored: string, typed: string) {
    Lower(stored) == Lower(Trim(typed))
  }

  /**
   * `verifyCodename`: the validator rejects an empty input; without a
   * selected identity the answer is 400 "No identity selected"; a codename
   * that does not match is 400 "Invalid codename"; a match writes the same
   * session, now verified at `stamp` (the moment of verification).
   */
  function VerifyCodename(session: Session, typed: string, codenames: Codenames, stamp: string): (r: Result<Response, Fault>)
    ensures r.Failure? <==> |typed| == 0
    ensures r.Success? && r.value.status != 200 ==> r.value.setCookie.None?
  {
    if |typed| == 0 then Failure(InvalidInput("Codename is required"))
    else if session.None? || session.value.username.None? then Success(NoIdentitySelected)
    else if !CodenameMatches(codenames.Of(session.value.username.value), typed) then Success(InvalidCodename)
    else Success(Reply(Ok, Some(SetSession(session.value.(isVerified := true, verifiedAt := Some(stamp))))))
  }

  /** `logout`: the session cookie is cleared. */
  function Logout(): (r: Response)
    ensures r.status == 200 && r.setCookie == Some(ClearSession)
  {
    Reply(Ok, Some(ClearSession))
  }

  /** The session the browser holds after a `verifyCodename` call (unchanged when it threw). */
  function SessionAfterVerify(session: Session, typed: string, codenames: Codenames, stamp: string): Session {
    match VerifyCodename(session, typed, codenames, stamp)
    case Success(resp) => SessionAfter(session, resp)
    case Failure(_) => session
  }

  // ---- selectIdentity ----

  /** The new session names the chosen participant and keeps the old verification fields. */
  lemma SelectIdentityCarriesVerification(existing: Session, u: Username)
    ensures var s := SessionAfter(existing, SelectIdentity(existing, u));
            && s.Some?
            && s.value.username == Some(u)
            && s.value.isVerified == (existing.Some? && existing.value.isVerified)
            && s.value.verifiedAt == (if existing.Some? then existing.value.verifiedAt else None)
  {
  }

  /** From no session, selecting an identity gives an unverified session with no timestamp. */
  lemma SelectIdentityFromNothing(u: Username)
    ensures SessionAfter(None, SelectIdentity(None, u)) == Some(SessionData(Some(u), false, None))
  {
  }

  /**
   * Verification is not bound to the username: a session verified for one
   * participant that selects another is verified for the other.
   */
  lemma VerificationSurvivesIdentitySwitch(stamp: string, u: Username, w: Username)
    ensures SessionAfter(Some(SessionData(Some(u), true, Some(stamp))), SelectIdentity(Some(SessionData(Some(u), true, Some(stamp))), w))
            == Some(SessionData(Some(w), true, Some(stamp)))
  {
  }

  // ---- verifyCodename ----

  /** Without a selected identity a non-empty codename gets 400 "No identity selected" and no cookie. */
  lemma VerifyWithoutIdentity(session: Session, typed: string, codenames: Codenames, stamp: string)
    requires session.None? || session.value.username.None?
    requires |typed| > 0
    ensures VerifyCodename(session, typed, codenames, stamp) == Success(NoIdentitySelected)
    ensures SessionAfterVerify(session, typed, codenames, stamp) == session
  {
  }

  /** A wrong codename gets 400 "Invalid codename" and the session stays as it was. */
  lemma VerifyWrongCodename(session: Session, typed: string, codenames: Codenames, stamp: string)
    requires session.Some? && session.value.username.Some?
    requires |typed| > 0
    requires !CodenameMatches(codenames.Of(session.value.username.value), typed)
    ensures VerifyCodename(session, typed, codenames, stamp) == Success(InvalidCodename)
    ensures SessionAfterVerify(session, typed, codenames, stamp) == session
  {
  }

  /** The right codename verifies the same participant, with a timestamp. */
  lemma VerifyRightCodename(session: Session, typed: string, codenames: Codenames, stamp: string)
    requires session.Some? && session.value.username.Some?
    requires |typed| > 0
    requires CodenameMatches(codenames.Of(session.value.username.value), typed)
    ensures VerifyCodename(session, typed, codenames, stamp).Success?
    ensures VerifyCodename(session, typed, codenames, stamp).value.status == 200
    ensures SessionAfterVerify(session, typed, codenames, stamp)
            == Some(SessionData(session.value.username, true, Some(stamp)))
  {
  }

  /**
   * A verification that the call itself grants was earned: the session
   * afterwards is verified, was not before, and then the typed codename
   * matched the participant's own.
   */
  lemma VerificationRequiresCodename(session: Session, typed: string, codenames: Codenames, stamp: string)
    requires session.None? || !session.value.isVerified
    requires var s := SessionAfterVerify(session, typed, codenames, stamp); s.Some? && s.value.isVerified
    ensures session.Some? && session.value.username.Some?
    ensures CodenameMatches(codenames.Of(session.value.username.value), typed)
  {
  }

  /** Typing the codename in capitals, or padded with white space, changes nothing. */
  lemma CodenameIgnoresCaseAndPadding(session: Session, before: string, typed: string, after: string,
                                      codenames: Codenames, stamp: string)
    requires AllSpace(before) && AllSpace(after)
    requires |typed| > 0
    ensures VerifyCodename(session, before + Upper(typed) + after, codenames, stamp)
            == VerifyCodename(session, typed, codenames, stamp)
  {
    TrimIgnoresPadding(before, Upper(typed), after);
    TrimOfUpper(typed);
    LowerForgetsCase(Trim(typed));
  }

  /**
   * A codename of white space alone passes the validator but never matches,
   * since it trims to the empty string and every stored codename is non-empty.
   */
  lemma BlankCodenameNeverVerifies(session: Session, typed: string, codenames: Codenames, stamp: string)
    requires |typed| > 0 && AllSpace(typed)
    requires session.Some? && session.value.username.Some?
    ensures VerifyCodename(session, typed, codenames, stamp) == Success(InvalidCodename)
  {
    AllSpaceTrimsToEmpty(typed);
    assert |Lower(codenames.Of(session.value.username.value))| > 0;
  }

  // ---- logout ----

  /** Logging out yields no session, whatever the session was. */
  lemma LogoutClears(prior: Session)
    ensures SessionAfter(prior, Logout()) == None
  {
  }

  // ---- the reachable sessions ----

  /**
   * The sessions these transitions produce: none, or an identity whose
   * verification flag and timestamp are set together.
   */
  predicate WellFormed(s: Session) {
    s.None? || (s.value.username.Some? && (s.value.isVerified <==> s.value.verifiedAt.Some?))
  }

  lemma SelectIdentityPreservesWellFormed(existing: Session, u: Username)
    requires WellFormed(existing)
    ensures WellFormed(SessionAfter(existing, SelectIdentity(existing, u)))
  {
  }

  lemma VerifyPreservesWellFormed(session: Session, typed: string, codenames: Codenames, stamp: string)
    requires WellFormed(session)
    ensures WellFormed(SessionAfterVerify(session, typed, codenames, stamp))
  {
  }

  lemma LogoutPreservesWellFormed(prior: Session)
    ensures WellFormed(SessionAfter(prior, Logout()))
  {
  }
}

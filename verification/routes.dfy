/**
 * The route guards: the `beforeLoad` of "/" and "/verify" and the `loader`
 * of "/vote", each a function of the session (and, for "/vote", of the
 * store it reads the votes from).
 */
module Routes {
  import opened Wrappers
  import opened Schemas
  import opened Clock
  import opened RedisStore
  import opened Http
  import opened Votes
  import opened Auth

  /** "/", "/verify" and "/vote". */
  datatype Page = SelectIdentityPage | VerifyPage | VotePage

  /** What a route hands its component when it does not redirect. */
  datatype Context =
    | NoContext                                  // "/" returns nothing
    | SessionContext(session: SessionData)        // "/verify" returns { session }
    | VoteContext(session: SessionData, votes: VoteData) // "/vote" returns { session, votes }

  /** A thrown `redirect`, or the page rendered with its context. */
  datatype Navigation = Redirect(to: Page) | Render(context: Context)

  /** "/": verified sessions go to the vote page, identified ones to verification. */
  function IndexBeforeLoad(session: Session): Navigation {
    if session.Some? && session.value.isVerified then Redirect(VotePage)
    else if session.Some? && session.value.username.Some? then Redirect(VerifyPage)
    else Render(NoContext)
  }

  /** "/verify": without an identity back to "/", verified sessions on to "/vote". */
  function VerifyBeforeLoad(session: Session): Navigation {
    if session.None? || session.value.username.None? then Redirect(SelectIdentityPage)
    else if session.value.isVerified then Redirect(VotePage)
    else Render(SessionContext(session.value))
  }

  /** "/vote": only authenticated sessions load the votes; everyone else goes to "/". */
  function VoteLoader(session: Session, store: Store, now: Instant): Result<Navigation, Fault> {
    if !Authenticated(session) then Success(Redirect(SelectIdentityPage))
    else
      match GetVotes(store, now)
      case Failure(f) => Failure(f)
      case Success(votes) => Success(Render(VoteContext(session.value, votes)))
  }

  /** Visiting a page runs that page's guard. */
  function Visit(p: Page, session: Session, store: Store, now: Instant): Result<Navigation, Fault> {
    match p
    case SelectIdentityPage => Success(IndexBeforeLoad(session))
    case VerifyPage => Success(VerifyBeforeLoad(session))
    case VotePage => VoteLoader(session, store, now)
  }

  // ---- "/" ----

  /** "/" redirects to "/vote" exactly for verified sessions, checked before the username. */
  lemma IndexSendsVerifiedToVote(session: Session)
    ensures IndexBeforeLoad(session) == Redirect(VotePage) <==> session.Some? && session.value.isVerified
  {
  }

  /** "/" redirects to "/verify" exactly for unverified sessions that name a participant. */
  lemma IndexSendsIdentifiedToVerify(session: Session)
    ensures IndexBeforeLoad(session) == Redirect(VerifyPage) <==>
              session.Some? && !session.value.isVerified && session.value.username.Some?
  {
  }

  /** "/" renders identity selection exactly for no session or an unverified one without a username. */
  lemma IndexRendersForAnonymous(session: Session)
    ensures IndexBeforeLoad(session) == Render(NoContext) <==>
              session.None? || (!session.value.isVerified && session.value.username.None?)
  {
  }

  /** Selecting an identity from no session leads "/" to "/verify". */
  lemma SelectIdentityThenIndexGoesToVerify(u: Username)
    ensures IndexBeforeLoad(SessionAfter(None, SelectIdentity(None, u))) == Redirect(VerifyPage)
  {
    SelectIdentityFromNothing(u);
  }

  // ---- "/verify" ----

  /** "/verify" sends every session without a username to "/", verified or not. */
  lemma VerifyPageNeedsIdentity(session: Session)
    ensures VerifyBeforeLoad(session) == Redirect(SelectIdentityPage) <==>
              session.None? || session.value.username.None?
  {
  }

  /** "/verify" sends a verified session with a username on to "/vote". */
  lemma VerifyPageForwardsVerified(session: Session)
    ensures VerifyBeforeLoad(session) == Redirect(VotePage) <==>
              session.Some? && session.value.username.Some? && session.value.isVerified
  {
  }

  /** "/verify" renders with the very session it read exactly when it names someone not yet verified. */
  lemma VerifyPageRendersPending(session: Session)
    ensures VerifyBeforeLoad(session).Render? <==>
              session.Some? && session.value.username.Some? && !session.value.isVerified
    ensures VerifyBeforeLoad(session).Render? ==> VerifyBeforeLoad(session).context == SessionContext(session.value)
  {
  }

  // ---- "/vote" ----

  /** "/vote" redirects to "/" exactly the sessions that may not cast a vote. */
  lemma VotePageAdmitsExactlyVoters(session: Session, store: Store, now: Instant)
    ensures VoteLoader(session, store, now) == Success(Redirect(SelectIdentityPage)) <==> !Authenticated(session)
  {
  }

  /** An admitted session loads today's votes and is passed through unchanged. */
  lemma VotePageLoadsVotes(session: Session, store: Store, now: Instant)
    requires Authenticated(session)
    ensures VoteLoader(session, store, now).Success? <==> GetVotes(store, now).Success?
    ensures VoteLoader(session, store, now).Success? ==>
              VoteLoader(session, store, now).value == Render(VoteContext(session.value, GetVotes(store, now).value))
  {
  }

  /**
   * The vote page admits exactly the sessions whose non-null cast is not
   * answered 401.
   */
  lemma VoteGuardMatchesCastAuthorization(session: Session, store: Store, vote: Vote, now: Instant)
    requires vote != Unset
    ensures VoteLoader(session, store, now) != Success(Redirect(SelectIdentityPage)) <==>
              CastVote(store, session, vote, now).result != Success(NotAuthenticated)
  {
    VotePageAdmitsExactlyVoters(session, store, now);
    if Authenticated(session) {
      var r := CastVote(store, session, vote, now).result;
      assert r.Success? ==> r.value.status == 200;
    }
  }

  // ---- all three together ----

  /** The one page a session belongs on. */
  function Home(session: Session): Page {
    if Authenticated(session) then VotePage
    else if session.Some? && session.value.username.Some? then VerifyPage
    else SelectIdentityPage
  }

  /**
   * For the sessions the server issues, the home page renders (unless
   * reading the votes throws), and every other page redirects to the home
   * either directly or through one more redirect: "/vote" sends an
   * unverified participant to "/", which sends them on to "/verify".
   */
  lemma GuardsAgreeOnHome(session: Session, store: Store, now: Instant, p: Page)
    requires WellFormed(session)
    ensures Visit(Home(session), session, store, now).Success? ==>
              Visit(Home(session), session, store, now).value.Render?
    ensures Home(session) != VotePage ==> Visit(Home(session), session, store, now).Success?
    ensures p != Home(session) ==>
              var q := Visit(p, session, store, now);
              && q.Success? && q.value.Redirect?
              && (q.value.to == Home(session)
                  || Visit(q.value.to, session, store, now) == Success(Redirect(Home(session))))
  {
  }

  /**
   * A forged cookie that is verified but names nobody bounces for ever:
   * "/" sends it to "/vote" and "/vote" sends it back to "/".
   */
  lemma ForgedSessionRedirectLoop(stamp: Option<string>, store: Store, now: Instant)
    ensures var s := Some(SessionData(None, true, stamp));
            && !WellFormed(s)
            && Visit(SelectIdentityPage, s, store, now) == Success(Redirect(VotePage))
            && Visit(VotePage, s, store, now) == Success(Redirect(SelectIdentityPage))
  {
  }
}

/**
 * The per-day vote server functions: `getVotes`, `getCurrentUserVote` and
 * `castVote`.  Every vote lives under the key of the day it was cast and
 * expires at the following Eastern-time midnight.
 */
module Votes {
  import opened Wrappers
  import opened Schemas
  import opened Clock
  import opened RedisStore
  import opened Http

  /** What the session gate demands before a vote is written. */
  predicate Authenticated(session: Session) {
    session.Some? && session.value.isVerified && session.value.username.Some?
  }

  /** The raw value a read of participant `u`'s entry for today returns. */
  function RawToday(store: Store, u: Username, now: Instant): Option<string> {
    Get(store, Key(CurrentDay(now), u), now)
  }

  /** `VoteSchema.parse(await redis.get(...))` for one participant today. */
  function ReadVote(store: Store, u: Username, now: Instant): Result<Vote, Fault> {
    ParseVote(RawToday(store, u, now))
  }

  /**
   * `getVotes`: each participant's vote for today, or null when absent or
   * expired.  The three fields are parsed in the order reco, beco, peco and
   * the first value that is not a vote is thrown.
   */
  function GetVotes(store: Store, now: Instant): (r: Result<VoteData, Fault>)
    ensures r.Success? <==> forall u :: Readable(RawToday(store, u, now))
    ensures r.Success? ==> forall u :: Encode(r.value.Of(u)) == RawToday(store, u, now)
    ensures r.Failure? ==>
              exists u :: && !Readable(RawToday(store, u, now))
                          && r.error == UnexpectedStoredValue(RawToday(store, u, now).value)
                          && forall w :: FieldIndex(w) < FieldIndex(u) ==> Readable(RawToday(store, w, now))
  {
    var reco := ReadVote(store, Reco, now);
    var beco := ReadVote(store, Beco, now);
    var peco := ReadVote(store, Peco, now);
    if reco.Failure? then Failure(reco.error)
    else if beco.Failure? then Failure(beco.error)
    else if peco.Failure? then Failure(peco.error)
    else
      AllReadable(store, now);
      Success(VoteData(reco.value, beco.value, peco.value))
  }

  lemma AllReadable(store: Store, now: Instant)
    requires Readable(RawToday(store, Reco, now))
    requires Readable(RawToday(store, Beco, now))
    requires Readable(RawToday(store, Peco, now))
    ensures forall u :: Readable(RawToday(store, u, now))
  {
    forall u ensures Readable(RawToday(store, u, now)) {
      match u
      case Reco =>
      case Beco =>
      case Peco =>
    }
  }

  /**
   * `getCurrentUserVote`: null without a selected identity (verified or
   * not), otherwise that participant's vote for today.
   */
  function GetCurrentUserVote(store: Store, session: Session, now: Instant): (r: Result<Vote, Fault>)
    ensures (session.None? || session.value.username.None?) ==> r == Success(Unset)
    ensures session.Some? && session.value.username.Some? ==>
              var raw := RawToday(store, session.value.username.value, now);
              (r.Success? <==> Readable(raw)) && (r.Success? ==> Encode(r.value) == raw)
  {
    if session.None? || session.value.username.None? then Success(Unset)
    else ReadVote(store, session.value.username.value, now)
  }

  /** The store a call leaves behind together with what it returned or threw. */
  datatype CastOutcome = CastOutcome(store: Store, result: Result<Response, Fault>)

  const NotAuthenticated: Response := Response(401, Error("Not authenticated"), None)

  /** The one entry a successful cast writes: today's key for the caller. */
  function CastKey(session: Session, now: Instant): Key
    requires Authenticated(session)
  {
    Key(CurrentDay(now), session.value.username.value)
  }

  /**
   * `castVote`: a null vote throws before the session is consulted; an
   * unauthenticated session gets 401 and nothing is written; otherwise the
   * caller's entry for today is (over)written, expiring at the next midnight,
   * and the refreshed triple is returned.  If re-reading the triple throws,
   * the write has already happened.
   */
  function CastVote(store: Store, session: Session, vote: Vote, now: Instant): (r: CastOutcome)
    ensures vote == Unset ==> r == CastOutcome(store, Failure(VoteCannotBeNull))
    ensures vote != Unset && !Authenticated(session) ==> r == CastOutcome(store, Success(NotAuthenticated))
    ensures r.store != store ==> vote != Unset && Authenticated(session)
    ensures vote != Unset && Authenticated(session) ==>
              var k := CastKey(session, now);
              && k in r.store
              && Encode(vote) == Some(r.store[k].value)
              && r.store[k].expiresAt == MidnightTomorrow(now)
              && (forall k' :: k' != k ==> (k' in r.store <==> k' in store))
              && (forall k' :: k' != k && k' in store ==> r.store[k'] == store[k'])
              && (r.result.Failure? <==> GetVotes(r.store, now).Failure?)
              && (r.result.Success? ==>
                    && GetVotes(r.store, now).Success?
                    && r.result.value == Reply(OkVotes(GetVotes(r.store, now).value), None)
                    && r.result.value.status == 200
                    && r.result.value.body.votes.Of(k.user) == vote)
  {
    if vote == Unset then
      CastOutcome(store, Failure(VoteCannotBeNull))
    else if !Authenticated(session) then
      CastOutcome(store, Success(NotAuthenticated))
    else
      var key := CastKey(session, now);
      var text := if vote == Yes then "yes" else "no";
      var written := Set(store, key, text, MidnightTomorrow(now));
      match GetVotes(written, now)
      case Failure(f) => CastOutcome(written, Failure(f))
      case Success(votes) => CastOutcome(written, Success(Reply(OkVotes(votes), None)))
  }
}

module VoteLaws {
  import opened Wrappers
  import opened Schemas
  import opened Clock
  import opened RedisStore
  import opened Votes

  /** Within one day the last cast wins: an earlier cast leaves no trace in the store. */
  lemma CastLastWriteWins(store: Store, session: Session, first: Vote, second: Vote, t1: Instant, t2: Instant)
    requires CurrentDay(t1) == CurrentDay(t2)
    requires second != Unset
    ensures CastVote(CastVote(store, session, first, t1).store, session, second, t2).store
            == CastVote(store, session, second, t2).store
  {
    if Authenticated(session) {
      var k := CastKey(session, t1);
      assert k == CastKey(session, t2);
      assert MidnightTomorrow(t1) == MidnightTomorrow(t2);
      var mid := CastVote(store, session, first, t1).store;
      var text := if second == Yes then "yes" else "no";
      if first != Unset {
        SetSetSame(store, k, if first == Yes then "yes" else "no", MidnightTomorrow(t1), text, MidnightTomorrow(t2));
      }
    }
  }

  /** Casting the same vote twice at once is the same as casting it once, response included. */
  lemma CastIdempotent(store: Store, session: Session, vote: Vote, now: Instant)
    ensures CastVote(CastVote(store, session, vote, now).store, session, vote, now)
            == CastVote(store, session, vote, now)
  {
    if vote != Unset && Authenticated(session) {
      var k := CastKey(session, now);
      var once := CastVote(store, session, vote, now).store;
      assert once[k] == Entry(if vote == Yes then "yes" else "no", MidnightTomorrow(now));
      assert once[k := once[k]] == once;
    }
  }

  /**
   * A cast touches no other partition: every read of another participant's
   * key, or of any key for another day, returns what it returned before, at
   * any instant.
   */
  lemma CastIsolatesPartitions(store: Store, session: Session, vote: Vote, now: Instant, k: Key, t: Instant)
    requires Authenticated(session) ==> k != CastKey(session, now)
    ensures Get(CastVote(store, session, vote, now).store, k, t) == Get(store, k, t)
  {
  }

  /** In particular another participant's vote, as read on any instant, is unchanged. */
  lemma CastLeavesOthersVotes(store: Store, session: Session, vote: Vote, now: Instant, u: Username, t: Instant)
    requires session.None? || session.value.username != Some(u)
    ensures ReadVote(CastVote(store, session, vote, now).store, u, t) == ReadVote(store, u, t)
  {
    CastIsolatesPartitions(store, session, vote, now, Key(CurrentDay(t), u), t);
  }

  /**
   * On any later day the written entry reads as absent (it has expired) and
   * the triple read that day is the one the store would have given anyway,
   * since it is read under a different day's keys.
   */
  lemma CastInvisibleOnLaterDays(store: Store, session: Session, vote: Vote, now: Instant, t: Instant)
    requires CurrentDay(now) < CurrentDay(t)
    ensures vote != Unset && Authenticated(session) ==>
              Get(CastVote(store, session, vote, now).store, CastKey(session, now), t).None?
    ensures GetVotes(CastVote(store, session, vote, now).store, t) == GetVotes(store, t)
  {
    assert !Before(t, MidnightTomorrow(now));
    var after := CastVote(store, session, vote, now).store;
    forall u ensures RawToday(after, u, t) == RawToday(store, u, t) {
      CastIsolatesPartitions(store, session, vote, now, Key(CurrentDay(t), u), t);
    }
  }

  /**
   * The store as the server leaves it: every entry holds a vote and expires
   * at the midnight that ends the day in its key.
   */
  ghost predicate Consistent(store: Store) {
    forall k :: k in store ==>
      Readable(Some(store[k].value)) && store[k].expiresAt == StartOfDay(k.day + 1)
  }

  lemma CastPreservesConsistency(store: Store, session: Session, vote: Vote, now: Instant)
    requires Consistent(store)
    ensures Consistent(CastVote(store, session, vote, now).store)
  {
  }

  /** In a consistent store an entry is visible exactly while its own day lasts. */
  lemma ConsistentEntryLivesOneDay(store: Store, k: Key, t: Instant)
    requires Consistent(store)
    requires k in store
    ensures Get(store, k, t).Some? <==> CurrentDay(t) <= k.day
  {
  }

  /** Reading a consistent store never throws. */
  lemma ConsistentStoreReadsCleanly(store: Store, now: Instant)
    requires Consistent(store)
    ensures GetVotes(store, now).Success?
  {
    forall u ensures Readable(RawToday(store, u, now)) {
    }
  }

  /** A day on which no entry was written reads as three absent votes. */
  lemma UntouchedDayIsUnset(store: Store, now: Instant)
    requires forall u :: Key(CurrentDay(now), u) !in store
    ensures GetVotes(store, now) == Success(VoteData(Unset, Unset, Unset))
  {
  }

  /** The caller's own vote agrees with their field of the triple. */
  lemma CurrentUserVoteAgreesWithTriple(store: Store, session: Session, now: Instant)
    requires session.Some? && session.value.username.Some?
    requires GetVotes(store, now).Success?
    ensures GetCurrentUserVote(store, session, now) == Success(GetVotes(store, now).value.Of(session.value.username.value))
  {
    var u := session.value.username.value;
    ParseEncode(GetVotes(store, now).value.Of(u));
  }
}

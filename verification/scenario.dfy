/**
 * One day of game-night voting from an empty store, followed into the next
 * day: three verified participants cast and change votes, and the status
 * shown after each step follows the precedence rule; at the next midnight
 * every vote reads as absent again.
 */
module Scenario {
  import opened Wrappers
  import opened Schemas
  import opened Clock
  import opened RedisStore
  import opened Votes
  import opened Status

  function VerifiedAs(u: Username): Session {
    Some(SessionData(Some(u), true, Some("verified")))
  }

  lemma OneDayOfVoting(d: Day)
    ensures
      var morning, noon, evening, night := Instant(d, 28800), Instant(d, 43200), Instant(d, 64800), Instant(d, 79200);
      var s1 := CastVote(map[], VerifiedAs(Peco), Yes, morning).store;
      var s2 := CastVote(s1, VerifiedAs(Beco), Yes, morning).store;
      var s3 := CastVote(s2, VerifiedAs(Reco), No, noon).store;
      var s4 := CastVote(s3, VerifiedAs(Reco), Yes, evening).store;
      && GetVotes(s2, morning) == Success(VoteData(Unset, Yes, Yes))
      && CalculateStatus(VoteData(Unset, Yes, Yes)) == MAYBE
      && GetVotes(s3, noon) == Success(VoteData(No, Yes, Yes))
      && CalculateStatus(VoteData(No, Yes, Yes)) == NO
      && GetVotes(s4, night) == Success(VoteData(Yes, Yes, Yes))
      && CalculateStatus(VoteData(Yes, Yes, Yes)) == YES
      && GetVotes(s4, StartOfDay(d + 1)) == Success(VoteData(Unset, Unset, Unset))
      && CalculateStatus(VoteData(Unset, Unset, Unset)) == MAYBE
  {
    var morning, noon, evening, night := Instant(d, 28800), Instant(d, 43200), Instant(d, 64800), Instant(d, 79200);
    var s1 := CastVote(map[], VerifiedAs(Peco), Yes, morning).store;
    var s2 := CastVote(s1, VerifiedAs(Beco), Yes, morning).store;
    var s3 := CastVote(s2, VerifiedAs(Reco), No, noon).store;
    var s4 := CastVote(s3, VerifiedAs(Reco), Yes, evening).store;
    var e := StartOfDay(d + 1);
    assert s1 == map[Key(d, Peco) := Entry("yes", e)];
    assert s2 == s1[Key(d, Beco) := Entry("yes", e)];
    assert RawToday(s2, Reco, morning) == None;
    assert RawToday(s2, Beco, morning) == Some("yes");
    assert RawToday(s2, Peco, morning) == Some("yes");
    assert s3 == s2[Key(d, Reco) := Entry("no", e)];
    assert RawToday(s3, Reco, noon) == Some("no");
    assert RawToday(s3, Beco, noon) == Some("yes");
    assert RawToday(s3, Peco, noon) == Some("yes");
    assert s4 == s3[Key(d, Reco) := Entry("yes", e)];
    assert RawToday(s4, Reco, night) == Some("yes");
    assert RawToday(s4, Beco, night) == Some("yes");
    assert RawToday(s4, Peco, night) == Some("yes");
    forall u ensures RawToday(s4, u, e) == None {
    }
    MaybeIffUndecided(VoteData(Unset, Yes, Yes));
    NoVetoes(VoteData(No, Yes, Yes));
    YesIffUnanimous(VoteData(Yes, Yes, Yes));
    NobodyVotedIsMaybe();
  }
}

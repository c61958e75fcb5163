/**
 * The group status shown on the voting page (`calculateStatus`): any "no"
 * vetoes, unanimous "yes" is YES, everything else is MAYBE.
 */
module Status {
  import opened Schemas

  /** "YES" | "NO" | "MAYBE!?" */
  datatype GroupStatus = YES | NO | MAYBE

  /** `Array.prototype.some(v => v === target)` */
  function AnyIs(votes: seq<Vote>, target: Vote): bool {
    if |votes| == 0 then false else votes[0] == target || AnyIs(votes[1..], target)
  }

  /** `Array.prototype.every(v => v === target)` */
  function EveryIs(votes: seq<Vote>, target: Vote): bool {
    if |votes| == 0 then true else votes[0] == target && EveryIs(votes[1..], target)
  }

  /** The array `[votes.reco, votes.beco, votes.peco]`. */
  function Ballots(v: VoteData): seq<Vote> {
    [v.reco, v.beco, v.peco]
  }

  function CalculateStatus(v: VoteData): GroupStatus {
    var all := Ballots(v);
    if AnyIs(all, No) then NO
    else if EveryIs(all, Yes) then YES
    else MAYBE
  }

  lemma {:induction false} AnyIsMembership(votes: seq<Vote>, target: Vote)
    ensures AnyIs(votes, target) <==> target in votes
  {
    if |votes| > 0 {
      AnyIsMembership(votes[1..], target);
      assert votes == [votes[0]] + votes[1..];
    }
  }

  lemma {:induction false} EveryIsUniform(votes: seq<Vote>, target: Vote)
    ensures EveryIs(votes, target) <==> forall i :: 0 <= i < |votes| ==> votes[i] == target
  {
    if |votes| > 0 {
      EveryIsUniform(votes[1..], target);
      assert forall i :: 1 <= i < |votes| ==> votes[i] == votes[1..][i - 1];
    }
  }

  /** Every element of a three-vote ballot equals `target` exactly when `target` is all it holds. */
  lemma EveryIsOfBallots(v: VoteData, target: Vote)
    ensures EveryIs(Ballots(v), target) <==> v.reco == target && v.beco == target && v.peco == target
  {
    EveryIsUniform(Ballots(v), target);
    if v.reco == target && v.beco == target && v.peco == target {
      forall i | 0 <= i < 3 ensures Ballots(v)[i] == target {
      }
    }
  }

  /** A single "no" decides the status, whatever the other two votes are; and only a "no" does. */
  lemma NoVetoes(v: VoteData)
    ensures CalculateStatus(v) == NO <==> (v.reco == No || v.beco == No || v.peco == No)
  {
    AnyIsMembership(Ballots(v), No);
  }

  /** The status is YES exactly when all three votes are "yes". */
  lemma YesIffUnanimous(v: VoteData)
    ensures CalculateStatus(v) == YES <==> (v.reco == Yes && v.beco == Yes && v.peco == Yes)
  {
    AnyIsMembership(Ballots(v), No);
    EveryIsOfBallots(v, Yes);
  }

  /** The status is MAYBE exactly when nobody said "no" and somebody has not voted. */
  lemma MaybeIffUndecided(v: VoteData)
    ensures CalculateStatus(v) == MAYBE <==>
              (v.reco != No && v.beco != No && v.peco != No
               && (v.reco == Unset || v.beco == Unset || v.peco == Unset))
  {
    AnyIsMembership(Ballots(v), No);
    EveryIsOfBallots(v, Yes);
  }

  /** Nobody having voted is MAYBE. */
  lemma NobodyVotedIsMaybe()
    ensures CalculateStatus(VoteData(Unset, Unset, Unset)) == MAYBE
  {
    MaybeIffUndecided(VoteData(Unset, Unset, Unset));
  }

  /** The status depends only on the multiset of votes, not on who cast which. */
  lemma StatusIgnoresWhoVotedWhat(a: VoteData, b: VoteData)
    requires multiset(Ballots(a)) == multiset(Ballots(b))
    ensures CalculateStatus(a) == CalculateStatus(b)
  {
    AnyIsMembership(Ballots(a), No);
    AnyIsMembership(Ballots(b), No);
    AnyIsMembership(Ballots(a), Unset);
    AnyIsMembership(Ballots(b), Unset);
    assert No in Ballots(a) <==> No in multiset(Ballots(a));
    assert No in Ballots(b) <==> No in multiset(Ballots(b));
    assert Unset in Ballots(a) <==> Unset in multiset(Ballots(a));
    assert Unset in Ballots(b) <==> Unset in multiset(Ballots(b));
    MaybeIffUndecided(a);
    MaybeIffUndecided(b);
    NoVetoes(a);
    NoVetoes(b);
  }

  /** Changing any one vote to "no" never yields YES: it yields NO. */
  lemma SwitchToNoGivesNo(v: VoteData, u: Username)
    ensures CalculateStatus(v.With(u, No)) == NO
  {
    NoVetoes(v.With(u, No));
  }

  /** Changing a "no" to "yes" yields NO exactly when another participant still says "no". */
  lemma RetractingNoLeavesOtherVetoes(v: VoteData, u: Username)
    requires v.Of(u) == No
    ensures CalculateStatus(v.With(u, Yes)) == NO <==> exists w :: w != u && v.Of(w) == No
  {
    var v' := v.With(u, Yes);
    NoVetoes(v');
    if CalculateStatus(v') == NO {
      if v'.reco == No { assert Reco != u && v.Of(Reco) == No; }
      else if v'.beco == No { assert Beco != u && v.Of(Beco) == No; }
      else { assert Peco != u && v.Of(Peco) == No; }
    } else {
      forall w | w != u ensures v.Of(w) != No {
        assert v'.Of(w) == v.Of(w);
      }
    }
  }

  /** The worked examples of the precedence table. */
  lemma PrecedenceExamples()
    ensures CalculateStatus(VoteData(No, Yes, Unset)) == NO
    ensures CalculateStatus(VoteData(Yes, Yes, Yes)) == YES
    ensures CalculateStatus(VoteData(Yes, Yes, Unset)) == MAYBE
  {
    NoVetoes(VoteData(No, Yes, Unset));
    YesIffUnanimous(VoteData(Yes, Yes, Yes));
    MaybeIffUndecided(VoteData(Yes, Yes, Unset));
  }
}

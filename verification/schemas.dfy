/**
 * The closed enumerations and records of the application's zod schemas:
 * votes, usernames, the vote triple and the session record, together with
 * the parsing of raw stored values that `VoteSchema.parse` performs.
 */
module Schemas {
  import opened Wrappers

  /** `VoteSchema`: "yes", "no", or null (no vote today). */
  datatype Vote = Yes | No | Unset

  /** `UsernameSchema`: the three fixed participants. */
  datatype Username = Reco | Beco | Peco

  /** `VoteDataSchema`: one vote per participant. */
  datatype VoteData = VoteData(reco: Vote, beco: Vote, peco: Vote) {

    /** The participant's field, `votes[username]`. */
    function Of(u: Username): Vote {
      match u
      case Reco => reco
      case Beco => beco
      case Peco => peco
    }

    /** The triple with one participant's field replaced. */
    function With(u: Username, v: Vote): (r: VoteData)
      ensures r.Of(u) == v
      ensures forall w :: w != u ==> r.Of(w) == Of(w)
    {
      match u
      case Reco => this.(reco := v)
      case Beco => this.(beco := v)
      case Peco => this.(peco := v)
    }
  }

  /** A participant's position among the fields `reco`, `beco`, `peco`. */
  function FieldIndex(u: Username): nat {
    match u
    case Reco => 0
    case Beco => 1
    case Peco => 2
  }

  /** `SessionDataSchema`; `verifiedAt` is an ISO timestamp kept as opaque text. */
  datatype SessionData = SessionData(username: Option<Username>, isVerified: bool, verifiedAt: Option<string>)

  /** What `parseSessionCookie` yields: a session record or null. */
  type Session = Option<SessionData>

  /** Errors a server function throws rather than returns. */
  datatype Fault =
    | InvalidInput(reason: string)        // an input validator rejected the request data
    | VoteCannotBeNull                    // castVote was handed a null vote
    | UnexpectedStoredValue(raw: string)  // VoteSchema.parse met a stored value that is not a vote

  /** The wire form of a username, as it appears in store keys. */
  function UsernameText(u: Username): string {
    match u
    case Reco => "reco"
    case Beco => "beco"
    case Peco => "peco"
  }

  lemma UsernameTextInjective(u: Username, w: Username)
    ensures UsernameText(u) == UsernameText(w) <==> u == w
  {
    if u != w {
      assert UsernameText(u)[0] != UsernameText(w)[0];
    }
  }

  /** How a vote is held in the store: null is the absence of an entry. */
  function Encode(v: Vote): Option<string> {
    match v
    case Yes => Some("yes")
    case No => Some("no")
    case Unset => None
  }

  /** True of the raw values that `VoteSchema` accepts. */
  predicate Readable(raw: Option<string>) {
    raw.None? || raw.value == "yes" || raw.value == "no"
  }

  /** `VoteSchema.parse` applied to the value a store read returned. */
  function ParseVote(raw: Option<string>): (r: Result<Vote, Fault>)
    ensures r.Success? <==> Readable(raw)
    ensures r.Success? ==> Encode(r.value) == raw
    ensures r.Failure? ==> r.error == UnexpectedStoredValue(raw.value)
  {
    match raw
    case None => Success(Unset)
    case Some(s) =>
      if s == "yes" then Success(Yes)
      else if s == "no" then Success(No)
      else Failure(UnexpectedStoredValue(s))
  }

  /** Storing a vote and parsing it back yields the vote. */
  lemma ParseEncode(v: Vote)
    ensures ParseVote(Encode(v)) == Success(v)
  {
  }
}

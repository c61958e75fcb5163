# Is it game night? — a verified model of the voting core

The application lets three fixed participants (reco, beco, peco) each cast a
daily "yes" or "no" on whether game night is on, and shows a group status:
NO if anyone said no, YES if all three said yes, MAYBE otherwise. Votes are
kept in a key-value store under `votes:<yyyy-MM-dd>:<username>`. Each entry
expires at the next Eastern-time midnight, so every day starts undecided.
Writing a vote needs a session cookie. The participant gets one by selecting
an identity and then typing that participant's codename. Route guards
redirect each visitor to the page their session allows.

This project models that core in Dafny as pure functions over immutable data:

- `status.dfy` (module `Status`) is `calculateStatus`, including the
  `some`/`every` array scans it is built from. It is total: it has no
  precondition, and its result type has exactly the three statuses.
- `clock.dfy` (module `Clock`) is the reference-zone calendar. An `Instant`
  is a day index plus the seconds since that day's local midnight.
  `CurrentDay` stands for `getCurrentDayKey` and `MidnightTomorrow` for
  `getMidnightTomorrowET`.
- `redis_store.dfy` (module `RedisStore`) is the store. It is a map from
  (day, participant) keys to (string value, absolute expiry) entries, with
  `get`/`set` under EXAT semantics. It also has the textual key and a proof
  that the key string is injective.
- `votes.dfy` (modules `Votes`, `VoteLaws`) holds `getVotes`,
  `getCurrentUserVote` and `castVote` as transitions of the store, plus the
  laws relating them.
- `text.dfy` (module `Text`) holds `trim` and `toLowerCase` as the codename
  check uses them.
- `auth.dfy` (module `Auth`) holds `selectIdentity`, `verifyCodename` (with
  its non-empty validator) and `logout`. Each one is a response whose
  `Set-Cookie`, once applied by `Http.SessionAfter`, is the next session.
- `routes.dfy` (module `Routes`) holds the guards of "/", "/verify" and
  "/vote".
- `scenario.dfy` (module `Scenario`) walks through one day of voting and the
  reset at midnight.
- `schemas.dfy`, `http.dfy` and `wrappers.dfy` hold the schema datatypes,
  the response shape and `Option`/`Result`.

Behaviour worth knowing:

- **Identity selection keeps verification.** `selectIdentity` copies
  `isVerified` and `verifiedAt` from the existing session, even when the
  username changes (src/server/auth.ts:30-31).
  `Auth.VerificationSurvivesIdentitySwitch` proves the consequence: a session
  verified for one participant becomes verified for any other participant it
  selects, without that participant's codename.
- **Bad stored values throw.** `getVotes` and `getCurrentUserVote` throw when
  a stored value is not a vote (src/server/votes.ts:35-37, 55). The model's
  store therefore holds arbitrary strings.

A tampered cookie that claims to be verified but names nobody bounces
between "/" and "/vote" for ever (`Routes.ForgedSessionRedirectLoop`). The
server's own transitions never produce such a session (`Auth.WellFormed`).

## Model

| member | source | states |
|---|---|---|
| `Schemas.ParseVote` | src/server/votes.ts:34-38 | A stored value parses exactly when it is absent, "yes" or "no". A parsed vote encodes back to the raw value it came from. Any other value throws and the error carries that value. |
| `Schemas.ParseEncode` | src/schemas/VoteSchema.ts:3 | Storing a vote and parsing it back gives the same vote, with null standing for "no entry". |
| `Schemas.UsernameTextInjective` | src/schemas/UsernameSchema.ts:3 | Two participants have the same wire name only if they are the same participant. |
| `Status.AnyIsMembership` | src/components/VoteInterface.tsx:17 | `some(v => v === t)` holds exactly when t occurs in the array. |
| `Status.EveryIsUniform` | src/components/VoteInterface.tsx:18 | `every(v => v === t)` holds exactly when every element equals t. |
| `Status.EveryIsOfBallots` | src/components/VoteInterface.tsx:15-18 | On the array `[reco, beco, peco]`, `every` equals t exactly when all three fields equal t. |
| `Status.NoVetoes` | src/components/VoteInterface.tsx:17 | The status is NO if and only if at least one participant voted no, whatever the others voted. |
| `Status.YesIffUnanimous` | src/components/VoteInterface.tsx:17-18 | The status is YES if and only if all three voted yes. |
| `Status.MaybeIffUndecided` | src/components/VoteInterface.tsx:17-19 | The status is MAYBE if and only if nobody voted no and at least one participant has not voted. |
| `Status.NobodyVotedIsMaybe` | src/components/VoteInterface.tsx:18-19 | Three absent votes give MAYBE. |
| `Status.StatusIgnoresWhoVotedWhat` | src/components/VoteInterface.tsx:15-18 | Two triples holding the same multiset of votes have the same status, whoever cast which vote. |
| `Status.SwitchToNoGivesNo` | src/components/VoteInterface.tsx:17 | Changing any one vote to no makes the status NO, so it never yields YES. |
| `Status.RetractingNoLeavesOtherVetoes` | src/components/VoteInterface.tsx:17-18 | After one participant changes a no to yes, the status is NO exactly when another participant still says no. |
| `Status.PrecedenceExamples` | src/components/VoteInterface.tsx:14-20 | (no, yes, absent) is NO, (yes, yes, yes) is YES, and (yes, yes, absent) is MAYBE. |
| `Clock.MidnightTomorrow` | src/server/votes.ts:17-23 | The expiry instant is strictly after now. An instant is before the expiry exactly when it falls on today or an earlier day. |
| `Clock.MidnightBoundary` | src/server/votes.ts:11-23 | The last second of a day and the next day's midnight have different day keys and different expiries. The later one is already at the earlier one's expiry. |
| `RedisStore.GetSetSame` | src/server/votes.ts:84-86 | A key just written reads back its value strictly before its EXAT instant and reads as absent from then on. |
| `RedisStore.GetSetOther` | src/server/votes.ts:84-86 | Writing one key leaves every read of every other key unchanged. |
| `RedisStore.SetSetSame` | src/server/votes.ts:84-86 | A second write to a key replaces the first completely (last write wins). |
| `RedisStore.KeyTextInjective` | src/server/votes.ts:78 | For day keys of the `yyyy-MM-dd` shape, two equal `votes:<day>:<user>` strings have the same day key and the same participant. |
| `Votes.GetVotes` | src/server/votes.ts:25-41 | The read succeeds exactly when each participant's live entry for today is absent, "yes" or "no". Each field then encodes to exactly that entry. A failure reports the value of the first participant, in the order reco, beco, peco, whose entry is not a vote. |
| `Votes.GetCurrentUserVote` | src/server/votes.ts:43-57 | Without a session or a username the result is null, verified or not. Otherwise the result is that participant's entry for today, and it throws exactly when that entry is not a vote. |
| `Votes.CastVote` | src/server/votes.ts:59-95 | A null vote throws and writes nothing, whatever the session. An unauthenticated session gets 401 "Not authenticated" and writes nothing. Only a non-null cast by an authenticated session changes the store. That cast writes exactly the caller's key for today, holding the vote and expiring at the next midnight, and every other key stays as it was. The call throws exactly when re-reading the triple throws. On success it answers 200 with no cookie, and the body is the whole triple re-read from the store after the write, whose caller's field is the cast vote. |
| `VoteLaws.CastLastWriteWins` | src/server/votes.ts:84-86 | Within a day, casting one vote and then another leaves the same store as casting only the second. |
| `VoteLaws.CastIdempotent` | src/server/votes.ts:84-86 | Casting the same vote twice at the same instant gives the same store and the same response as casting it once. |
| `VoteLaws.CastIsolatesPartitions` | src/server/votes.ts:77-86 | A read of any key other than the caller's key for today gives the same result before and after the cast, at every instant. |
| `VoteLaws.CastLeavesOthersVotes` | src/server/votes.ts:77-86 | Another participant's vote reads the same after the cast, at any instant. |
| `VoteLaws.CastInvisibleOnLaterDays` | src/server/votes.ts:17-23 | On any later day the written entry has expired, and the triple read that day is the same as without the cast. |
| `VoteLaws.CastPreservesConsistency` | src/server/votes.ts:77-86 | If every entry holds a vote and expires at the midnight ending its key's day, that stays true after any cast. |
| `VoteLaws.ConsistentEntryLivesOneDay` | src/server/votes.ts:78-86 | In a consistent store an entry is visible exactly while the current day is at most its key's day. |
| `VoteLaws.ConsistentStoreReadsCleanly` | src/server/votes.ts:34-38 | Reading a consistent store never throws. |
| `VoteLaws.UntouchedDayIsUnset` | src/server/votes.ts:26-38 | If no entry was written for today, the triple is three nulls. |
| `VoteLaws.CurrentUserVoteAgreesWithTriple` | src/server/votes.ts:48-55 | For a session with a username, the caller's own vote equals their field of the triple. |
| `Text.LowerForgetsCase` | src/server/auth.ts:58-60 | An upper-cased string lowers to the same text as the original. |
| `Text.AllSpaceTrimsToEmpty` | src/server/auth.ts:60 | A string of white space only trims to the empty string. |
| `Text.TrimIgnoresPadding` | src/server/auth.ts:60 | White space added before or after a string does not change its trimmed text. |
| `Text.TrimOfUpper` | src/server/auth.ts:60 | Trimming and upper-casing commute. |
| `Auth.SelectIdentity` | src/server/auth.ts:20-41 | Selecting an identity always answers 200 with a success body and writes a session cookie. |
| `Auth.SelectIdentityCarriesVerification` | src/server/auth.ts:26-32 | The new session names the chosen participant and copies `isVerified` and `verifiedAt` from the existing session, even when the username changes. With no session they are false and null. |
| `Auth.SelectIdentityFromNothing` | src/server/auth.ts:28-32 | From no session the result is unverified with a null timestamp. |
| `Auth.VerificationSurvivesIdentitySwitch` | src/server/auth.ts:28-32 | A session verified for u that selects w becomes verified for w, with the old timestamp. |
| `Auth.VerifyCodename` | src/server/auth.ts:43-82 | The call throws exactly when the codename is empty. A non-200 answer sets no cookie. |
| `Auth.VerifyWithoutIdentity` | src/server/auth.ts:51-56 | With no session or a null username, a non-empty codename gets 400 "No identity selected" and the session stays as it was. |
| `Auth.VerifyWrongCodename` | src/server/auth.ts:62-67 | A codename that does not match gets 400 "Invalid codename" and the session stays as it was. |
| `Auth.VerifyRightCodename` | src/server/auth.ts:69-81 | A matching codename answers 200. The session then has the same username, is verified, and has a non-null timestamp. |
| `Auth.VerificationRequiresCodename` | src/server/auth.ts:51-73 | If a session becomes verified through this call, it named a participant and the typed codename matched that participant's own. |
| `Auth.CodenameIgnoresCaseAndPadding` | src/server/auth.ts:58-60 | Typing the codename in capitals, with white space before or after it, gives exactly the same result. |
| `Auth.BlankCodenameNeverVerifies` | src/server/auth.ts:58-67 | A non-empty codename made only of white space passes the validator, but always gets "Invalid codename" because every stored codename is non-empty. |
| `Auth.Logout` | src/server/auth.ts:84-92 | Logging out answers 200 and clears the session cookie. |
| `Auth.LogoutClears` | src/server/auth.ts:84-92 | After logout there is no session, whatever the prior session was. |
| `Auth.SelectIdentityPreservesWellFormed` | src/server/auth.ts:26-32 | A session with a username, whose flag and timestamp are set together, stays that way after identity selection. |
| `Auth.VerifyPreservesWellFormed` | src/server/auth.ts:69-73 | The same holds after a codename check. |
| `Auth.LogoutPreservesWellFormed` | src/server/auth.ts:84-92 | The cleared session is well formed. |
| `Routes.IndexSendsVerifiedToVote` | src/routes/index.tsx:9-11 | "/" redirects to "/vote" exactly for verified sessions. This is checked before the username, so it holds with or without one. |
| `Routes.IndexSendsIdentifiedToVerify` | src/routes/index.tsx:13-15 | "/" redirects to "/verify" exactly for unverified sessions that have a username. |
| `Routes.IndexRendersForAnonymous` | src/routes/index.tsx:9-17 | "/" renders identity selection exactly for no session, or for an unverified session with a null username. |
| `Routes.SelectIdentityThenIndexGoesToVerify` | src/routes/index.tsx:13-15 | After selecting an identity from no session, "/" sends the user to "/verify". |
| `Routes.VerifyPageNeedsIdentity` | src/routes/verify.tsx:13-15 | "/verify" redirects to "/" exactly when there is no session or no username. This is checked before the verified flag. |
| `Routes.VerifyPageForwardsVerified` | src/routes/verify.tsx:17-19 | "/verify" redirects to "/vote" exactly for verified sessions with a username. |
| `Routes.VerifyPageRendersPending` | src/routes/verify.tsx:21-25 | "/verify" renders exactly for unverified sessions with a username, and passes that same session to the page. |
| `Routes.VotePageAdmitsExactlyVoters` | src/routes/vote.tsx:10-12 | "/vote" redirects to "/" exactly when the session is absent, unverified, or has no username. |
| `Routes.VotePageLoadsVotes` | src/routes/vote.tsx:14-21 | For an admitted session the loader fails exactly when reading the votes throws. Otherwise it renders today's triple with the session unchanged. |
| `Routes.VoteGuardMatchesCastAuthorization` | src/routes/vote.tsx:10 | For a non-null vote, "/vote" admits a session exactly when `castVote` would not answer 401. |
| `Routes.GuardsAgreeOnHome` | src/routes/index.tsx:9-15 | For well-formed sessions, the page the session belongs on renders (unless reading votes throws). Every other page reaches that page within at most two redirects. |
| `Routes.ForgedSessionRedirectLoop` | src/routes/vote.tsx:10-12 | A verified session with a null username is not well formed. "/" sends it to "/vote" and "/vote" sends it back to "/". |
| `Scenario.OneDayOfVoting` | src/server/votes.ts:59-95 | Starting from an empty store, each read succeeds with the exact triple. After peco and beco vote yes it is (null, yes, yes), which is MAYBE. After reco votes no it is NO. After reco changes to yes it is YES. At the next midnight all three read as null, which is MAYBE again. |

## Left out

- React rendering, avatars, colours, react-query polling and navigation in the components. Only `calculateStatus` is modelled from them.
- Time zones: converting the wall clock to an Eastern local day (`tz`, `addDays`, `startOfDay`, DST rules) is the date library's job. The model receives an `Instant` already in local terms. `format(…, "yyyy-MM-dd")` is represented only by the shape of its output (`RedisStore.IsDayKeyText`). The mapping from a day index to that text is assumed injective, which is what keying the store by day expresses.
- `Votes.CastVote`: the source reads the clock three times, at lines 77, 81 and 89 (the last through `getVotes`). The model reads it once, so a midnight passing mid-request is not modelled.
- `Math.floor(expirationDate.getTime() / 1000)`: the expiry is a whole-second midnight, so truncating to seconds changes nothing. The millisecond clock is not modelled.
- Redis: network I/O, store failures, the client's JSON serialisation of values, and the `Promise.all` concurrency and read skew across the three reads. The model's store is a sequential map.
- Cookies: serialisation, `parseSessionCookie` (header lookup, JSON parse, schema check, null on any failure), and cookie attributes such as `maxAge`, `secure` and `sameSite`. Sessions are modelled as already parsed `Option<SessionData>`. `getSession` only returns that parse and has no logic of its own.
- Input validators for `castVote` and `selectIdentity`: inputs outside the vote and username enumerations are rejected by zod before the handlers run. The model's inputs are already typed as `Vote` and `Username`.
- Codename provisioning from environment variables (src/server/codenames.ts). The codenames are a fixed record whose fields are non-empty, as the server's start-up check guarantees.
- Text.Lower: lowers only the ASCII letters, not the full Unicode `toLowerCase`, so codenames with non-ASCII letters compare case-sensitively in the model.
- `verifiedAt` is an opaque stamp parameter, not an ISO timestamp of the current time. Response headers other than `Set-Cookie`, and the JSON encoding of bodies, are not modelled.

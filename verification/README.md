# Verification of the Anubis Go SDK

A Dafny 4.11 model of the parts of the Anubis SDK (module `github.com/gsoultan/anubis-sdk`) in which state, concurrency and octet-level formats meet, with proofs of what those parts promise. `dafny verify dfyconfig.toml` checks all of it.

Where the Go code changes fields, maps, slices or buffers step by step, the model has classes and loops proved against specification functions; where it computes a value, the model has functions and lemmas. Where several goroutines share state, every section the code runs under one lock is one step of a step system, and the theorems are about every reachable state of every interleaving.

| modules | what they model |
|---|---|
| `Basics`, `Orders`, `Decimals` | octets and int64, Go's string order and sorting, decimal spelling |
| `RefreshServer`, `TokenTypes`, `TokenSources`, `SingleFlight` | refresh rotation (section 4.14.2 of RFC 9700): the server's tables, the client's token source, and both together |
| `KeySets`, `KeysCaches`, `KeysCacheRuns` | the keys document, the rate-limited cache over it, and any number of callers of that cache |
| `Base64`, `Paseto`, `Verifiers` | strict base64url (sections 3.5 and 5 of RFC 4648), the v4.public token format with PAE (section 2.2 of draft-paragon-paseto-rfc), and offline verification end to end |
| `CacheKeys`, `DecisionCaches`, `AuthorizeRuns` | the question a decision answers, as a string; the two-generation cache of decisions; and any number of authorize calls over it |
| `Protobuf`, `Framing`, `Broker` | ErrorInfo on the protobuf wire, Connect stream frames, and the revocation broker behind the stream |
| `Paging`, `ScopePaging` | the two page walkers against the two paged listings |
| `ManifestDocuments`, `Manifests` | the manifest an application sends, and the reconcile it causes |
| `Links` | record shares and the links that open them |
| `Walks` | ancestors, fresh ids, int64 in a buffer and back |

## What the proofs found

Each of these has a concrete input or run, and a lemma that says for all of them when the promise holds.

- A client that serialises its refreshes, and alone presents its session's tokens (the condition `NotOurs` in `SingleFlight`), can still be answered reuse although every rotation the server granted reached it: it gives up on a request that has not yet arrived, sends the next, and the late one arrives second (`SingleFlight.LateRequestIsTheft`). The exact condition is that no request of the client has been abandoned while it could still reach the server, and no grant lost: `NeverReportsItselfForTheft` and `FaultMakesNextRequestTheft`.
- Revoking a session on reuse is final exactly when no handler of the session stands between consuming its token and publishing the successor (`RefreshServer.RevocationIsFinalIff`); from one sign-in, two requests reach the bad interleaving (`ReuseBetweenSectionsRevives`).
- The keys cache bounds the age of the document it answers from by its timings, with exceptions that `KeysCacheRuns.StaleOnlyWhen` names for every answer: the fetch relied on failed or panicked; the call gave up waiting; or it joined a successful fetch, and then the document is that fetch's or a later one. Two of them need nothing to have failed: a cancelled wait (`CancelledWaitMayBeStale`), and a call that begins when a fetch has been recorded but its slot is not free yet, at an instant as late as one likes (`JoinMayBeStale`).
- A cached decision is not shown for exactly its TTL after the server gave it, as `options.go:111-114` and `DESIGN.md:355-356` have it: the expiry counts from the put (`cache.go:69`), which happens whenever the answer arrives, and a late older answer replaces a newer one. An allowance given before a denial and stored after it is shown until the TTL after that, however late it came (`AuthorizeRuns.LateAnswerIsShown`). An answer's age is at most the TTL and a delay exactly when it was stored within that delay (`PromptAnswersAreYoung`, `AgeIsBoundedIff`); and what is shown is the last answer given exactly when none given later was lost, is on its way, or was stored before it (`CachedAnswerIsTheServersOwn`), for which it is enough that calls for one question do not overlap and none gives up (`AloneAnswersAreNewest`).
- A panic in `refresh` leaves the token source's slot taken for good: every later call that needs a new pair waits for a flight nobody closes, until its context ends. A panic in the callback strands those who joined that flight (`SingleFlight.PanicIsForever`, with `PanicStrandsCallers`). Waiters are served if and only if their leader does not panic (`WaitersAreServed`).
- A link whose share ends between the two lock sections of opening it is answered all the same (`Links.AnsweredAfterItsShareEnded`).
- Over given names of axes and methods, the cache key separates all questions without NUL if and only if no name begins with an axis and a `=` (`CacheKeys.SeparatesIff`). Such a method collides (`MethodCollides`), such an axis too (`AxisCollides`), and so do questions with a NUL (`NulCollides`).
- An accepted token is the canonical spelling of its parts exactly when it holds no CR and no LF, which Go's base64 decoder skips even when strict (`Paseto.ParsedTokenIsCanonicalIff`).
- A page names no next one exactly when it reaches the end, save one that consists of an application whose slug is empty: its slug is the next token, and an empty token means there is no next page (`CutShort`, in `Paging.LastPageIffComplete` and `IsListing`). The SDK refuses to create such an application; the server does not.
- A manifest reaches the server with exactly the sections it declares if and only if it declares none without rows, save routes cleared on purpose (`ManifestDocuments.SentWholeIff`, and `EmptySectionIsNotSent` for a case): an empty section is written `null`, which the server reads as undeclared. `Validate` refuses all of these.
- A role can name a permission exactly when the permission's parts are not empty and hold no colon (`ManifestDocuments.CanBeNamedIff`); `Validate` lets permissions through that cannot be named (`UnnameablePasses`).
- The scope of a link's token names one record, for the kinds in use, if and only if no kind goes on with a slash where another ends (`Links.ScopesSeparateIff`, with `SlashInKindCollides`).
- Sums with the leeway wrap as int64 sums do. `Verifiers.WrongVerdictIff` says for every leeway which claims are therefore refused, or accepted, wrongly: an expiry within the leeway of the largest int64 counts as long past (`LatestExpiryIsExpired`), and with a negative leeway a beginning that never comes counts as past (`LatestBeginningPasses`). With a leeway that is not negative nothing is accepted wrongly.
- A pair whose lifetime is past 9223372036 seconds has an expiry that wraps, and can count as expired when it is issued (`TokenSources.LongLifetimeIsExpired`). For every shorter one `EnterExits` says exactly when it is good; a pair whose expiry is Go's zero time itself counts as one without expiry.
- The least int64 is written as a lone minus sign, and is the only one that cannot be read back (`Walks.ReadsBackIff`).

The comment at `tokensource.go:179-180` reads as though serialising refreshes were enough; the model follows the code.

## Model

| member | source | states |
|---|---|---|
| RefreshServer.TokenRotatesAtMostOnce | anubistest/server.go:618-643 | in every interleaving of any requests, no refresh token gains two successors |
| RefreshServer.RevocationIsFinalIff | anubistest/server.go:618-643 | a session whose family was revoked never has a live token again, in any continuation, if and only if no handler of it is between its two sections |
| RefreshServer.ReuseBetweenSectionsRevives | anubistest/server.go:618-643 | from one sign-in there is a run in which reuse is answered and the session ends live all the same |
| RefreshServer.SerialReuseIsFinal | anubistest/server.go:608-643 | with requests served one at a time, once one known token of a session was refused, no token of the session refreshes after any further requests |
| RefreshServer.SpentTokenIsRefused | anubistest/server.go:608-643 | a token just rotated is refused when presented again |
| RefreshServer.Server.IssueSession | anubistest/server.go:297-316 | the two maps a new session enters, and nothing else changed; the session accepts the new token |
| RefreshServer.Server.Refresh | anubistest/server.go:608-643 | a token is refreshed if and only if its session accepts it, and the session accepts the answered one from then on; the handler on its maps does what its lock sections in a row do |
| RefreshServer.RefreshAnswersTheLiveToken | anubistest/server.go:618-651 | the answer to a live unused token is the token drawn for the request, which is then live in its place; every other token, known or not, is refused; no other session changes |
| RefreshServer.AnsweredTokenRefreshes | anubistest/server.go:618-651 | the token answered refreshes when presented next |
| RefreshServer.ServedAloneIsARun | anubistest/server.go:618-643 | a request served alone is a run of its lock sections whose handler is granted exactly the token it is answered with |
| TokenSources.TokenSource.OnRotate | tokensource.go:80-84 | replaces the hook only |
| TokenSources.TokenSource.Enter | tokensource.go:95-120 | the first lock section: the held pair if and only if it is far from expiry, the open flight to join, a refusal, or a new flight put in the slot; the pair stays |
| TokenSources.EnterExits | tokensource.go:95-174 | a call leaves at once with the held pair if and only if that pair has an access token and no expiry or one more than thirty seconds off; else it joins, refuses or leads |
| TokenSources.LongLifetimeIsExpired | types.go:18-29 | a lifetime past what a time.Duration holds can wrap, and the pair counts as expired when it is issued |
| TokenSources.TokenAloneAnswers | tokensource.go:95-174 | one call alone: the pair far from its expiry; or what refresh brought, kept even if the callback fails, and answered unless one of them failed |
| TokenSources.RefreshedPairIsServed | tokensource.go:95-174 | what one call refreshed the calls after it are answered, without a refresh, until thirty seconds before it expires |
| TokenSources.TokenSource.Adopt | tokensource.go:126-145 | the second lock section: the refreshed pair is adopted, stamped and its refresh token carried forward, and the slot is cleared |
| TokenSources.TokenSource.Land | tokensource.go:147-162 | the flight is filled after the callback, with no tokens beside an error, and closed once |
| TokenSources.TokenSource.Token | tokensource.go:95-162 | a whole call with nobody else running, callback included |
| SingleFlight.NeverReportsItselfForTheft | tokensource.go:95-162 | for any callers and any interleaving with the server, no reuse answer without a fault, and whenever no refresh is out the held token is the server's live one, a failing callback included |
| SingleFlight.FaultMakesNextRequestTheft | tokensource.go:126-145 | the condition is exact: after a fault the next request of this source to be checked is answered reuse, and before one it is not |
| SingleFlight.LateRequestIsTheft | tokensource.go:108-123 | a run in which every grant is delivered and reuse is answered |
| SingleFlight.AtMostOneRefresh | tokensource.go:117-145 | one refresh is out at most; the slot names its open flight, and the held pair is the one it started with |
| SingleFlight.WaitersAreServed | tokensource.go:102-162 | a joiner's flight is closed, or its leader is still on the way to close it, if and only if that leader did not panic in refresh or in the callback |
| SingleFlight.PanicIsForever | tokensource.go:119-162 | a panicked leader's flight never closes, whatever happens next; if it panicked in refresh, no request is sent again, the pair never changes, and every call that wants a new one joins that flight |
| SingleFlight.PanicStrandsCallers | tokensource.go:102-124 | from one sign-in: a call panics in refresh and the next one waits on its flight |
| SingleFlight.FlightClosesOnce | tokensource.go:157-161 | a flight about to be closed is open and has no second owner |
| SingleFlight.OneAnswerPerFlight | tokensource.go:107-123 | the leader of a flight and all who joined it return one identical result |
| SingleFlight.AnswersArePersisted | tokensource.go:147-161 | a pair answered through a flight is the one adopted, its callback has run on it and answered no error, and an error has no tokens |
| SingleFlight.CallbackErrorIsAnswered | tokensource.go:71-79 | an error of the callback is answered to every call its flight serves |
| SingleFlight.HeldPairIsGood | tokensource.go:95-101 | a pair answered without waiting is the one the source held at that instant, and was answered exactly because it was more than thirty seconds from expiry or without one |
| KeySets.Lookup | keys/key_set.go:73-86 | a key is answered exactly for a kid of the set inside its window |
| KeySets.UnixIs | keys/key_set.go:78 | the seconds a window is held against are those since the beginning of 1970 in the calendar that instants count from the year 1 |
| KeySets.ParseDocument | keys/key_set.go:36-63 | the set holds exactly the usable keys, the last of each kid, at most 64; each refusal carries the error of its own cause, and a bad key is the first |
| KeySets.HoldsIsBounded | keys/key_set.go:44-47 | a set parsed from a document has no more kids than the document has keys |
| KeysCaches.KeysCache.Refetch | keys/key_cache.go:107-128 | join the fetch that is out, be throttled with the last error, or take the slot with a new open channel |
| KeysCaches.KeysCache.Record | keys/key_cache.go:142-150 | a failed fetch leaves the set alone; the next fetch is put off by the interval its outcome earns |
| KeysCaches.KeysCache.Release | keys/key_cache.go:133-138 | the slot is freed before the channel is closed |
| KeysCaches.KeysCache.GetAt | keys/key_cache.go:72-95 | a whole call with nobody else running, fetch, throttle and stale answer included |
| KeysCaches.GetAtAloneAnswers | keys/key_cache.go:72-152 | one call alone: when it is answered from a young document, when it is throttled, and otherwise the key that the document it has just fetched gives, or the one before if the fetch failed, or the error if there is none |
| KeysCaches.Defaults | keys/key_cache.go:176-196 | durations that are not positive stand for five minutes, thirty seconds and one second |
| KeysCacheRuns.CallAloneIsARun | keys/key_cache.go:72-152 | a call that nobody overlaps is a run of the lock sections, with the answer and the cache of GetAt |
| KeysCacheRuns.AtMostOneFetch | keys/key_cache.go:107-141 | in every reachable state one caller at most is fetching or recording, and the slot names its channel |
| KeysCacheRuns.WaitersAreServed | keys/key_cache.go:109-138 | a channel waited on is closed, or exactly one caller will close it, after a panic too |
| KeysCacheRuns.ChannelClosesOnce | keys/key_cache.go:130-138 | no channel is closed twice |
| KeysCacheRuns.FetchesAreSpaced | keys/key_cache.go:142-150 | successive fetches lie minRefetch apart after a success, minRetry after a failure |
| KeysCacheRuns.FetchRateIsBounded | keys/key_cache.go:121-150 | any window of length L sees at most 1 + L / min(minRefetch, minRetry) fetches, whoever asks and in whatever order of instants |
| KeysCacheRuns.MinGap | keys/key_cache.go:184-196 | the bound is positive for any configured values |
| KeysCacheRuns.AnswersComeFromTheLatestDocument | keys/key_cache.go:72-95 | an answered key is the latest successfully fetched document's for that kid at that instant |
| KeysCacheRuns.WithdrawnKidStaysUnknown | keys/key_cache.go:140-151 | a kid missing from every document since a success is not answered, whatever fetches failed since |
| KeysCacheRuns.StaleOnlyWhen | keys/key_cache.go:72-152 | an answer is younger than the ttl or minRefetch; or the fetch it relied on failed or panicked, or it was cancelled; or it joined a fetch that got a document, recorded after or before the call began, and is from that document or a later one |
| KeysCacheRuns.CancelledWaitMayBeStale | keys/key_cache.go:111-119 | at any later instant a cancelled wait can answer from the first document though no fetch failed |
| KeysCacheRuns.JoinMayBeStale | keys/key_cache.go:107-138 | at any later instant a call that begins between a fetch's recording and its slot's release can answer from that fetch's document, with nothing failed or cancelled |
| Base64.DecodeEncode | paseto/paseto.go:33 | decoding undoes encoding, bit by bit, for every octet string |
| Base64.Vectors | paseto/paseto.go:33 | three vectors of RFC 4648, and the two digits of the URL alphabet |
| Base64.EncodeDecode | paseto/paseto.go:33 | whatever the strict decoder accepts re-encodes to itself, less its CR and LF |
| Paseto.Pae | paseto/paseto.go:38-50 | the loop's output is the encoding, as long as the size computed first |
| Paseto.Le64Reads | paseto/paseto.go:52-56 | eight octets give back every length below 2^63 |
| Paseto.Le64Octets | paseto/paseto.go:52-56 | the first of the eight octets is the least significant |
| Paseto.PayloadOctets | paseto/paseto.go:38-65 | what is signed, octet by octet: the count, then header, message, footer and implicit assertion, each after its size |
| Paseto.PaeDeterminesPieces | paseto/paseto.go:38-56 | injective and prefix-free: two encodings with anything after them agree only if their pieces and what follows agree |
| Paseto.Sign | paseto/paseto.go:61-76 | the rendered message, signature over the pre-authentication encoding, and footer; or a refused key size |
| Paseto.ParseRendered | paseto/paseto.go:61-107 | Parse gives back exactly the message, signature and footer of any token Sign renders |
| Paseto.RenderedOctets | paseto/paseto.go:61-76 | a token is v4.public., the message with its signature, and after a dot the footer if there is one |
| Paseto.ParseOkIff | paseto/paseto.go:81-107 | Parse accepts exactly the header with one or two dotless base64 parts, the first of 64 octets or more; which octets are the signature; and which fault is told |
| Paseto.ParsedTokenIsCanonicalIff | paseto/paseto.go:81-107 | re-encoding what Parse found gives the same token if and only if it has no CR and no LF |
| Paseto.SignedTokenVerifies | paseto/paseto.go:61-123 | a signed token verifies to its message and footer |
| Paseto.PayloadDeterminesStatement | paseto/paseto.go:65 | one signed octet string is one message, footer and implicit assertion |
| Paseto.VerifiedWasSigned | paseto/paseto.go:110-123 | if the signature a token carries is not forged, its message, footer and implicit assertion were signed together |
| Paseto.IssuedIsUnforged | paseto/paseto.go:61-123 | for every key pair, the token issued for a statement meets that assumption, and verifies |
| Paseto.AssumptionsHoldTogether | paseto/paseto.go:61-123 | there is a scheme that signs every message and meets both assumptions |
| Verifiers.ValidateAcceptsIff | claims.go:91-112 | what is accepted, for int64 claims and every int64 leeway, wrapped sums included |
| Verifiers.SecondsTruncate | claims.go:91-99 | a leeway counts in whole seconds, truncated toward zero |
| Verifiers.WrongVerdictIff | claims.go:91-112 | exactly which wrapped sums refuse acceptable claims, and which accept others; none of the latter unless the leeway is negative |
| Verifiers.LatestExpiryIsExpired | claims.go:92-96 | the largest expiry with any leeway wraps and is refused as expired |
| Verifiers.LatestBeginningPasses | claims.go:97-99 | the largest beginning with a leeway below no second wraps and passes |
| Verifiers.KeyIsVouchedFor | verifier.go:131-141 | the key used is in a pinned, held or just fetched document, inside its window |
| Verifiers.PinsAskNothing | verifier.go:131-141 | a pinned key in its window is the answer and leaves the cache alone; any other kid is asked of the cache |
| Verifiers.NewVerifier | verifier.go:24-73 | a verifier exactly for an audience and keys, and a keys URL, if one is set, that is https or loopback http; only a leeway of zero is replaced |
| Verifiers.Verifier.KeyOf | verifier.go:131-141 | with no fetch out, a pinned key first; the cache is asked, and changes, only where there is none |
| Verifiers.Verifier.Verify | verifier.go:88-129 | with no fetch out, the method refines the decision VerifyToken, from octets to claims |
| Verifiers.AcceptedWasIssued | verifier.go:88-141 | accepted claims are those of a message signed, with the footer that named the key, by a key vouched for at the instant the claims are acceptable, given that this token's signature is not forged |
| Verifiers.AcceptedConcurrently | verifier.go:88-141 | with any number of verifications and fetches interleaved, an accepted token was issued under a pinned key that answers to its kid at that instant, or, where there is none, under the latest fetched document's, as young as the staleness bound says |
| Verifiers.WithdrawnKidNeedsAPin | verifier.go:131-141 | in any interleaving, once a withdrawal has been fetched a token naming the kid is refused for its key unless a pinned key answers to the kid at that instant, and is judged under that key if one does |
| Verifiers.IssuedIsAccepted | verifier.go:88-141 | a token signed by the key its footer leads to, with claims that pass, is accepted with those claims |
| CacheKeys.CacheKey | cache.go:77-99 | the loops build one string from a question, whatever order the map is walked in |
| CacheKeys.SeparatesIff | cache.go:77-99 | over given names, the string determines every question without NUL if and only if no name begins with an axis and a '=' |
| CacheKeys.SamePreimage | cache.go:84-95 | one question has one string, whatever the order of its methods |
| CacheKeys.MethodCollides | cache.go:87-98 | a method that begins with an axis and a '=' makes two different questions one string |
| CacheKeys.AxisCollides | cache.go:87-92 | so does such an axis |
| CacheKeys.NulCollides | cache.go:79-82 | and so does a NUL |
| DecisionCaches.DecisionCache.Get | cache.go:42-55 | the live generation shadows the old one, and nothing past its expiry is shown |
| DecisionCaches.DecisionCache.Put | cache.go:57-70 | the full generation is retired whole before the entry goes in; a step-up refusal changes nothing |
| DecisionCaches.GetShowsTheLastAnswer | cache.go:42-70 | after any puts a get shows nothing, or the last cached put of that key within its ttl; each generation stays within maxSize |
| DecisionCaches.PutCostsOne | cache.go:57-70 | a put of another key lowers an entry's potential by one at most, and by one exactly for a key not in the live generation; an entry is held exactly while its potential is not negative |
| DecisionCaches.EntrySurvivesMaxSizePuts | cache.go:57-70 | an entry is shown, until it expires, through maxSize further puts of other keys |
| DecisionCaches.PotentialIsExact | cache.go:57-70 | one new key more than the potential, 2 * maxSize less the live entries for a live one, and the entry is gone |
| DecisionCaches.Authorize | authz.go:136-174 | malformed questions never reach cache or server; a cached answer is returned untouched; a server's answer is stored under the question it answers |
| DecisionCaches.ValidPermissionIff | identity.go:70 | a permission can be asked if and only if it is app:resource:action, with no part empty or with a colon of its own |
| AuthorizeRuns.CallAloneIsARun | authz.go:149-173 | a call nobody overlaps is a run: the cached answer, or the server's, given and stored, or a failure |
| AuthorizeRuns.CachedAnswerIsTheServersOwn | authz.go:149-173 | in every interleaving of looks, server answers and puts, what is shown is an answer the server gave to that very question, stored at most ttl ago; and it is the last such answer given exactly when none given later was lost, is on its way, or was stored before it |
| AuthorizeRuns.PromptAnswersAreYoung | options.go:111-114 | if answers are cached within a delay of being given, what is shown was given at most ttl and the delay ago |
| AuthorizeRuns.AgeIsBoundedIff | cache.go:57-70 | the bound is exact: an answer just stored is never shown beyond ttl and the delay after it was given if and only if it was stored within the delay |
| AuthorizeRuns.WithdrawalTakesEffect | options.go:111-114 | once the server has stopped allowing a question, the cache allows it no later than ttl and the delay |
| AuthorizeRuns.LateAnswerIsShown | authz.go:165-172 | from an empty cache: an allowance given before a denial, and stored after it at any later instant, is shown until ttl after that |
| AuthorizeRuns.AloneAnswersAreNewest | authz.go:149-173 | if calls for one question do not overlap, what is shown is the last answer given to it, save answers to calls that had given up |
| AuthorizeRuns.HashSeparates | cache.go:77-99 | an injective hash of the preimage separates NUL-free questions over unambiguous names, as these theorems ask of the key |
| Protobuf.AppendVarint | anubistest/server.go:864-870 | the loop writes the base-128 form |
| Protobuf.AppendField | anubistest/server.go:855-862 | a one-octet tag, size and payload for any field number, or nothing for an empty value |
| Protobuf.PartIsFieldIff | anubistest/server.go:855-862 | that is the wire form exactly for field numbers below 16 |
| Protobuf.EncodeErrorInfo | anubistest/server.go:848-853 | the two fields, empty ones left out |
| Protobuf.VarintReads | client.go:308-324 | a varint of up to 64 bits reads back, with its length, from the front of any input |
| Protobuf.VarintOctets | anubistest/server.go:864-870 | the octets of three numbers |
| Protobuf.FieldOctets | anubistest/server.go:855-862 | the octets of a string field |
| Protobuf.LastIs | client.go:281-301 | the last field of a number is what counts; without one the value is empty |
| Protobuf.DetailsAre | client.go:281-301 | the details have a key if and only if some entry has it, and the last such entry's value |
| Protobuf.NextFieldRebuilds | client.go:308-324 | header, payload and rest rebuild the input, and the header takes two octets at least |
| Protobuf.FieldReads | client.go:308-324 | an encoded field reads back from the front of any input |
| Protobuf.Scan | client.go:281-301 | each turn of the loop consumes one field and leaves less |
| Protobuf.InfoFoldIsLast | client.go:270-303 | the decoding loop's fold keeps the last code and request id, and of details the last per key |
| Protobuf.EntryFoldIsLast | client.go:326-341 | likewise for a map entry's key and value |
| Protobuf.DecodeMapEntry | client.go:326-341 | the last key and value before the first field that does not parse |
| Protobuf.DecodeErrorInfo | client.go:270-303 | on every octet string the loop ends, with the last-wins reading of its fields or with nothing if one does not parse |
| Protobuf.DecodeUndoesWire | client_test.go:721-737 | every code, request id and list of map entries reads back, in any order of the map |
| Protobuf.EntryMapIsTheMap | client_test.go:731-736 | the map read back is the map written, less its empty key |
| Protobuf.DecodeUndoesServer | anubistest/server.go:848-870 | what the server's encoder writes the client reads |
| Framing.Envelope | anubistest/revocations.go:210-216 | the buffer filled in place is flag, big-endian size and payload |
| Framing.EnvelopeOctets | anubistest/revocations.go:210-216 | the flag, the size most significant octet first, the payload |
| Framing.FlagsAreBits | revocations.go:192-198 | the two flags are the two lowest bits of the octet |
| Framing.Body.ReadFull | revocations.go:213-232 | whatever chunks a body comes in, n octets or the error that says why not |
| Framing.ReadEnvelope | revocations.go:213-233 | one frame or the failure, decided by the concatenated octets alone |
| Framing.EnvelopeReadsIff | revocations.go:200-233 | a frame reads back, with what follows it, if and only if it is within the limit |
| Framing.CutFrameEnds | revocations.go:213-233 | a frame cut anywhere reads as a lost connection |
| Framing.ReadRevocations | revocations.go:157-190 | the loop over any chunking is the same function of the octets |
| Framing.DrainConsumesFrames | revocations.go:157-190 | any list of frames within the limit drives the consumer exactly as that list, then the rest does |
| Framing.GoodFramesAreHandedOn | revocations.go:182-188 | plain decodable frames are all handed on, in order, each once |
| Framing.CutStreamDeliversCompleteFrames | revocations.go:157-172 | a truncated stream, ended by the peer or by an error, delivers exactly its complete frames and is then unavailable, or cancelled if the caller cancelled |
| Framing.FirstStopDecides | revocations.go:174-188 | after good frames: bit 0x01 is refused as compressed, bit 0x02 ends the stream with what its payload says and hands nothing on, an undecodable frame ends it, and a decodable one is handed on and ends it with the error the callback answers; nothing after is read |
| Framing.OversizeFrameEnds | revocations.go:213-227 | a frame over the limit ends the stream on its header |
| Broker.RevocationBroker.Subscribe | anubistest/revocations.go:76-85 | a new id and an empty channel nobody shares |
| Broker.RevocationBroker.Unsubscribe | anubistest/revocations.go:86-90 | that subscriber is removed and no other |
| Broker.RevocationBroker.PushRevocation | anubistest/revocations.go:47-60 | every subscriber's channel gets the event or was full, in any order of visiting |
| Broker.SyncedFirstThenInOrder | anubistest/revocations.go:133-155 | in every interleaving a consumer is written Synced first, then pushes without repeats, never one that was over before an earlier one began |
| Broker.NothingIsMissedSilently | anubistest/revocations.go:47-60 | a finished push begun after Synced was written is written or waiting, unless its visit found the channel full or the stream has ended |
| Broker.DropsFindAFullChannel | anubistest/revocations.go:54-59 | a drop is recorded only when all sixteen slots are taken |
| Orders.SortIsAscending | identity.go:272-279 | sorting any enumeration of a set gives the one ascending order of it |
| Orders.LessIff | identity.go:272-279 | the order of Go's strings: a prefix before what it begins, and else the smaller octet at the first difference |
| Orders.ListingIsUnique | anubistest/provision.go:316-319 | a set has one strictly rising listing, as long as the set is large |
| Paging.Select | anubistest/provision.go:307-315 | the rows a query selects, each once, whatever order the map is walked in |
| Paging.MatchingIff | anubistest/provision.go:307-315 | a query finds exactly the rows that have it somewhere in slug or name |
| Paging.SizeIs | anubistest/provision.go:320-326 | how many rows a page has: what was asked for, at most what the server gives, fifty unless configured |
| Paging.ListApplications | anubistest/provision.go:296-348 | the page is the first rows strictly above the token, in order, with the last of them as the next token when there are more |
| Paging.PageIsDetermined | anubistest/provision.go:316-347 | table, size and token determine the page |
| Paging.LastPageIffComplete | anubistest/provision.go:335-346 | no next token if and only if the page reaches the end, save when the empty slug cuts it short |
| Paging.WalkRises | admin/provision.go:360-383 | rows collected over changing tables rise strictly and none is above the token reached |
| Paging.TokenIsNew | admin/provision.go:377-381 | a next token has never been met before, whatever was inserted or deleted between calls |
| Paging.WalkMisses | admin/provision.go:360-383 | a slug there at every call is passed only once it has been returned |
| Paging.WalkOfOneTable | admin/provision.go:360-383 | over an unchanging table the pages are the sorted listing cut in slices |
| Paging.StoppedWalk | admin/provision.go:369-376 | on one table the walk stops at its end, or at a page past the cap, and which of the two depends on the listing's length exactly |
| Paging.AllApplications | admin/provision.go:360-383 | the walk ends, never by a repeated token; its listing has no slug twice, none unseen, all that stayed; on one table it is the sorted listing or the cap |
| ScopePaging.MatchedGrows | anubistest/admin.go:253-273 | adding nodes leaves the rows selected before where they were |
| ScopePaging.MatchedIff | anubistest/admin.go:253-260 | a query finds exactly the nodes of its axis with its text somewhere in their name, archived ones on request |
| ScopePaging.ListScopeNodes | anubistest/admin.go:253-295 | the loop and the slice are the page of the selected list at the offset the token names |
| ScopePaging.AtoiFormat | anubistest/admin.go:280-294 | an offset written into a token is the offset read from it |
| ScopePaging.OffsetIsNew | admin/admin.go:655-663 | offsets rise, so no token is met twice |
| ScopePaging.ScopeNodes | admin/admin.go:644-663 | one call of the walk: a full page and a new token, or the end of the listing |
| ScopePaging.AllScopeNodes | admin/admin.go:640-665 | while nodes are added the walk returns the whole of what its last call found; on one list, the list or the cap, exactly |
| ManifestDocuments.BuildersKeepBuilt | admin/manifest.go:163-203 | whatever builders are called, a section without rows is nil, save the routes section cleared on purpose |
| ManifestDocuments.RefOkIff | admin/manifest.go:357-372 | a reference is accepted if and only if it is resource:action, neither empty nor with a colon of its own |
| ManifestDocuments.CheckPermissions | admin/manifest.go:274-297 | the first row at fault, if there is one |
| ManifestDocuments.CheckRoles | admin/manifest.go:299-316 | the first role at fault, if there is one |
| ManifestDocuments.CheckRoutes | admin/manifest.go:318-349 | the first route at fault, if there is one |
| ManifestDocuments.Validate | admin/manifest.go:262-351 | no fault if and only if the document is wellformed; a fault names what is wrong, and the first row that is |
| ManifestDocuments.SentWholeIff | admin/manifest.go:223-235 | a manifest that builders made is sent with exactly the sections it declares if and only if none is declared without rows, save cleared routes; validated ones are such |
| ManifestDocuments.EmptySectionIsNotSent | admin/manifest.go:173-177 | without Validate, a section declared with no rows is sent as though undeclared |
| ManifestDocuments.CanBeNamedIff | admin/manifest.go:357-372 | a permission can be named if and only if its parts are not empty and hold no colon |
| ManifestDocuments.UnnameablePasses | admin/manifest.go:274-297 | a manifest with a permission that no role can name passes Validate |
| Manifests.Retire | anubistest/manifest.go:187-196 | deleting in one loop and inserting in another leaves exactly the named set, and reports what was dropped in order |
| Manifests.NameRoles | anubistest/manifest.go:209-221 | the roles named, or the first reference that does not resolve |
| Manifests.NamePermissions | anubistest/manifest.go:183-186 | the keys named, once each |
| Manifests.CheckRouteRefs | anubistest/manifest.go:239-245 | whether every route that requires a permission names a live one |
| Manifests.Plan | anubistest/manifest.go:167-248 | the apply on copies is refused exactly for the reasons of Reconcile, and otherwise yields its sets and report |
| Manifests.ManifestApp.Apply | anubistest/manifest.go:167-259 | the catalog afterwards is Reconcile's, or untouched when refused or dry |
| Manifests.Server.ApplyManifest | anubistest/manifest.go:92-265 | the reply and the one catalog changed; no other application's catalog is touched |
| Manifests.LastDeclarationDecides | anubistest/manifest.go:175-259 | after any run the live permissions are exactly the resource:action of the rows of the last document that took effect and declares permissions, or those of the start; and so the roles and the number of routes |
| Manifests.SomeIsLast | anubistest/manifest.go:175-259 | there is such a last document, or no document of the run declares the section |
| Manifests.DroppedAreReported | anubistest/manifest.go:183-259 | at any point of a run, what an apply stops naming is no longer live, is deprecated, and is what its report lists, once each in order; the version moves by one |
| Manifests.RefusedIff | anubistest/manifest.go:167-248 | an apply is refused exactly if it declares nothing, would empty a catalog, or a role or route of it names a permission not live once it is applied |
| Manifests.CatalogIsNeverEmptied | anubistest/manifest.go:175-215 | no run of applies empties the permissions or the roles of an application that has some |
| Manifests.ValidatedRowsAllLand | admin/manifest.go:262-351 | where a validated manifest is accepted, as many permissions, roles and routes are live and reported as it has rows |
| Manifests.NothingIsForgotten | anubistest/manifest.go:250-259 | over any run, live or deprecated is what it was plus every name an effective apply gave; deprecated sets never shrink |
| Manifests.UndeclaredSectionsStay | anubistest/manifest.go:175-259 | over any run, a section no effective document declares is unchanged, and dry runs change nothing |
| Manifests.DryRunsLeaveNoTrace | anubistest/manifest.go:169-259 | a run without its dry applies ends in the same catalog and gives the same replies; and each apply of a run, a dry one too, is answered as it would be if it were real and every dry one before it left out, the dry flag aside |
| Manifests.ReapplyRetiresNothing | anubistest/manifest.go:175-259 | applying a document again is accepted, retires nothing, and moves only the version |
| Manifests.SectionsAreIndependent | admin/manifest.go:26-41 | a document comes to what its sections come to one at a time, and is accepted exactly when each of them is |
| Manifests.ValidatedPassesTheRails | admin/manifest.go:262-351 | a validated manifest is never refused as empty or as a wipe, and leaves no routes only if cleared, or none before and undeclared |
| Links.BearerIsRefusedIff | anubistest/server.go:437-445 | in every run a bearer is refused if and only if an earlier openAccessLink answered with its token, and that one's look-up had found a share's record through its standing link |
| Links.MintedBearerIsRefused | anubistest/server.go:437-445 | a header of the word Bearer, a space and a token is refused if and only if a link was answered with that token |
| Links.OwnApplicationsOpenNothing | anubistest/server.go:579-582 | for anubis and console no link opens; for any other application, what the link opens |
| Links.AnsweredAfterItsShareEnded | anubistest/server.go:569-598 | the look-up's instant counts, not the answer's: any pending look-up of a standing link can be answered after its share has ended, when the link leads nowhere |
| Links.APendingLookUp | anubistest/server.go:569-581 | there are such runs: a share, its link, a look-up |
| Links.RefusedStaysRefused | anubistest/server.go:437-445 | a bearer once refused is refused in every later state |
| Links.Server.ShareRecord | anubistest/server.go:451-486 | a share under a number nobody had, or the refusal in the handler's order |
| Links.Server.DeleteLinks | anubistest/server.go:499-503 | every link of one share and no other goes, in any order of the map |
| Links.Server.UnshareRecord | anubistest/server.go:488-506 | the share and its links end together |
| Links.Server.CreateAccessLink | anubistest/server.go:543-567 | a new link replaces those there were, or there is no such share and nothing changes |
| Links.Server.OpenAccessLink | anubistest/server.go:569-598 | what a link opens, and the minted token is a link's from then on |
| Links.LinksFitShares | anubistest/server.go:473-504 | in every state of every run each link's share exists, a share has one link at most, and every name was issued |
| Links.LinkLeadsIff | anubistest/server.go:552-566 | a link leads to a share if and only if it is the last link made to it and the share has not ended |
| Links.ShareHoldsIff | anubistest/server.go:473-504 | a share is there, as made, if and only if it was made and not ended |
| Links.OpensIff | anubistest/server.go:577-587 | a link opens a record if and only if it is the last link made to a share of it that has not ended |
| Links.DeadLinkStaysDead | anubistest/server.go:496-566 | a link that was made and does not open, opens in no later state |
| Links.OneLinkOpens | anubistest/server.go:558-565 | of all links ever made to a share one at most opens |
| Links.ScopesSeparateIff | anubistest/server.go:588-591 | for the kinds in use, scopes of different records differ if and only if no kind goes on with a slash where another ends |
| Links.SlashInKindCollides | share.go:32 | such a kind names one of the other's records |
| Walks.AncestorNames | anubistest/admin.go:318-335 | halts on any parents; the complete chain top down whenever it has an end, and as many names as rows when it has none |
| Walks.ByIdIs | anubistest/admin.go:319-324 | of the rows of an axis with one id the last counts |
| Walks.NamesAre | anubistest/admin.go:325-335 | the names of a chain stand in reverse order of its ids |
| Walks.ChainIsShort | anubistest/admin.go:325-333 | a chain that ends meets no id twice, so it is no longer than there are rows |
| Walks.Counter.FreshID | anubistest/provision.go:618-626 | halts for any finite set of taken ids, with the first number whose id is free |
| Walks.PutDigits | anubistest/admin.go:378-384 | the digits end at the end of the buffer and fit in it |
| Walks.Itoa64 | anubistest/admin.go:370-390 | the decimal spelling inside twenty-four octets, and a lone sign for the least int64 |
| Walks.ReadsBackIff | client.go:350-363 | with or without quotes and white space, the number written is read back if and only if it is not the least int64 |
| Decimals.ParseFormat | client.go:358 | a number's spelling parses to it exactly when it is an int64 |
| Decimals.Spellings | client.go:358 | three spellings |

## Left out

- KeyOf: proved for a call with no fetch out, as is Verify; `AcceptedConcurrently` and `WithdrawnKidNeedsAPin` are about calls in any interleaving.
- HTTP transport, headers, redirects, cookies, URL building, the login and logout flows: calls to the far end are steps whose results are chosen freely.
- Ed25519, SHA-256 and randomness: functions given by the caller, with the law each theorem needs stated in its requires: of a signature, only that the one presented is not forged.
- JSON: claims, footers, revocations and requests are decoded values, with a decoding-failure case where the code has one; `Manifest.MarshalJSON` is modelled only as which sections are written, and as null or as an array.
- Real time: instants are integers passed to each step; liveness is stated as who will close what.
- DecodeErrorInfo: the base64 layer of the detail around the protobuf message is not part of the model.
- NewVerifier: the keys URL is given as url.Parse and the loopback test leave it.
- FetchRateIsBounded: counts fetches that returned; a fetch that panicked leaves the budget where it was, as in the code.
- NothingIsMissedSilently: says written or waiting; that a waiting event is written needs a fair scheduler.
- ReadRevocations: the reader's errors arrive after its octets, not together with the last of them; the context is either cancelled or not for the whole call.
- ListApplications: a row is its slug; the rendering of rows, and integer overflow of offset plus page size, are not modelled.
- ListScopeNodes: childCount and path of a row, and lower-casing of names, are not modelled; a name is its folded form.
- AllApplications: proved against this listing; against a server that answers empty pages with ever new tokens the loop in the code need not end.
- ApplyManifest: the CSV stub, the format check and the wording of refusals are not modelled.
- Validate: white space is ASCII, and a risk is one of the four names or none of them, in lower case.
- ShareRecord: the sharer, note, scopes and creation time of a share enter no decision and are left out; its expiry is kept and, as in the code, not looked at when a link is opened.
- ReadsBackIff: the white space around a number is ASCII.
- AuthorizeMany, Introspect, Explain, SwitchScope, the middleware and the gRPC, go-kit and AMQP adapters: one call each, or a fan-out of independent calls.
- Grants, entitlements, `sortAxes` and the accessors of identities and permissions: they read values the server has already decided, and change no state.
- Client-credentials sources: the same token source with a different refresh function; `needsRefreshToken` is a field of the model.

# Verified model of walletd-go

A Dafny model of the four parts of the WalletD Go SDK that carry state, arithmetic or a
protocol, with proofs of what they promise.

* **Paging** (`Listing`, `Orbits`, `Readings`, `Walk`, `Iterators`, `PageIterators`). A listing is a sequence of
  groups of rows, each group under one key, served whole groups at a time after a cursor. The
  two iterators are classes with the source's fields. A listing call is a total function of
  the number of calls before it, the cursor and the limit, so a hostile or changing server is
  one such function. `Walk.Walked` is the plain page-by-page reading, without buffer or flags;
  each method of the iterator is proved against it through `Future`, what is still to come, and
  the reading itself is proved to be the listing. `PageIterators.Followed` is the same for
  listings whose envelopes name the next cursor; what any such reading keeps, and when it
  returns at all, is proved once in `Readings`.
* **Retrying** (`Int64`, `Backoff`, `Decimal`, `Idempotency`, `Clients`, `Resilience`). `Client.Do` is the
  loop over attempts, `Network` the world it talks to: a script of what becomes of every attempt
  and a trail of what was sent and waited. `Clients.Called` is the recursive specification of a
  call, and `Resilience` says what that specification comes to, in the events of the attempts.
  Durations are 64-bit, and wrap.
* **The idempotency protocol** (`Exchange`, `Callers`, `Composition`). A server that stores the
  first answer under a key, a wire that loses, cuts, garbles and replaces, first with one call,
  then with any interleaving of any number of calls; and the iterator whose page fetches go
  through the loop.
* **Webhooks** (`Webhook`, `Inbox`). Signing and verifying over an arbitrary MAC, the receiver's
  own verification in Python, and the durable inbox as a transition system in which handlers,
  the worker, storage failures and restarts interleave. How a body reads as an event is any
  function of the body.

Assumptions on the world are predicates: `Walk.Serves` (the pages are those of the listing,
which only grows at the front), `Exchange.Honest` (an effect is answered with 2xx, nobody but
the server speaks 2xx, and 429 means refused before acting), `Webhook.IsClock` (a clock within
146 thousand million years of 1970).

Strings of the source that are bytes are Dafny strings, one char a byte; keys, which are read
as UTF-8, are sequences of bytes. The body of the retry loop is two methods here, `Do` and
`Settle`, and the second half of `Next` is the method `FetchPage`; `fuel` parameters are ghost,
and bound how far ahead a contract looks, never what the code does.

## Where the code and its documentation part

* `client.go:80-81` says that each backoff step doubles the one before, up to the cap. With a
  64-bit shift this is so for every attempt exactly when the cap is at most `Backoff.SafeCap` of
  the base (`DoublingExactly`; a product of base and cap below 2^63 is enough, `BackoffTheorem`).
  `DoublingWithin` is the condition for the steps that a policy of given attempts takes.
  `DoublingCanFail` is a base and a cap for which attempt 33 waits for less than the base.
* `client.go:82-85` says that a Retry-After longer than the cap is returned, not waited out. The
  seconds are read and multiplied in 64 bits. `RetryAfterExactly` says for every number of
  seconds whether the promise holds: it does if and only if the product fits, or the seconds fit
  and the wrapped product still exceeds the cap. `CenturiesAreNotWaited` gives values for which
  the call is repeated at once; from 2^63 seconds on the field is ignored, and the call is
  repeated after its own backoff (`AgesAreIgnored`).
* `client.go:357` says "full jitter"; the code draws from the upper half of the step, and every
  value there (`DrawnExactly`).
* `client.go:88` speaks of roughly two seconds of backoff; the default policy waits for at most
  1.4 seconds in all, and at least half of that if it takes all its attempts (`DefaultPolicyWaits`).
* `pagination.go:159-160` says that an absent next cursor means the last page. An empty page
  ends the walk as well, with or without a next cursor (`CompleteChainExactly`).
* `README.md:234-235` and `pagination.go:23-27` promise `ErrPaginationStalled` rather than a loop
  when the cursor does not advance. The guard compares a cursor with the one before it only.
  Against a server whose answers depend on nothing but cursor and limit, the walk returns if and
  only if the listing's own order, from the last key of a full page to the next, does not go
  round a circle of two keys or more (`WalkReturnsExactly`; `SteadyWalk` and `CollectSteady` say
  what comes out then, `SomeWalksNeverEnd` is a server on which it does not return). With
  envelopes it is the same, and the nil cursor leading to itself is one more such circle
  (`FollowedReturnsExactly`, `SteadyFollowed`, `CollectSteadyPages`, `NilCursorNeverStalls`).
  Against any server whatever, only a walk that sends some cursor twice can go on for ever
  (`OnlyRepetitionGoesOn`).
* `webhook.go:51-52` allows any tolerance; the least int64 leaves a single instant
  (`LeastTolerance`).
* The receiver in Python and the Go verifier differ in the timestamps they read
  (`PlusSignDivides`); `VerifiersAgree` says exactly how. A timestamp that no float holds is
  refused in Go, and ends the connection without an answer in Python (`HugeTimestampCrashes`).
  The receiver works with an empty secret, `VerifySignature` does not (`SdkAgrees`).

## Model

| member | source | states |
|---|---|---|
| Iterators.BoundedPageSize | pagination.go:16-21 | sizes 1 to 100 are kept, every other size is 100 |
| Iterators.CountKeys | pagination.go:105-108 | the loop counts distinct cursor keys, not rows |
| Iterators.Iterator.constructor | pagination.go:63-68 | a new iterator has the whole walk from no cursor ahead of it, at the default limit |
| Iterators.Iterator.PageSize | pagination.go:70-78 | fixes the limit before the first call and changes nothing after it |
| Iterators.Iterator.Next | pagination.go:80-121 | takes exactly the first row of what is to come; false means nothing is left, and stays so without another call |
| Iterators.Iterator.FetchPage | pagination.go:94-120 | one call with the cursor and the limit, and the walk continues as the plain reading does |
| Iterators.Iterator.Collect | pagination.go:149-157 | all rows, the error and the calls of the plain walk, for every server on which it ends |
| Iterators.Iterator.All | pagination.go:129-147 | a consumer that stops gets the rows up to there for a prefix of the calls, and the rest of the walk is still to come; otherwise everything, and the error |
| Iterators.CollectListing | pagination.go:29-42 | for every page size and every listing that grows at the front meanwhile: all rows as of the first call, once, in order, in floor(groups / limit) + 1 calls of one limit |
| Iterators.CollectListingOrError | pagination.go:95-99 | with failing calls: a prefix of the listing and the error of the last call, complete if there is no error |
| Walk.AnyServer | pagination.go:82-121 | against any server: one limit, no cursor twice running, and the rows are the pages received except a withheld last one |
| Iterators.CollectSteady | pagination.go:94-120 | against a server without memory whose keys do not circle: Collect returns within as many calls as there are cursors, having asked in the listing's own order to its end or to a key that leads to itself, with the pages received and exactly the error of that last call |
| Orbits.EndsExactly | README.md:232-235 | a way through finitely many cursors ends if and only if it meets none twice, and then within as many steps |
| Orbits.GuardMisses | pagination.go:114-117 | a guard that looks one step back misses exactly the circles of two or more, and the point it exempts |
| Readings.OnlyRepetitionGoesOn | pagination.go:23-27 | against any server, only by sending some cursor twice can either iterator go on for ever |
| Readings.ReturnsExactly | pagination.go:151-157 | without memory, a reading returns if and only if no cursor is met again on its way |
| Readings.LastCallDecides | pagination.go:94-120 | against any server, the last call made says how the reading ended |
| Readings.MoreFuel | pagination.go:82-121 | a walk that is over is the same however much further one looks |
| Walk.WalkReturnsExactly | README.md:232-235 | on a server without memory the walk returns if and only if the listing's keys do not go round a circle of two or more |
| Walk.SteadyWalkReturns | README.md:232-235 | the same with no set of cursors given: there are 2^128 in all |
| Walk.SteadyWalk | pagination.go:110-117 | what a walk that returns asked and gave: the listing's own order, and Stalled exactly if it rests at a key |
| Walk.SomeWalksNeverEnd | pagination.go:113-116 | a server whose keys alternate circles, so the walk passes the stall guard for ever |
| Walk.ServerOfServes | pagination_bounds_test.go:11-35 | for every listing that only grows there is a server as assumed |
| Walk.WalkIsListing | pagination.go:94-120 | from any group boundary, the inferring walk is the rest of the listing, with the exact number of calls |
| Walk.WalkIsListingOrError | pagination.go:95-99 | the same with failing calls: a prefix, and some call's error |
| Walk.ErrorIsTheLastAnswer | pagination.go:96-99 | the error reported is the answer to the last call made |
| Walk.FromTheStart | pagination.go:151-157 | the whole walk over a growing listing, with its call count in closed form |
| Walk.FromTheStartOrError | pagination.go:95-99 | the whole walk when calls may fail |
| Walk.CompleteExactly | README.md:237-242 | on a fixed listing the walk is complete if and only if the limit is within the server's ceiling or one page holds everything |
| Listing.GroupsOnAPage | pagination.go:33-41 | whole groups show as many distinct keys as there are groups, and end with the last group's key |
| Listing.PageOfGrown | users.go:63-71 | the page after a cursor does not depend on what was put in front of the listing since |
| Listing.PagesNeededClosed | pagination_test.go:50-54 | the recursive count of calls is floor(groups / limit) + 1 |
| PageIterators.PageIterator.constructor | pagination.go:173-175 | a new iterator has the whole chain ahead of it |
| PageIterators.PageIterator.PageSize | pagination.go:180-187 | as for Iterator |
| PageIterators.PageIterator.Next | pagination.go:189-224 | takes exactly the first row of what is to come; false stays false without another call |
| PageIterators.PageIterator.FetchPage | pagination.go:203-223 | one call, and the walk continues as the plain reading of envelopes does |
| PageIterators.PageIterator.Collect | pagination.go:247-254 | all rows, the error and the calls of the plain reading |
| PageIterators.FollowsChain | pagination.go:159-175 | along a chain of distinct cursors: the pages before the first empty one, with the chain's own cursors |
| PageIterators.CompleteChainExactly | pagination.go:209-221 | complete if and only if nothing follows the first empty page; one call a page if none is empty |
| PageIterators.CollectChain | pagination_bounds_test.go:37-52 | chains of non-empty pages of any lengths are collected whole, one call a page, for every page size |
| PageIterators.OnlyNilRepeats | pagination.go:212-214 | against any server two calls running share a cursor only if it is nil |
| PageIterators.AnyEnvelopes | pagination.go:189-224 | against any server: each cursor sent is the one named before, and the rows are the pages received except a withheld last one |
| PageIterators.PageErrorIsTheLastAnswer | pagination.go:204-208 | the error reported is the answer to the last call made |
| PageIterators.FollowsChainOrError | pagination.go:203-223 | along a chain with failing calls: exactly the pages before the failing call, else all up to the first empty one |
| PageIterators.CollectChainOrError | pagination.go:204-208 | the iterator itself over such a chain, with the error of its last call |
| PageIterators.FollowedReturnsExactly | pagination.go:209-217 | on a server without memory the reading returns if and only if the envelopes do not circle through two cursors or more, nor from nil to nil |
| PageIterators.SteadyFollowedReturns | pagination.go:209-217 | the same with no set of cursors given |
| PageIterators.SteadyFollowed | pagination.go:209-217 | what a reading that returns asked and gave, and how it ended |
| PageIterators.CollectSteadyPages | pagination.go:247-254 | the iterator itself against such a server |
| PageIterators.NilCursorNeverStalls | pagination.go:212-217 | a nil next cursor is such a circle, followed for ever |
| Backoff.Delay | client.go:357-374 | between half the capped step and the whole of it, never above the cap, and zero when base or cap is not positive |
| Backoff.DrawnExactly | client.go:371-373 | the delays that are drawn are exactly the numbers from half the capped step to twice that half |
| Backoff.StepDoubles | client.go:364-367 | under the safe cap the wrapped and capped shift is min(base * 2^(attempt-1), cap) |
| Backoff.DoublingExactly | client.go:80-85 | every attempt doubles up to the cap if and only if the cap is at most SafeCap of the base |
| Backoff.DoublingWithin | client.go:76-85 | per policy: the steps between so many attempts double up to the cap if and only if the cap is safe for their shifts |
| Backoff.SmallProductIsSafe | client.go:364-367 | base * cap below 2^63 keeps the cap under SafeCap |
| Backoff.BackoffTheorem | client.go:359-374 | base * cap below 2^63: every attempt, shifts past the word included, waits within the upper half of min(base * 2^(attempt-1), cap) |
| Backoff.DoublingCanFail | client.go:364-367 | a base and a cap for which an overflowed step slips under both |
| Decimal.ReadsNumerals | webhook.go:89 | what is read as a number is exactly an optional sign and digits, and as the number they write |
| Decimal.ParseFormat | webhook.go:89-118 | ParseInt undoes FormatInt on all of int64 |
| Idempotency.Validate | idempotency.go:43-58 | accepts exactly 1 to 200 bytes, all of them printable ASCII, for all byte strings |
| Idempotency.DecodeEncode | idempotency.go:51 | the rune decoder undoes the UTF-8 encoding of every scalar value |
| Idempotency.EncodeDecode | idempotency.go:51 | what the decoder does not call ill-formed is the encoding of the rune it reports |
| Clients.LongestRetryablePrefix | client.go:231-336 | attempts are one more than the longest run of attempts asking for another, within the policy |
| Clients.WaitIsCapped | client.go:282-292 | no wait exceeds the cap, whatever the wrapped products came to |
| Clients.WaitBudget | client.go:77-86 | fewer waits than attempts allowed, each within the cap |
| Clients.TotalWait | client.go:77-86 | the waits of a call sum to at most (MaxAttempts - 1) * MaxDelay |
| Clients.ReadsRetryAfter | client.go:392-409 | decimal seconds of any number of digits, leading zeros included: the 64-bit product if an int64 holds them, otherwise nothing that a date would not give |
| Clients.RetryAfterExactly | client.go:82-85 | for every number of seconds: the wait asked for is made if it is within the cap and the problem returned if not, if and only if the product fits, or the seconds fit and the wrapped product exceeds the cap |
| Clients.CenturiesAreNotWaited | client.go:396-401 | between 9223372037 and 18446744073 seconds the call goes on at once |
| Clients.AgesAreIgnored | client.go:392-410 | from 2^63 seconds on the answer is repeated after ordinary backoff instead of being returned |
| Clients.Client.WithRetryPolicy | client.go:119-127 | replaces the policy, with at least one attempt |
| Clients.Client.WithoutRetries | client.go:129-132 | one attempt, the delays kept |
| Clients.Client.Do | client.go:195-337 | equals the recursive specification: attempts, identical requests, waits and result; the result slot holds the last attempt's answer on success and is untouched otherwise |
| Clients.Client.Settle | client.go:261-335 | after one attempt: wait the specified time, or return its meaning, delivering a decoded answer only with success |
| Clients.Client.DoKeyed | client.go:185-193 | the same for a call that has to carry a key: without an acceptable one nothing leaves |
| Resilience.AskedExactly | client.go:392-410 | a Retry-After asks for its seconds if it is a number, for the delay of its date if it is a date, and for nothing otherwise |
| Resilience.BlanksDoNotMatter | client.go:396 | ASCII blanks around the seconds and a plus sign are read over |
| Resilience.RepeatedExactly | README.md:189-194 | which attempts ask for another, for every event, status, key and method |
| Resilience.WaitsExactly | client.go:283-295 | every wait: the seconds or the date asked for, else the upper half of the doubled base under the cap, and nothing without a base |
| Resilience.CallExactly | client.go:195-337 | every call, from its events: how many attempts, which requests, which waits, and each possible result |
| Resilience.CallStops | client.go:231 | and every call is of that form |
| Resilience.ComesThroughFaults | client.go:195-204 | a read or a keyed write succeeds after any passing faults fewer than the attempts allowed, and any other problem ends it with that problem |
| Resilience.UnkeyedWriteStops | client.go:227-229 | a write without a key is repeated after 429 only; every other fault is its result at once |
| Resilience.DefaultPolicyWaits | client.go:88-93 | four attempts, with 100 to 200, 200 to 400 and 400 to 800 milliseconds between them |
| Exchange.FirstAnswerStands | idempotency.go:9-31 | the first answer under a key is given again to the same request, another one gets 409, and neither has an effect |
| Exchange.KeyedCallSucceeds | client.go:195-204 | a keyed write whose requests and answers get lost succeeds with the answer to the try that landed first, its one effect |
| Exchange.UnkeyedCallLandsOnce | client.go:343-346 | without a key: repeated while throttled, then one effect; if its answer is lost the call fails and is not sent again |
| Exchange.UnreadableAnswerIsFinal | client.go:331-333 | an incompatible answer is not asked for again: the call fails, its effect made once |
| Exchange.NewServerIsSound | idempotency.go:9-12 | a server without answers or effects satisfies the invariant |
| Exchange.HandleKeepsSound | idempotency.go:9-12 | the server keeps: one effect a key, exactly where a 2xx answer is stored, and stored answers never change |
| Exchange.AttemptFacts | client.go:195-204 | one attempt under any loss: at most this effect, none behind a 429, and a 2xx confirms the stored answer |
| Exchange.KeyedProgress | client.go:195-204 | any number of sends of one keyed request adds at most one effect |
| Exchange.UnkeyedProgress | client.go:343-346 | refusals in a row have no effect |
| Exchange.AtMostOnce | client.go:195-204 | every call on a write, keyed or not: at most one effect; success means exactly one, and the delivered answer is the stored one |
| Exchange.CallOnce | client.go:185-193 | the loop itself against that server: same statement about what the caller holds, and success whenever faults no more than pass |
| Exchange.ReadsChangeNothing | client.go:227-229 | repeated reads leave the server as it was |
| Callers.ReturnedAsDo | client.go:231-336 | an interleaved caller that returned did what Do does on the moments it saw |
| Callers.PlayKeepsGood | idempotency.go:9-29 | over every interleaving, server and callers stay consistent and stored answers stay |
| Callers.ReplayAcrossCalls | idempotency.go:9-29 | in every reachable world: one effect a key at most, and successful calls under one key sent one request and hold one answer |
| Callers.ReusedKeyHasNoEffect | idempotency.go:30-31 | a different request under an answered key neither succeeds nor takes effect |
| Composition.FetchExactly | client.go:227-336 | a fetch is this page if and only if it comes after fewer retryable failures than there are attempts |
| Composition.FetchSpeaksTruly | client.go:304-335 | a fetch is the page or an error, nothing else |
| Composition.CollectThrough | users.go:53-71 | a listing fetched through the loop is collected whole |
| Composition.CollectThroughOrError | users.go:53-71 | otherwise a prefix, and the result of the last fetch's own run |
| Composition.CollectSheets | commerce.go:80-88 | a chain of envelopes fetched through the loop is collected whole |
| Composition.CollectSheetsOrError | commerce.go:80-88 | otherwise the pages before the failed fetch, and the result of that fetch's own run |
| Webhook.VerifySigned | webhook.go:84-112 | the exact verdict on any header a signer printed, with whatever secret |
| Webhook.VerdictExactly | webhook.go:84-112 | the verdict on every header, from its text: malformed, stale, mismatch or accepted |
| Webhook.SdkVerdictExactly | webhook.go:27-80 | the same for VerifySignature, with the magnitude of the tolerance; an empty secret is a mismatch |
| Webhook.HexPrints | webhook.go:123 | the digest is printed as two lowercase digits a byte |
| Webhook.ParsedExactly | webhook.go:146-155 | an event comes back if and only if the decoder finds one with a type and two identifiers, and it is that one |
| Webhook.WindowIgnoresWrap | webhook.go:99-103 | timestamps whose instant wraps are outside every window |
| Webhook.AcceptedWithin | webhook.go:84-112 | accepted if and only if the header is what Sign prints for some int64 in the window |
| Webhook.AcceptedExactly | webhook.go:42-80 | the same for VerifySignature, with the secret present and the tolerance's magnitude either way |
| Webhook.LeastTolerance | webhook.go:76-78 | the least int64 tolerance leaves one instant |
| Webhook.AcceptanceNeedsTheMac | webhook.go:37-39 | a header accepted for another body or secret than it was signed with exhibits a collision of the MAC |
| Webhook.MessageIsInjective | webhook.go:117-123 | the signed message determines timestamp and body |
| Webhook.HeaderNamesItsSecond | webhook.go:114-116 | equal headers carry the same timestamp, whoever signed |
| Webhook.PythonExactly | acceptance/receiver.py:46-52 | the receiver's check on every header, from its text |
| Webhook.PythonIntExactly | acceptance/receiver.py:50 | int() reads exactly: blanks, a sign, digits grouped by single underscores up to the limit, blanks |
| Webhook.FloatLimit | acceptance/receiver.py:50 | the numbers that no float holds |
| Webhook.EncodedExactly | acceptance/receiver.py:51 | the signed timestamp is its UTF-8 |
| Webhook.PythonReadsFormat | acceptance/receiver.py:50 | Python's int reads what FormatInt prints, up to 4300 digits and no further |
| Webhook.WithinPythonsReach | acceptance/receiver.py:50 | every int64 is within that limit and within the floats |
| Webhook.VerifiersAgree | acceptance/receiver.py:47-52 | Go accepts exactly what the Python receiver passes with a canonical timestamp |
| Webhook.SdkAgrees | webhook.go:64-80 | the same for VerifySignature, which besides refuses an empty secret |
| Webhook.PlusSignDivides | acceptance/receiver.py:48-52 | a signed timestamp with a plus sign passes in Python and not in Go |
| Webhook.HugeTimestampCrashes | acceptance/receiver.py:50 | a timestamp that no float holds is malformed in Go and an uncaught error in Python |
| Inbox.Receiver.Accept | acceptance/receiver.py:41-62 | the guarded half of a POST: its decision, and the database after its transaction |
| Inbox.Receiver.Reply | acceptance/receiver.py:63-64 | a status is sent exactly if it was recorded |
| Inbox.Receiver.DoPost | acceptance/receiver.py:40-64 | 200 only with the event in the inbox; every other status leaves the inbox alone; 400, 401, 503 and no answer each exactly under its own conditions |
| Inbox.AnsweredExactly | acceptance/receiver.py:41-62 | for every delivery and all circumstances, which status it gets, or that the connection is dropped |
| Inbox.Receiver.Work | acceptance/receiver.py:14-27 | one pass picks a pending row and commits effect and marker together, or neither |
| Inbox.Receiver.Restart | acceptance/receiver.py:5-12 | the tables survive, the worker runs again |
| Inbox.TakenExactly | acceptance/receiver.py:41-60 | exactly which deliveries are taken, and under which key |
| Inbox.OnlyAcceptedDeliveriesEnter | acceptance/receiver.py:56-62 | a duplicate or refused delivery changes no row; a new one adds exactly its own |
| Inbox.FailingPassUndoes | acceptance/receiver.py:18-26 | the injected failure leaves inbox and effects as they were and is counted once; a failing disk stops the worker and changes nothing |
| Inbox.GoodPassApplies | acceptance/receiver.py:19-24 | a pass that does not fail makes one effect and marks its row, and changes nothing else |
| Inbox.OnlyGoodPassesApply | acceptance/receiver.py:14-27 | nothing but such a pass ever makes an effect or changes a row |
| Inbox.DeliverExactly | acceptance/receiver.py:40-62 | the state after any delivery: unchanged, a refusal on its way, or the event in the inbox and a 200 on its way |
| Inbox.FinishExactly | acceptance/receiver.py:63-64 | a reply is recorded and sent, or neither |
| Inbox.CrashKeepsTables | acceptance/receiver.py:5-12 | a crash loses the handlers and nothing committed |
| Inbox.RecordsMatchReplies | acceptance/receiver.py:63-64 | over every run as many 200s are recorded as are sent |
| Inbox.ActKeepsInv | acceptance/receiver.py:14-27 | every step keeps: effects are exactly the processed rows, once each |
| Inbox.RunKeepsInv | acceptance/receiver.py:14-64 | the invariant in every state of every run, and nothing is taken back |
| Inbox.PrimaryKeyIsNeverHit | acceptance/receiver.py:10-21 | the worker's INSERT never conflicts, so only a failing disk stops it |
| Inbox.AcknowledgedIsDurable | README.md:267-271 | an acknowledged event stays in the inbox with its body and signature |
| Inbox.EveryRowWasVerified | acceptance/receiver.py:47-60 | every row came by a verified delivery, shows the first one, and is under the identity that its own signed body names |
| Inbox.StoredRowsVerifyInGo | acceptance/README.md:58 | VerifySignature accepts every stored row with a canonical timestamp and a secret that was not empty |
| Inbox.StoredRowsParseInGo | acceptance/README.md:58 | ParseEvent gives a stored row's own key if and only if the Go decoder finds in the body the identifiers that the receiver found, and a type, and the tenant is not zero |
| Inbox.RedeliveryAddsNothing | acceptance/README.md:59 | an event already taken, delivered again under any header, changes no table and is at most acknowledged again |
| Inbox.EachSignedBodyOnce | acceptance/README.md:59 | in every reachable state one body is in one row at most, and no two effects are of one body |
| Inbox.ExactlyOnce | acceptance/README.md:56-57 | no effect twice in any reachable state; with nothing pending every acknowledged event has exactly one |
| Inbox.OnePassDrains | acceptance/receiver.py:19-24 | an undisturbed pass processes one pending row |
| Inbox.Drains | acceptance/receiver.py:14-27 | after k undisturbed passes, k fewer rows are pending, down to none |
| Inbox.DrainedMeansApplied | acceptance/README.md:57 | from any reachable state, as many passes as pending rows apply the whole inbox, once each |

## Left out

- Iterators.Iterator.Collect: requires that the walk ends within some number of calls, because the source's loop does not return otherwise; Walk.WalkReturnsExactly says when it does, for servers without memory.
- Iterators.Iterator.All: requires that the walk ends or the consumer stops, for the same reason.
- PageIterators.PageIterator.Collect: requires that the walk ends, for the same reason.
- `PageIterator.All`: the same loop over Next as that of Iterator, which is modelled.
- Clients.ReadsRetryAfter: blanks other than ASCII around the seconds are not trimmed, and the delay meant by an HTTP date is an input.
- HTTP itself, TLS, connection reuse, URL building, user agent and credentials: an attempt is one event, and a failing credential one of its kinds.
- JSON: a body is cut off, incompatible or a value; a request body encodes or does not.
- The contents of a problem, and the tables of `errors.go`: an error carries its status only.
- Cancellation is a flag found at each point where the source looks, so a context that is found cancelled and later not is included.
- HMAC-SHA256 and constant-time comparison: the MAC is any function, and the comparison equality.
- `Event.Into`, and the fields of an event besides its identifiers and type.
- Inbox.StoredRowsParseInGo: takes what the Go decoder finds in a body as given; how the two JSON decoders differ is not modelled.
- Money rules of the service: no code here decides them.
- The receiver's GET endpoint: counts read without a snapshot.
- The receiver's clock is exact; the rounding of Python's floating-point seconds is not modelled.
- Endpoint wrappers and generated types: single calls into the loop.

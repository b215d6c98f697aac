# Verification of unpaper's stateful core

This project models the parts of unpaper that keep state, do arithmetic or take strings apart, and
proves what they promise: the Redis session store and the authorisation middleware on top of it, the
chat store with its keyed lock, the PKCE code verifier, the cookie printer and finder, and the toggles
behind post likes and follows. `dafny verify dfyconfig.toml` checks everything.

## How the pieces fit

**Sessions.** `SessionStore` is a transition system. A session lives in an expiring map from session id
(sid) to user, and each user has a set of sids that indexes it. Every operation of the session manager
is a program counter over single Redis commands; time may pass and other operations may move between
any two commands, and an operation may stop after any command. `Bound` (every sid belongs to one user)
holds in every run. `Indexed` (the sets hold the live sids) holds in every run that never lets Sync read
a user's set while a SetNew for that user sits between its SADD and its SET; `ScanInWindowLosesASid`
shows that this one exclusion is needed. `SessionManager` then writes the operations as methods of a
class over a `Redis` object. Between any two of its commands the object may change in any way that
`Elsewhere` permits and that keeps `Indexed`. `SessionStore.RunElsewhere` shows that this covers every
interleaving of other operations on other users in which no SMEMBERS falls into an open window; `mine`
is the set of users on whom nothing else runs meanwhile. `ghost t` names the thread, `removals` logs the
SREMs each thread has sent and `faults` counts its commands answered with an error, each of which may or
may not have been carried out. `SyncRuns`
states what Sync leaves over whole runs of the transition system, where its SREMs are the run's own steps. `Authorization` composes these methods
with the cookie finder into the middleware and the sign-out handler.

**Chat.** `Chat` holds the sorted sets and pages. `ChatUsecase` is the usecase, the controller and
the conversation lookup as classes with one command answered after the other; the specification
functions of their contracts are the steps of the whole-run results in `ChatRuns`. What concurrency can do to the
same operations is in three transition systems: `KeyedLock` (the map of RW mutexes), `SendOrder` (any
number of senders over that lock) and `Replicas` (creations, increments and reads whose HGET and HSET
are separate steps). `SendHistory` and `ReplicaHistory` state what these systems do in terms of the
steps of a run alone: what was called, stored, published, filed and counted, and that nobody is stuck.

**The rest.** `Base64` and `CodeVerifier` follow sections 3.2, 4 and 5 of RFC 4648 and sections 4.1 and
4.2 of RFC 7636; `Cookies` follows section 4.2.1 of RFC 6265; `CookieText` says what its
printer writes and its scanner reads without their own functions. `Likes` and `Follows` are the two toggles
over in-memory tables.

## Where the code and its descriptions part

- `Sync` is documented to update the store for expired sessions, but ignores the outcome of SREM
  (core/session/manager.go:115): it can succeed and leave a dead sid listed
  (`SessionManager.RefusedRemovalIsSilent`). A dead member survives it if and only if the SREM sent for
  that member was not run (`SyncRuns.DeadStaysIffSkipped`), so with no expiry meanwhile it is exact if
  and only if all of them were (`SyncRuns.SyncExactIffNoneSkipped`).
- The session index is not kept under every interleaving: see `SessionStore.ScanInWindowLosesASid`.
- `FindAttribute` is documented to extract the attribute's value, but the first attribute whose whole
  text contains the key decides, wherever the key occurs in it. `Cookies.FindNamed` says exactly when a
  pair's own value comes back, and `Cookies.EarlierPairCanHide` gives a header for which it does not.
- Two increments of one unread count can count for one (`Replicas.IncrementsCanBeLost`): neither the
  increment nor the read holds a lock across its HGET and HSET. A count stays exact if and only if no
  increment writes back a copy that is no longer what is stored (`Replicas.ExactIffNoStaleCount`), and
  it always does when a replica is fetched by one operation at a time
  (`Replicas.OneAtATimeCountsExactly`).
- Toggling a follow twice at one instant makes a third toggle ineffective
  (`Follows.SameInstantDoesNotTake`); `Follows.ToggleFlipsIff` gives the exact condition on the dates.
- The active-conversation and last-read keys of a user and the messages key of a conversation share a
  prefix. `ChatKeys.ActiveCollides` and `ChatKeys.LastReadCollides` say for which ids they are the same
  key, `ChatKeys.KeysCollide` gives such ids. `ChatUsecase` keeps the families apart, as it may for
  UUIDs (`ChatKeys.UuidKeysDiffer`).
- `GetMessages` takes its read lock on the bare conversation id, `SendMessage` locks the messages key
  (backend/pkg/chat/usecase/usecase.go:67-70 and 95), so the two do not exclude each other; nothing
  here relies on it.

## Model

| member | source | states |
|---|---|---|
| SessionStore.StepEvolves | core/session/manager.go:29-147 | one command of any operation never rebinds a generated sid, never revives one that is neither live nor about to be set, and never rewrites a stored key |
| SessionStore.StepKeepsBound | core/session/manager.go:29-147 | one command of any operation keeps every sid, in a key, in a set or held by a running operation, with the user it was generated for |
| SessionStore.StepKeepsIndexed | core/session/manager.go:29-147 | one command, other than Sync's SMEMBERS inside an open SADD-SET window of the same user, keeps every live sid in its user's set |
| SessionStore.IndexInvariant | core/session/manager.go:29-68 | in every state of every run without such an SMEMBERS, with expiry and abandonment anywhere, a live sid is in u's set if and only if it is bound to u |
| SessionStore.ScanInWindowLosesASid | core/session/manager.go:103-123 | the excluded schedule is fatal from every state: SMEMBERS in the window, a missed GET, SET and SREM leave a live sid outside its user's set |
| SessionStore.SidsAreFinal | core/session/manager.go:126-147 | in every run, a live sid stays bound to one user, its key is never rewritten, and once deleted or expired it is never live again |
| SessionStore.RunElsewhere | core/session/manager.go:29-147 | any number of commands of other operations, on users the caller is alone on, leave that user's set and keys as they were but for time passing, and keep the index if none of them is an SMEMBERS in an open window |
| SessionManager.Manager.SetNew | core/session/manager.go:29-49 | success gives a never-used sid bound to u that expires after the requested time, or never for a time that is not positive, and adds exactly it to u's set; it fails only if a command failed, and then keeps the invariants |
| SessionManager.Manager.HasSession | core/session/manager.go:71-81 | answers whether the sid is live at that command, or fails because the command did; for a key that lasts, of a user on whom nothing else runs, it answers yes |
| SessionManager.Manager.GetUserBySID | core/session/manager.go:84-98 | success only for a live sid, with the user it was generated for; an error only if the command failed or the sid is dead; for a key that lasts, of a user on whom nothing else runs, it succeeds |
| SessionManager.Manager.Sync | core/session/manager.go:103-123 | u's set loses exactly the members whose SREM Redis ran, each SREM is sent once and for a dead member, on success one was sent for every member dead before it began; with no failed command it succeeds; other users' sets are untouched |
| SessionManager.Manager.Visit | core/session/manager.go:110-120 | one turn of Sync's loop: an SREM is sent if and only if the GET found no key, and decides alone whether the member stays; a failed GET ends Sync, a failed SREM does not |
| SessionManager.Manager.Delete | core/session/manager.go:52-68 | fails for a sid that was already dead for good, succeeds for one whose key was there at the call and lasts, of a user on whom nothing else runs, if no command fails, and without a failed command never fails after deleting; on success the sid is dead for good, whatever ran beside it, an SREM was sent for it and for every other dead member of its user's set, and the set loses exactly those whose SREM Redis ran |
| SessionManager.Manager.RenewSession | core/session/manager.go:126-147 | fails for a sid that was already dead for good, succeeds for one whose key was there at the call and lasts, of a user on whom nothing else runs, if no command fails; on success the old sid is dead for good and a never-used sid of the same user replaces it in the user's set, with the requested expiry |
| SessionManager.Manager.Replace | core/session/manager.go:133-146 | once the user is known, the renewal goes through to the new session unless a command fails |
| SessionManager.SyncIsExact | core/session/manager.go:100-123 | if nothing expires during it, a successful Sync leaves exactly u's live sids if and only if Redis ran every SREM it sent, so in particular when none was answered with an error; a Sync that finds every member live sends none and changes nothing |
| SessionManager.SyncFate | core/session/manager.go:110-117 | whatever expires during it, a member dead before a successful Sync is still listed if and only if the SREM sent for it was not run, and every member live at its end is listed |
| SyncRuns.SyncAccounts | core/session/manager.go:103-123 | in every run, whatever else runs and expires, a Sync that walks the whole set alone on u leaves what the SREM steps of that run account for |
| SyncRuns.DeadStaysIffSkipped | core/session/manager.go:110-117 | in every run, a member dead when Sync read the set is still listed at its end if and only if the run skips that member's SREM; a member live at the end always is |
| SyncRuns.SyncExactIffNoneSkipped | core/session/manager.go:100-123 | in every run that keeps the index, if none of u's sids expires meanwhile, Sync ends with exactly u's live sids in the set if and only if the run skips none of its SREMs |
| SessionManager.RefusedRemovalIsSilent | core/session/manager.go:113-117 | from every state in which Sync looks at a dead last member, it can go on to success with that member still in the set |
| SessionManager.Commanded | core/session/manager.go:29-147 | whatever others do before it, and whether or not it is carried out and answered, a command of an operation keeps all invariants and leaves other users' sets alone |
| Authorization.AuthorizationServer.Authorize | extauth/server/middleware.go:15-72 | no cookie attribute gives KO and no store command; a sid dead for good is denied; one whose key was there at the call and lasts, of a user on whom nothing else runs, gets OK if no command fails, on both routes; every OK carries the user of the incoming sid, which was live at the TTL check, with that sid if more than the refresh threshold was left and else a never-used sid of the same user (the old one dead) whose Set-Cookie header is the printed cookie, which FindAttribute reads back; a sid handed out is a live session of that user, a new one with 24 hours from its making; after a sign-out both sids are dead and the cookie reads "deleted" |
| Authorization.AuthorizationServer.Refresh | extauth/server/middleware.go:33-46 | a session with more than the threshold left is kept, another one replaced by a new one that outlasts it; it fails only if a command fails or the session ends |
| Authorization.RenewalIsDue | extauth/server/middleware.go:33-46 | the incoming session is left alone exactly when it has an expiry at least 30.5 seconds away: rounded seconds, and missing or unlimited keys, fall on the renewal side |
| Authorization.AuthorizationServer.Forget | extauth/server/protectedHandlers.go:28-51 | without a session header, or for one that was already dead for good, it denies; for one whose key was there at the call and lasts, of a user on whom nothing else runs, it answers OK if no command fails; OK means the header's sid is dead for good, the other headers are kept and the cookie header is the deleted cookie |
| Cookies.FindAttribute | core/cookies/cookies.go:49-78 | the scanning loop with its early returns computes the specification `Find` on every header and key |
| Cookies.FindInHeader | core/cookies/cookies.go:53-77 | on any header of well-formed pairs the answer is the value of the first pair whose text contains the key ignoring case, or none |
| Cookies.FindNamed | core/cookies/cookies.go:48-78 | a pair's own name gives its own value back if and only if no earlier pair's text contains the name, or the first that does has the same value |
| Cookies.EarlierPairCanHide | core/cookies/cookies.go:57 | a header of two well-formed pairs whose second value is not found under its name |
| Cookies.FindRecoversValue | core/cookies/cookies.go:25-35 | FindAttribute gives v back from GetValue(k, v, e), for every domain and lifetime |
| Cookies.FindRecoversDeleted | core/cookies/cookies.go:39-46 | FindAttribute gives "deleted" back from DeleteCookie(k), for every domain |
| Cookies.SplitHead | core/cookies/cookies.go:53 | splitting at a separator after separator-free text gives that text and then the pieces of the rest |
| CookieText.FindIff | core/cookies/cookies.go:49-78 | for every header and key, a value is found exactly if the first piece that contains the key ignoring case reads name=value when trimmed, with no '=' in the name and the value not empty |
| CookieText.CookieHasItsAttributes | core/cookies/cookies.go:25-35 | a printed cookie is key=value with Domain, Path, Max-Age in seconds, Secure and HttpOnly, and fails exactly without a key or a value |
| CookieText.DeletedCookieHasItsAttributes | core/cookies/cookies.go:39-46 | a deleted cookie is key=deleted with Domain, Path and an expiry in 1970, and fails exactly without a key |
| CookieText.ItoaReadsBack | core/cookies/cookies.go:32 | the printed number reads back as the number, with a minus sign exactly if negative |
| CookieText.SecondsTruncate | core/cookies/cookies.go:31-32 | the lifetime is printed in whole seconds, truncated toward zero |
| CookieText.SplitGivesThePieces | core/cookies/cookies.go:53 | the pieces hold no separator and, joined by it, give the text |
| CookieText.TrimTakesOuterSpace | core/cookies/cookies.go:56 | trimming takes all white space off both ends and nothing else |
| CookieText.LowerIsAscii | core/cookies/cookies.go:57 | lower-casing maps the 26 capitals to their small letters and leaves the rest |
| Base64.EncodeIsUrlForm | extauth/pkg/codeverifier/codeverifier.go:67-73 | for every byte sequence, the three rewrites of padded standard base64 equal the direct definition of unpadded base64url: the bits cut into groups of six, zero-filled at the end |
| Base64.DecodeUndoesEncode | extauth/pkg/codeverifier/codeverifier.go:67-73 | decoding the encoded form gives back every byte sequence |
| Base64.EncodeIsInjective | extauth/pkg/codeverifier/codeverifier.go:67-73 | different byte sequences have different encodings |
| Base64.EncodeShape | extauth/pkg/codeverifier/codeverifier.go:67-73 | n bytes give exactly ceil(4n/3) characters, all unreserved |
| Base64.GroupsAreSextets | extauth/pkg/codeverifier/codeverifier.go:68 | the encoder's byte arithmetic yields the groups of six bits of the message's bit string |
| Base64.AlphabetsAreTheTables | extauth/pkg/codeverifier/codeverifier.go:68-70 | both alphabets are tables 1 and 2 of RFC 4648, character by character |
| Base64.TestVectors | extauth/pkg/codeverifier/codeverifier.go:67-73 | the test vectors of section 10 of RFC 4648, without padding |
| CodeVerifier.RandomBytes | extauth/pkg/codeverifier/codeverifier.go:76-96 | the chunked loop ends; it succeeds if and only if some whole number of chunks the source can fill holds enough accepted bytes, and then returns the first `length` accepted bytes mapped to the charset |
| CodeVerifier.RunsDry | extauth/pkg/codeverifier/codeverifier.go:82-84 | a chunk the source cannot fill before enough bytes were accepted means that no number of chunks would have been enough |
| CodeVerifier.SymbolsAreUniform | extauth/pkg/codeverifier/codeverifier.go:86-88 | each of the 62 symbols stands for exactly four accepted byte values |
| CodeVerifier.SymbolIsInCharset | extauth/pkg/codeverifier/codeverifier.go:77-88 | a byte is accepted exactly below 248, and gives the character at its remainder by 62 of the charset as written |
| CodeVerifier.SymbolsAreTheGoodOnes | extauth/pkg/codeverifier/codeverifier.go:85-93 | what is drawn has one symbol for each byte below 248, in the order of the bytes |
| CodeVerifier.EnoughMeans | extauth/pkg/codeverifier/codeverifier.go:80-95 | the source suffices exactly if some whole number of chunks it can fill holds as many bytes below 248 as asked for |
| CodeVerifier.CreateCodeVerifierFromBytes | extauth/pkg/codeverifier/codeverifier.go:45-49 | the verifier decodes to the given bytes, and has the length and alphabet of base64url |
| CodeVerifier.CreateCodeVerifierWithLength | extauth/pkg/codeverifier/codeverifier.go:33-42 | fails exactly for a length outside 32..96 or a failing source; otherwise exactly ceil(4n/3) characters, 43 to 128, all unreserved, which decode to the first n symbols drawn |
| CodeVerifier.CodeChallengeS256 | extauth/pkg/codeverifier/codeverifier.go:61-65 | the challenge has 43 unreserved characters and decodes to the digest |
| KeyedLock.StepKeepsInv | backend/pkg/lock/lock.go:25-49 | every step keeps the mutex table injective and each mutex's fields equal to the numbers of its readers, writers and claiming writers |
| KeyedLock.WriterExcludes | backend/pkg/lock/lock.go:25-34 | a thread that holds a key for writing is the only holder of that key |
| KeyedLock.BlockedBySameKeyOnly | backend/pkg/lock/lock.go:25-49 | a waiting caller is blocked if and only if another caller of the same key stands in its way, so holders of other keys never block it |
| KeyedLock.OneMutexPerKey | backend/pkg/lock/lock.go:26-27 | in every run a key keeps its first mutex, and every caller of the key uses that one |
| KeyedLock.ThreadsFollowTheirCalls | backend/pkg/lock/lock.go:25-49 | in every run, each thread has the key and the mode of its last call and stands where its own steps since then have led it: two waits for Lock, one for RLock |
| KeyedLock.ReadersShare | backend/pkg/lock/lock.go:40-49 | in every run in which a key was asked for by RLock only, no caller of the key waits |
| KeyedLock.CallsAndLeavesNeverWait | backend/pkg/lock/lock.go:25-49 | calling, finding the mutex and unlocking are always possible |
| KeyedLock.NeverStuck | backend/pkg/lock/lock.go:25-49 | while anyone has called, some caller can go on |
| SendOrder.StepKeepsInv | backend/pkg/chat/usecase/usecase.go:66-90 | every step of every sender and of the lock keeps: only the last ZADD of a conversation can await its PUBLISH, its sender is between the two, and what was published is what the log says |
| SendOrder.PublishedInZAddOrder | backend/pkg/chat/usecase/usecase.go:66-90 | in every state of every interleaving of any number of senders, the channel holds the sent entries of the log in its order, only the log's last entry can be pending, and with none dropped and no sender under way it holds all |
| SendHistory.PublishedAsStored | backend/pkg/chat/usecase/usecase.go:66-90 | by the steps of the run alone: what was published to a conversation's channel is, in that order, part of what its ZADDs stored; if no ZADD and no PUBLISH failed it lacks at most the last, and nothing once no sender is under way |
| SendHistory.StoreIsHistory | backend/pkg/chat/usecase/usecase.go:81-89 | in every run, the log is the payloads of the ZADDs that ran and the channel those of the PUBLISHes delivered, each as called with, in the order of the run |
| SendHistory.JobIsItsSend | backend/pkg/chat/usecase/usecase.go:66 | a sender carries the conversation and payload of its last call |
| SendHistory.SendersFollowSendMessage | backend/pkg/chat/usecase/usecase.go:66-90 | in every run, an answered ZADD leads to PUBLISH and a failed one to the unlock, as does every PUBLISH |
| SendHistory.NeverStuck | backend/pkg/chat/usecase/usecase.go:66-90 | in every run, while a message is being sent some sender or holder can go on, and a sender past the lock can always |
| SendHistory.WaitsForItsConversation | backend/pkg/chat/usecase/usecase.go:67-74 | in every run, a sender waits only for someone who locked the messages of the same conversation |
| SendOrder.Alone | backend/pkg/chat/usecase/usecase.go:70-74 | two senders between Lock and unlock are on different conversations |
| ChatKeys.KeysAreInjective | backend/pkg/chat/conversation/conversation.go:128-151 | each of the five key functions gives different ids different keys |
| ChatKeys.KeyFamiliesMeet | backend/pkg/chat/conversation/conversation.go:128-151 | keys of different families differ for all ids, but for the two cases below |
| ChatKeys.ActiveCollides | backend/pkg/chat/conversation/conversation.go:134-151 | an active-conversation key is a messages key exactly for a user x:messages and the conversation activex, for some x |
| ChatKeys.LastReadCollides | backend/pkg/chat/conversation/conversation.go:134-146 | a last-read key is a messages key exactly for a user x:messages and the conversation last_read:x, for some x, or for messages and last_read |
| ChatKeys.KeysCollide | backend/pkg/chat/conversation/conversation.go:134-151 | ids for each of the three collisions |
| ChatKeys.UuidKeysDiffer | backend/pkg/chat/conversation/conversation.go:134-151 | neither collision happens for a conversation id of 36 characters and a user id without a colon |
| Chat.ZAddKeeps | backend/pkg/chat/usecase/usecase.go:81-85 | adding a message keeps the set sorted by (score, member) with one entry for each member, gives the member its new score and touches no other |
| Chat.LessIsLexicographic | backend/pkg/chat/usecase/usecase.go:81-85 | members of equal score are ordered lexicographically |
| Chat.UnixRoundsDown | backend/pkg/chat/usecase/usecase.go:82 | scores are whole seconds, rounded down |
| Chat.VisibleIsSuffix | backend/pkg/chat/usecase/usecase.go:111-117 | the messages from a score on are a suffix of the sorted set, cut exactly at that score |
| Chat.NewestVisibleIsLast | backend/pkg/chat/usecase/usecase.go:171-186 | if any message is visible, the last message of the conversation is the newest visible one |
| Chat.PageShows | backend/pkg/chat/controller/controller.go:54-69 | for every offset: a page is the slice of the visible messages at that offset, of 10 if there are more, HasMore holds if and only if offset + 10 is below their number, and a page without more reaches the end |
| Chat.PagesFrom | backend/pkg/chat/controller/controller.go:45-69 | paging on from any offset ends and yields exactly the visible messages from there |
| Chat.PagingIsComplete | backend/pkg/chat/controller/controller.go:45-69 | paging from 0 ends and yields exactly the messages scored from the user's joining on, in order, none missed and, with one entry for each member, none repeated |
| Chat.LastPageEndsWithNewest | backend/pkg/chat/usecase/usecase.go:277-294 | a page without a successor ends with the conversation's last message |
| ChatUsecase.Usecase.SendMessage | backend/pkg/chat/usecase/usecase.go:76-88 | stores the message under its whole-second score, changes nothing else and keeps the store's invariant |
| ChatUsecase.StoredSays | backend/pkg/chat/usecase/usecase.go:81-85 | storing a message leaves its text with exactly one entry, at its whole second, all other entries as they were, and every other conversation, replica and active conversation untouched |
| ChatUsecase.SentSays | backend/pkg/chat/controller/controller.go:22-43 | sending adds one to the replica of every participant whose active conversation is not this one and changes no other replica |
| ChatUsecase.CreatedSays | backend/pkg/chat/usecase/usecase.go:132-150 | creating files the very conversation with each participant and changes nothing else |
| ChatUsecase.MarkedReadSays | backend/pkg/chat/usecase/usecase.go:191-214 | reading sets the one count to zero and changes nothing else |
| ChatUsecase.WithLastSays | backend/pkg/chat/usecase/usecase.go:171-186 | what is handed out is the replica with the text of the last entry as its last message, if there is one, and all else as stored |
| ChatUsecase.Usecase.GetMessages | backend/pkg/chat/usecase/usecase.go:93-129 | fails exactly without a replica or participation; else the range from the joining second on, one more than a page |
| ChatUsecase.Usecase.CreateConversation | backend/pkg/chat/usecase/usecase.go:132-150 | for every conversation and whatever the map order, files it with each participant, over what was filed there, and nothing else; a new id and participants under their own ids keep the store's invariant |
| ChatUsecase.Usecase.GetConversation | backend/pkg/chat/usecase/usecase.go:163-189 | the user's replica with the conversation's newest message, or an error exactly when there is no replica |
| ChatUsecase.Usecase.ReadConversationMessages | backend/pkg/chat/usecase/usecase.go:191-214 | sets the one replica's unread count to zero and nothing else; without a replica it fails and changes nothing |
| ChatUsecase.Usecase.GetConversationsWithUser | backend/pkg/chat/usecase/usecase.go:260-321 | whatever the hash order, lists exactly the user's replicas that contain the target (all of them for ""), each once, with the newest message |
| ChatUsecase.Usecase.GetConversationInactiveUsers | backend/pkg/chat/usecase/usecase.go:323-351 | exactly the participants who have no active conversation or another one, each once; an error exactly when the sender has no replica |
| ChatUsecase.Usecase.IncrementInactiveUserMsgsCount | backend/pkg/chat/usecase/usecase.go:353-379 | adds one to the one replica's count and nothing else; an error exactly when there is no replica |
| ChatUsecase.Controller.SendMessage | backend/pkg/chat/controller/controller.go:22-43 | stores the message and counts it once for every participant who is away; for a sender without a replica it fails after storing |
| ChatUsecase.Controller.GetMessages | backend/pkg/chat/controller/controller.go:45-69 | the page that `PageShows` describes, or an error exactly when there is no replica |
| ChatUsecase.SentFits | backend/pkg/chat/controller/controller.go:22-43 | sending keeps replicas agreeing, filed with every participant, and messages sorted |
| ChatUsecase.CreatedFits | backend/pkg/chat/usecase/usecase.go:132-150 | so does creating a conversation with a new id |
| ChatUsecase.Service.GetConversationWithUser | backend/pkg/service/v1/chat.go:579-610 | finds a conversation if and only if one of the user's replicas has exactly the two distinct participants, and returns such a one, whatever the iteration orders |
| SameSlice.SameStringSlice | backend/helpers/testing.go:201-223 | true if and only if the slices are equal as multisets, for all slices |
| SameSlice.CountDown | backend/helpers/testing.go:211-220 | taking one more element off the tally: a missing entry refutes equality, otherwise the tally stays the exact multiset difference |
| ChatRuns.ActiveTold | backend/pkg/chat/usecase/usecase.go:152-160 | after every operation, a user's active conversation is the last one the user set and has not deleted since, whatever else was done |
| ChatRuns.StepTells | backend/pkg/chat/usecase/usecase.go:132-214 | every operation keeps: open conversations, replicas and unread counts are those the history prescribes |
| ChatRuns.UnreadCountsMissedSends | backend/pkg/chat/controller/controller.go:22-43 | after every sequential run, exactly the participants hold replicas, and u's unread count for c is the number of sends to c since u's last read or the creation at which u's active conversation was not c, the sender's own copy included |
| ChatRuns.LastMessageEndsLastPage | backend/pkg/chat/usecase/usecase.go:171-186 | after every sequential run, if a user's last page holds a message, its last one is the LastMessage handed out with the conversation |
| ChatRuns.PagesRepeatNothing | backend/pkg/chat/controller/controller.go:45-69 | after every sequential run, paging gives a participant no message twice |
| ChatRuns.LogIsWhatWasSent | backend/pkg/chat/usecase/usecase.go:66-90 | after every sequential run, a conversation's messages are exactly the texts sent to it, each with the second of its last sending |
| ChatRuns.PagesShowWhatWasSent | backend/pkg/chat/controller/controller.go:45-69 | after every sequential run, paging gives a participant a text exactly if it was sent to the conversation from the second of joining on |
| ChatRuns.ReplicaIsAsCreated | backend/pkg/chat/usecase/usecase.go:132-150 | after every sequential run, a replica is the conversation as created for the user, but for its count |
| ChatRuns.ParticipantsSucceed | backend/pkg/chat/controller/controller.go:22-43 | after every sequential run, whoever was made a participant can send to the conversation and read it |
| Replicas.StepKeepsInv | backend/pkg/chat/usecase/usecase.go:132-150 | every HGET, HSET, return and abandonment keeps each replica, stored or held by a goroutine, equal to the conversation as created but for a count within its bounds |
| Replicas.ReplicasAgree | backend/pkg/chat/usecase/usecase.go:191-379 | in every state of every interleaving the replicas of a conversation agree on everything but the count, store no last message, and each count is between 0 and the increments completed |
| Replicas.CountAddsOneIff | backend/pkg/chat/usecase/usecase.go:353-379 | an increment's HSET adds exactly one to the stored count if and only if its copy is still what is stored |
| Replicas.ReadTakesItsCopyIff | backend/pkg/chat/usecase/usecase.go:191-214 | a read's HSET leaves zero, and takes away exactly what its copy counted if and only if the copy is still what is stored |
| Replicas.ExactIffNoStaleCount | backend/pkg/chat/usecase/usecase.go:191-379 | in every interleaving, from an exact state on, a replica's count is at every step the number of increments completed since its last completed read if and only if no increment writes back a stale copy of it |
| Replicas.OneAtATimeCountsExactly | backend/pkg/chat/usecase/usecase.go:191-379 | in every interleaving in which a replica is fetched only while no other operation holds a copy of it, its count is always that number |
| ReplicaHistory.ThreadsDoAsTheyBegan | backend/pkg/chat/usecase/usecase.go:191-379 | in every run, each goroutine is at the creation, increment or read it last began |
| ReplicaHistory.StateIsHistory | backend/pkg/chat/usecase/usecase.go:132-379 | in every run, a replica exists exactly if it was filed, and the numbers of completed increments, in all and since the last completed read, are those of the run's steps |
| ReplicaHistory.ReplicasAreAsFiled | backend/pkg/chat/usecase/usecase.go:132-150 | in every run, a replica is some created conversation but for its count, which the completed increments bound |
| ReplicaHistory.OneAtATimeCountsHistory | backend/pkg/chat/usecase/usecase.go:191-379 | by the steps of the run alone: fetched by one operation at a time, the count is the number of increments completed since the last completed read |
| ReplicaHistory.NothingWaits | backend/pkg/chat/usecase/usecase.go:132-379 | creations, fetches and write-backs are always possible |
| Replicas.IncrementsCanBeLost | backend/pkg/chat/usecase/usecase.go:353-379 | from every state with a replica and two free threads, two increments can complete and count for one |
| Likes.PostsTable.LikePost | backend/pkg/service/v1/posts.go:232-287 | toggles the one user on the one post, changes nothing on error, and the user likes the post afterwards exactly if not before |
| Likes.PostsTable.LikeOrDislikePost | backend/pkg/service/v1/posts.go:294-307 | the flag alone decides between removing and adding; afterwards the user likes the post exactly if the flag said not, and a flag that agrees with the row toggles it; an error, changing nothing, for a missing row or a counter at the end of its range |
| Likes.LikesCountOddTogglers | backend/pkg/service/v1/posts.go:232-307 | after every run on a new post, likes is the length of the array, the array repeats nobody and holds exactly the users who toggled an odd number of times |
| Likes.NoneRefused | backend/pkg/service/v1/posts.go:232-307 | a new post refuses no toggle in its first 2147483647 calls |
| Likes.TwoTogglesRestore | backend/pkg/service/v1/posts.go:294-307 | on any row, two toggles by one user restore the count and who likes the post; they restore the array up to order exactly when it lists the user at most once |
| Follows.FollowsTable.IsFollowingUser | backend/follows/queries.sql.go:214-228 | whether a row of the pair has no unfollow date or a later follow date |
| Follows.FollowsTable.FollowUser | backend/pkg/service/v1/auth.go:789-863 | toggles the one pair and keeps one row per pair; an error, changing nothing, exactly for an unknown user; isFollowed on the returned row is what IsFollowingUser says of the new table |
| Follows.UpsertKeeps | backend/follows/queries.sql.go:12-18 | the upsert keeps one row per pair, dates the pair's row, keeps its unfollow date and changes no other pair |
| Follows.SetUnfollowKeeps | backend/follows/queries.sql.go:230-238 | the update keeps one row per pair, sets the pair's unfollow date and changes no other pair |
| Follows.RowOfIsTheRow | backend/follows/helpers.go:32-38 | with one row per pair, the SQL predicate over the table is isFollowed of the pair's row |
| Follows.ToggleFlipsIff | backend/pkg/service/v1/auth.go:849-863 | one toggle flips the pair if and only if its instant is not before the follow it ends, or is after the unfollow it overrides; all other pairs stay as they are |
| Follows.FollowsIffToggledOddly | backend/pkg/service/v1/auth.go:789-863 | after every run at increasing instants there is at most one row per pair, and a pair follows if and only if it was toggled an odd number of times |
| Follows.SameInstantDoesNotTake | backend/pkg/service/v1/auth.go:849-863 | at one instant, the third toggle of a pair leaves it unfollowed |

## Left out

- Encodings: gob, base64 of users, messages and conversations, JSON and protobuf are taken as faithful; a user stands for its encoding, a message carries its encoded form, and decode failures do not occur.
- Foreign services: the real Redis and Postgres, gRPC streams, pub/sub delivery, e-mail, OAuth, Stripe and Kubernetes; Redis and the tables are in-memory structures whose commands are atomic.
- Fresh ids: KSUIDs and UUIDs are taken to be new whenever generated, and sids to differ from user ids, so a sid and a user's set never share a Redis key.
- Time: instants are integers (ms for sessions, ns for chat, the table's own precision for follows); Redis rounds TTLs to seconds as the server does, and time never runs backwards.
- SessionManager.Redis.Pause: excludes, for users the caller is alone on, other operations on the same users; a SetNew that overlaps a Sync of the same user is covered by SessionStore, where it breaks the index.
- SessionManager.Manager.Sync: a reply to SREM is logged truthfully or as an error, never as a false success. It says nothing about the user's set when other operations on the same user run meanwhile, beyond the invariants that hold in every run.
- SessionManager.Manager.RenewSession: an error leaves the invariants, but which of its commands ran before it is not part of its contract.
- Authorization.AuthorizationServer.Authorize: routes other than the default one and sign-out, the Envoy request and response types, and the wording of errors are not modelled.
- KeyedLock.BlockedBySameKeyOnly: the lock is a transition system and not a class, because a call that blocks is not a terminating method; the order in which waiting threads are woken and fairness are not modelled, nor is the error for a foreign map value, since only mutexes are ever stored.
- SendOrder.PublishedInZAddOrder: assumes that other users of the same lock take messages keys for reading only, as GetMessages does.
- ChatUsecase.Usecase: its methods run one after the other with every Redis command answered; interleavings are in SendOrder and Replicas. The encoding of keys is left to ChatKeys.
- ChatUsecase.Usecase.CreateConversation: promises the store's invariant only for participants filed under their own ids and an unused conversation id, as conversation.New makes them; New's own loop and its creation times are not modelled.
- ChatUsecase.Usecase.SendMessage: takes no lock, publishes nothing and meets no failing command; the lock, the PUBLISH and their failures are those of SendOrder.
- ChatUsecase.Usecase.GetConversationsWithUser: GetConversations is its case for an empty target and has no member of its own.
- Scores: whole seconds, exact in the float64 that Redis uses below 2^53; unread counts do not wrap at 64 bits.
- ListenForMessages: it records the active conversation under the channel instead of the user (backend/pkg/service/v1/chat.go:57), so the unread counts are stated for the usecase operations.
- MaxChatMessages: nothing enforces it (backend/pkg/chat/conversation/conversation.go:19).
- Cookies: case folding and white space are those of ASCII text.
- CodeVerifier.RandomBytes: requires a positive length, since its one caller passes 32 to 96; the random source is a finite byte sequence, so a source that never yields enough accepted bytes runs dry and does not loop for ever.
- CodeVerifier.CodeChallengeS256: SHA-256 itself; the digest is any 32 bytes.
- Concurrent LikePost and FollowUser calls: check and update are separate queries, so both are stated for calls one after the other; a NULL likes column, user ids over 100 characters and post retrieval after the toggle are not modelled.
- Comment likes: the service never checks for an earlier like, so the post invariant does not carry over.
- Follower lists and counts: an unparenthesised OR in their queries (backend/follows/queries.sql.go:71-72) also admits rows of other users; only IsFollowingUser is modelled.
- Notifications, posts, payments, user accounts and configuration: easy members, or decided outside this repository.

# Verification of onlyApi's state machines and codecs

A Dafny 4.11 model of the parts of onlyApi that keep state or transform data, with proofs of what
they promise. `dafny verify dfyconfig.toml` checks everything.

Factories that close over mutable variables, and repositories over a table, are classes whose methods
do what the code does, step by step; a table is a map of rows. The contract of each method ties its
new state to a function of the old one, and the theorems are about runs of those functions: sequences
of requests, or of store calls in any interleaving, of any length. Time is an argument of every
operation, in milliseconds.

| file | what it models |
|---|---|
| `SessionStores.dfy`, `Sessions.dfy` | refresh-token families, token blacklist, signed tokens, and the session requests of the auth service |
| `SessionSafety.dfy` | whole runs of atomic session requests |
| `SessionInterleaving.dfy` | the same requests cut at every `await` |
| `SessionRevocation.dfy`, `SessionOverlap.dfy` | which tokens can still be exchanged in a given state of that model, and a run in which two refreshes overlap |
| `CircuitBreakers.dfy` | the circuit breaker under calls that overlap |
| `JsBits.dfy`, `Base32.dfy`, `Totp.dfy` | JavaScript's 32-bit operators, the base32 codec and one-time passwords |
| `Globs.dfy`, `Caches.dfy`, `Resp.dfy` | glob deletion, expiring entries and the Redis wire format |
| `Lockouts.dfy`, `LoginOverlap.dfy` | account lockout in three adapters, with atomic logins and with logins cut at the password check |
| `RateLimits.dfy`, `JobQueues.dfy` | the rate limiter in two forms, the job queue |
| `Pagination.dfy` | cursor pages of the user list |
| `VerificationTokens.dfy`, `TokenOverlap.dfy`, `IssueOverlap.dfy` | one-time verification tokens in two repositories, Postgres verify cut at its `await`, and issuing cut between withdrawal and store |
| `Base.dfy`, `Radix.dfy`, `Decimal.dfy` | shared datatypes, positional notation, decimal numerals |

What the model takes for granted:

- The clock does not go back, and store calls succeed.
- SHA-256 is injective, and generated tokens and ids are new.
- Nobody can make up a signature: a text that verifies carries claims that were signed here. A signed
  token is a function of its claims, but it has many accepted texts, because `verifyJwt` compares
  decoded signature bytes; the model numbers them, 0 being the one that `createJwt` writes.
- No two pairs are signed for one user and role within one second. The payload has no nonce, so they
  would be the same text.
- HMAC-SHA-1 is any function to twenty bytes; `btoa` and `atob` undo each other.
- No account is deleted during a run.

Where the code falls short of its documentation or of what a caller would expect, the model follows
the code, and the exact condition is a theorem:

- One-time use holds exactly if a refresh token lives at most the seven days of its blacklist row, and at
  most fifteen minutes unless logout never gets a refresh token in the place of the access token, and
  tokens are submitted in the text in which they were handed out; or if they live at most one second
  (`SessionSafety.OneTimeUseExactly`). Permanent revocation needs the same, or that tokens cannot be
  exchanged at all (`SessionSafety.PermanentRevocationExactly`). The default of seven days just meets
  the first bound; nothing in the code enforces the other two conditions.
- In another text, with white space after the signature say, a token is neither blacklisted nor in a
  family, so it is exchanged again, and also after a password reset (`SessionSafety.OtherTextReplay`,
  `SessionSafety.OtherTextDefeatsRevocation`).
- docs/authentication.md:103-107 says that replaying an exchanged token revokes its family. The
  blacklist answers first, and nothing is revoked (`SessionSafety.ReplayIsInert`).
- Two refreshes of one token that overlap both succeed, and the losing pair belongs to no family and
  survives a password reset (`SessionInterleaving.OverlapExchangesTwice`,
  `SessionOverlap.OverlapDefeatsRevocation`). Exactly which tokens can still be exchanged in a state,
  and which ones a revocation leaves exchangeable, is told for every configuration by
  `SessionRevocation.ExchangeableExactly` and `SessionRevocation.RevocationReachesExactly`.
- Two requests for a reset link that overlap leave two usable tokens, in both repositories; exactly when
  is `IssueOverlap.TwoUsableExactly`.
- Any number of logins can be under way when an account locks, and all of them still get their password
  checked (`LoginOverlap.LockAdmitsNoCheck`, `LoginOverlap.AnyNumberBegins`).
- forgotPassword is meant to hide whether an email exists, but answers a known one with the token and an
  unknown one with an empty text (`VerificationTokens.AnswersAlikeExactly`).
- In the Postgres repository two overlapping verifies can both accept one token; exactly when is
  `TokenOverlap.SecondVerifyExactly`. The SQLite repository has no await there.
- A search that contains `%` or `_` selects more from SQLite than from memory
  (`Pagination.SearchAgreesExactly`), and with a limit of -1 the two build different pages
  (`Pagination.SqlitePageIsSame`).
- Pages skip users when a page ends between equal timestamps (`Pagination.WalkExactly`).
- `incr` on an expired entry writes to a dead entry (`Caches.AlikeExactly`), `*` does not
  match line terminators (`Globs.StarStopsAtLines`), and a reply with non-ASCII text is cut at the
  wrong place (`Resp.BulkReplyRoundTrip`).
- The comment in processJob announces waits of 1, 2, 4 seconds; the first retry waits 2 seconds, because
  the attempt is counted before the power is taken (`JobQueues.AttemptsAndBackoff`).
- The comment above `dynamicTruncate` names section 5.4 of RFC 4226; the truncation is defined in
  section 5.3.

## Model

| member | source | states |
|---|---|---|
| `SessionStores.SqliteRefreshTokenStore.CreateFamily` | src/infrastructure/database/sqlite-refresh-token-store.ts:57-66 | the table gains one unrevoked family with that hash; nothing else changes |
| `SessionStores.SqliteRefreshTokenStore.Rotate` | src/infrastructure/database/sqlite-refresh-token-store.ts:68-83 | compare-and-swap: the hash moves on, and true is answered, exactly when the family still has the old hash; `revoked` is untouched |
| `SessionStores.SqliteRefreshTokenStore.FindByTokenHash` | src/infrastructure/database/sqlite-refresh-token-store.ts:85-92 | a family with that current hash, if and only if there is one |
| `SessionStores.SqliteRefreshTokenStore.RevokeFamily` | src/infrastructure/database/sqlite-refresh-token-store.ts:94-101 | the family, if present, becomes revoked; nothing else changes |
| `SessionStores.SqliteRefreshTokenStore.RevokeAllForUser` | src/infrastructure/database/sqlite-refresh-token-store.ts:103-110 | all families of the user, and no others, become revoked |
| `SessionStores.SqliteRefreshTokenStore.Prune` | src/infrastructure/database/sqlite-refresh-token-store.ts:112-120 | exactly the rows last updated before the cutoff go, and their number is returned |
| `SessionStores.SqliteTokenBlacklist.Add` | src/infrastructure/database/sqlite-token-blacklist.ts:20-27 | insert or ignore: an existing row, even an expired one, keeps its expiry |
| `SessionStores.SqliteTokenBlacklist.IsBlacklisted` | src/infrastructure/database/sqlite-token-blacklist.ts:29-36 | a row is in force while its expiry lies ahead |
| `SessionStores.SqliteTokenBlacklist.Prune` | src/infrastructure/database/sqlite-token-blacklist.ts:38-45 | exactly the rows that are no longer in force go, and their number is returned |
| `SessionStores.ExpiryIsFloored` | src/infrastructure/security/token-service.ts:82-87 | the comparison in floored seconds accepts a token exactly until millisecond 1000(exp + 1) |
| `SessionStores.PairVerifies` | src/infrastructure/security/token-service.ts:90-107 | a signed pair verifies, each token for the lifetime of its kind and through the whole last second, the access token never as a refresh token |
| `SessionStores.BlacklistPruningIsInvisible` | src/infrastructure/database/sqlite-token-blacklist.ts:11-45 | pruning never changes what is in force afterwards and leaves no ended row |
| `Sessions.AuthService.Sign` | src/infrastructure/security/token-service.ts:95-107 | the two texts are determined by user, role, kind and second, and their claims, with the expiry in floored seconds, are signed from then on |
| `Sessions.AuthService.CreateTokens` | src/application/services/auth.service.ts:140-149 | a new session is a signed pair, handed out, and one family holding the hash of its refresh text; current hashes stay unique |
| `Sessions.AuthService.Refresh` | src/application/services/auth.service.ts:271-316 | blacklist, revoked family and signature are checked in this order, the first two by the submitted text and the last by what it reads as; only an accepted token changes the blacklist, the signed claims and its family; a current text of a revoked family revokes the whole user |
| `Sessions.AuthService.Logout` | src/application/services/auth.service.ts:318-345 | both submitted strings are blacklisted, for 15 minutes and 7 days, and the family found by the refresh token is revoked |
| `Sessions.AuthService.RevokeSessions` | src/application/services/auth.service.ts:435-436 | the revocation step of resetPassword reaches every family of the user and nothing else |
| `Sessions.AuthService.PruneSessions` | src/main.ts:418-437 | a pruning tick drops ended blacklist rows and families idle for 30 days |
| `Sessions.LogoutLists` | src/application/services/auth.service.ts:326-332 | after logout a text not listed before is in force for exactly 900000 ms as access token and 604800000 ms as refresh token |
| `Sessions.CoversInSeconds` | src/application/services/auth.service.ts:306-332 | the lifetime bound in seconds: 604800, and 900 where logout may get a refresh token as access token |
| `Sessions.PruningKeepsThirtyDays` | src/main.ts:418-437 | a tick leaves exactly the families updated within 2592000000 ms, unchanged |
| `SessionSafety.InvStep` | src/application/services/auth.service.ts:271-345 | where tokens are short-lived enough and submitted as written, every session request keeps the invariant: each refresh token that is neither expired, nor blacklisted past its expiry, nor down to a used-up last second is the current token of exactly one family, of its own user |
| `SessionSafety.InvAt` | src/infrastructure/database/sqlite-refresh-token-store.ts:45-120 | the invariant holds before every request of every such run |
| `SessionSafety.OneTimeUse` | docs/authentication.md:94-104 | in every such run a signed refresh token exchanged once is never exchanged again, in whatever text, whatever logins, logouts, resets and prunings come between |
| `SessionSafety.RevocationIsPermanent` | src/application/services/auth.service.ts:407-440 | after a password reset, or after reuse was detected, no refresh token of the user signed until then is ever exchanged, in whatever text, even when the revoked rows have been pruned |
| `SessionSafety.LogoutIsFinal` | src/application/services/auth.service.ts:318-345 | a refresh token given to logout is never exchanged afterwards, and its family is revoked |
| `SessionSafety.ReplayIsInert` | src/application/services/auth.service.ts:271-316 | presenting an exchanged token again changes no table; the documentation (docs/authentication.md:103-107) says that the family is revoked |
| `SessionSafety.ReuseNamesOwner` | src/application/services/auth.service.ts:284-297 | reuse is reported for the very user of the presented token |
| `SessionSafety.RevocationSparesFamilies` | src/infrastructure/database/sqlite-refresh-token-store.ts:103-110 | a password reset, or a reuse detected, leaves the families of every other user as they are |
| `SessionSafety.RevocationSparesTokens` | src/infrastructure/database/sqlite-refresh-token-store.ts:103-110 | a token of another user that refresh would accept before it is accepted at that moment still |
| `SessionSafety.HandedOutIsAccepted` | src/application/services/auth.service.ts:271-316 | a refresh token from a login or an exchange is accepted at any time before it expires unless it was presented, given to logout, or its user's sessions were revoked; other users and other sessions make no difference |
| `SessionSafety.OneTimeUseExactly` | src/infrastructure/database/sqlite-token-blacklist.ts:11-45 | over all runs refresh tokens are one-time if and only if they live at most 7 days, at most 15 minutes unless logout is never given one as access token, and are submitted as written; or live at most a second |
| `SessionSafety.PermanentRevocationExactly` | src/infrastructure/database/sqlite-token-blacklist.ts:11-45 | over all runs revocation is permanent if and only if the same holds, or tokens live for no second after the one of their signature |
| `SessionSafety.LongLifeReplay` | src/application/services/auth.service.ts:306-312 | with any lifetime over seven days, a run in which a token is exchanged twice, the second time after a password reset |
| `SessionSafety.MisplacedLogoutReplay` | src/application/services/auth.service.ts:326-332 | the corresponding run for a refresh token in the access-token position of logout, whose expired row keeps later rows out |
| `SessionSafety.OtherTextReplay` | src/infrastructure/security/token-service.ts:74-82 | where other texts can be submitted, a run in which one signed token is exchanged twice |
| `SessionSafety.OtherTextDefeatsRevocation` | src/infrastructure/security/token-service.ts:74-82 | and one in which a token is exchanged after a password reset |
| `SessionSafety.SecondExchangeIsLater` | src/infrastructure/security/token-service.ts:56-59 | in any run two exchanges of one token take two seconds after the one of its signature |
| `SessionInterleaving.LineageStep` | src/infrastructure/database/sqlite-refresh-token-store.ts:57-83 | with refresh cut at every await, each store call keeps every family's hashes a chain without repetition that ends in its current hash, and every pending token in no chain |
| `SessionInterleaving.LineageAt` | src/infrastructure/database/sqlite-refresh-token-store.ts:57-83 | so it is in every reachable state of every interleaving |
| `SessionInterleaving.RotatesOnce` | src/infrastructure/database/sqlite-refresh-token-store.ts:68-83 | for each family and old hash at most one rotate ever succeeds, however requests interleave |
| `SessionInterleaving.ClosedForever` | src/infrastructure/database/sqlite-refresh-token-store.ts:94-110 | a family that is revoked or deleted is never seen unrevoked again, not even by a rotation begun before |
| `SessionInterleaving.TokenInvStep` | src/application/services/auth.service.ts:271-316 | every store call keeps refresh tokens signed at the beginning of their lifetime, and every pair under way that of the same user and role and of a later second than the token it was exchanged for |
| `SessionInterleaving.SecondExchangeOverlaps` | src/application/services/auth.service.ts:271-316 | where tokens are submitted as written and live at most 7 days, once the row of an exchanged token is written, only a refresh that was past the blacklist check for that very token at that moment can exchange it again; or a logout had listed the token before and its row ends first |
| `SessionInterleaving.OverlapExchangesTwice` | src/application/services/auth.service.ts:283-307 | two refreshes past the lookup of one unexpired token both exchange it, in different seconds |
| `SessionInterleaving.OneRotationFails` | src/application/services/auth.service.ts:306-312 | of two such refreshes the second rotation fails, which refresh does not look at |
| `SessionInterleaving.LoserEscapesRevocation` | src/application/services/auth.service.ts:306-312 | the refresh token of the losing pair is the current hash of no family, then or ever after |
| `SessionInterleaving.HomelessIsExchanged` | src/application/services/auth.service.ts:283-300 | a token in no family, or in another text than the written one, passes the family check of refresh whatever has been revoked |
| `SessionRevocation.SoundStep` | src/application/services/auth.service.ts:271-316 | every store call keeps the current hashes of families unique, each that of a refresh token of the family's user which expires within a lifetime of the last update |
| `SessionRevocation.DeadStep` | src/application/services/auth.service.ts:271-345 | a refresh token that cannot be exchanged stays so under every store call of every request, pruning included |
| `SessionRevocation.ExchangeableExactly` | src/application/services/auth.service.ts:271-316 | in every reachable state of every configuration a signed refresh token is exchanged by some continuation, in some text, if and only if it has time left and either other texts of it can be submitted, or a request has looked it up, or it has passed or will pass the blacklist and no revoked family holds it until it expires |
| `SessionRevocation.RevocationReachesExactly` | src/application/services/auth.service.ts:271-316 | after a user's sessions are revoked, by password reset or reuse detection, a refresh token of the user is exchanged by some continuation if and only if, before the revocation, it had time left and other texts could be submitted, or a request had looked it up, or it passed the blacklist and was in no family, or in one that a refresh under way rotates on or that is pruned before the token expires |
| `SessionRevocation.RevocationIsPermanent` | src/application/services/auth.service.ts:407-440 | so where tokens are submitted as written and live less than 30 days, the current token of a stored family that no refresh has under way past its lookup is never exchanged again |
| `SessionRevocation.HomelessSurvives` | src/application/services/auth.service.ts:306-312 | so the pair of a losing refresh, while it has time left and until it is blacklisted, is exchanged after the revocation by some continuation, in every reachable state |
| `SessionRevocation.ListedIsFinal` | src/application/services/auth.service.ts:276-307 | where tokens are submitted as written, a token blacklisted to its end that no refresh has between the blacklist check and the signature is never exchanged again |
| `SessionRevocation.RevocationSparesOthers` | src/infrastructure/database/sqlite-refresh-token-store.ts:103-110 | with requests cut at every await, a revocation leaves the families of other users as they are and their tokens as exchangeable as before |
| `SessionRevocation.ReuseNamesOwner` | src/application/services/auth.service.ts:284-297 | a refresh that finds a revoked family goes on to revoke the sessions of the token's own user |
| `SessionRevocation.LogoutIsFinal` | src/application/services/auth.service.ts:326-332 | where tokens are submitted as written, a token that logout lists for at least its lifetime, with no refresh past the blacklist check then, is never exchanged again |
| `SessionRevocation.LogoutReachesExactly` | src/application/services/auth.service.ts:337-341 | after logout revokes its family a token is exchanged by some continuation if and only if it has time left and other texts can be submitted, or a request had looked it up, or it passes the blacklist and a refresh under way rotates the family on, or the family is pruned in time |
| `SessionRevocation.BlacklistPruningIsInvisible` | src/infrastructure/database/sqlite-token-blacklist.ts:38-45 | pruning the blacklist leaves only rows in force and changes nothing about what can be exchanged |
| `SessionOverlap.OverlapDefeatsRevocation` | src/application/services/auth.service.ts:271-316 | a run that reaches such a state with any lifetime of two seconds or more, every signature in a second of its own: overlapping refreshes exchange one token twice and, after a password reset, a token given out before it |
| `CircuitBreakers.CircuitBreaker.Begin` | src/infrastructure/resilience/circuit-breaker.ts:100-121 | the probe, the rejections in OPEN and HALF_OPEN, and the count of admitted half-open calls |
| `CircuitBreakers.CircuitBreaker.RecordSuccess` | src/infrastructure/resilience/circuit-breaker.ts:44-56 | the whole state after a completion that succeeded, in whatever state it arrives |
| `CircuitBreakers.CircuitBreaker.RecordFailure` | src/infrastructure/resilience/circuit-breaker.ts:58-69 | the whole state after a completion that failed |
| `CircuitBreakers.CircuitBreaker.GetState` | src/infrastructure/resilience/circuit-breaker.ts:72-83 | reading the state may itself move OPEN to HALF_OPEN |
| `CircuitBreakers.CircuitBreaker.Reset` | src/infrastructure/resilience/circuit-breaker.ts:93-98 | CLOSED with every counter but the failure time at zero |
| `CircuitBreakers.InvStep` | src/infrastructure/resilience/circuit-breaker.ts:37-131 | every begin, completion, read and reset keeps the counter invariant, whatever calls of earlier episodes complete |
| `CircuitBreakers.HalfOpenConservation` | src/infrastructure/resilience/circuit-breaker.ts:44-131 | in HALF_OPEN, calls in flight plus successes are the calls admitted in this episode, at most 2T - 1 |
| `CircuitBreakers.RejectionMeansOutstanding` | src/infrastructure/resilience/circuit-breaker.ts:115-121 | a call rejected in HALF_OPEN finds at least T calls of this episode outstanding |
| `CircuitBreakers.CompletionsEndHalfOpen` | src/infrastructure/resilience/circuit-breaker.ts:44-69 | T completions, of whatever calls, always end a HALF_OPEN episode |
| `CircuitBreakers.CountersRefineHistory` | src/infrastructure/resilience/circuit-breaker.ts:44-69 | in CLOSED the failure counter is the number of failures since the last success or reset, below the threshold; successes are 0 outside HALF_OPEN; the failure time is that of the latest failure |
| `CircuitBreakers.OpenHolds` | src/infrastructure/resilience/circuit-breaker.ts:100-113 | without a reset OPEN lasts for the reset timeout after the latest failure and admits no call |
| `CircuitBreakers.OpenEndsOnTime` | src/infrastructure/resilience/circuit-breaker.ts:72-110 | the first read or begin ends OPEN exactly when that timeout has passed |
| `CircuitBreakers.TransitionsExactly` | src/infrastructure/resilience/circuit-breaker.ts:44-110 | the next state from the history alone: CLOSED opens exactly when the failure streak reaches the threshold, OPEN probes exactly when the timeout is over, HALF_OPEN opens with any failure and closes exactly with the T-th completion, reset closes, nothing else changes the state |
| `CircuitBreakers.AdmissionExactly` | src/infrastructure/resilience/circuit-breaker.ts:100-121 | calls run always in CLOSED, after the timeout in OPEN, and in HALF_OPEN while fewer than T of the episode's calls are uncompleted |
| `JsBits.OrFields` | src/infrastructure/security/totp-service.ts:19-26 | `|` on 32-bit fields that do not overlap is their sum |
| `JsBits.AndMask` | src/infrastructure/security/totp-service.ts:19-28 | `&` with 2^k - 1 is the remainder modulo 2^k |
| `Base32.FeedSpells` | src/infrastructure/security/totp-service.ts:19-22 | shifting a digit into the unmasked accumulator, which wraps at 32 bits, extends the number that the output and the pending bits spell by one digit |
| `Base32.DrainSpells` | src/infrastructure/security/totp-service.ts:22-25 | moving the top pending bits to the output leaves that number as it is |
| `Base32.Encode` | src/infrastructure/security/totp-service.ts:15-31 | the loop writes the big-endian number of the bytes, padded with zero bits, in base 32 (section 6 of RFC 4648 without padding characters) |
| `Base32.Decode` | src/infrastructure/security/totp-service.ts:34-50 | the loop reads the digits of the text in upper case, skips other characters, and cuts the number down to whole bytes, whatever toUpperCase does beyond ASCII |
| `Base32.SymbolIsAlphabet` | src/infrastructure/security/totp-service.ts:12-12 | the 32 symbols are those of the alphabet in section 6 of RFC 4648 |
| `Base32.CleaningKeepsDigits` | src/infrastructure/security/totp-service.ts:34-41 | stripping `=` never changes the digits read |
| `Base32.CaseKeepsDecoded` | src/infrastructure/security/totp-service.ts:34-50 | texts that differ only in the case of ASCII letters decode alike |
| `Base32.RoundTrip` | src/infrastructure/security/totp-service.ts:15-50 | decoding an encoding gives back every byte sequence, and n bytes take exactly ceil(8n / 5) characters |
| `Totp.IntToBytes` | src/infrastructure/security/totp-service.ts:53-61 | the buffer is the eight-byte big-endian counter, for a negative number in two's complement |
| `Totp.TruncateIsWindow` | src/infrastructure/security/totp-service.ts:64-77 | the shifted and or-ed bytes are the 31-bit big-endian window of section 5.3 of RFC 4226 |
| `Totp.TimingSafeEqual` | src/infrastructure/security/totp-service.ts:135-142 | the exclusive-or accumulation is equality of strings |
| `Totp.FormattedIsNumeral` | src/infrastructure/security/totp-service.ts:99-123 | a six-digit code equals the zero-padded value exactly when it denotes that number |
| `Totp.Verify` | src/infrastructure/security/totp-service.ts:98-131 | true if and only if the code is six digits that denote the HOTP value, under the decoded secret, of the 30000 ms step of the clock or of a neighbour (section 5.2 of RFC 6238) |
| `Globs.RewriteParses` | src/infrastructure/cache/in-memory-cache.ts:85-95 | the three textual passes yield an expression that parses, character by character, to a literal, a dot or a starred dot |
| `Globs.RewritePreservesMeaning` | src/infrastructure/cache/in-memory-cache.ts:85-95 | for every pattern and key the anchored expression matches exactly when the glob does, wildcards stopping at line terminators; on keys without them, exactly the plain glob |
| `Globs.StarStopsAtLines` | src/infrastructure/cache/in-memory-cache.ts:85-95 | `*` as an expression matches exactly the keys without a line terminator, as a glob all keys |
| `Globs.QuestionMatchesOne` | src/infrastructure/cache/in-memory-cache.ts:85-95 | `?` matches exactly the one-character keys other than the four line terminators |
| `Caches.InMemoryCache.Get` | src/infrastructure/cache/in-memory-cache.ts:24-35 | the value of a live entry, and an expired entry of the key is dropped |
| `Caches.InMemoryCache.Set` | src/infrastructure/cache/in-memory-cache.ts:37-47 | the entry and its expiry; nothing else changes |
| `Caches.InMemoryCache.Has` | src/infrastructure/cache/in-memory-cache.ts:57-68 | whether the entry is live, with the same clean-up as get |
| `Caches.InMemoryCache.Incr` | src/infrastructure/cache/in-memory-cache.ts:70-83 | the new value, kept under the old expiry |
| `Caches.InMemoryCache.DelPattern` | src/infrastructure/cache/in-memory-cache.ts:85-105 | the loop removes exactly the stored keys that the glob matches and returns their number |
| `Caches.RunsAgree` | src/infrastructure/cache/in-memory-cache.ts:20-109 | under a monotone clock, and until an incr meets an entry present but expired, the lazily expiring store and a map that expires eagerly hold the same live entries |
| `Caches.LazyAnswersAreEager` | src/infrastructure/cache/in-memory-cache.ts:20-109 | so until then every get, has and incr answers as the eager map does |
| `Caches.AlikeExactly` | src/infrastructure/cache/in-memory-cache.ts:20-109 | over every run with a monotone clock, get and has of every key answer as the eager map does after each request if and only if no incr met an entry present but expired |
| `Caches.IncrIsLostExactlyOnExpired` | src/infrastructure/cache/in-memory-cache.ts:70-83 | an increment is lost at once if and only if it met an entry present but expired |
| `Caches.FoundExactlyInTime` | src/infrastructure/cache/in-memory-cache.ts:20-68 | in every run with a monotone clock a get or has of a key that nothing wrote or deleted since it was set finds the value if and only if no time to live was given or the time is before the moment of setting plus that time |
| `Caches.LookingDropsTheDead` | src/infrastructure/cache/in-memory-cache.ts:24-68 | a get or has leaves every entry as it was and drops its own key exactly if the entry is over |
| `Resp.EncodeCommand` | src/infrastructure/cache/redis-cache.ts:32-38 | the loop writes the argument count and each argument with its byte length |
| `Resp.Utf8RoundTrip` | src/infrastructure/cache/redis-cache.ts:32-38 | the bytes written for a string are read back as that string |
| `Resp.CommandRoundTrip` | src/infrastructure/cache/redis-cache.ts:32-38 | a length-driven decoder recovers exactly the argument list, of whatever characters, line ends included, and leaves what follows |
| `Resp.CommandInjective` | src/infrastructure/cache/redis-cache.ts:32-38 | two commands with one encoding are the same |
| `Resp.BulkReplyParses` | src/infrastructure/cache/redis-cache.ts:86-98 | a bulk reply that announces n gives the first n characters after its header |
| `Resp.BulkReplyRoundTrip` | src/infrastructure/cache/redis-cache.ts:86-98 | the reply for s parses to s if and only if s is ASCII, because the length counts bytes and the slice characters |
| `Resp.LineReplies` | src/infrastructure/cache/redis-cache.ts:86-90 | a status and an integer give the text of their line, an error throws it, and the null bulk reply gives null |
| `Resp.UnmarkedReply` | src/infrastructure/cache/redis-cache.ts:97-97 | a reply without a mark is given back whole |
| `Resp.SignedNumberParses` | src/infrastructure/cache/redis-cache.ts:94-94 | parseInt reads a number with its sign |
| `Resp.GetCommand` | src/infrastructure/cache/redis-cache.ts:32-38 | a command as it is on the wire |
| `Lockouts.InMemoryAccountLockout.RecordFailedAttempt` | src/infrastructure/security/account-lockout.ts:26-52 | the account after a failure, and whether it is locked; other accounts keep theirs |
| `Lockouts.InMemoryAccountLockout.IsLocked` | src/infrastructure/security/account-lockout.ts:59-71 | the lock in force, and an expired lock is cleared |
| `Lockouts.InMemoryAccountLockout.Login` | src/application/services/auth.service.ts:206-239 | when nothing comes between: the account is consulted first and the outcome recorded only when it is not locked |
| `Lockouts.SqliteAccountLockout.RecordFailedAttempt` | src/infrastructure/database/sqlite-account-lockout.ts:38-69 | the same on the user row; an unregistered email is never locked |
| `Lockouts.SqliteAccountLockout.IsLocked` | src/infrastructure/database/sqlite-account-lockout.ts:80-95 | the lock in force, and an expired lock is cleared on the row |
| `Lockouts.PgAccountLockout.RecordFailedAttempt` | src/infrastructure/database/postgres/pg-account-lockout.ts:19-41 | the same by update and select; a lock is prolonged without being looked at |
| `Lockouts.PgAccountLockout.IsLocked` | src/infrastructure/database/postgres/pg-account-lockout.ts:54-74 | the lock in force, and an expired lock is cleared on the row |
| `Lockouts.AdaptersAgree` | src/infrastructure/security/account-lockout.ts:26-71 | over every sequence of atomic logins the three adapters keep the same account and give identical answers, for every maxAttempts |
| `Lockouts.RecordsAgreeExactly` | src/infrastructure/database/sqlite-account-lockout.ts:38-69 | after any calls of the port in any order, a failure recorded without the lock check is treated alike by the three adapters if and only if the account carries no lock, in force or expired |
| `Lockouts.RecordOnLock` | src/infrastructure/database/sqlite-account-lockout.ts:46-64 | what each adapter makes of a failure on a locked account: in force, the lock stays in two and is prolonged by Postgres; expired, it is forgotten by two, of which SQLite does not look at the limit, and brought back by Postgres |
| `Lockouts.AnsweredExactly` | src/application/services/auth.service.ts:209-239 | in every adapter a login is blocked exactly while a lock is in force, and otherwise passes exactly with the right password |
| `Lockouts.SuccessClears` | src/application/services/auth.service.ts:238-239 | after a successful login the account is clear, and it takes maxAttempts new failures to lock it |
| `Lockouts.LocksAtLimit` | src/infrastructure/security/account-lockout.ts:26-52 | in every adapter, from any login that finds no failures on the account, failures in a row are counted one by one, and exactly the maxAttempts-th locks it for the lockout duration |
| `Lockouts.LockHolds` | docs/authentication.md:278-283 | after any login that locks the account every login is blocked until the same moment, and the first one at or after it finds no failures |
| `Lockouts.FailureRateBound` | src/infrastructure/security/account-lockout.ts:26-71 | any interval of the lockout duration in which no login of the account succeeds has at most maxAttempts recorded failures |
| `LoginOverlap.LockAdmitsNoCheck` | src/application/services/auth.service.ts:209-239 | with logins cut at the password check, in every adapter, the checks that end while a lock lasts and no password is right are exactly those under way when it came, less those still under way |
| `LoginOverlap.AnyNumberBegins` | src/application/services/auth.service.ts:209-226 | any number of logins can be under way before the first failure is recorded |
| `LoginOverlap.RightPasswordClears` | src/application/services/auth.service.ts:238-239 | a login under way that turns out right clears the account, lock and all |
| `LoginOverlap.AdaptersAgreeExactly` | src/application/services/auth.service.ts:209-239 | over every run of overlapping logins the three adapters give the same answers and keep the same account if and only if no failure is recorded on an account that carries a lock |
| `RateLimits.ModuleLimiter.Prune` | src/presentation/middleware/rate-limit.ts:17-24 | at most once a minute the loop removes exactly the windows that have ended |
| `RateLimits.ModuleLimiter.CheckRateLimit` | src/presentation/middleware/rate-limit.ts:31-54 | the window charged and the verdict, remaining count and reset time |
| `RateLimits.InlineLimiter.HandleRequest` | src/presentation/server.ts:163-198 | the same in the inlined form, with its own pruning schedule |
| `RateLimits.InlineRefinesModule` | src/presentation/server.ts:163-198 | under a monotone clock both forms give every request of every run the same verdict, remaining count and reset time as a limiter that never prunes |
| `RateLimits.PruneSchedules` | src/presentation/server.ts:167-173 | the module prunes 60000 ms after the last time and the inlined form later than that, each removing exactly the ended windows |
| `RateLimits.WindowAdmitsExactly` | src/presentation/middleware/rate-limit.ts:31-54 | in every window that a request opens, exactly the first maxRequests of its key's requests are admitted, with the remaining count and the reset time, whatever other keys do |
| `RateLimits.NextWindowOpens` | src/presentation/middleware/rate-limit.ts:31-54 | the next request of the key opens a window if and only if that one has ended |
| `RateLimits.AdmissionRateBound` | src/presentation/middleware/rate-limit.ts:31-54 | any interval of window length admits at most 2 maxRequests of a key's requests |
| `JobQueues.InMemoryJobQueue.Submit` | src/infrastructure/jobs/job-queue.ts:102-120 | the job is stored pending, with its defaults and its delay, which may be negative |
| `JobQueues.InMemoryJobQueue.BeginJob` | src/infrastructure/jobs/job-queue.ts:45-53 | the job is running with one attempt more, or dead when nothing handles it |
| `JobQueues.InMemoryJobQueue.EndJob` | src/infrastructure/jobs/job-queue.ts:55-88 | completed, dead at its limit, or pending after the backoff |
| `JobQueues.InMemoryJobQueue.Poll` | src/infrastructure/jobs/job-queue.ts:91-99 | the loop starts exactly the due jobs and touches no other |
| `JobQueues.InvStep` | src/infrastructure/jobs/job-queue.ts:38-99 | every submission, poll and completion keeps the job and call invariants |
| `JobQueues.NeverOverlaps` | src/infrastructure/jobs/job-queue.ts:45-99 | under any interleaving of polls and completions a job has at most one handler call under way, and is then running |
| `JobQueues.AttemptsAndBackoff` | src/infrastructure/jobs/job-queue.ts:45-89 | attempts counts the handler calls, never more than max(1, maxRetries); the retry after the k-th failure starts no sooner than min(1000 * 2^k, 60000) ms after it, and is due exactly then |
| `JobQueues.BackoffValues` | src/infrastructure/jobs/job-queue.ts:72-74 | the waits are 2, 4, 8, 16 and 32 seconds and then a minute |
| `JobQueues.PollStartsExactly` | src/infrastructure/jobs/job-queue.ts:91-99 | a poll calls the handler of exactly the pending jobs whose time has come and that have one |
| `JobQueues.SubmissionIsKept` | src/infrastructure/jobs/job-queue.ts:102-120 | over every run a submitted job keeps its type and its number of tries, 3 by default, is due exactly when its delay after the submission is over, and is not started sooner |
| `JobQueues.OutcomeIsEarned` | src/infrastructure/jobs/job-queue.ts:45-89 | a completed job's last call did not fail; a dead one failed max(1, maxRetries) times, or never had a handler; a pending one has tries left; FAILED is never used |
| `JobQueues.FuelStep` | src/infrastructure/jobs/job-queue.ts:45-99 | an event that changes a job lowers its remaining work |
| `JobQueues.ChangesAreBounded` | src/infrastructure/jobs/job-queue.ts:45-99 | however a run goes on, a job changes at most 2 max(1, maxRetries) + 1 times from its submission, and from any later state as often as its remaining work says |
| `JobQueues.NeverStuck` | src/infrastructure/jobs/job-queue.ts:45-99 | any poll at or after its time changes a pending job, and a running job has its handler call under way, whose end changes it |
| `JobQueues.EndIsFinal` | src/infrastructure/jobs/job-queue.ts:38-89 | the record of a completed or dead job never changes again |
| `Pagination.InMemoryUserRepository.List` | src/infrastructure/database/in-memory-user.repository.ts:94-128 | for every limit, the slice of min(limit, 100) of the sorted users that meet role and search and lie beyond the cursor, with a cursor exactly when there are more and the slice is not empty |
| `Pagination.PageIsExact` | src/infrastructure/database/in-memory-user.repository.ts:94-128 | in the users' fields: a page holds at most min(limit, 100) stored users with the role, an email containing the search text and a time before the cursor, newest first; one such user is not on it only if it is full, says so, and holds nobody older |
| `Pagination.SortedKeeps` | src/infrastructure/database/in-memory-user.repository.ts:97-98 | sorting puts the same users, as often as before, in descending order |
| `Pagination.FilterCount` | src/infrastructure/database/in-memory-user.repository.ts:100-118 | filtering keeps every user that meets the conditions as often as it occurs, and no other |
| `Pagination.FilterSorted` | src/infrastructure/database/sqlite-user.repository.ts:184-199 | sorting and filtering commute, ties included |
| `Pagination.OnlyOneOrder` | src/infrastructure/database/sqlite-user.repository.ts:193-199 | with distinct timestamps only one descending order of the selected rows exists |
| `Pagination.SqlitePageIsSame` | src/infrastructure/database/sqlite-user.repository.ts:164-212 | with distinct timestamps, for every cursor, role and search without wildcards on lower-case emails, the page built from one row more than the limit is the in-memory page, exactly unless the limit is -1 and more than one user is left |
| `Pagination.SearchAgreesExactly` | src/infrastructure/database/sqlite-user.repository.ts:184-188 | LIKE around a search text and the in-memory search in lower case agree on all lower-case emails if and only if the text has no `%` and no `_` |
| `Pagination.LikeIgnoresCase` | src/infrastructure/database/sqlite-user.repository.ts:184-188 | the case of ASCII letters does not count in LIKE |
| `Pagination.WildcardPagesDiffer` | src/infrastructure/database/sqlite-user.repository.ts:184-188 | a search for `_` shows a user in SQLite and none in memory |
| `Pagination.NextRemaining` | src/core/types/pagination.ts:19-28 | following nextCursor leaves exactly what the older cursor left and lies beyond the last entry shown |
| `Pagination.WalkExactly` | src/infrastructure/database/in-memory-user.repository.ts:94-128 | from any cursor, the pages up to the last hold no more than what remains, and are exactly it if and only if no page ends between two users of one timestamp |
| `Pagination.WalkIsWhole` | src/infrastructure/database/in-memory-user.repository.ts:94-128 | without a cursor and with distinct timestamps, for every limit, the pages together hold each stored user as often as it is stored if it has the role and its email contains the search text, and no other, newest first |
| `Pagination.TiesAreSkipped` | src/infrastructure/database/in-memory-user.repository.ts:94-128 | two users of one timestamp and pages of one: the second is never shown |
| `VerificationTokens.SqliteVerificationTokenRepo.Create` | src/infrastructure/database/sqlite-verification-tokens.ts:59-74 | one unused row with its expiry is added |
| `VerificationTokens.SqliteVerificationTokenRepo.Verify` | src/infrastructure/database/sqlite-verification-tokens.ts:76-89 | unknown, used and expired tokens are told apart, and a success marks the row used |
| `VerificationTokens.SqliteVerificationTokenRepo.InvalidateAll` | src/infrastructure/database/sqlite-verification-tokens.ts:91-101 | the rows of the user and type are deleted, no others |
| `VerificationTokens.SqliteVerificationTokenRepo.Prune` | src/infrastructure/database/sqlite-verification-tokens.ts:103-110 | exactly the expired and used rows go, and their number is returned |
| `VerificationTokens.PgVerificationTokenRepo.Create` | src/infrastructure/database/postgres/pg-verification-tokens.ts:20-46 | one unused row with its expiry is added |
| `VerificationTokens.PgVerificationTokenRepo.Verify` | src/infrastructure/database/postgres/pg-verification-tokens.ts:48-70 | when nothing comes between select and update, verify accepts an unused unexpired row of the type and marks it used |
| `VerificationTokens.PgVerificationTokenRepo.SelectUsable` | src/infrastructure/database/postgres/pg-verification-tokens.ts:56-62 | the filtered select finds an unused unexpired row of the type, if there is one |
| `VerificationTokens.PgVerificationTokenRepo.MarkUsed` | src/infrastructure/database/postgres/pg-verification-tokens.ts:64-64 | the update marks the row used without looking whether it still is unused |
| `VerificationTokens.PgVerificationTokenRepo.InvalidateAll` | src/infrastructure/database/postgres/pg-verification-tokens.ts:72-85 | the unused rows of the user and type are marked used |
| `VerificationTokens.PgVerificationTokenRepo.Prune` | src/infrastructure/database/postgres/pg-verification-tokens.ts:87-96 | exactly the expired and used rows go, and their number is returned |
| `VerificationTokens.AuthService.ResendVerification` | src/application/services/auth.service.ts:364-379 | when nothing comes between: older verification tokens of the user are withdrawn before the new one is stored |
| `VerificationTokens.AuthService.ForgotPassword` | src/application/services/auth.service.ts:381-405 | when nothing comes between: older reset tokens of the account are withdrawn before the new one is stored and handed out; an unknown email changes nothing and is answered with an empty token |
| `VerificationTokens.AnswersAlikeExactly` | src/application/services/auth.service.ts:381-405 | a known and an unknown email are answered alike if and only if the generated token is empty |
| `VerificationTokens.LinksLast` | src/application/services/auth.service.ts:364-405 | a reset link works for exactly 3600000 ms and a verification link for 86400000 ms, each for its user and purpose only |
| `VerificationTokens.LinksReplace` | src/application/services/auth.service.ts:364-405 | a new link makes the older ones of its user and purpose invalid and leaves every other token as it was |
| `VerificationTokens.MarkingWithdraws` | src/infrastructure/database/postgres/pg-verification-tokens.ts:72-85 | withdrawal by marking keeps every row and marks exactly the unused ones of the user and type |
| `VerificationTokens.DuplicateIsRefused` | src/infrastructure/database/sqlite-verification-tokens.ts:59-74 | creating a token that is there already changes nothing |
| `VerificationTokens.TablesAreHistory` | src/infrastructure/database/sqlite-verification-tokens.ts:59-110 | in every run each table has a usable row for a grant exactly when the events say it is outstanding: created, not presented and not withdrawn; pruning does not appear |
| `VerificationTokens.VerifiedExactly` | src/infrastructure/database/postgres/pg-verification-tokens.ts:20-96 | verify succeeds, in either repository, if and only if the token was granted to that user for that type, has not expired, and was neither presented for that type nor withdrawn since |
| `VerificationTokens.VerifiesOnce` | src/infrastructure/database/sqlite-verification-tokens.ts:76-89 | a raw token verifies at most once in a run, for whatever type |
| `VerificationTokens.AdaptersAgree` | src/infrastructure/database/postgres/pg-verification-tokens.ts:20-96 | every call of every run succeeds in both repositories for the same user, or fails in both |
| `VerificationTokens.RefusalsTellWhy` | src/infrastructure/database/sqlite-verification-tokens.ts:76-89 | in every run "already used" is answered only of a token presented with success before for this type, "expired" only of one granted for it, expired and not presented, and anything but "invalid" only of one granted for it |
| `VerificationTokens.RefusalsAreTold` | src/infrastructure/database/sqlite-verification-tokens.ts:76-89 | and as long as its row is neither pruned nor withdrawn, a token presented with success before is answered "already used", and one that expired without that "expired" |
| `VerificationTokens.PruningKeepsUsable` | src/infrastructure/database/sqlite-verification-tokens.ts:103-110 | pruning leaves exactly the unused unexpired rows, unchanged |
| `VerificationTokens.OneUsableToken` | src/application/services/auth.service.ts:364-405 | through service calls of which none overlap, a user never has two usable tokens of one type, in either table |
| `IssueOverlap.TwoUsableOverlap` | src/application/services/auth.service.ts:364-405 | with withdrawal and store cut apart, two tokens of a user and type are usable at once, in either table, only if the later store's withdrawal came before the earlier store |
| `IssueOverlap.TwoUsableExactly` | src/application/services/auth.service.ts:364-405 | and if nothing else withdraws or presents them, exactly then, in both tables |
| `IssueOverlap.TwoRequestsLeaveTwo` | src/application/services/auth.service.ts:381-405 | two overlapping requests for a reset link that leave two usable tokens in both tables |
| `TokenOverlap.SecondVerifyExactly` | src/infrastructure/database/postgres/pg-verification-tokens.ts:48-70 | with Postgres verify cut between select and update, after one verify found a token a second one succeeds if and only if the token has not expired and neither a withdrawal nor the update of any verify of it came between |
| `TokenOverlap.SecondVerifyOverlaps` | src/infrastructure/database/postgres/pg-verification-tokens.ts:48-70 | so the first verify has not done its update when a second one succeeds |
| `TokenOverlap.HalvesMakeVerify` | src/infrastructure/database/postgres/pg-verification-tokens.ts:48-70 | select and update with nothing in between are verify as one step |
| `TokenOverlap.OverlapVerifiesTwice` | src/infrastructure/database/postgres/pg-verification-tokens.ts:48-70 | a run in which two verifies accept one token |

## Left out

- HTTP serving, routing, WebSocket and SSE, OAuth, webhooks, sockets, SQL drivers, configuration loading, logging and metrics: I/O or thin branching.
- Store failures and the exceptions turned into internal errors: store calls succeed here.
- The Postgres and SQL Server session stores: their rotate and prune have other contracts; the SQLite store is the one modelled.
- The MFA challenge token and the password steps of login, register and resetPassword: resetPassword's user is a parameter, and only its revocation is a session event.
- Token strings: a signed token is its claims and the number of its text, so base64, JSON and the HMAC inside are not modelled, nor which characters make up the other texts; two signatures for one user and role within one second are not modelled.
- SessionInterleaving.SecondExchangeOverlaps: logout, password reset and pruning are single store calls that may happen at any time, not requests followed through their stages; the checks inside tokenService.refresh are one event with the signature.
- What toUpperCase and toLowerCase do beyond ASCII: a parameter of Base32.Decode, and part of a search in Pagination.
- Totp.IntToBytes: numbers are exact integers, which the source has up to 2^53.
- generateSecret and generateUri: random bytes and string assembly.
- Globs.RewritePreservesMeaning: of the grammar of regular expressions only literals, identity escapes, dots and stars have a meaning here, which RewriteParses shows to be enough; strings of characters up to U+FFFF without surrogates are covered, because a character beyond is one `?` here and two code units in the source.
- Caches.LazyAnswersAreEager: the answers of del and delPattern are not compared, because an expired entry that is still stored is observable through them; what incr makes of a value that is no number is a parameter.
- Lone surrogates in Redis arguments, which are written as a replacement character.
- Resp.BulkReplyParses: a reply is in one piece, and white space before a number is not skipped.
- Emails without an account, which only the in-memory lockout can lock.
- Lockouts.PgAccountLockout.RecordFailedAttempt: its update, select and update are awaited one by one and are one step here.
- Lockouts.PgAccountLockout.IsLocked: its select and the update that clears an expired lock are one step here.
- JobQueues.InMemoryJobQueue.Submit: payload, identifiers and ISO formatting are left out; timestamps are their milliseconds.
- JobQueues.InMemoryJobQueue.Poll: the order in which due jobs are visited is left open, and a handler does not submit jobs before its first await; start, stop and stats are left out.
- Pagination.SqlitePageIsSame: LIKE is modelled without its limits on pattern length and its treatment of zero characters; the search is compared on lower-case emails, as registration stores them.
- The other operations of the user repositories, and lists in which the store changes between pages.
- VerificationTokens.PgVerificationTokenRepo.Verify: the select and the update are one step in VerificationTokens; TokenOverlap cuts them. A row is known by its token hash, which is unique in the schema, instead of by its id.
- Retry jitter, version comparison, password complexity, formatting of headers and the other pure helpers: easy members.

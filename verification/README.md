# Genesis platform: proofs about accounts, limits, dates and admin access

This project models the parts of the Genesis Rust services that carry real logic and proves
what they are relied on for. `dafny verify dfyconfig.toml` checks all of it.

| file | what it models |
|---|---|
| `CivilCalendar.dfy` | the closed-form day count against a calendar walked one day at a time |
| `DateRange.dfy` | `YYYY-MM-DD` query parameters and the millisecond range built from two of them |
| `UtcWeek.dfy` | the start of the UTC week |
| `RateLimit.dfy` | the Redis fixed-window limiter as `INCR` and `PEXPIRE` steps of many clients |
| `RateKeys.dfy` | which requests share a limiter key |
| `Lockout.dfy` | failed-login counting and lockout, every statement and clock reading of an attempt a step |
| `LockoutReached.dfy` | runs that meet the lockout bound exactly |
| `RefreshTokens.dfy` | refresh-token families: issue, rotate, revoke |
| `RefreshSpans.dfy` | revoke-then-issue spans of sign-ins that other requests come between |
| `Accounts.dfy` | sign-in and password reset over accounts, sessions and refresh rows |
| `EmailCooldown.dfy` | the pruned resend-cooldown map against a map nothing is dropped from |
| `UrlForm.dfy` | percent-encoding of tokens and form decoding |
| `Cookies.dfy` | `Set-Cookie` writing and `Cookie` parsing |
| `Stock.dfy` | normalisation of admin stock snapshots |
| `Doubles.dfy` | integers read as 64-bit floats, rounded to the nearest |
| `AdminRoutes.dfy` | the ordered admin route table, tab permissions and the permission column |
| `AdminTable.dfy` | the same route table as areas of requests, one per requirement, free of any order |
| `Text.dfy`, `Division.dfy`, `Prelude.dfy` | trimming, splitting and joining of text; division; optional values; 64-bit saturation |

## How the model is put together

Code that updates rows, keys or maps in place is a class (`RedisServer`, `RefreshStore`,
`AccountStore`, `CooldownMap`) whose methods state their whole new state as a function of the old
one. The theorems about runs are about those functions, applied step by step by a state machine
whose steps interleave freely. Loops over bytes, header parts, object entries and JSON items are
methods with loops, each proved equal to a function whose meaning is proved apart.

Every SQL statement or transaction is one atomic step and so is every Redis command, except where a
section below says otherwise. Clocks, random tokens and family ids are inputs of the step that reads
them; fresh tokens and families are ones not generated before. SHA-256 is injective. The login
limits, times to live, window lengths and the map size are parameters, so every result holds for the
constants in use. Rust's truncating division, saturating sums and wrapping 64-bit sums are written
out.

## Results worth knowing

* Valid dates are counted as a calendar counts them. The parser never checks month or day: a day
  past the month's end rolls over (`DayOverflowRolls`), months up to 14 read as a calendar would
  read them, and every month from 15 on, in every year, lands too late (`MonthRollsExactly`).
* `RateLimit.WindowBound` is one better than twice the limit, and `BoundReached` shows that it cannot
  be improved. A lost `PEXPIRE` blocks its key for good once the limit is reached
  (`LostExpirySticks`).
* Attempts one after another get one wrong-password check per lockout beyond the limit. With c
  attempts under way at once a window of one lockout lets 1 + ... + c through, because a lock written
  late with an old clock reading shortens a newer one (`ChecksBounded`). For every c and every number
  of lockouts a run meets this bound (`LockoutReached.BoundReached`).
* A user has at most one live refresh row while spans of revoke and issue do not overlap; from any
  state with two of them open, finishing both adds two live rows (`OverlapLeavesTwo`).
* The cooldown map is bounded by the marks within one cooldown of the latest mark. At the present
  moment it is within bounds exactly when it is no larger than its maximum or holds no expired mark
  (`PresentSizeExactly`); with the constants of the code 10,001 marks in one millisecond are all still
  there after five minutes (`ResendMapKeepsStale`). Overlapping requests for one address both pass
  (`OverlappingRequestsPass`).
* `url_form_decode` slices a string by byte and panics on some non-ASCII input; `DecodesTextExactly`
  says on which, and a percent sign, a letter and an accented letter are one (`PercentBeforeAccent`).
* The order of the admin route rules matters in two places only: the three security tools before the
  security pages and the bulk deletion of promo codes before the promo codes. Apart from these the
  areas are disjoint, so which tab opens a request can be read off without the order
  (`AreasDisjoint`, `TableExactly`, `OpensExactly`).
* A blocked account is refused before its lock is looked at and a locked one before its password,
  the right password included (`SignInRefusals`).
* `percent_encode_token` keeps `!`, `*`, `'`, `(` and `)` besides the unreserved characters its comment
  names; the round trip holds either way.
* Stock normalisation is idempotent exactly when every total survives being read back: not negative,
  and of at most 53 significant bits or the largest 64-bit integer (`NormalizeTwice`,
  `SurvivesExactly`). `RoundedTotalChanges` and `WrappedTotalVanishes` are inputs of both kinds where
  it is not.

## Model

| member | source | states |
|---|---|---|
| CivilCalendar.FastIsFlat | rust/genesis-api/src/admin_mining_dist.rs:86-93 | eras, years of era and truncating divisions amount to plain floor divisions, for every year of either sign |
| CivilCalendar.CountOfWalk | rust/genesis-api/src/admin_mining_dist.rs:86-93 | the day count of the date reached by walking n days from 1970-01-01 is n, for every integer n |
| CivilCalendar.WalkOfCount | rust/genesis-api/src/admin_referral.rs:53-60 | walking the day count of any valid date gives that date: with CountOfWalk, a bijection between valid dates and integers |
| CivilCalendar.OrderPreserved | rust/genesis-api/src/admin_mining_dist.rs:86-93 | calendar order of valid dates and order of their counts agree, both ways, equality included |
| CivilCalendar.DayOverflowRolls | rust/genesis-api/src/admin_mining_dist.rs:76-81 | a day number past the month's end, which nothing rejects, rolls over one calendar day per day of excess |
| CivilCalendar.MonthOverflow | rust/genesis-api/src/admin_mining_dist.rs:76-81 | months 0, 13 and 14 read as the neighbouring year's December, January and February |
| CivilCalendar.FiveMonths | rust/genesis-api/src/admin_mining_dist.rs:86-93 | from March on, five months more are 153 days more, past December too |
| CivilCalendar.MonthRollsExactly | rust/genesis-api/src/admin_mining_dist.rs:76-93 | for every month number from 0 on, the count is that of the month a calendar would roll it to exactly when it is at most 14; beyond, it is too late by at least one day for each full year of months past February of the next year |
| CivilCalendar.FourCenturies | rust/genesis-api/src/admin_mining_dist.rs:86-93 | the count repeats every 400 years, a whole number of weeks |
| DateRange.ParseYmd | rust/genesis-api/src/admin_mining_dist.rs:68-111 | a four-digit-year date in any whitespace parses to its UTC midnight, and as an upper bound to the last millisecond of that date |
| DateRange.MillisReadBack | rust/genesis-api/src/admin_mining_dist.rs:68-83 | the decimal text of a number reads as that number up to the largest 64-bit integer and as nothing beyond |
| DateRange.RangeIsCivil | rust/genesis-api/src/admin_mining_dist.rs:56-148 | an instant lies in the range built from two dates exactly when its civil UTC date lies between them, both included |
| DateRange.RangeExists | rust/genesis-api/src/admin_mining_dist.rs:144-148 | a range exists exactly when both chosen texts are readable; the first name wins when present, even if unreadable |
| DateRange.YmdFitsI64 | rust/genesis-api/src/admin_mining_dist.rs:76-100 | no 64-bit overflow for any text of the date shape, month and day checked or not: every intermediate product, quotient and sum of the count and of the milliseconds fits |
| DateRange.RangeFitsI64 | rust/genesis-api/src/admin_mining_dist.rs:144-148 | both ends of every range fit 64 bits |
| UtcWeek.WeekStartHolds | rust/genesis-core/src/utc_week.rs:19-30 | the week start is a Monday midnight at or before now and less than a week ago, weekdays counted day by day from a Thursday |
| UtcWeek.WeekStartUnique | rust/genesis-core/src/utc_week.rs:19-30 | it is the only such instant, for every integer now |
| UtcWeek.WeeksTile | rust/genesis-core/src/utc_week.rs:19-30 | two instants share a week start exactly when no Monday midnight separates them |
| UtcWeek.WeekStartIdempotent | rust/genesis-core/src/utc_week.rs:33-35 | a week start starts its own week; the previous week's start is the week start of now minus seven days and of the millisecond before this week |
| UtcWeek.WeekdaysRepeat | rust/genesis-api/src/admin_mining_dist.rs:86-93 | weekdays of calendar dates repeat every 400 years |
| RateKeys.ProfileKeyInjective | rust/genesis-api/src/rate_limit.rs:57-59 | two profile keys are equal exactly when address, scope and user are, colons in the address allowed, for scopes without a colon |
| RateKeys.ActorKeyExactly | rust/genesis-api/src/rate_limit.rs:62-67 | two scoped keys are equal exactly when scope and actor agree, an anonymous address agreeing with a user when it spells the user's number |
| RateKeys.KeyTexts | rust/genesis-api/src/rate_limit.rs:57-67 | examples of both keys as they are written, a negative number included |
| RateLimit.RedisServer.IncrKey | rust/genesis-api/src/rate_limit.rs:81-87 | a live counter goes up and keeps its deadline, any other starts at 1 with none; the new count is returned |
| RateLimit.RedisServer.PExpireKey | rust/genesis-api/src/rate_limit.rs:89-94 | a live key gets a deadline one window from now, a missing key is left missing |
| RateLimit.FixedWindowAllow | rust/genesis-api/src/rate_limit.rs:71-99 | without Redis or on an `INCR` error the call allows and changes nothing; otherwise it counts, sets the expiry only on count 1, and allows up to the limit |
| RateLimit.StepKeepsInv | rust/genesis-api/src/rate_limit.rs:80-98 | every step keeps lives of a key a window apart, counts equal to ranks, and at most one owed expiry |
| RateLimit.LifeAllowsFirst | rust/genesis-api/src/rate_limit.rs:80-98 | in every run, of the n requests in a life of a key exactly the first min(n, max) in `INCR` order are allowed |
| RateLimit.WindowBound | rust/genesis-api/src/rate_limit.rs:71-99 | in every interleaving, expiry on time, late or lost, any half-open window allows at most 2 * max - 1 requests on a key |
| RateLimit.BoundReached | rust/genesis-api/src/rate_limit.rs:71-99 | a run that allows 2 * max - 1 in one window, for every limit of 1 or more |
| RateLimit.ExpiryReopens | rust/genesis-api/src/rate_limit.rs:88-98 | after a successful expiry, in every continuation, the next life begins past the deadline, and the next request counts 1 exactly when the deadline has passed |
| RateLimit.ExpiryOutcome | rust/genesis-api/src/rate_limit.rs:88-97 | in every reachable world an owed `PEXPIRE` that succeeds sets the deadline one window ahead, and one that fails leaves a key without deadline that nobody will set |
| RateLimit.LostExpirySticks | rust/genesis-api/src/rate_limit.rs:88-98 | after a lost expiry the life never ends: all later requests on the key count higher, for ever |
| Lockout.StepKeepsInv | rust/genesis-auth/src/login.rs:260-296 | for every window of one lockout, every row read, lock test, count, clock reading, lock write and clear keeps the bound on the checks that are over, by the number of old lock writes still to come |
| Lockout.WindowBound | rust/genesis-auth/src/login.rs:407-436 | in every interleaving with at most c attempts under way, at most 1 + ... + c checks of any window of one lockout fail at the limit |
| Lockout.ChecksBounded | rust/genesis-auth/src/login.rs:407-436 | in every such interleaving the wrong-password checks since the last clear number at most max - 1 + (1 + ... + c) * (1 + span / lockout) |
| Lockout.SerialBound | rust/genesis-auth/src/login.rs:260-296 | over every run with one attempt at a time they number at most max + span / lockout |
| LockoutReached.BoundReached | rust/genesis-auth/src/login.rs:260-283 | for every c and every number of lockouts waited out, a run with at most c attempts under way that meets the bound exactly |
| RefreshTokens.RefreshStore.RunIssue | rust/genesis-auth/src/refresh.rs:46-98 | a new live row with the token's hash, the user, the family and its expiry is added and nothing else changes; a time to live beyond 64 bits is refused |
| RefreshTokens.RefreshStore.RunRotate | rust/genesis-auth/src/refresh.rs:100-192 | result and table are those of the specification function, refusals in the order of the code |
| RefreshTokens.RefreshStore.RunRevoke | rust/genesis-auth/src/refresh.rs:194-207 | every live row of the user is stamped, every other row unchanged |
| RefreshTokens.ExpiresExactly | rust/genesis-auth/src/refresh.rs:39-44 | an expiry is the clock plus the time to live in milliseconds, cut off at the end of 64-bit time, and is missing exactly when that time to live does not fit |
| RefreshTokens.IssueAddsRow | rust/genesis-auth/src/refresh.rs:46-98 | an issue adds one live row with the token's hash, user, family, expiry and time under a fresh id and touches no other row |
| RefreshTokens.RotateReplacesRow | rust/genesis-auth/src/refresh.rs:136-191 | an accepted rotation answers with the row's user and the new token, and replaces the row of the token used by a live one of the same user and family with that token's hash and a full time to live |
| RefreshTokens.RevokeStamps | rust/genesis-auth/src/refresh.rs:194-207 | a revoke stamps exactly the rows of the user without a stamp |
| RefreshTokens.RotateRefusals | rust/genesis-auth/src/refresh.rs:107-162 | which error a refused rotation gives in every reachable world, each exactly when: a blank text, a time to live that does not fit, a token that stands for no family, one that stands past its expiry |
| RefreshTokens.RotateHandsOut | rust/genesis-auth/src/refresh.rs:163-191 | in every reachable world an accepted rotation answers with the user of the family's previous event and with the fresh token its event gives out, and that token is then accepted up to the new expiry and no longer |
| RefreshTokens.StepKeepsInv | rust/genesis-auth/src/refresh.rs:46-207 | every issue, rotate and revoke keeps the table equal to what the history says of each family |
| RefreshTokens.OneRowPerFamily | rust/genesis-auth/src/refresh.rs:163-182 | in every run each issued family has exactly one stored row, of the user it was issued to |
| RefreshTokens.AcceptedChain | rust/genesis-auth/src/refresh.rs:136-191 | every accepted rotation takes the token its family's previous event gave out, for the same user, at most the time to live later, with no revoke in between |
| RefreshTokens.AcceptedOnce | rust/genesis-auth/src/refresh.rs:136-191 | no raw token is accepted twice in any run |
| RefreshTokens.AcceptedExactly | rust/genesis-auth/src/refresh.rs:107-162 | in every reachable world a text is accepted exactly when it trims to the last token of a family whose user was not revoked since, up to its expiry |
| RefreshTokens.RefusalChangesNothing | rust/genesis-auth/src/refresh.rs:149-162 | a refused rotation leaves the table as it was |
| RefreshTokens.RevokeIsFinal | rust/genesis-auth/src/refresh.rs:194-207 | after a revoke of a user no token of a family that existed then is ever accepted again |
| RefreshTokens.LiveRowsExactly | rust/genesis-auth/src/login.rs:459-476 | in every run, rotations interleaved at will, a user has exactly as many live rows as issues since the last revoke |
| RefreshTokens.IssuesApartExactly | rust/genesis-auth/src/login.rs:459-476 | at most one issue stands unrevoked at every moment exactly when a revoke lies between any two issues of the history |
| RefreshTokens.AtMostOneLive | rust/genesis-auth/src/login.rs:459-476 | with a revoke between any two issues a user never has two live rows |
| RefreshSpans.OneLiveWithoutOverlap | rust/genesis-api/src/gerente.rs:100-136 | when the revoke-then-issue spans of a user never overlap, every reachable state has at most one live row for the user, with rotations, other revokes, failed spans and spans of other users interleaved at will |
| RefreshSpans.OverlapLeavesTwo | rust/genesis-api/src/gerente.rs:100-136 | from every reachable state with two spans of a user open, finishing both leaves the user two more live rows |
| RefreshSpans.TwoSpansOpen | rust/genesis-auth/src/login.rs:459-476 | two sign-ins of one user that both revoke before either issues are such a state |
| Accounts.AccountStore.RecordLoginFailure | rust/genesis-auth/src/login.rs:260-283 | the failure count goes up by one and at the limit the lock is set a lockout ahead; no other account changes |
| Accounts.AccountStore.ClearLoginFailures | rust/genesis-auth/src/login.rs:285-296 | counter and lock are cleared; no other account changes |
| Accounts.AccountStore.LoginComplete | rust/genesis-auth/src/login.rs:391-516 | result and store are those of the specification function: unknown, blocked, locked, wrong password, then clear, session, revoke and issue in that order |
| Accounts.AccountStore.ResetRequest | rust/genesis-auth/src/password_reset.rs:173-216 | the account, if any, waits for the token mailed and for no other |
| Accounts.AccountStore.ResetComplete | rust/genesis-auth/src/password_reset.rs:218-306 | result and store are those of the specification function, checks in the order of the code |
| Accounts.SignsInExactly | rust/genesis-auth/src/login.rs:391-516 | a sign-in succeeds exactly for valid input, an existing account that is not blocked, no lock running at that moment, the stored password and a time to live that fits; it answers with the token of the request |
| Accounts.SignInRefusals | rust/genesis-auth/src/login.rs:391-476 | each error exactly when its condition is the first to fail: input, blocked, locked, unknown address or wrong password, expiry; the seconds told are those the lock still runs, rounded up |
| Accounts.SecondsCoverLock | rust/genesis-auth/src/login.rs:414-420 | the seconds a locked account is told are the fewest that outlast the lock |
| Accounts.RefusalKeepsStore | rust/genesis-auth/src/login.rs:391-423 | invalid input, an unknown address, a blocked and a locked account are refused and leave the store unchanged, whatever the password |
| Accounts.WrongPasswordEffect | rust/genesis-auth/src/login.rs:425-436 | a wrong password adds one failure and, at the limit, a lock of full length from the moment it is recorded, and changes nothing else |
| Accounts.SignInEffect | rust/genesis-auth/src/login.rs:430-516 | the right password clears failures and lock, adds one session, stamps the user's live refresh rows and, if the time to live fits, adds one row for the new token with its exact expiry; nothing else changes |
| Accounts.RequestEffect | rust/genesis-auth/src/password_reset.rs:173-216 | a reset request for a known address mails a token that expires exactly one time to live from now and makes the account wait for it; for an unknown one nothing happens |
| Accounts.ResetRefusals | rust/genesis-auth/src/password_reset.rs:218-273 | each error of a reset exactly when its check is the first to fail |
| Accounts.ResetEffect | rust/genesis-auth/src/password_reset.rs:275-305 | the whole store after a reset, column by column; a refused one changes nothing |
| Accounts.LoginLeavesOneLive | rust/genesis-auth/src/login.rs:430-476 | a completed sign-in leaves a clear lock, the new session, and as only live row the token handed out; other users' live rows are untouched |
| Accounts.ResetLeavesNothing | rust/genesis-auth/src/password_reset.rs:275-305 | a completed reset leaves the account no session, no impersonation, no live refresh row, no lock and no reset token, and other accounts unchanged |
| Accounts.ResetThenLogin | rust/genesis-auth/src/password_reset.rs:291-305 | after a completed reset exactly the new password signs in, at any moment, locked before or not |
| Accounts.CompletesExactly | rust/genesis-auth/src/password_reset.rs:236-273 | in every reachable world a text completes exactly when it is the unpadded, unexpired token issued last to its account and not completed since |
| Accounts.CompletionNeedsIssue | rust/genesis-auth/src/password_reset.rs:189-204 | between any reset event of an account and a later completion lies an issue of the very token completed, with nothing of the account after it |
| Accounts.CompletesOnce | rust/genesis-auth/src/password_reset.rs:236-305 | with a distinct token per issue no token completes twice |
| Accounts.SignInChecksBounded | rust/genesis-auth/src/login.rs:391-436 | over every serial run of sign-ins and resets the wrong passwords checked on an account since its last success number at most max + span / lockout |
| EmailCooldown.CooldownMap.IsOnCooldown | rust/genesis-auth/src/email_verify.rs:145-157 | the answer compares the last mark with the cooldown; an expired entry is dropped, nothing else |
| EmailCooldown.CooldownMap.Mark | rust/genesis-auth/src/email_verify.rs:159-168 | the address is marked now, and over the maximum size exactly the marks older than a cooldown go |
| EmailCooldown.ReadEffect | rust/genesis-auth/src/email_verify.rs:145-157 | an address is on cooldown exactly while less than a cooldown has passed since its mark, and a read drops exactly the entry it finds expired |
| EmailCooldown.MarkEffect | rust/genesis-auth/src/email_verify.rs:159-168 | after a mark the map holds the address with the time, and of the others exactly those a size within the maximum or a mark within a cooldown keeps |
| EmailCooldown.PrunedAnswersAsFull | rust/genesis-auth/src/email_verify.rs:145-168 | in every run the pruned map answers for every address as the never-pruned one would |
| EmailCooldown.SizeBound | rust/genesis-auth/src/email_verify.rs:159-168 | the size never exceeds the larger of the maximum and the number of addresses marked within a cooldown of the latest mark |
| EmailCooldown.PresentSizeExactly | rust/genesis-auth/src/email_verify.rs:145-168 | in every run the size is within the larger of the maximum and the number of addresses on cooldown now exactly when it is within the maximum or no mark in the map has expired |
| EmailCooldown.IdleMapKeepsStale | rust/genesis-auth/src/email_verify.rs:163-167 | for every cooldown and maximum, one address more than the maximum marked at one instant all stay in the map at any time later than a cooldown, when none is on cooldown, since only a mark prunes |
| EmailCooldown.ResendMapKeepsStale | rust/genesis-core/src/auth/constants.rs:67-71 | the same with the constants of the code: 10,001 addresses, five minutes and a millisecond |
| EmailCooldown.PassesSpaced | rust/genesis-auth/src/email_verify.rs:238-266 | requests of one address that do not overlap each other pass at least a cooldown apart over the whole run, however requests for other addresses overlap, mark and prune |
| EmailCooldown.OverlappingRequestsPass | rust/genesis-auth/src/email_verify.rs:253-264 | two requests of one address that both ask before either marks pass in the same millisecond |
| UrlForm.PercentEncodeToken | rust/genesis-auth/src/mail.rs:210-231 | the loop yields the byte-wise encoding of the token |
| UrlForm.KeptExactly | rust/genesis-auth/src/mail.rs:214-226 | the bytes kept are letters, digits and nine marks, and no others |
| UrlForm.ByteEncodes | rust/genesis-auth/src/mail.rs:210-231 | every other byte becomes a percent sign and its two upper-case digits |
| UrlForm.UrlFormDecode | rust/genesis-api/src/player.rs:3634-3652 | the loop yields what the decoding function defines, and no value where a slice would panic |
| UrlForm.ItemsDecode | rust/genesis-api/src/player.rs:3634-3652 | any text of plain bytes, plus signs and percent signs with two digits of either case decodes item by item: the byte, a blank, the numbered character; a percent sign without two digits after it is itself; wherever no slice panics |
| UrlForm.SplitsIntoItems | rust/genesis-api/src/player.rs:3634-3652 | every byte string is such a text, so the previous result covers every input |
| UrlForm.HexValueExactly | rust/genesis-api/src/player.rs:3640-3645 | exactly the sixteen hexadecimal digits count, in both cases |
| UrlForm.RoundTrip | rust/genesis-api/src/player.rs:3634-3652 | decoding an encoded byte string gives the characters with exactly those codes, for every byte string |
| UrlForm.DecodesExactly | rust/genesis-api/src/player.rs:3640-3641 | decoding succeeds exactly when no percent sign of the input stands before a character a two-byte slice would cut, for every byte string |
| UrlForm.DecodesTextExactly | rust/genesis-api/src/player.rs:3640-3641 | on bytes that are whole characters, as the code receives them, it panics exactly when some percent sign stands three bytes before the middle of a character |
| UrlForm.PercentBeforeAccent | rust/genesis-api/src/player.rs:3640-3641 | such an input: a percent sign, a letter and a two-byte letter |
| UrlForm.ParseZeradsForm | rust/genesis-api/src/player.rs:3623-3631 | the loop over parts yields the last-wins map the form function defines |
| UrlForm.FormReads | rust/genesis-api/src/player.rs:3612-3632 | any body of parts joined by ampersands reads as the last-wins map of its decoded pairs, each cut at its first equals sign, parts without one skipped, and panics exactly when some key or value does |
| UrlForm.FormRoundTrip | rust/genesis-api/src/player.rs:3612-3632 | encoded key-value pairs joined by ampersands read back as the last-wins map of the originals |
| Cookies.ParseCookies | rust/genesis-api/src/cookies.rs:153-173 | the loop over parts yields the map the parsing function defines |
| Cookies.BuildSetCookie | rust/genesis-api/src/cookies.rs:127-151 | the trimmed pieces between the semicolons of every line are the pair, HttpOnly, SameSite by the mode, Path, then the domain, Secure and Max-Age each exactly when asked for; for arguments free of semicolons their number is 4 plus the optional ones and Secure is one exactly when asked for; the leading part reads back as the pair |
| Cookies.LinePieces | rust/genesis-api/src/cookies.rs:127-151 | the list of pieces, for all arguments, semicolons in them included |
| Cookies.PlainPieces | rust/genesis-api/src/cookies.rs:127-151 | for arguments free of semicolons: the number of pieces, the places of pair, HttpOnly, SameSite, Path and Max-Age, and Secure exactly when asked for, unless the domain is that word |
| Cookies.HeaderRoundTrip | rust/genesis-api/src/cookies.rs:153-173 | a header of cookies with any blanks around names and values, and of texts that hold no pair, joined by semicolons, reads back as the last-wins map of the cookies, nameless ones left out |
| Cookies.LeadingPair | rust/genesis-api/src/cookies.rs:127-151 | the part of any written line before its first semicolon is the pair written and reads back as name and value |
| Stock.NormalizeAdminStockSnapshot | rust/genesis-api/src/admin_users.rs:371-396 | the loop yields the fold of all entries, and nothing for a value that is no object |
| Stock.NormalizeIsTotal | rust/genesis-api/src/admin_users.rs:376-394 | an id is present exactly when it is valid and some key trimming to it has a countable quantity, zero totals included, with the wrapped sum of all floored quantities, integers read as the nearest double first |
| Stock.ValidIdExactly | rust/genesis-core/src/hardware/item_id.rs:13-15 | a valid id has one to two hundred characters, letters, digits, underscores, points and hyphens |
| Stock.QtyExactly | rust/genesis-api/src/admin_users.rs:381-390 | a quantity counts exactly when it stands for a finite number of zero or more, as an integer, a double or a text, and then for the largest whole number not above it, cut off at 64 bits |
| Stock.WrapExactly | rust/genesis-api/src/admin_users.rs:390-393 | a sum is stored as the 64-bit number that differs from it by whole multiples of 2^64 |
| Stock.OrderFree | rust/genesis-api/src/admin_users.rs:376-394 | the result does not depend on the order of the entries |
| Stock.NormalizeTwice | rust/genesis-api/src/admin_users.rs:371-396 | normalising the entries of a result gives its non-negative totals, each as it reads back; so it gives the result itself exactly when every total survives |
| Stock.SurvivesExactly | rust/genesis-api/src/admin_users.rs:381-390 | a 64-bit total survives exactly when it is not negative and has at most 53 significant bits or is the largest of all; all up to 2^53 do |
| Stock.RoundedTotalChanges | rust/genesis-api/src/admin_users.rs:381-393 | 2^53 and 1 under two spellings of one id give 2^53 + 1, which normalises to 2^53 |
| Stock.WrappedTotalVanishes | rust/genesis-api/src/admin_users.rs:390-393 | two quantities of 2^63 under two spellings give -2, which normalises to nothing |
| Doubles.RoundIsNearest | rust/genesis-api/src/admin_users.rs:381-382 | no integer a double can hold lies closer to an integer than the one it is read as |
| Doubles.RoundIsDouble | rust/genesis-api/src/admin_users.rs:381-382 | what an integer is read as has at most 53 significant bits |
| Doubles.TiesToEven | rust/genesis-api/src/admin_users.rs:381-382 | an integer halfway between two doubles is read as the one with an even significand |
| Stock.FittingTotals | rust/genesis-api/src/admin_users.rs:390-393 | a total whose exact sum fits 64 bits is that sum |
| AdminRoutes.FamilyDecided | rust/genesis-api/src/admin_auth.rs:169-448 | through the whole ordered table, every path that begins with the stem of one of fifteen route families gets that family's requirement, for every method |
| AdminRoutes.StandIn | rust/genesis-api/src/admin_mining_dist.rs:158-162 | so the fixed path a handler passes to the gate and every path it serves, whatever parameter or query follows, need the same tab |
| AdminRoutes.UserPaths | rust/genesis-api/src/admin_auth.rs:158-166 | every path under a user id needs the users tab or a super admin, never another tab |
| AdminRoutes.UsersExactly | rust/genesis-api/src/admin_auth.rs:336-398 | through the whole table, a path under a user id needs the users tab exactly when one of the rules for the map, the suspicious emails or the per-user pages matches it, and a super admin otherwise |
| AdminRoutes.UserPageExactly | rust/genesis-api/src/admin_auth.rs:158-166 | for every raw id a handler writes into a page's path: without a question mark the users tab exactly for a non-empty id free of slashes, else a super admin; with one, what the part before it needs |
| AdminRoutes.UserPageOwned | rust/genesis-api/src/admin_auth.rs:356-389 | the eight per-user pages need the users tab for every non-empty id without slash or question mark |
| AdminRoutes.UnknownIsSuper | rust/genesis-api/src/admin_auth.rs:447-448 | an admin path whose first word begins like no rule's takes a super admin, for every method and continuation |
| AdminTable.TableExactly | rust/genesis-api/src/admin_auth.rs:169-448 | the first rule in order gives every request the requirement of the area it lies in, by a table of fixed paths and stems per tab stated apart from the rules, and a request of no area takes a super admin: for every method and path |
| AdminTable.AreasDisjoint | rust/genesis-api/src/admin_auth.rs:169-448 | no request lies in two areas |
| AdminTable.AreaNeeds | rust/genesis-api/src/admin_auth.rs:169-448 | whatever query follows, a path of an area needs what the area needs |
| AdminTable.SuperRoutesClosed | rust/genesis-api/src/admin_auth.rs:178-424 | no set of tabs opens a listed super-only route, with or without a query: permissions, restore, recall, both bulk deletions, withdrawals, referrals, the three security tools, economy tools, mining coins, web3, exchange and wallet-label writes, received NFTs |
| AdminTable.OpensExactly | rust/genesis-api/src/admin_auth.rs:124-448 | through rules, tabs and query, an admin who is not super passes exactly with a tab that serves one of the tabs of the area the path lies in |
| AdminTable.PrefixExactly | rust/genesis-api/src/admin_auth.rs:188-195 | the prefix test of the rules holds exactly when the path continues the stem |
| AdminRoutes.TabAllowsExactly | rust/genesis-api/src/admin_auth.rs:124-138 | a set of tabs allows a required tab exactly when one of them serves it: the same tab, or the same parent with one of the two being that whole parent |
| AdminRoutes.AccessExactly | rust/genesis-api/src/admin_auth.rs:142-155 | access is given exactly to super admins and to actors holding a tab that serves one of those the rule wants |
| AdminRoutes.AccessOfUnion | rust/genesis-api/src/admin_auth.rs:142-155 | two grants together open exactly the routes one or the other opens |
| AdminRoutes.MoreTabsNeverLess | rust/genesis-api/src/admin_auth.rs:142-155 | granting more tabs never removes access to any route |
| AdminRoutes.NoTabsNoRoute | rust/genesis-api/src/admin_auth.rs:142-155 | an actor without tabs who is not super is refused on every method and path |
| AdminRoutes.PermissionTabSet | rust/genesis-api/src/admin_auth.rs:79-121 | a tab is in the set exactly when the column value, or the JSON its text holds, lists it trimmed and non-empty or flags it with true or 1 |
| AdminRoutes.ColumnGrants | rust/genesis-api/src/admin_auth.rs:79-121 | what the column grants, by its items and entries: a text that is blank or no JSON nothing, else what its JSON lists trimmed or flags with true or the number 1; a text inside the text is not read again |
| AdminRoutes.TwoForms | rust/genesis-api/src/admin_auth.rs:99-117 | a list of names and an object flagging the same names grant the same tabs exactly when no name is empty or padded |

## Left out

- RefreshTokens.StepKeepsInv: a rotation transaction is one atomic step, as is a revoke; a revoke whose statement starts while a rotation of the same user is uncommitted is not modelled.
- RefreshTokens.RefreshStore.RunIssue: user agent and address columns are not stored; random tokens and family ids are inputs.
- Lockout.StepKeepsInv: a failure count is unbounded where the column has 32 bits, an attempt is under way from reading the row to its last statement, and the clock never goes back.
- Accounts.CompletesOnce: completions run one after another; two at once that both pass the checks are not modelled.
- Accounts.AccountStore.LoginComplete: input validation is one boolean; bcrypt accepts exactly the stored password; the IP log, the referral code, the profile and the access token are left out; no database error occurs.
- Accounts.AccountStore.ResetRequest: the signature is an abstract injective token, mailing always works, and the address format check is left out.
- RateLimit.FixedWindowAllow: connection failures are two booleans; the run theorems take every `INCR` to succeed.
- RateKeys.ProfileKeyInjective: stated for scopes without a colon, as all scope constants are.
- EmailCooldown.CooldownMap.Mark: a poisoned lock, the address format check, the database work and the delay between the gate and the mark are left out; the delay is any time that passes.
- EmailCooldown.SizeBound: relative to the latest mark; relative to the present moment the bound holds exactly as `PresentSizeExactly` says.
- UtcWeek.WeekStartUnique: integers are unbounded; 64-bit times within a week of the ends of the range are not treated apart.
- UrlForm.ParseZeradsForm: only the form branch; the JSON branch and the replacement of invalid bytes are left out.
- Stock.NormalizeAdminStockSnapshot: a quantity given as a fraction or as text comes as the double it parses to, and sums wrap as in a release build; a debug build would stop instead.
- AdminRoutes.PermissionTabSet: the JSON reader is a parameter, and a number is the double it is read as.
- DateRange.RangeIsCivil: from 0000-01-01 to 9999-12-31, the dates four digits can write.
- RefreshSpans.OneLiveWithoutOverlap: one way only, since spans that overlap with another revoke between their issues also leave one live row; the exact condition is on the history, in `RefreshTokens.IssuesApartExactly`.
- Worker clients, routers, the Express proxy, Socket.IO and the forwarding handlers: their results come from other services.
- The React client, maintenance pages, deploy scripts and build configuration: no logic of this kind.
- SMTP, Turnstile, bcrypt, HMAC and SHA-256 internals, Postgres and Redis internals: stated as assumptions above.
- File serving, attachments and backups: file-system work.
- `client_ip.rs`, `site_status.rs` and environment parsing: short branches that would only add easy members.

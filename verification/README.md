# AccessCore: verified model of the control plane

AccessCore is a control plane for OpenVPN servers: people sign in, ask for access
to a server, administrators approve, a certificate and a per-client configuration
(CCD) are provisioned, temporary grants expire, group members are synced from a
directory, and server configurations are rewritten. This project models the
modules that hold its logic and proves what they keep over whole runs.

Tables are maps held in classes; dates are integers (milliseconds). Every method
is proved against a function of the old state, or a relation to it, and the
properties are lemmas about these, or about state machines whose steps they are. Answers of the
outside world (transport, directory, certificate authority, HMAC, clock, order of
query results) are parameters, so each lemma holds for all of them.

| file | what it models |
|---|---|
| `Text.dfy`, `Words.dfy`, `Collections.dfy` | string operations and 32-bit shifts of the JavaScript runtime; facts about sets and sequences |
| `Schema.dfy` | the user table and the enumerations that several modules share |
| `LoginRateLimit.dfy` | login and MFA throttle |
| `Base32.dfy`, `TotpVerification.dfy` | TOTP secrets and one-time acceptance of codes |
| `CommonNames.dfy` | names of VPN users and their allocation |
| `AccessLifecycle.dfy`, `AccessRequests.dfy` | reconcile of access requests; the state machine of requests, with reconcile passes interleaved row by row |
| `LifecycleAutomation.dfy` | the background job: single flight and throttle |
| `Provisioning.dfy` | the approval saga with faults, compensation and retries |
| `Ipv4.dfy`, `Ccd.dfy`, `CcdComparison.dfy`, `DriftDetection.dfy` | CIDR blocks, the CCD printer and parser, comparison up to order, drift |
| `TemporaryAccess.dfy` | expiry of temporary grants with roll-back |
| `SyncEngine.dfy`, `SyncNames.dfy` | directory sync; when its common names depend on the order of mappings and listings |
| `ServerNetworkConfig.dfy`, `ConfigRewriting.dfy` | rewriting of the server configuration |
| `Shell.dfy` | shell quoting against a POSIX lexer |

`dafny verify dfyconfig.toml` checks everything.

## Where the code does less than one would expect

Each of these is a lemma with the exact condition.

- MFA throttle: the check reads the row of the identifier as given
  (`src/lib/login-rate-limit.ts:126`), failures are written under the trimmed lower-case
  one (line 51). The throttle can refuse a user if and only if the two coincide
  (`MfaThrottleWorksIffNormal`). Identifiers made by the database are lower case.
- TOTP replay: a row holds the latest accepted step and its secret only. A code is accepted
  exactly when its step is above every step accepted for that secret since the row was
  last cleared or a code of another secret was accepted (`AcceptedIffUnspent`); with two
  secrets taking turns one code is accepted twice (`TwoSecretsReplay`, `ReplayExample`).
- TOTP secrets: padding is stripped before white space (`src/lib/totp.ts:21`), so `=` is
  accepted only at the very end and a blank behind it makes a secret invalid
  (`DecodableIff`, `BlankBehindPadding`).
- Orphan detection joins e-mail and server with `::` and splits again
  (`src/lib/access-lifecycle.ts:163-167`). An approved request is taken for an orphan
  exactly when its access is gone, or its e-mail contains `::` or ends with a colon
  (`OrphanedIff`, `ColonsHideAccess`).
- POST lets an APPROVED request without access through (`src/app/api/access-requests/route.ts:169`);
  uniqueness holds only because the reconcile before it expires such a request
  (`WithoutReconcileNotUnique`).
- A portal account that is deleted (`src/app/api/admin/users/[id]/route.ts:120`) and signs
  in again gets a new request whatever requests its e-mail has. Uniqueness and quota
  survive exactly when there is no live request for that server and fewer than three
  open ones (`SignInKeepsGoodIff`, `SecondFirstSignInNotUnique`).
- Provisioning: an audit failure behind the commit of an attempt that needed a
  certificate, and only that, leaves a failed request with an ACTIVE certificate
  status (`StatusChangesIff`); a generation or expiry look-up that fails after the
  certificate was issued leaves it on the server (`CertificateLeaksIff`). The retry
  looks at the status only, so it approves without a certificate what such an audit
  failure has revoked; an approved request has its certificate exactly when no attempt
  did that and it was there at the start if the user already counted as having one
  (`ApprovedHasCertIff`, `ApprovedWithoutCert`).
- Name allocation succeeds for every server with fewer than 99 names if and only
  if the first 62 characters of the base have no two dots in a row
  (`AllocationSucceedsIff`).
- `reconcileDrift` ignores exit codes and marks every user SUCCESS; an invalid
  name stops the pass for all later users; a name that starts with a dot is
  reported missing for ever (`FilesAfterPass`, `CompletesIff`, `CleanAfterPassIff`).
- The sync counter of flagged users is their number exactly when nobody is an unlisted
  synced member under two mappings, be it of one group or of two; each further mapping
  counts such a user again (`FlagCounterIsExactIff`, `TwoMappingsCountTwice`).
- The common names a sync gives do not depend on the order of the mappings and of their
  listings if and only if no two of the people to be added would get one name if each
  came first (`NamesAreDeterminedIff`; two people who swap names: `NamesDependOnOrder`).
  What never depends on the order is stated by `OrderDetermines`.
- Applying settings twice equals applying the last ones if and only if no kept
  line but the last ends with a carriage return (`LastWriterWinsIff`); a directive
  whose name is followed by a tab is not recognised and survives
  (`ExactlyOneDirectiveIff`).

## Model

| member | source | states |
|---|---|---|
| LoginRateLimit.AuthRateLimit.CanAttemptLogin | src/lib/login-rate-limit.ts:29-41 | admits exactly when neither the e-mail row nor, if there is an address, the address row is locked at that time |
| LoginRateLimit.AuthRateLimit.UpsertFailure | src/lib/login-rate-limit.ts:43-86 | the whole new table: one row replaced by its successor, all others kept |
| LoginRateLimit.AuthRateLimit.AuthorizeCredentialsSignIn | src/lib/auth.ts:319-387 | one attempt is one step of the run: refused, cleared or recorded; signed in exactly when admitted and valid |
| LoginRateLimit.AuthRateLimit.VerifyMfa | src/app/api/auth/mfa/verify/route.ts:51-73 | the same for an MFA attempt |
| LoginRateLimit.SignInMeans | src/lib/login-rate-limit.ts:29-114 | one sign-in attempt, row by row: who is admitted; a refusal changes nothing, a success removes the e-mail row and the row of a given address, a failure is recorded on just these; no other row changes |
| LoginRateLimit.MfaMeans | src/lib/login-rate-limit.ts:124-142 | one MFA attempt, row by row: the row of the identifier as given is looked at and removed, the row of the normalised one counts |
| LoginRateLimit.PasswordChangeMeans | src/app/api/profile/password/route.ts:59 | a new password removes the row of the e-mail and nothing else |
| LoginRateLimit.SameKeyIff | src/lib/login-rate-limit.ts:9-16 | two spellings share a row exactly when they agree without case and outer blanks, or one is blank and the other spells its stand-in |
| LoginRateLimit.RowIsReplay | src/lib/login-rate-limit.ts:43-114 | in every timed run a row is the replay of the admitted failures of its key since the last success, or password change, that concerns the key |
| LoginRateLimit.CounterMeaning | src/lib/login-rate-limit.ts:67-84 | the counter is in 1..max, the window starts at the first failure it counts, the lock is set exactly at the max-th |
| LoginRateLimit.ThrottleState | src/lib/login-rate-limit.ts:67-84 | in every run a key is locked exactly while its counter is at max and less than the lockout has passed since its last failure |
| LoginRateLimit.LockoutFigures | src/lib/login-rate-limit.ts:3-10 | in every run a row is locked by its fifth failure (an address by its twentieth) and for 15 minutes after its last one; the count starts anew after the lockout or 15 minutes (5 for MFA) after it began |
| LoginRateLimit.Spread | src/lib/login-rate-limit.ts:67-84 | any 2*max-1 consecutive failures span a whole window |
| LoginRateLimit.LoginScopesAreConsulted | src/lib/login-rate-limit.ts:29-37 | whoever records on an e-mail or address row has consulted that row |
| LoginRateLimit.SlidingWindow | src/lib/login-rate-limit.ts:29-95 | although only a fixed window is stored, no half-open interval of one window holds more than 2*max-2 failures of a key |
| LoginRateLimit.LoginFigures | src/lib/auth.ts:319-387 | at most 8 failures per e-mail and 38 per address in any 15 minutes |
| LoginRateLimit.MfaFigures | src/lib/login-rate-limit.ts:120-133 | at most 8 MFA failures in any 5 minutes when identifiers are normal |
| LoginRateLimit.SlidingBoundIsAttained | src/lib/login-rate-limit.ts:43-86 | the sliding bound is tight for every key of every scope: a timed run of attempts, all of them recorded, with 2*max-2 failures in one window |
| LoginRateLimit.NothingAdmittedInLockout | src/lib/login-rate-limit.ts:29-84 | once the counter of a key is at max, no attempt of the run that consults the key is admitted until the lockout after the last failure is over, unless a password change (`src/app/api/profile/password/route.ts:59`, `src/app/api/admin/users/[id]/route.ts:81`) clears the row in between, which happens to e-mail rows only |
| LoginRateLimit.RunTotal | src/lib/login-rate-limit.ts:67-84 | a run of duration D records at most max*(D/window+1) failures of a key |
| LoginRateLimit.MfaThrottleWorksIffNormal | src/lib/login-rate-limit.ts:124-133 | some run locks a user out of MFA if and only if the identifier is its own normal form |
| LoginRateLimit.CapitalIdentifierIsNeverRefused | src/lib/login-rate-limit.ts:124-133 | no run ever locks out an identifier with a capital letter |
| Base32.EncodeBase32 | src/lib/totp.ts:24-44 | the loop over the wrapping 32-bit accumulator computes the bit-string reading of section 6 of RFC 4648 without padding |
| Base32.DecodeBase32 | src/lib/totp.ts:46-68 | the loop computes the whole octets of the joined quintets, or refuses a text with a foreign symbol |
| Base32.EncodedShape | src/lib/totp.ts:24-44 | the encoding has ceil(8n/5) alphabet characters whose bits are those of the bytes and then zeros |
| Base32.RoundTrip | src/lib/totp.ts:24-68 | decoding the encoding of any bytes gives the bytes back |
| Base32.DecoderIsLenient | src/lib/totp.ts:20-68 | an encoding in either case, with white space put in anywhere and then any number of "=" at the very end, is decoded to its bytes |
| Base32.NormalFormIff | src/lib/totp.ts:20-22 | exactly these texts have that normal form |
| Base32.DecodableIff | src/lib/totp.ts:46-56 | a text is decoded exactly when each character is white space, a symbol in either case, or a "=" with only "=" behind it |
| Base32.BlankBehindPadding | src/lib/totp.ts:20-22 | a padded text that is decoded, and refused with a blank behind the padding |
| Base32.ReencodeIffCanonical | src/lib/totp.ts:24-68 | a decodable text is the encoding of what it decodes to exactly when fewer than five bits are left over, all zero |
| TotpVerification.FindValidTotpStep | src/lib/totp.ts:138-157 | the loop is the search for the first matching step in the window |
| TotpVerification.FindFromMeaning | src/lib/totp.ts:138-157 | a found step is in the window and the first with the code; otherwise none has it |
| TotpVerification.FindStepMeaning | src/lib/totp.ts:134-157 | the whole search in terms of half minutes: the earliest step of the window on both sides of the current one whose code is the trimmed input of six digits, or none, or a throw |
| TotpVerification.AdminUsers.UpdateMany | src/lib/totp-verification.ts:11-25 | the conditional update: count 1 and the new row exactly when the row is fresh for that secret and step |
| TotpVerification.AdminUsers.ConsumeTotpCode | src/lib/totp-verification.ts:4-32 | find and update together: accepted, replayed, invalid or thrown, with the new table |
| TotpVerification.FindDecides | src/lib/totp-verification.ts:4-8 | only a call whose search has found a step goes on to the update, with that step |
| TotpVerification.HistoryExplainsRow | src/lib/totp-verification.ts:11-25 | under any interleaving the row of a user is what its history of accepted steps leaves, each fresh when accepted |
| TotpVerification.AcceptedStepsRise | src/lib/totp-verification.ts:4-32 | under any interleaving of the find and update steps of any calls, accepted steps of one secret strictly increase, so none is accepted twice |
| TotpVerification.SuccessesAreBounded | src/lib/totp-verification.ts:4-32 | calls whose base steps lie in a..b succeed at most (b-a+1)+2*window times |
| TotpVerification.AcceptedIffUnspent | src/lib/totp-verification.ts:4-32 | under any interleaving, for every user and secret, the update of a waiting call is accepted exactly when the user exists and the step is above every step accepted for that secret since the row was last cleared or another secret was used (without a history: above what the row holds) |
| TotpVerification.TwoSecretsReplay | src/lib/totp-verification.ts:11-25 | three calls whose updates take turns between two secrets are all accepted: the history holds the same call with the same step twice |
| TotpVerification.ReplayExample | src/lib/totp-verification.ts:11-25 | every user can meet such a run |
| CommonNames.BuildUniqueCommonName | src/app/api/access-requests/[id]/route.ts:20-42 | the loop returns the first free candidate of the sanitised base, or none |
| CommonNames.FirstFreeMeaning | src/app/api/access-requests/[id]/route.ts:23-41 | a returned name is valid, not taken and a candidate; none is returned exactly when all candidates are invalid or taken |
| CommonNames.ValidNameIff | src/lib/validation.ts:14-19 | the valid names: 1 to 64 letters, digits, dots, hyphens and underscores (by their codes), not put together around ".." |
| CommonNames.DropPlusMeaning | src/lib/validation.ts:65-66 | the name is cut at the first "+" with no line end behind it, and nowhere else |
| CommonNames.DerivedIsPrefix | src/lib/validation.ts:62-67 | the derived name is the part of the e-mail in front of the first "@" or "+", if no line ends in it |
| CommonNames.BaseMeaning | src/app/api/access-requests/[id]/route.ts:10-17 | the base is the derived name with foreign characters replaced, without the separators at either end, cut to 64, or "user" if nothing is left |
| CommonNames.CandidatesDiffer | src/app/api/access-requests/[id]/route.ts:24-27 | candidates with different numbers are different names |
| CommonNames.AllocationSucceedsIff | src/app/api/access-requests/[id]/route.ts:20-42 | a name is found whichever fewer than 99 names are taken, if and only if the first 62 characters of the base have no two dots in a row |
| CommonNames.EarlyDotsAlwaysFail | src/app/api/access-requests/[id]/route.ts:29-31 | with two dots among the first 60 characters it fails even on an empty server |
| AccessLifecycle.RequestStore.ExpireRequests | src/lib/access-lifecycle.ts:185-230 | the loop expires exactly the listed rows that still have the expected status; count and audit entries are those rows |
| AccessLifecycle.RequestStore.ReconcileAccessRequestLifecycle | src/lib/access-lifecycle.ts:26-91 | the new table is the reconciled one, the three counts are the sizes of the three picks, and the new audit entries are for exactly the picked requests, as many as the counts add up to |
| AccessLifecycle.ReconcileExpiresIff | src/lib/access-lifecycle.ts:26-91 | whom a reconcile expires, in terms of the row: PENDING for 14 days since its creation, FAILED for 7 days since its last change, APPROVED without an enabled user or with a hidden e-mail; the new row, and no other |
| AccessLifecycle.ReconciledMeaning | src/lib/access-lifecycle.ts:26-91 | a reconcile expires exactly what it picks and leaves all other rows as they are |
| AccessLifecycle.LostAccessIsOrphaned | src/lib/access-lifecycle.ts:146-183 | an approved request without access is picked, whatever the e-mails look like |
| AccessLifecycle.SplitUndoesPairIff | src/lib/access-lifecycle.ts:163-167 | the split gives e-mail and server back exactly when the e-mail neither contains "::" nor ends with a colon |
| AccessLifecycle.OrphanedIff | src/lib/access-lifecycle.ts:146-183 | an approved request is picked exactly when its access is gone, or its e-mail contains "::" or ends with a colon |
| AccessLifecycle.ColonsHideAccess | src/lib/access-lifecycle.ts:163-182 | one e-mail of each kind whose access is there and is not seen |
| AccessRequests.RequestRoutes.Post | src/app/api/access-requests/route.ts:100-192 | reconcile, then refuse or create: reply and new table in terms of the reconciled table and its latest live request |
| AccessRequests.CreatedIsAlone | src/app/api/access-requests/route.ts:100-192 | when POST creates, no live request for that e-mail and server exists |
| AccessRequests.PostCreatesIff | src/app/api/access-requests/route.ts:110-192 | in a reachable state valid input creates exactly when there is no access, no live request for the pair and room in the quota |
| AccessRequests.PostAnswersIff | src/app/api/access-requests/route.ts:110-192 | in every reachable state, which of its six answers POST gives to valid input: access, then the live request of the pair, then the quota of three |
| AccessRequests.BornPending | src/app/api/access-requests/route.ts:176-192 | a new row is the next one, PENDING and unreviewed, and comes from POST or a first sign-in |
| AccessRequests.CreationTakesEffect | src/app/api/access-requests/route.ts:100-192 | POST leaves the reconciled table, with the new row exactly when it answers that one was created; a first sign-in adds its row |
| AccessRequests.LifeOfRequest | src/app/api/access-requests/[id]/route.ts:62-265 | whatever event happens in a reachable state: who takes a request from which status to which, who removes it, and what never changes |
| AccessRequests.UniquenessAndQuota | src/app/api/access-requests/route.ts:100-192 | in every reachable state at most one live request per e-mail and server and at most three open ones per e-mail |
| AccessRequests.WithoutReconcileNotUnique | src/app/api/access-requests/route.ts:169-183 | without the reconcile a second live request gets in |
| AccessRequests.SignInKeepsGoodIff | src/lib/auth.ts:273-307 | a first sign-in keeps uniqueness and quota exactly when there is no live request for its e-mail and server and fewer than three open ones |
| AccessRequests.SecondFirstSignInNotUnique | src/lib/auth.ts:273-307 | after any first sign-in, a second one of the same e-mail breaks uniqueness |
| AccessRequests.ExpiredIsFinal | src/lib/access-lifecycle.ts:185-211 | an expired request stays expired whoever acts |
| AccessRequests.PassMovesOnlyWhatItPicked | src/lib/access-lifecycle.ts:195-211 | a row update of an interleaved pass changes at most the row it aims at, only out of the status it was picked for, never a PROCESSING, REJECTED or EXPIRED one |
| AccessRequests.PassesBalance | src/lib/access-lifecycle.ts:59-91 | under any interleaving the counts of every pass are the rows it has changed, each different and each audited once or just due |
| AccessRequests.FinishedPass | src/lib/access-lifecycle.ts:59-91 | a finished pass changed as many rows, and wrote as many audit entries, as its three counts add up to |
| AccessRequests.UninterruptedPass | src/lib/access-lifecycle.ts:26-91 | begun with the three picks and not interrupted, the row-by-row pass ends in the reconciled table, with the counts of the reconcile and one audit entry for each picked row |
| LifecycleAutomation.Automation.Begin | src/lib/access-lifecycle.ts:93-114 | a call joins, is skipped or starts; the new module variables |
| LifecycleAutomation.EventLoop.Handle | src/lib/access-lifecycle.ts:93-138 | running the code of a call, of the end of a body, or of a returning call with its finally block is the step of the event loop that the results below are about |
| LifecycleAutomation.AlwaysSingleFlight | src/lib/access-lifecycle.ts:98-137 | the variable names exactly the run whose starter has not returned |
| LifecycleAutomation.AtMostOneBody | src/lib/access-lifecycle.ts:98-137 | at most one body is in flight, and every call meanwhile joins it |
| LifecycleAutomation.OnlyStarterClears | src/lib/access-lifecycle.ts:133-137 | only the return of the starter clears the variable, after its run has settled |
| LifecycleAutomation.EveryCallIsServed | src/lib/access-lifecycle.ts:93-134 | a call gets the run in flight, its own run, or, less than five minutes after the last start, the summary of the latest run that has succeeded, marked skipped |
| LifecycleAutomation.BodySettles | src/lib/access-lifecycle.ts:115-130 | a body that ends settles its own run, with the time of its start and its counts, or as thrown |
| LifecycleAutomation.AlwaysSummaryOfLatest | src/lib/access-lifecycle.ts:98-130 | in every reachable state the summary in hand is that of the latest run that has succeeded |
| LifecycleAutomation.SettledCallReturns | src/lib/access-lifecycle.ts:133-137 | a waiting call whose run has settled returns that outcome when it is resumed |
| LifecycleAutomation.WaitingIsFaithful | src/lib/access-lifecycle.ts:98-134 | a waiting call returns the outcome of the very run it waits for |
| LifecycleAutomation.AlwaysThrottled | src/lib/access-lifecycle.ts:102-113 | once a run has succeeded each unforced start is at least five minutes after the start before it |
| LifecycleAutomation.SuccessIsRemembered | src/lib/access-lifecycle.ts:102-128 | once a summary is there it stays, and every later start comes after a success |
| LifecycleAutomation.StartsIff | src/lib/access-lifecycle.ts:98-113 | a call starts a run exactly when no starter is outstanding and it is forced, nothing has succeeded yet, or five minutes have passed |
| Provisioning.Portal.Approve | src/app/api/access-requests/[id]/route.ts:62-265 | the handler step by step equals the saga with its one fault: database, certificates and reply; only a PENDING or FAILED request is touched, every other one is refused with the answer for its status |
| Provisioning.Portal.Catch | src/app/api/access-requests/[id]/route.ts:216-247 | the compensation: revoke a new certificate, fail the request, disable the user unless its certificate was active |
| Provisioning.OnlyOpenRequestsMove | src/app/api/access-requests/[id]/route.ts:62-72 | a missing, PROCESSING, APPROVED, REJECTED or EXPIRED request is refused, each with its answer, and nothing changes |
| Provisioning.AttemptOutcome | src/app/api/access-requests/[id]/route.ts:96-247 | fault by fault: which faults fail an attempt, and what it leaves of the request, the user, the memberships (new ones MANUAL) and the certificates |
| Provisioning.UntilCommit | src/app/api/access-requests/[id]/route.ts:96-160 | at every point before the commit a new user is disabled and without certificate status, and old users are as they were |
| Provisioning.AttemptIsFramed | src/app/api/access-requests/[id]/route.ts:96-265 | an attempt touches only its request, its user, that user's memberships and certificate; existing memberships keep their source |
| Provisioning.AttemptKeepsNamesUnique | src/app/api/access-requests/[id]/route.ts:121-133 | common names stay unique on every server and a new one is valid |
| Provisioning.AttemptEnds | src/app/api/access-requests/[id]/route.ts:170-265 | an attempt ends approved or failed; approved means one user for the pair, enabled, with an active certificate and all memberships |
| Provisioning.FailureIsContained | src/app/api/access-requests/[id]/route.ts:216-247 | a fault before the commit leaves every certificate status as it was and a user without active certificate disabled |
| Provisioning.StatusChangesIff | src/app/api/access-requests/[id]/route.ts:196-247 | a failed attempt changes a certificate status exactly when the fault is behind the commit and a certificate was needed |
| Provisioning.CertificateLeaksIff | src/app/api/access-requests/[id]/route.ts:164-229 | exactly when a failed attempt leaves a new certificate unrevoked |
| Provisioning.RetriesAreIdempotent | src/app/api/access-requests/[id]/route.ts:112-265 | after any number of attempts there is at most one user for the pair, an approved request has the memberships of one attempt, and nothing else is touched |
| Provisioning.ApprovedHasCertIff | src/app/api/access-requests/[id]/route.ts:160-265 | after any attempts an approved request has the certificate of its user on the server exactly when no attempt that needed one failed behind the commit and revoked it, and it was there at the start if the user's status was already ACTIVE |
| Provisioning.ApprovedWithoutCert | src/app/api/access-requests/[id]/route.ts:160-229 | every request whose user needs a certificate can end approved, enabled and ACTIVE without one: the audit entry of the approval fails, then a retry succeeds |
| Ipv4.AddressOfQuadText | src/lib/ccd-generator.ts:13-19 | a mask word printed as four numbers denotes that word |
| Ipv4.MaskShape | src/lib/ccd-generator.ts:12 | the mask of p is p ones and then zeros, for all p from 0 to 32 |
| Ipv4.RouteCoversBlock | src/lib/ccd-generator.ts:9-20 | the route of a.b.c.d/p covers exactly the addresses that share its top p bits (section 3.1 of RFC 4632) |
| ConfigRewriting.DirectiveCoversBlock | src/lib/server-network-config.ts:19-31 | the server directive, split at its spaces, is "server" and the network and mask of exactly the addresses of its block |
| Ccd.GenerateCcdContent | src/lib/ccd-generator.ts:22-47 | the loops print the static line and the distinct routes in order |
| Ccd.StaticLineMeaning | src/lib/ccd-generator.ts:22-31 | the static line gives the address and the mask with as many ones as the prefix of the VPN network, 24 by default, is long |
| Ccd.CcdLinesMeaning | src/lib/ccd-generator.ts:22-47 | a static line exactly for an address that is not empty, then one line for each distinct route in order |
| Ccd.MatchRouteIff | src/lib/import-service.ts:33 | exactly which lines match, and with which route |
| Ccd.DistinctMeaning | src/lib/ccd-generator.ts:32-41 | every ip/mask pair is kept once |
| Ccd.ParseCcdRoutes | src/lib/import-service.ts:28-39 | the loop returns the ip/mask pairs of the lines that match |
| Ccd.ParseOfGenerated | src/lib/import-service.ts:28-39 | parsing a printed text gives the distinct routes in order of first occurrence, the static line skipped |
| Ccd.GenerateCcdForUser | src/lib/ccd-generator.ts:50-102 | the text of a user is that of the blocks of the permanent groups and then of the live grants |
| Ccd.BlocksMeaning | src/lib/ccd-generator.ts:85-96 | a block counts exactly when a permanent group or a live grant has it |
| Ccd.CcdMeansBlocks | src/lib/ccd-generator.ts:50-102 | an address is covered by the text of a user exactly when it lies in a block of a permanent group or of a live grant |
| CcdComparison.SortMeaning | src/lib/drift-detection.ts:14-21 | the sort gives an ordered permutation |
| CcdComparison.SameNormalFormIff | src/lib/drift-detection.ts:14-21 | two texts have one normal form exactly when their nonblank trimmed lines agree as multisets |
| CcdComparison.GeneratedAgreeIff | src/lib/drift-detection.ts:14-21 | two generated texts have one normal form exactly when they have the same static line and the same set of routes |
| DriftDetection.WriteCommandWrites | src/lib/ccd-generator.ts:108-136 | the command redirects to the file of that name and sets its mode, the here-document is the content and a newline; refused exactly for an invalid name or path |
| DriftDetection.Server.ReconcileDrift | src/lib/drift-detection.ts:71-92 | files, users marked and completion are those of the pass, user by user |
| DriftDetection.Server.DetectDrift | src/lib/drift-detection.ts:28-68 | the three findings of the pass, or none when the path is refused |
| DriftDetection.DetectionMeaning | src/lib/drift-detection.ts:46-66 | missing, extra and mismatched without loops or normal forms |
| DriftDetection.CompletesIff | src/lib/drift-detection.ts:83-92 | a pass completes exactly when no command is refused and no transport throws |
| DriftDetection.FilesAfterPass | src/lib/drift-detection.ts:83-92 | each user has the file its write left, other files are untouched, and all are marked SUCCESS whatever the exit codes |
| DriftDetection.CleanAfterPassIff | src/lib/drift-detection.ts:23-92 | detection after a completed pass finds nothing missing or mismatched exactly when no name starts with a dot and every write delivered |
| TemporaryAccess.AccessStore.SyncUserCcdAfterAccessChange | src/lib/temporary-access.ts:15-61 | status and success of a push for every behaviour of the transport |
| TemporaryAccess.AccessStore.ReconcileExpiredTemporaryAccess | src/lib/temporary-access.ts:63-144 | the loop equals closing the selected grants one by one; the two counts |
| TemporaryAccess.EveryRunHasOutcome | src/lib/temporary-access.ts:94-143 | in every reachable state: expired and failed make up the selection, failed grants are exactly as before, others untouched, audit entries are those of the expired |
| TemporaryAccess.PushMeans | src/lib/temporary-access.ts:15-61 | when a push goes through, and the status it leaves for each behaviour of the transport; no other user is touched |
| TemporaryAccess.ExpiredIff | src/lib/temporary-access.ts:94-136 | a selected grant is expired exactly when its own push goes through and its own audit entry is written; else it is restored |
| TemporaryAccess.RunClosesIff | src/lib/temporary-access.ts:63-136 | every row behind a run in terms of the row before it: closed as "system" exactly when active, due, meant by the filter, and not failed |
| TemporaryAccess.StatusAfterRun | src/lib/temporary-access.ts:15-61 | the status of a user behind a run is what the last push for one of its grants left, or as it was |
| TemporaryAccess.CreatedMeans | src/app/api/users/[id]/temporary-access/route.ts:53-130 | granting: the refusals, the user enabled, and the new row that stays exactly when the push goes through |
| TemporaryAccess.RevokedMeans | src/app/api/users/[id]/temporary-access/[grantId]/route.ts:32-68 | revoking a grant of that user: closed in the name of the administrator exactly when the push goes through |
| TemporaryAccess.RunKeepsLiveGrants | src/lib/temporary-access.ts:63-144 | a run changes nobody's live grants, whatever fails |
| TemporaryAccess.AuditedIffClosedBySystem | src/lib/temporary-access.ts:94-136 | over all runs, with creations and revocations in between: at most one expiry audit per grant, and for a grant no administrator revoked one exactly when the system closed it |
| SyncEngine.FreeName | src/lib/sync-engine.ts:97-110 | the search ends after at most as many tries as there are names, with the first free suffix |
| SyncEngine.Directory.AddMember | src/lib/sync-engine.ts:87-133 | the whole new tables: the user found or created under the first free name, then the membership marked as synced |
| SyncEngine.Directory.RunGoogleSync | src/lib/sync-engine.ts:67-173 | the nested loops compute the tables that follow from taking the mappings, and the people of each listing, in turn; both counters, and when the second is exact |
| SyncEngine.UsersAfterRun | src/lib/sync-engine.ts:67-119 | old users are untouched; a new one is on the server, enabled and without a certificate, and there is one exactly for each e-mail of an active listed person that had no user there |
| SyncEngine.ListedAreMembers | src/lib/sync-engine.ts:87-131 | everyone a mapping lists is a user of the server and a synced member of its group |
| SyncEngine.FlaggedIff | src/lib/sync-engine.ts:139-171 | newly flagged are exactly the synced members of a mapped group whom no mapping of that group lists |
| SyncEngine.OtherMembershipsStay | src/lib/sync-engine.ts:121-131 | nobody loses a membership, and groups without a mapping stay as they are |
| SyncEngine.SecondRunChangesNothing | src/lib/sync-engine.ts:67-173 | a second run on the same listings adds no user and no membership and flags nobody |
| SyncEngine.OrderDetermines | src/lib/sync-engine.ts:67-173 | for any order of the mappings: the same e-mails have a user, everyone has the same part in every group, the same users are flagged |
| SyncNames.NamesAreDetermined | src/lib/sync-engine.ts:94-118 | if no two of the people to be added would get one name if each came first, everyone gets that name |
| SyncNames.NamesAreDeterminedIff | src/lib/sync-engine.ts:71-119 | that is exactly when every order of the mappings and of their listings gives everyone the same name |
| SyncNames.NamesDependOnOrder | src/lib/sync-engine.ts:94-118 | two new people with one derived name: each gets it if its mapping comes first |
| SyncEngine.UsersAddedCount | src/lib/sync-engine.ts:94-119 | one user is added for each listed e-mail without one |
| SyncEngine.FlagCounterIsExactIff | src/lib/sync-engine.ts:138-167 | the counter is the number of users a run flags exactly when nobody is an unlisted synced member under two mappings |
| SyncEngine.TwoMappingsCountTwice | src/lib/sync-engine.ts:138-167 | one group, two mappings that list nobody, one member: one flagged, two counted |
| SyncEngine.RunKeepsFit | src/lib/sync-engine.ts:67-173 | unique keys, lower-case e-mails and members at home are kept |
| ServerNetworkConfig.ValidateServerNetworkSettings | src/lib/server-network-config.ts:103-132 | finds no problem exactly in valid settings; a reported network, port, server or domain is a bad one of the settings |
| ServerNetworkConfig.ValidDomainIff | src/lib/server-network-config.ts:124-129 | the valid domains are those spelled by labels and a last one of letters, with or without a final dot, of at most 253 characters and no hyphen in front |
| ServerNetworkConfig.ManagedIff | src/lib/server-network-config.ts:68-83 | exactly which lines an update replaces: two in full, ten by their starts |
| ServerNetworkConfig.ManagedLinesMean | src/lib/server-network-config.ts:33-66 | every setting can be read off the managed block: the fixed lines in their places, the others present exactly for their settings, servers and domains |
| ServerNetworkConfig.BuildManagedLines | src/lib/server-network-config.ts:33-66 | the pushed lines are the managed block |
| ServerNetworkConfig.ApplyNetworkSettingsToServerConfig | src/lib/server-network-config.ts:85-101 | filter, pop loop and trim compute the updated text |
| ConfigRewriting.LinesOfApplied | src/lib/server-network-config.ts:85-101 | every line of an updated configuration: kept lines, a blank line, the managed lines of the new settings |
| ConfigRewriting.KeptOfApplied | src/lib/server-network-config.ts:85-101 | unmanaged lines survive in order, each losing at most one carriage return and the last its trailing blanks |
| ConfigRewriting.LastWriterWinsIff | src/lib/server-network-config.ts:85-101 | an earlier update makes no difference exactly when no kept line but the last ends with a carriage return |
| ConfigRewriting.WithoutCrCrLfLastWriterWins | src/lib/server-network-config.ts:85-101 | it is enough that CR CR LF does not occur |
| ConfigRewriting.CrCrLfExample | src/lib/server-network-config.ts:89-91 | a configuration that does not meet the condition |
| ConfigRewriting.ExactlyOneDirectiveIff | src/lib/server-network-config.ts:68-83 | the result has exactly one port, proto and server directive, the new one, if and only if every old one is recognised |
| ConfigRewriting.TabDirectiveSurvives | src/lib/server-network-config.ts:68-83 | a directive with a tab survives |
| Shell.EscapedWordsAreReadBack | src/lib/shell.ts:3-5 | for every list of strings, a POSIX lexer (sections 2.2.1 and 2.2.2 of the Shell Command Language) over the escaped strings joined by blanks returns the strings |
| Shell.LexUndoesBuilding | src/lib/cert-service.ts:19-28 | the same when escaped values are glued into longer words, with && between commands |
| Shell.ValidPathIff | src/lib/validation.ts:7-12 | the valid paths: a slash in front, 2 to 255 name characters and slashes, not put together around ".." |
| Shell.CommandsMean | src/lib/shell.ts:7-41 | the words a shell runs for the list, read and remove commands; refused exactly for invalid input |
| Shell.CleanupMeans | src/lib/cert-service.ts:19-28 | the clean-up is four removals of one file each, for any common name |

## Left out

- Transports, the agent server, the Google and LDAP clients, NextAuth, Prisma and the UI: only their answers appear, as parameters. HMAC, AES, SHA and bcrypt are uninterpreted.
- Strings are sequences of Unicode characters, and letter case is mapped for ASCII letters only; UTF-16 surrogates and Unicode case mapping are not modelled. NUL characters, which a shell word cannot hold, are not excluded by the lexer.
- LoginRateLimit.SlidingWindow: attempts on one key are steps one after the other; two attempts that both pass the check before either is recorded are not modelled. Whether a run consulted the row it writes is a premise, met by every login key and by normal MFA identifiers.
- LoginRateLimit.AuthRateLimit.AuthorizeCredentialsSignIn: missing credentials and the portal user that an LDAP sign-in creates are not part of it; the password check is a parameter.
- AccessRequests.UniquenessAndQuota: each request handler is one step, server identifiers contain no colon, and a first sign-in happens only where SignInKeepsGoodIff allows it.
- AccessRequests.LifeOfRequest: who approved or rejected a request is not modelled; the name "system" that an expiry leaves is.
- AccessRequests.RequestRoutes.Post: groups, names and reasons of a request, the session check and the audit entry of a creation are not modelled.
- AccessLifecycle.RequestStore.ReconcileAccessRequestLifecycle: audit writes succeed.
- Provisioning.Portal.Approve: one fault per attempt, from the start of the try to the last audit entry; database writes in the catch and its audit entries succeed, and two administrators do not review one request at once. The approval of the portal account in the commit, review notes and certificate dates are not modelled.
- Provisioning.AttemptKeepsNamesUnique: the name of an attempt is tied to the search by a premise, because the database table it reads is one of users.
- DriftDetection.CleanAfterPassIff: one clock reading serves all generated texts, reads succeed, and no other file name has blanks around it. The expiry of grants that both operations start with is modelled in TemporaryAccess.
- Ccd.ParseOfGenerated: routes and the static address consist of digits and dots, as the stored ones do.
- TemporaryAccess.AuditedIffClosedBySystem: runs and requests follow one another; administrators are not called "system"; database writes other than the audit entry succeed. The checks on group and existing grants before a creation are one parameter.
- SyncEngine.Directory.RunGoogleSync: no database error and no fetch error (the code treats the latter as an empty listing); stored e-mails of the server are lower case, and synced members of a mapped group belong to its server. Reasons and times of flags and the sync job row are not modelled.
- ServerNetworkConfig.ValidateServerNetworkSettings: ports that are not integers.
- Shell.LexUndoesBuilding: the lexer gives no result for text that needs other rules than blanks, backslash, single quotes and &&; redirections and pipes of other commands are not lexed.
- Dashboards, analytics, alerts, notification texts, middleware, RBAC, feature flags, block lists, the operation queue, the startup reconciler, status logs and date formats.

# Verified model of the marketplace backend's stateful cores

A Dafny model of five parts of the backend, with proofs about every run of each. The
database is a record of row sequences (a row's id is its position), the clock is an integer
handed to every call, and what a call draws from outside (random identifiers, secrets, the
verdict of a delivery, which of two equally new rows a query returned) is a parameter.

| files | part |
|---|---|
| `Sessions`, `Otp`, `AuthService`, `SessionOutcomes`, `OtpOutcomes` | refresh-token rotation with families and a grace window, reset tokens, OTP challenges |
| `MatchTokens`, `Matcher`, `MatchOutcomes` | pairing documents with catalogue grades through an index |
| `ObjectKeys` | storage keys: sanitizer, printer, parser |
| `Documents`, `Importer`, `Reconcile`, `TdsLibrary` | TDS document rows and all their writers |
| `SyncOutcomes`, `ImportOutcomes`, `LibraryOutcomes` | what a sync, an import and an administrator's call leave, and how long that lasts |
| `ReconcileLaws`, `PageSplits`, `Lifecycle`, `KeyOrder`, `StaleSnapshots` | what storage sync keeps, and exactly when it does not |
| `GradeRequests`, `GradeRequestOutcomes`, `Support`, `TicketOutcomes` | two optimistic workflows with concurrent actors |
| `RateLimit`, `TtlCache`, `Gstin`, `Origin` | limiters, cache, check digit, origin wildcard |
| `Words` | the normalizers of all parts as words joined by a separator |
| `Prelude`, `Text` | vocabulary and ASCII string operations |

Each part is built the same way. Pure functions say what one call or one step does; lemmas
prove what every run keeps; and classes whose methods update fields step by step, as the
services do, are proved equal to those functions call by call. The auth service, the request
table, the ticket table and the cache also carry their own history: their `Valid()` says that
it is a run in the sense of the lemmas and ends in the current fields, every method extends
it, and a few lemmas of each class apply the run theorems to the fields. The `Outcomes`
modules say what a caller sees afterwards, in terms of what was asked for and what was stored,
without naming the functions that compute it. Workflows whose
writes are guarded by the status read earlier are modelled as two separate steps, read and
guarded write, with any number of calls in flight.

`dafny verify dfyconfig.toml` checks everything.

## What the proofs found

Several promises hold only under a condition. The code is modelled as written; a lemma gives
an input on which the promise fails, and another says exactly when it is kept.

- **Storage sync can clear a grade.** A page loads its rows before it starts. If one object
  reaches a row by import key and brings a grade, and a later object of the page reaches the
  same row by storage key and matches nothing, the old missing grade is written back. It takes
  two calls: import a file while the catalogue lacks its grade, then sync a page that lists the
  file under the path of the workbook and under its storage key, which does not keep every
  character of the grade's name. The row ends VERIFIED, or PENDING_REVIEW, and without a grade
  exactly when the workbook's path comes first in key order (`StaleSnapshots.SpecialGradeIsLost`):
  "G+" loses its grade, "G@" does not (`StaleSnapshots.SyncLosesAGrade`). Over every run, rows
  and grades are kept throughout exactly when no sync page lists two such objects in that order
  (`Lifecycle.LifecycleExactlyWhen`).
- **Page boundaries can matter.** Sync a file, replace it through the upload, and sync both
  objects. One page leaves one row; two pages leave two exactly when the old key comes first
  (`StaleSnapshots.ReplacedFileComesBack`), as from v1 to v2 and not from v9 to v10
  (`StaleSnapshots.SampleFileComesBack`). A listing may be split anywhere if none of its objects
  reaches by import key the row that a later one finds by storage key, and, unless later objects
  cover the traces, only then (`PageSplits.AnySplitAgreesExactlyWhen`).
- **Some OTP comparisons are not counted.** The right code of a user who may not sign in is
  compared, and the transaction that would have consumed the challenge rolls back
  (`Otp.RefusedLoginsAreNotCounted`, for every configuration). A comparison is paid for exactly
  when it is not such a call (`Otp.PaidExactlyWhen`), so without such calls the comparisons stay
  within the limit (`Otp.ComparisonsAreBounded`).
- **Importing a workbook again can create rows.** A file of a refused type is skipped for good
  only while its grade matches; once the catalogue has lost the grade, the row is created.
  `Importer.RerunCreatesExactly` says which rows a second import adds.
- **Bars in producer names can mislead the index.** A producer or manufacturer whose tokens
  have a bar in the wrong place can be given a grade with another number
  (`Matcher.BluntProducerIsConfused`, `Matcher.BluntMakerConfuses`). For all others the index
  agrees with a scan (`Matcher.IndexAgreesWithScan`); for any names and catalogue it does exactly
  when the misfiled grades cannot change the pick (`Matcher.IndexAgreesExactlyWhen`).
- **Stored keys of grade requests can collide** when a bar in one name makes up for the bar
  between name and maker, and in no other way (`GradeRequests.KeysAgreeExactlyWhen`).
- **Reuse detection can leave a session usable**: one that was rotated less than a minute ago
  (`Sessions.ReuseKillsExactlyWhen`, with a run in `Sessions.ReuseDetectionLeavesGrace`).
- **A new password can leave an old token usable**: one rotated less than a minute ago, exactly
  (`SessionOutcomes.OldTokensAfterNewPassword`).
- **An assignment can be undone.** A call that read a request before it was assigned writes back
  the assignee it had read (`GradeRequestOutcomes.ReviewUndoesAssignment`); otherwise the request
  is always with whoever was assigned last, else with the first admin who acted
  (`GradeRequestOutcomes.AssigneeTellsExactlyWhen`).
- **Moving a ticket from RESOLVED to CLOSED counts as reopening**, so both times are cleared
  (`Support.ClosingTimeExactlyWhen`).

Also: a limit below one still grants the first request of a window, and the limiters' bound is
twice the limit minus one, which every limit reaches (`RateLimit.BoundIsReached`).

## Model

| member | source | states |
|---|---|---|
| Sessions.RevokedOnce | src/modules/auth/auth.service.ts:496-571 | over any run the revocation time of a session is written at most once |
| Sessions.GraceNotStretched | src/modules/auth/auth.service.ts:63-68 | any two successful refreshes with one token lie at most 60 s apart |
| Sessions.ReplacedExactlyWhenRotated | src/modules/auth/auth.service.ts:550-582 | a session has a successor exactly when some earlier call of the run refreshed it successfully |
| Sessions.LinksStayInFamily | src/modules/auth/auth.service.ts:567-582 | a successor has the same user and family and was created no earlier, inside the grace window |
| Sessions.ChainsAreAcyclic | src/modules/auth/auth.service.ts:567-582 | in every reachable state no session is reached from itself by following successors |
| Sessions.DeadFamilyStaysDead | src/modules/auth/auth.service.ts:496-515 | once every session of a family is revoked and outside its grace window, no later call of any kind gives the family a live session |
| Sessions.FamilyRevivesExactlyWhen | src/modules/auth/auth.service.ts:496-582 | over any run, of all calls only a successful refresh of one of its own sessions gives a family without live sessions a live one |
| Sessions.FamilyCanReviveExactlyWhen | src/modules/auth/auth.service.ts:496-582 | at any point of a run some next call gives such a family a live session exactly when a session of it was rotated within the grace window, is unexpired, and its user may sign in |
| Sessions.ReuseKillsExactlyWhen | src/modules/auth/auth.service.ts:496-548 | in any run reuse detection kills a family exactly when none of its sessions was rotated within the grace window; one that was can still be refreshed if unexpired and its user may sign in |
| Sessions.ReuseDetectionLeavesGrace | src/modules/auth/auth.service.ts:504-514 | a full run of a login, two refreshes and one reuse after which the family is not dead |
| Sessions.SignedOutForGood | src/modules/auth/auth.service.ts:657-786 | no session a user had at a password change or reset is live at any later point of the run; the call leaves the sessions of others alone |
| Sessions.AtMostOneUnusedToken | src/modules/auth/auth.service.ts:696-708 | over any run a user has at most one unused reset token; the calls include those that create, reset and close managers (`src/modules/admin/users/admin-manager.service.ts`, lines 160-245, 556-575, 645-680) |
| Sessions.ResetTokensAreOneTime | src/modules/auth/auth.service.ts:755-769 | a reset token is redeemed at most once in any run |
| SessionOutcomes.StepOpensExactly | src/modules/auth/auth.service.ts:419-587 | a call adds a session exactly for the right password, an OTP sign-in that is allowed, or a token that is unrevoked or rotated at most 60 s ago, unexpired, and of a user who may sign in; the new session has that user, its family, secret and lifetime |
| SessionOutcomes.SessionsHaveOrigins | src/modules/auth/auth.service.ts:419-587 | every session of a run was opened by one such call of the run |
| SessionOutcomes.EndsExactlyWhen | src/modules/auth/auth.service.ts:496-807 | over any run a live session stops being live exactly when its user logs out of it, gets a new password or is signed out by an administrator, a token of its family is used out of turn, or it is itself refreshed; the time is that of the call |
| SessionOutcomes.PasswordSetExactlyWhen | src/modules/auth/auth.service.ts:623-769 | a password is set exactly with the right current one and a different new one, or with an unused link in time, of an account that is not deleted |
| SessionOutcomes.PendingIsActivated | src/modules/auth/auth.service.ts:877-991 | an OTP sign-in opens an active account without a password or activates a pending one and changes nothing else of it; a redeemed link activates too |
| SessionOutcomes.LoggedOutForGood | src/modules/auth/auth.service.ts:589-617 | after a logout the access session and that of a verifiable refresh token, if the user's own, are not live at any later point of the run, and a token that was live is never accepted again; all other rows are as before |
| SessionOutcomes.OldTokensAfterNewPassword | src/modules/auth/auth.service.ts:496-786 | after a password change or reset an old token of the user is accepted exactly if its session was rotated within the grace window, is unexpired, and the user may sign in |
| SessionOutcomes.NewPasswordHolds | src/modules/auth/auth.service.ts:419-786 | from a password change or reset until the next one, exactly the new password logs in, for an account that may sign in |
| SessionOutcomes.RedeemedWasIssued | src/modules/auth/auth.service.ts:675-769 | a redeemed reset link was sent to that user by a call of the run, has not run out, and no newer link, redemption or closing of the account lies between |
| Otp.OneOpenChallenge | src/modules/auth/auth.service.ts:155-164 | over sequential runs at most one challenge per identifier and purpose is unconsumed |
| Otp.RollingHourCap | src/modules/auth/auth.service.ts:136-153 | every rolling hour holds at most the configured number of sends per identifier and purpose |
| Otp.PaidExactlyWhen | src/modules/auth/auth.service.ts:316-405 | a comparison adds an attempt or consumes the challenge exactly when it is not one of the right code of a user who may not sign in; sequentially the claim is never lost |
| Otp.RollbacksAreRefusals | src/modules/auth/auth.service.ts:383-405 | over any run the rolled back comparisons of a challenge are exactly those calls |
| Otp.ComparisonsAreBounded | src/modules/auth/auth.service.ts:316-381 | a challenge logs in at most once; its comparisons are its attempts, its login and the refused calls with the right code, the first two at most `maxAttempts` together |
| Otp.RefusedLoginsAreNotCounted | src/modules/auth/auth.service.ts:383-405 | for any configuration and any k, a run in which one challenge sees k comparisons, all refused and none counted |
| Otp.InterleavedBounds | src/modules/auth/auth.service.ts:288-405 | under any interleaving a challenge logs in at most once, and N concurrent verifiers make fewer than `maxAttempts + N` failed comparisons |
| OtpOutcomes.SendAnswers | src/modules/auth/auth.service.ts:120-240 | a code is refused exactly when an unused one of the pair is younger than the cooldown, or the pair had its number in the last hour; else earlier ones are used up and, if delivered, one is stored with its code and lifetime |
| OtpOutcomes.ChallengesWereSent | src/modules/auth/auth.service.ts:180-240 | every challenge of a run was sent by a call of the run, with that call's code |
| OtpOutcomes.SendsKeepApart | src/modules/auth/auth.service.ts:120-134 | two codes of one pair are sent a cooldown apart unless the first was used up in between |
| OtpOutcomes.SignsInExactlyWithSentCode | src/modules/auth/auth.service.ts:269-405 | over any run a verification signs in with a challenge exactly when it enters the code sent as that challenge, in time, while tries are left, for an unused challenge and a user who may sign in |
| OtpOutcomes.UsedUpExactlyWhen | src/modules/auth/auth.service.ts:155-405 | an open challenge is used up exactly by a request for its pair that is not refused, by a verification that finds it expired, or by signing in with it |
| AuthService.AuthService.Refresh | src/modules/auth/auth.service.ts:462-587 | the call is one refresh event of the session model: same verdict, same new rows, a possible successor link |
| AuthService.AuthService.Rotate | src/modules/auth/auth.service.ts:550-587 | the transaction always finds a newest live session to link to and touches only the presented row and the new one |
| AuthService.AuthService.NewestInFamily | src/modules/auth/auth.service.ts:567-574 | returns a live session of user and family that no other is newer than, or none exactly if there is none |
| AuthService.AuthService.Login | src/modules/auth/auth.service.ts:419-460 | a session is added exactly for an existing password that matches, a status that may sign in and a manager with a seller |
| AuthService.AuthService.Logout | src/modules/auth/auth.service.ts:589-617 | revokes the access session and the presented one, only if they belong to the user |
| AuthService.AuthService.ChangePassword | src/modules/auth/auth.service.ts:623-673 | the call is one password-change event of the session model, refused exactly when the guards say so |
| AuthService.AuthService.ForgotPassword | src/modules/auth/auth.service.ts:675-722 | the call is one forgot-password event: earlier tokens used up, one new one; nothing for an unknown user |
| AuthService.AuthService.ResetPassword | src/modules/auth/auth.service.ts:724-807 | the call is one reset event on the last unused token with the secret, accepted exactly under the code's guards |
| AuthService.AuthService.OtpIpAllowed | src/modules/auth/auth.service.ts:820-841 | answers and counts as the keyed limiter does; a limit of zero or less always passes and counts nothing |
| AuthService.AuthService.SendOtp | src/modules/auth/auth.service.ts:88-259 | refused by address with no challenge touched, or exactly one send event of the challenge model |
| AuthService.AuthService.VerifyOtp | src/modules/auth/auth.service.ts:269-417 | one verify event of the challenge model; a session is created exactly when the challenge is claimed, and a refused login leaves both tables alone |
| AuthService.AuthService.CompleteOtpLogin | src/modules/auth/auth.service.ts:877-991 | creates a session for an allowed or newly created user, activating a pending one; otherwise changes nothing |
| AuthService.AuthService.SessionFacts | src/modules/auth/auth.service.ts:567-582 | of the service at any time: successor chains never close, links are sound, no user has two unused reset tokens |
| AuthService.AuthService.DeadFamilies | src/modules/auth/auth.service.ts:496-515 | a family that was dead at any point of the service's history has no live session now |
| AuthService.AuthService.ChallengeFacts | src/modules/auth/auth.service.ts:136-164 | of the service at any time: the hourly send cap holds for every hour so far, a pair has at most one open challenge, and a challenge has logged in at most once |
| AuthService.AuthService.AddressFacts | src/modules/auth/auth.service.ts:820-841 | over the service's history any interval one window long holds fewer than twice the limit of granted sends from one address |
| MatchTokens.NormalizeIsIdempotent | src/modules/tds/tds-normalize.ts:6-14 | normalizing a match token twice is normalizing it once |
| MatchTokens.TokensHoldBase | src/modules/tds/tds-normalize.ts:55-81 | no alias token is empty and a non-empty base name is always one of them |
| MatchTokens.TokensBarFree | src/modules/tds/tds-normalize.ts:55-81 | no alias token of a producer without `\|` holds one |
| MatchTokens.CollectTokens | src/modules/tds/tds-normalize.ts:55-81 | the growing set of the loops is the specified token list, in insertion order |
| MatchTokens.CollectAliases | src/modules/tds/tds-normalize.ts:41-49 | the loop over the alias groups collects exactly the groups that hold the token |
| Words.MatchTokenIsWords | src/modules/tds/tds-normalize.ts:6-14 | a match token is the upper-case words between blanks, dashes and underscores, single-spaced |
| MatchOutcomes.ImportKeysAgreeExactlyWhen | src/modules/tds/tds-normalize.ts:83-95 | of names without bars, import keys agree exactly when category, grade, producer and path agree as match tokens |
| MatchOutcomes.TokensExactlyWhen | src/modules/tds/tds-normalize.ts:41-81 | a producer's tokens are its whole name, its base name, the words of at least three letters of that, what stands in parentheses, the known aliases of these, and nothing else |
| MatchOutcomes.AliasesMeet | src/modules/tds/tds-normalize.ts:28-49 | two producers spelled as in one alias group share a token |
| MatchOutcomes.ParenthesesAddName | src/modules/tds/tds-normalize.ts:17-21 | "A (B)" has A as its base name and both A and B as tokens |
| MatchOutcomes.PathSpellingMeets | src/modules/tds/tds-normalize.ts:23-49 | the path A_B is the producer A B, and every spelling known for A is one of its tokens |
| MatchOutcomes.ExxonMeetsVistamax | src/modules/tds/tds-normalize.ts:23-33 | EXXONMOBIL_VISTAMAX meets EXXON |
| Matcher.LoadGradeMatchIndex | src/modules/tds/tds-grade-matcher.ts:64-87 | the loop builds the specified two maps |
| Matcher.IndexFindsExactly | src/modules/tds/tds-grade-matcher.ts:64-87 | for all names and catalogues the maps find the grades of a scan and, besides, the misfiled ones: those that a key of the producer lists although number or tokens differ, by a token of theirs or as the first to want the key |
| Matcher.IndexFindsCandidates | src/modules/tds/tds-grade-matcher.ts:64-87 | for sharp names (no token with a bar where a grade number could end) nothing is misfiled and the maps find exactly the grades with the same normalized number that share a producer token |
| Matcher.KeyIsInjective | src/modules/tds/tds-grade-matcher.ts:75-86 | for sharp tokens a key of the map determines number and token |
| Matcher.IndexAgreesWithScan | src/modules/tds/tds-grade-matcher.ts:111-193 | for sharp producer and manufacturers, matching through the index gives the answer of a plain scan over the set of grades |
| Matcher.IndexAgreesExactlyWhen | src/modules/tds/tds-grade-matcher.ts:111-193 | for every catalogue and input, index and scan give one answer exactly when nothing is misfiled, several candidates fit the category, only candidates fit it, or none of several candidates does and the misfiled ones do not single out a grade |
| Matcher.BluntProducerIsConfused | src/modules/tds/tds-grade-matcher.ts:75-86 | every producer that is not sharp is, for every number, given a grade with another number from some catalogue |
| Matcher.BluntMakerConfuses | src/modules/tds/tds-grade-matcher.ts:75-86 | every grade of a manufacturer that is not sharp is given to some producer under another number |
| Matcher.OrderIsIrrelevant | src/modules/tds/tds-grade-matcher.ts:111-193 | any permutation of the grades gives the same grade and confidence |
| Matcher.AddingOneGrade | src/modules/tds/tds-grade-matcher.ts:111-193 | adding a grade with a fresh id leaves the returned grade, or makes it none or the added one |
| Matcher.WeakExactlyWhen | src/modules/tds/tds-grade-matcher.ts:111-193 | the weak answer comes exactly for a blank producer and a number that one grade has |
| Matcher.ReturnedGradeIsUnique | src/modules/tds/tds-grade-matcher.ts:111-193 | with a non-blank producer the returned grade has the number, shares a token, and has no rival that fits the category as well |
| MatchOutcomes.CompatibleExactlyWhen | src/modules/tds/tds-grade-matcher.ts:90-109 | a grade fits a category exactly if that is blank, subcategory or group code contains it or is contained in it, or the category begins with the category code or that with its first word |
| MatchOutcomes.ScanAnswersExactly | src/modules/tds/tds-grade-matcher.ts:111-193 | each of the five answers of a scan, with its grade, exactly when: one candidate fits, none fits and there is one, none and the producer is blank and the number unique, and the two answers without a grade |
| MatchOutcomes.NamedCategoryWins | src/modules/tds/tds-grade-matcher.ts:150-175 | a candidate whose code is the category wins over any number without codes; a lone one without codes is a strong answer |
| Matcher.MatchGradeFromIndex | src/modules/tds/tds-grade-matcher.ts:111-193 | collecting hits by grade id and deciding on list lengths gives the specified answer |
| ObjectKeys.ParseBuilt | src/modules/tds/tds-normalize.ts:112-159 | parsing a built key returns the sanitized segments, the file name and the revision, at least 1 |
| Words.ParsedExactlyWhen | src/modules/tds/tds-normalize.ts:137-159 | a key is read exactly if it has at least six parts between slashes, the first is tds in any case and the last but one a revision; what is read are parts two to four, the revision, at least 1, and the last part |
| ObjectKeys.SameKeyExactlyWhen | src/modules/tds/tds-normalize.ts:112-131 | two descriptions build one key exactly when their sanitized parts agree |
| ObjectKeys.OnceIsFixedExactlyWhen | src/modules/tds/tds-normalize.ts:97-106 | sanitizing is a fixed point after one pass exactly when the cut at 120 does not end on an underscore |
| ObjectKeys.TwiceIsFixed | src/modules/tds/tds-normalize.ts:97-106 | two passes always are a fixed point |
| ObjectKeys.SegmentShape | src/modules/tds/tds-normalize.ts:97-106 | a segment is non-empty, short, of allowed characters, without double or leading underscores |
| Words.SegmentIsWords | src/modules/tds/tds-normalize.ts:97-106 | before it is cut, a segment is the words of letters, digits, dots and dashes, joined by single underscores |
| Words.SanitizeSays | src/modules/tds/tds-normalize.ts:97-106 | the segment is that, at most 120 characters of it, or the fallback when nothing is left |
| ObjectKeys.RebuildExactlyWhen | src/modules/tds/tds-normalize.ts:112-159 | building from a parsed key gives the key back exactly when no segment was cut behind an underscore |
| Documents.UploadKeeps | src/modules/tds/grade-tds.service.ts:800-1040 | upload or replace keeps the row invariant, unique import keys and every grade |
| TdsLibrary.TdsLibrary.NotifyOpenTdsRequests | src/modules/tds/grade-tds.service.ts:1042-1080 | the loop fulfils exactly the waiting requests of the grade and returns how many unanswered requests there are fewer |
| TdsLibrary.TdsLibrary.AdminApprove | src/modules/tds/grade-tds.service.ts:733-756 | verifies the row and fulfils for its grade exactly when it has file and grade; otherwise nothing |
| TdsLibrary.TdsLibrary.AdminReject | src/modules/tds/grade-tds.service.ts:758-770 | the call is the specified rejection and touches no request |
| TdsLibrary.TdsLibrary.AdminMapGrade | src/modules/tds/grade-tds.service.ts:772-793 | sets the grade of an existing row to an existing grade; only a row that needs mapping changes status |
| TdsLibrary.TdsLibrary.AdminUploadReplace | src/modules/tds/grade-tds.service.ts:800-1040 | the call is the specified upload, accepted exactly under the code's guards |
| TdsLibrary.Prefetch | src/modules/tds/grade-tds.service.ts:1186-1203 | the map built before the loop answers every listed key as a lookup in the table would |
| TdsLibrary.TdsLibrary.ProcessEntry | src/modules/tds/grade-tds.service.ts:1237-1382 | one loop body updates or creates the specified row, fulfils for it when verified, and moves every counter by what it did |
| TdsLibrary.TdsLibrary.AdminReconcileFromStorage | src/modules/tds/grade-tds.service.ts:1143-1396 | one page computes the specified rows and requests; its counters are the objects skipped and scanned, rows created and updated, rows left verified and left to be mapped, and requests answered |
| SyncOutcomes.AnswersComeFromPublished | src/modules/tds/grade-tds.service.ts:1304-1316 | for any objects and pages, a request is as before, or was waiting and is answered now by a row that was published for its grade at some point of the pages |
| SyncOutcomes.NothingPublishedUnasked | src/modules/tds/grade-tds.service.ts:1228-1298 | for any objects and pages, without automatic verification a row published afterwards was published before, and so was every row that answered a request |
| SyncOutcomes.NewRowsFollowSettings | src/modules/tds/grade-tds.service.ts:1228-1362 | on one page, and in any split in which no row is taken, a new row with a grade is VERIFIED, approved now by the admin, or else PENDING_REVIEW without approval, as the settings say; one without needs mapping |
| SyncOutcomes.SyncedRowSays | src/modules/tds/grade-tds.service.ts:1237-1362 | over any split of objects with distinct homes: grade, status, approval, revision, mapping and notes of every object's row, created or revised |
| SyncOutcomes.RowsCarryTheirKeys | src/modules/tds/grade-tds.service.ts:1205-1362 | over any pages of any objects a row is as before, or is about a listed file: its category, grade, producer, file name, type and revision are those of its key |
| SyncOutcomes.ObjectMatchedByItsNames | src/modules/tds/grade-tds.service.ts:1212-1224 | a listed object gets the answer of matching for the category, grade and producer in its key; writing blanks for underscores makes no difference |
| LibraryOutcomes.ApproveSays | src/modules/tds/grade-tds.service.ts:733-756 | approving publishes a row that has file and grade, names who and when, and answers exactly the requests that waited; otherwise nothing happens |
| LibraryOutcomes.RejectSays | src/modules/tds/grade-tds.service.ts:758-770 | rejecting sets status, who, when and the reason of any existing row, nothing else |
| LibraryOutcomes.MapSays | src/modules/tds/grade-tds.service.ts:772-793 | mapping gives an existing row an existing grade; only NEEDS_MAPPING becomes PENDING_REVIEW |
| LibraryOutcomes.UploadSays | src/modules/tds/grade-tds.service.ts:800-1040 | when an upload is taken, and the row it leaves: grade, file, one revision further, published or pending as asked |
| LibraryOutcomes.DecisionLasts | src/modules/tds/grade-tds.service.ts:733-1396 | over any run a published or rejected row with a grade keeps status, who and when through imports, syncs and mappings, until it is approved, rejected or replaced |
| LibraryOutcomes.RejectionLasts | src/modules/tds/grade-tds.service.ts:758-770 | a rejected row with a grade is rejected, by that admin at that time, at any later point until decided again |
| LibraryOutcomes.ApprovalLasts | src/modules/tds/grade-tds.service.ts:733-756 | the same for an approved row |
| LibraryOutcomes.PublishedOnlyBy | src/modules/tds/grade-tds.service.ts:733-1396 | over any run a row becomes published only by approval, by an upload to be approved at once, by a sync that publishes matches, or by importing a matched row of the application |
| Reconcile.ChunkIndependent | src/modules/tds/grade-tds.service.ts:1138-1142 | when objects have distinct keys and distinct homes, any split into pages gives the rows and requests of one page |
| ReconcileLaws.SecondPassChangesNothing | src/modules/tds/grade-tds.service.ts:1205-1382 | a second pass, in any pages at any later time, changes no row and no request at all |
| ReconcileLaws.TimesDoNotMatter | src/modules/tds/grade-tds.service.ts:1143-1396 | running the pages at other moments changes nothing but recorded moments, for any objects |
| ReconcileLaws.ReconcileIsIdempotent | src/modules/tds/grade-tds.service.ts:1143-1396 | two passes in any pages at any moments equal one pass in one page, recorded moments aside |
| ReconcileLaws.PagesAreForward | src/modules/tds/grade-tds.service.ts:1237-1312 | for any objects and pages, revisions never fall and a rejected row that has a grade stays rejected |
| ReconcileLaws.RejectedIsRevivedExactlyWhen | src/modules/tds/grade-tds.service.ts:1286-1298 | in every split of objects with distinct homes, a rejected row gets a new status exactly when it has no grade and its object matches one |
| ReconcileLaws.NobodyLeftWaiting | src/modules/tds/grade-tds.service.ts:1304-1316 | for any objects and pages, no request waits for the grade of a processed row that is verified |
| PageSplits.TwoPagesAgreeExactlyWhen | src/modules/tds/grade-tds.service.ts:1186-1242 | two pages give the rows and requests of one exactly when no entry of the first reaches by import key a row that one of the second finds by storage key (for listings in which neither the finder nor a later object has the import key of such an entry) |
| PageSplits.WithoutStealsSplitsAgree | src/modules/tds/grade-tds.service.ts:1138-1242 | for all listings, shared import keys included: if no entry takes a later one's row in this way, every split gives the rows and requests of one page |
| PageSplits.StealBreaksASplit | src/modules/tds/grade-tds.service.ts:1186-1242 | one entry that takes a row for good, the finder and all later objects having other import keys, is enough for some split to differ, whatever else is listed |
| PageSplits.AnySplitAgreesExactlyWhen | src/modules/tds/grade-tds.service.ts:1138-1242 | every split gives the rows and requests of one page exactly when no entry takes a later one's row (for listings in which rows are only taken for good) |
| PageSplits.DistinctImportKeysLast | src/modules/tds/grade-tds.service.ts:1215-1242 | among distinct import keys rows are only taken for good |
| PageSplits.TwoObjectsAgreeExactlyWhen | src/modules/tds/grade-tds.service.ts:1186-1300 | for any two objects: one page and two agree exactly when the first does not take the row of the second, or both share its import key and the second overwrites all that the first brought |
| PageSplits.DistinctHomesDoNotSteal | src/modules/tds/grade-tds.service.ts:1186-1242 | objects with distinct homes meet that condition |
| StaleSnapshots.ReplacedFileComesBack | src/modules/tds/grade-tds.service.ts:1186-1242 | after a sync and a replacing upload, a listing in key order of both objects leaves one row on one page; page boundaries matter, and two pages leave two rows, exactly when the old key precedes the new one |
| StaleSnapshots.SampleFileComesBack | src/modules/tds/grade-tds.service.ts:1186-1242 | such a run for a concrete file at every revision, any catalogues and settings: page boundaries matter exactly when the next revision has no more digits |
| Lifecycle.EntryKeepsExactlyWhen | src/modules/tds/grade-tds.service.ts:1245-1300 | one object keeps row invariant and grades exactly when it does not write a stale missing grade over a grade |
| Lifecycle.PageKeepsExactlyWhen | src/modules/tds/grade-tds.service.ts:1186-1382 | a page keeps row invariant and grades at every point exactly when no two of its objects clash on a row |
| Lifecycle.ListedEntriesFit | src/modules/tds/grade-tds.service.ts:1205-1235 | entries made from distinct listed objects, whatever the catalogue, have distinct keys and name no grade when ambiguous |
| Lifecycle.LifecycleExactlyWhen | src/modules/tds/grade-tds.service.ts:733-1396 | over every run of import, approve, reject, map, upload and sync: every call keeps row invariant and grades throughout exactly when no sync page lists two objects that clash on a row |
| Lifecycle.LifecycleHolds | src/modules/tds/grade-tds.service.ts:733-1396 | over every run without such a page: VERIFIED and PENDING_REVIEW have grade and file, NEEDS_MAPPING has a file and no grade, and a grade once set stays set |
| StaleSnapshots.ImportThenSyncLosesGrade | src/modules/tds/grade-tds.service.ts:1186-1300 | a run of one import and one page in key order that lists a file under its raw path, which matches, and its storage key, which does not: the row ends VERIFIED, or PENDING_REVIEW, and without a grade exactly when the raw path comes first |
| StaleSnapshots.SpecialGradeIsLost | src/modules/tds/grade-tds.service.ts:1186-1300 | such a run for every grade name with a character that storage keys do not keep, with the same condition |
| StaleSnapshots.GradeDecidesOrder | src/modules/tds/tds-normalize.ts:97-131 | with a category that is kept, the raw path comes first exactly when the grade's folder sorts before the sanitized one |
| StaleSnapshots.SyncLosesAGrade | src/modules/tds/grade-tds.service.ts:1186-1300 | such a run for the grades 'G' with any special character: the grade is lost exactly for characters before the slash |
| Importer.RowsAreConserved | src/modules/tds/tds-importer.ts:474-565 | rows in the table plus skipped plus failed equal the rows before plus the manifest rows |
| Importer.DryRunTouchesNothing | src/modules/tds/tds-importer.ts:476-479 | a dry run reports every row and leaves table, store and storage counters alone |
| Importer.KeysStayUnique | src/modules/tds/tds-importer.ts:481-487 | import keys stay unique |
| Importer.UploadsAreStored | src/modules/tds/tds-importer.ts:499-528 | the upload counter is the number of new rows with a file, and each such file is in the store |
| Importer.RerunCreatesExactly | src/modules/tds/tds-importer.ts:336-659 | for any rows, archive and two catalogues: a second import adds exactly the keys of the rows whose file type was refused the first time and is not now; it changes neither table nor store exactly when these keys are there already |
| Importer.ReprievedExactlyWhen | src/modules/tds/tds-normalize.ts:193-203 | a row is treated so exactly when its file has a refused type and its grade was matched then and is not now |
| Importer.RerunCreatesNothing | src/modules/tds/tds-importer.ts:568-659 | with the same answers from the matcher, importing again creates no row and uploads nothing |
| Importer.ImportedDocOk | src/modules/tds/tds-normalize.ts:193-203 | a created row satisfies the row invariant, given that an ambiguous match names no grade |
| ImportOutcomes.NewDocumentsFollowRows | src/modules/tds/tds-importer.ts:336-659 | over any import each new document is that of a row that was not refused: VERIFIED exactly with a file, one grade and the application as undisputed source; MISSING exactly without a file; NEEDS_MAPPING exactly with a file and no single grade; and all its other fields |
| ImportOutcomes.ImportedExactlyWhen | src/modules/tds/tds-importer.ts:481-566 | a key is in the table afterwards exactly if it was before or some row with it was not refused |
| ImportOutcomes.RefusedExactlyWhen | src/modules/tds/tds-importer.ts:399-487 | a row is refused exactly if it promises a file that is not in the archive, or matches a grade with a file of another type than PDF, JPEG, PNG or WebP |
| ImportOutcomes.FileOfRow | src/modules/tds/tds-importer.ts:336-380 | which file of the archive belongs to a row: by whole path, by base name, else the first of that name |
| ImportOutcomes.ReportCountsRows | src/modules/tds/tds-importer.ts:381-474 | the counters of files found and lacking and of ambiguous and unmatched grades count the rows of which that holds, in a dry run too |
| Importer.TdsImport.CountIndexRow | src/modules/tds/tds-importer.ts:381-474 | the counters, the seen checksums and the matched files after one index row |
| Importer.TdsImport.ProcessIndexRow | src/modules/tds/tds-importer.ts:336-566 | one index row is the specified import step |
| Importer.TdsImport.ProcessMissingRow | src/modules/tds/tds-importer.ts:587-659 | one row of the missing sheet is the specified import step |
| Importer.TdsImport.ImportRows | src/modules/tds/tds-importer.ts:568-659 | both loops under the shared limit import exactly the first `limit` rows of the two sheets together |
| Importer.PlanRows | src/modules/tds/tds-importer.ts:336-474 | planning gives each row its key, match, file, status and decision |
| GradeRequests.EventsTellTheHistory | src/modules/grade-requests/admin-grade-requests.service.ts:573-722 | under every interleaving the status events of a request form one connected chain from SUBMITTED to its current status, each link an edge or the GRADE_IDENTIFIED self-loop |
| GradeRequests.RowInvariants | src/modules/grade-requests/admin-grade-requests.service.ts:359-406 | under every interleaving: closing time exactly in terminal statuses, a grade, a message and a reason wherever the status claims one |
| GradeRequests.TerminalRowsAreFinal | src/modules/grade-requests/grade-requests.shared.ts:68-70 | a terminal row keeps status, reason, resolved grade and closing time for the rest of the run |
| GradeRequests.AtMostOneOpenRequest | src/modules/grade-requests/customer-grade-requests.service.ts:202-228 | with check and insert in one step, a requester has at most one open request per key |
| GradeRequests.EdgeCanBeTakenExactlyWhen | src/modules/grade-requests/grade-requests.shared.ts:42-78 | an edge of the table is taken by some valid call exactly when the row has a grade, should the edge lead to CONVERTED_TO_PR |
| GradeRequests.RetryInsertsNothing | src/modules/grade-requests/customer-grade-requests.service.ts:144-155 | once a create with an idempotency key has inserted or found its request, every later create of the requester with that key, at any point of any run, finds that row and changes nothing; no key ever stands for two rows |
| GradeRequests.KeysAgreeExactlyWhen | src/modules/grade-requests/grade-requests.shared.ts:138-155 | for all names: stored keys agree exactly when name and manufacturer agree up to case and blanks, or a bar inside one name makes up for the bar between the other's name and maker |
| GradeRequests.KeyMeansSameMaterial | src/modules/grade-requests/grade-requests.shared.ts:138-155 | without bars in the grade names stored keys agree exactly when name and manufacturer agree up to case and blanks |
| GradeRequests.CollapseIsInvisible | src/modules/grade-requests/grade-requests.shared.ts:138-149 | collapsing blanks first does not change the normalized name |
| GradeRequests.RequestTable.SubmitRequest | src/modules/grade-requests/customer-grade-requests.service.ts:141-299 | inserts exactly when no retry, no open duplicate and no catalogue match stands in the way, and says which did |
| GradeRequests.RequestTable.ApplyTransition | src/modules/grade-requests/admin-grade-requests.service.ts:674-700 | row and event are written exactly if the status is still the one read |
| GradeRequests.RequestTable.ResolveGrade | src/modules/grade-requests/admin-grade-requests.service.ts:585-620 | the same for resolving, with the internal note as a second event |
| GradeRequests.RequestTable.RespondTo | src/modules/grade-requests/seller-grade-requests.service.ts:376-409 | the same for a requester's answer, which clears the admin message |
| GradeRequests.RequestTable.CancelRequest | src/modules/grade-requests/seller-grade-requests.service.ts:424-458 | the same for a requester's withdrawal |
| GradeRequests.RequestTable.AssignTo | src/modules/grade-requests/admin-grade-requests.service.ts:333-348 | assignment writes the assignee and an internal event whatever the status has become |
| GradeRequests.RequestTable.AddNote | src/modules/grade-requests/admin-grade-requests.service.ts:408-425 | a note on an existing request is an internal event and changes no row |
| GradeRequests.RequestTable.ReadAndDecide | src/modules/grade-requests/admin-grade-requests.service.ts:573-700 | the read of a call: a valid plan goes in flight with the row as read; a missing request or a refused plan leaves no trace |
| GradeRequests.RequestTable.RunTheorems | src/modules/grade-requests/admin-grade-requests.service.ts:573-722 | of the table at any time: connected status events, row invariants, one open request per requester and key |
| GradeRequests.RequestTable.TerminalForever | src/modules/grade-requests/grade-requests.shared.ts:68-70 | a row that was terminal at any point of the table's history is as it was then |
| GradeRequestOutcomes.PlannedExactlyWhen | src/modules/grade-requests/admin-grade-requests.service.ts:359-720 | which calls are let through on a row as read, for all seven kinds of calls |
| GradeRequestOutcomes.SubmitSays | src/modules/grade-requests/customer-grade-requests.service.ts:141-299 | a create adds one blank SUBMITTED row and its event exactly for a valid draft outside the catalogue with no row for its retry key and none open under its name and maker |
| GradeRequestOutcomes.ChangesComeFrom | src/modules/grade-requests/grade-requests.shared.ts:42-66 | under every interleaving a status is reached only from the statuses that lead to it |
| GradeRequestOutcomes.FinishedCallSays | src/modules/grade-requests/admin-grade-requests.service.ts:573-722 | under every interleaving a finished call leaves the row and the events its caller asked for if the status is the one it read, else nothing; no other row changes |
| GradeRequestOutcomes.GradeTellsLastResolution | src/modules/grade-requests/admin-grade-requests.service.ts:585-620 | at any point of any run a row has the grade, and the kind, of the last mapping or creation that took effect on it, or none |
| GradeRequestOutcomes.AssigneeTellsExactlyWhen | src/modules/grade-requests/admin-grade-requests.service.ts:333-700 | a row is with whoever was assigned last, else with the first admin who acted, at every point, exactly when no call wrote back an assignee read before a change |
| GradeRequestOutcomes.ReviewUndoesAssignment | src/modules/grade-requests/admin-grade-requests.service.ts:674-700 | a run in which a review that was begun earlier undoes an assignment |
| Words.NormalNameIsWords | src/modules/grade-requests/grade-requests.shared.ts:138-149 | a normalized name is its lower-case words, single-spaced |
| Support.TimestampsFollowStatus | src/modules/support/support.service.ts:385-425 | under every interleaving a ticket neither resolved nor closed has no times, and a resolved one has its time and note and no closing time |
| Support.ChangesAreEdges | src/modules/support/support.service.ts:262-306 | every committed status change is an agent or reply edge from the status stored, and leaves a message on the ticket |
| Support.ClosingTimeExactlyWhen | src/modules/support/support.service.ts:391-422 | whenever a ticket of a run is closed, it gets its closing and resolution time exactly when it was not resolved; otherwise both are cleared |
| Support.TicketTable.ReplyMine | src/modules/support/support.service.ts:271-301 | the requester's guarded write and its messages |
| Support.TicketTable.UpdateAdmin | src/modules/support/support.service.ts:388-448 | the agent's guarded write and its messages, with the code's order of overwriting fields |
| Support.TicketTable.ReplyAdmin | src/modules/support/support.service.ts:490-511 | the agent's reply as a guarded write |
| Support.TicketTable.RaiseTicket | src/modules/support/support.service.ts:144-191 | a new open ticket without times or agent, and its first message |
| Support.TicketTable.ReadAndDecide | src/modules/support/support.service.ts:262-306 | the read of a call: an allowed write goes in flight with the ticket as read; a missing ticket or a refused write leaves no trace |
| Support.TicketTable.RunTheorem | src/modules/support/support.service.ts:385-425 | of the table at any time: every ticket's times fit its status |
| TicketOutcomes.PlannedExactlyWhen | src/modules/support/support.service.ts:262-420 | which replies and updates are let through on a ticket as read; resolving takes a note of five characters |
| TicketOutcomes.FinishedCallSays | src/modules/support/support.service.ts:262-520 | under every interleaving a finished call leaves the ticket and the messages its caller asked for if the status is the one it read, else nothing |
| TicketOutcomes.StatusesFollow | src/modules/support/support.service.ts:262-520 | each ticket moves only along the updates and replies that lead to its new status |
| TicketOutcomes.ClosedIsReopenedByAgents | src/modules/support/support.service.ts:391-422 | a closed ticket is left only by an agent's update to IN_PROGRESS, which clears both times |
| RateLimit.PruningIsInvisible | src/common/guards/user-rate-limit.guard.ts:90-95 | with a nondecreasing clock every limiter answers every request as one that never forgets a bucket |
| RateLimit.LessThanTwiceTheLimit | src/modules/locations/ttl-cache.ts:65-80 | any half-open interval one window long holds at most twice the limit minus one grants for a key |
| RateLimit.BoundIsReached | src/modules/locations/ttl-cache.ts:65-80 | for every limit of at least one and every window of at least two ticks, a history in which that bound is reached |
| RateLimit.RefusedOnlyWhenSpent | src/modules/locations/ttl-cache.ts:72-79 | a refused key had its limit of grants less than one window ago |
| RateLimit.KeyedRateLimiter.TryConsume | src/modules/locations/ttl-cache.ts:65-80 | one request: sweep first if large, then open, refuse or count |
| RateLimit.UserRateLimitGuard.CanActivate | src/common/guards/user-rate-limit.guard.ts:44-88 | one request: sweep after opening a bucket; undecorated and anonymous requests are not counted |
| RateLimit.RateLimitGuard.CanActivate | src/common/guards/rate-limit.guard.ts:27-58 | one request without any sweep |
| RateLimit.Sweep | src/common/guards/user-rate-limit.guard.ts:90-95 | the loop deletes exactly the expired buckets |
| TtlCache.StoreIsBounded | src/modules/locations/ttl-cache.ts:26-32 | over any history the store holds at most `maxEntries` slots, or one if that is below one |
| TtlCache.LookupIsLatest | src/modules/locations/ttl-cache.ts:16-24 | a lookup returns only the latest value stored for the key and only while younger than the TTL |
| TtlCache.FreshValueSurvives | src/modules/locations/ttl-cache.ts:26-32 | a newly inserted value is found until it expires as long as fewer than `maxEntries` sets follow |
| TtlCache.SetLosesOnlyOldest | src/modules/locations/ttl-cache.ts:26-32 | after any history a set leaves every other key as found before, except that a full store has lost the key it held longest |
| TtlCache.GetIsInvisible | src/modules/locations/ttl-cache.ts:16-24 | a lookup never changes what later lookups find |
| TtlCache.OneLoaderPerKey | src/modules/locations/ttl-cache.ts:34-50 | two unsettled loaders never share a key |
| TtlCache.ConcurrentCallsShare | src/modules/locations/ttl-cache.ts:34-50 | a call while a loader of its key is unsettled starts none: it hits the store or shares that loader |
| TtlCache.CallStartsLoaderExactlyWhen | src/modules/locations/ttl-cache.ts:34-50 | over any run a call starts one loader exactly if it finds no value and no unsettled loader of its key; its answer is the value or such a loader |
| TtlCache.OutcomeIsFinal | src/modules/locations/ttl-cache.ts:40-49 | a loader's outcome never changes, so all who share it see one result |
| TtlCache.StoreFollowsOps | src/modules/locations/ttl-cache.ts:16-50 | over any run of lookups, loads and stores the store is that of one history of gets and sets, a settled loader's value among the sets |
| TtlCache.Cache.Get | src/modules/locations/ttl-cache.ts:16-24 | answers from an unexpired slot and deletes an expired one |
| TtlCache.Cache.Set | src/modules/locations/ttl-cache.ts:26-32 | a full store first loses its oldest slot, even when the key is present |
| TtlCache.Cache.GetOrLoad | src/modules/locations/ttl-cache.ts:34-50 | a cached value, the running loader, or one new loader |
| TtlCache.Cache.OnLoaded | src/modules/locations/ttl-cache.ts:40-44 | a loader's value is stored under its key as `set` would |
| TtlCache.Cache.OnRejected | src/modules/locations/ttl-cache.ts:40-47 | a failed loader stores nothing |
| TtlCache.Cache.OnSettled | src/modules/locations/ttl-cache.ts:45-47 | the key is free for the next loader |
| TtlCache.Cache.StoreTheorems | src/modules/locations/ttl-cache.ts:16-32 | of the cache at any time: the size bound, and a hit is the latest value stored and young enough |
| TtlCache.Cache.LoadersDiffer | src/modules/locations/ttl-cache.ts:34-50 | of the cache at any time: two unsettled loaders have different keys |
| Gstin.OneCheckSymbol | src/modules/kyc-verification/kyc-identifiers.ts:18-29 | exactly one check symbol is accepted after a body of any length |
| Gstin.SubstitutionDetected | src/modules/kyc-verification/kyc-identifiers.ts:18-29 | every change of one symbol is detected |
| Gstin.SwapDetectedExcept0Z | src/modules/kyc-verification/kyc-identifiers.ts:18-29 | a swap of two different adjacent body symbols passes exactly for '0' with 'Z' |
| Gstin.CheckSymbolSwapUnnoticedExactlyWhen | src/modules/kyc-verification/kyc-identifiers.ts:18-29 | a swap of the check symbol with a different neighbour passes exactly for '0' with 'Z' or when the neighbour's weight is 1, for bodies of every length |
| Gstin.GstinChecksumValid | src/modules/kyc-verification/kyc-identifiers.ts:18-29 | the loop accepts exactly the strings of the pattern whose codes end in their check code |
| Gstin.PatternExactlyWhen | src/modules/kyc-verification/kyc-identifiers.ts:5 | the pattern accepts exactly two digits, five letters, four digits, a letter, a letter or digit but '0', 'Z', and a symbol |
| Gstin.SpecimenIsValid | src/modules/kyc-verification/kyc-identifiers.ts:18-29 | 27AAPFU0939F1ZV is valid |
| Origin.MatchesExactlyFilledPatterns | src/common/utils/client-source.ts:48-57 | an origin matches exactly when it is the pattern's pieces joined by non-empty runs of `[a-z0-9-]` |
| Origin.MatchHasPatternDots | src/common/utils/client-source.ts:43-57 | a matching origin has as many dots as the pattern |

## Left out

- Strings are ASCII: NFKC normalization, locale case rules and white space beyond ASCII are not modelled.
- Revisions and counters are unbounded integers; a revision in a key beyond 2^53 would lose digits in the backend.
- Hashes and signed tokens are modelled by what they contain, which assumes hashing is injective and signatures cannot be forged.
- Each public auth call is one step with one clock reading; the separate reads before the refresh, change-password and reset transactions are not interleaved.
- Fixed demo OTP, demo bootstrap and legacy provider challenges are special cases outside the model; so are masked logs, retry hints and message texts.
- The order in which the database returns equally new rows is left open in the session and challenge models; the class methods pick the first.
- Rows of the TDS library leave out titles, source links, checksums, workbook notes and `updatedAt`; review notes are a list of parts instead of one joined string, with fixed texts in place of the match reason and the product name.
- The match result leaves out the candidate list and the reason text.
- The kinds of sources other than the application are told apart in the model but, as in the backend, no status depends on them.
- Importer.TdsImport.CountIndexRow: which of two equal files counts as the duplicate follows the order of the rows; `ImportOutcomes.ReportCountsRows` does not cover that counter.
- Listing pages, continuation tokens, page limits and the `sample` lines of a reconcile are not modelled; a page is a sequence of objects with distinct keys, in any order except where `KeyOrder.InKeyOrder` is named. A unique-key clash with a concurrent writer, which the backend counts as skipped, cannot occur because a page is one step.
- `adminUpdateRequest` and `createRequest` of the TDS library are not modelled: they write request rows only and touch no document, so the waiting requests a run starts from are arbitrary.
- Zip extraction, workbook parsing, the batch row, the written report and its sample issues are outside the importer model; the archive is given as its two lookup maps, and an import that stops half way is not modelled.
- `createGrade` creates its catalogue grade before the guarded write; the catalogue itself is not modelled, only the resolution of the request.
- Reference numbers, documents and notifications of grade requests and tickets, assignee names, internal notes on tickets and the hourly cap on new tickets are left out.
- Support.ClosingTimeExactlyWhen: nothing is claimed about the times of tickets that are already closed.
- Lifecycle.LifecycleHolds: sync pages with a clash are excluded, because on them the claim is false; `Lifecycle.LifecycleExactlyWhen` has both directions.
- PageSplits.AnySplitAgreesExactlyWhen: when the finder or a later object has the import key of an entry that takes a row, traces may be covered and the exact condition is given for two objects only, by `PageSplits.TwoObjectsAgreeExactlyWhen`; `PageSplits.WithoutStealsSplitsAgree` and `PageSplits.StealBreaksASplit` have no such restriction.
- Otp.ComparisonsAreBounded: the plain bound is claimed only without refused calls, because `Otp.RefusedLoginsAreNotCounted` shows it false with them.
- GradeRequests.AtMostOneOpenRequest: check and insert of a create are one step; two concurrent creates could both pass the check in the backend.
- GradeRequests.KeyMeansSameMaterial: a corollary for names without `|`; `GradeRequests.KeysAgreeExactlyWhen` covers all names.
- Matcher.IndexAgreesWithScan: a corollary for sharp names; `Matcher.IndexAgreesExactlyWhen` covers all names.
- Importer.RerunCreatesNothing: takes the matcher's answers as unchanged; `Importer.RerunCreatesExactly` covers a changed catalogue.
- Of the administration of managers only its writes to users, sessions and reset tokens are events of the session model; who may make these calls is not modelled.
- RateLimit.RateLimitGuard.CanActivate: how the key is read from request headers is not modelled.
- `normalizeOrigin` and the choice of a client channel need URL parsing and are not modelled.
- Admin lists, dashboards, mappers, seeds, payments, procurement and logistics are not modelled.

# Authentication backend: OTP abuse engine, sessions, guards

This project models the core of a NestJS authentication backend and proves
properties of the model. The backend signs users in without passwords:

- **Asking for a code.** An anonymous visitor, identified by a `userKey`
  cookie, asks for a one-time password (OTP) for an e-mail address.
- **The abuse engine.** It keeps one row per key and decides whether a code
  is mailed. The row holds:
  - the addresses used so far, as a space-separated string;
  - the pending code;
  - a bcrypt hash of the device fingerprint;
  - counters of mails and of wrong codes;
  - the time of the last write.
- **What it enforces.** The engine caps:
  - the number of mails per key;
  - the number of wrong codes per mail;
  - the resend rate (one per minute);
  - the age of a code (one hour).

  A device that exhausted the cap under one key is recognised under a new
  key by its fingerprint.
- **Sessions.** Registration and login consume a correct code and issue a
  pair of JSON Web Tokens. Each login opens a session. A user holds at most
  three sessions: the oldest ones are evicted before a new one is created.
- **Guards.** Route guards admit a request by its access token, its
  refresh token or its roles. The guards may revoke the session a token
  belongs to.

An earlier generation of the same backend lives beside the current one, and
the model covers it too:

- an activation service over `totalActivationAttempts` records;
- a handler set over `userActivation` rows;
- the first session services, including the legacy
  `checkQuantitySessions`;
- password registration and login;
- refresh by token alone;
- find-or-create OAuth sign-in.

The model and the proofs are organised as follows:

- **State-changing services are classes.** Their fields are the tables:
  - `Otps.OtpTable`;
  - `Activation.TotalActivationTable`;
  - `ActivationHandlers.UserActivationTable`;
  - `Sessions.SessionStore`;
  - `Users.UserStore`.

  Each method is proved to produce exactly the state that a specification
  function gives. The functions are in `OtpModel`, `ActivationModel`,
  `ActivationHandlerModel` and `SessionModel`, and the lemmas are proved
  about those functions.
- **The central invariant.** `OtpProps.Inv` bounds the mails sent for each
  key and the counters of its row. Every operation keeps it, so over any
  sequence of requests no key is mailed more than four codes
  (`OtpProps.AtMostFourCodeMailsPerKey`).
- **Value-level functions.** Guards, token issuing, the fingerprint
  decorator and the two de-duplicating helpers are functions over values.
  Where a guard deletes a session, a method wraps that function.
- **Cryptography is ideal.**
  - A bcrypt hash remembers its plain text, so comparing succeeds only for
    that text.
  - A token carries its payload, its expiry and the key it was signed
    with, so verifying succeeds only for that key and only before the
    expiry.
- **Time** is an integer number of milliseconds.

Some behaviours of the legacy code are stated as lemmas rather than
corrected:

- **Mails past the cap.** The activation service's expiry path mails a new
  code without consulting the mail cap (`ActivationModel.ExpiryMailsPastCap`).
- **No send total on check.** `checkActivationCode` never looks at the send
  total.
- **One-deletion trim.** The first `checkQuantitySessions` deletes one
  session per call, so a user above the cap stays above it
  (`SessionModel.LegacyTrimDeletesOneOnly`).
- **Refresh ignores expiry.** The refresh guard never looks at the
  session's own expiry (`Guards.RefreshAdmitsExactly`).
- **Code age named in hours, counted in minutes.** In the activation
  service, a variable named as "one hour ago" is set one minute back. The
  model follows the code: `ActivationModel.EXPIRY` is one minute.

## Model

| member | source | states |
|---|---|---|
| Common.HashSync | src/auth/decorators/fingerprint.decorator.ts:18 | a hash compares true against the string it was made from and against no other string |
| Helpers.ConcatIfStringNotInclude | src/utils/helpers/concat-if-string-not-include.ts:1-12 | an address already contained as a substring leaves the list unchanged; otherwise it is appended after a space; the result always contains it and starts with the old list |
| Helpers.ConcatIdempotent | src/utils/helpers/concat-if-string-not-include.ts:8-11 | adding the same address twice gives the same list as adding it once |
| Helpers.ConcatKeepsContained | src/utils/helpers/concat-if-string-not-include.ts:8-11 | every string contained in the list before is still contained after, so no address is lost |
| Helpers.PushIfNewElUnique | src/utils/helpers/push-if-new-el-unique.ts:1-6 | an element already present leaves the array unchanged; otherwise the result is the array plus that element, one longer; the result contains it and extends the input |
| Helpers.PushIdempotent | src/utils/helpers/push-if-new-el-unique.ts:1-6 | pushing the same element twice equals pushing it once |
| Helpers.PushKeepsDistinct | src/utils/helpers/push-if-new-el-unique.ts:1-6 | an array without duplicates stays without duplicates |
| Fingerprints.HeaderValues | src/auth/decorators/fingerprint.decorator.ts:14-15 | one value per fingerprint header, in order, with a missing header as the empty string |
| Fingerprints.ReqHeadersString | src/auth/decorators/fingerprint.decorator.ts:14-16 | the raw fingerprint is the sec-ch-ua, user-agent and accept-language values joined with "-" in that order |
| Fingerprints.OnlyFingerprintHeadersMatter | src/auth/decorators/fingerprint.decorator.ts:14-16 | two requests that agree on the three fingerprint headers get the same raw string, whatever their other headers |
| Fingerprints.FingerprintOf | src/auth/decorators/fingerprint.decorator.ts:14-18 | the bundle holds the raw string and a cost-7 hash that compares true against it |
| Fingerprints.FingerprintDecorator | src/auth/decorators/fingerprint.decorator.ts:10-28 | the selector 'hashFingerprint' injects only the hash, 'reqHeadersString' only the raw string, and no selector injects both |
| Fingerprints.SameDeviceMatches | src/auth/decorators/fingerprint.decorator.ts:14-18 | a fingerprint hash taken on one request matches the raw string of any later request from the same three headers, whatever the salts |
| Jwt.Sign | src/auth/auth.service.ts:94-100 | a signed token carries the payload and expires ttl after signing |
| Jwt.Verify | src/utils/guards/access.guard.ts:39 | verification yields the payload exactly when the token was signed with this secret and has not expired |
| Jwt.IssueTokens | src/auth/auth.service.ts:91-103 | both tokens carry the same payload; the access token expires after one hour and the refresh token after fifteen days; the two differ |
| Jwt.IssueVerifyRoundTrip | src/auth/auth.service.ts:91-103 | each issued token verifies to the payload exactly until its expiry, and never under another secret |
| Users.RolesFor | src/modules/users/users.service.ts:49-54 | every user has the USER role, and the ADMIN role exactly when the e-mail is the administrator address |
| Users.FindByEmail | src/modules/users/users.service.ts:21-25 | a found user is stored under that e-mail; nothing is found exactly when no user has it |
| Users.FindById | src/modules/users/users.service.ts:10-12 | a found user is stored under that id; nothing is found exactly when no user has it |
| Users.UserStore.constructor | src/modules/users/users.service.ts:8 | the store starts empty and consistent |
| Users.UserStore.Create | src/modules/users/users.service.ts:38-59 | appends one user with the next id, the roles its e-mail earns, the given password hash and profile; the look-up then finds it; ids and e-mails stay unique |
| Users.UserStore.CreateByOAuth | src/auth/services/user.service.ts:60-89 | when the database accepts, appends one user with the provider, profile and earned roles and no password; otherwise returns nothing and changes nothing |
| Users.FoundAfterAppend | src/modules/users/users.service.ts:21-25 | a user appended under a fresh e-mail is what the e-mail look-up returns |
| SessionModel.Of | src/modules/auth/modules/sessions/sessions.service.ts:78 | a user's sessions are exactly the stored sessions of that user |
| SessionModel.Without | src/modules/auth/modules/sessions/sessions.service.ts:102-104 | deleting by id keeps exactly the rows whose id is not deleted |
| SessionModel.FirstWithRefresh | src/modules/auth/modules/sessions/sessions.service.ts:54-56 | the found index holds the refresh token and no earlier row does; nothing is found exactly when no row holds it |
| SessionModel.FirstWithAccess | src/utils/guards/access.guard.ts:42-45 | the found index holds the access token and no earlier row does; nothing is found exactly when no row holds it |
| SessionModel.SetTokens | src/modules/auth/modules/sessions/sessions.service.ts:58-62 | the row with the id gets both new tokens and keeps its other fields; every other row is unchanged |
| SessionModel.SetAccessToken | src/auth/services/sessions.service.ts:55-59 | the row with the id gets the new access token only; every other row is unchanged |
| SessionModel.EvictionCount | src/modules/auth/modules/sessions/sessions.service.ts:80-99 | never more than the user has, and afterwards fewer than the cap remain whenever the user was at or over it |
| SessionModel.WithoutPrefix | src/modules/auth/modules/sessions/sessions.service.ts:89-98 | deleting the ids of the first k rows of a table with unique ids leaves exactly the remaining suffix |
| SessionModel.TrimmedKeepsNewest | src/modules/auth/modules/sessions/sessions.service.ts:77-100 | after the trim the user holds exactly their newest sessions, in order, at most MAX_SESSIONS_QUANTITY - 1 of them, and ids stay unique |
| SessionModel.TrimmedAtCap | src/modules/auth/modules/sessions/sessions.service.ts:80-86 | below the cap nothing is deleted; at the cap exactly the oldest session is deleted |
| SessionModel.TrimmedSparesOthers | src/modules/auth/modules/sessions/sessions.service.ts:77-100 | trimming one user's sessions leaves every other user's sessions unchanged |
| SessionModel.TrimThenCreateStaysWithinCap | src/modules/auth/auth.controller.ts:104-110 | trimming and then creating a session leaves the user with at most MAX_SESSIONS_QUANTITY sessions |
| SessionModel.LegacyTrimDeletesOneOnly | src/auth/auth.service.ts:191-201 | up to the cap the first service trims like the later one; above it, it deletes only the oldest session, so the user keeps more than the cap |
| SessionModel.RotateTokensInPlace | src/modules/auth/modules/sessions/sessions.service.ts:41-64 | the user's first session holding the old refresh token gets the new pair in place; the row count, the ids and every other row stay; with no match nothing changes |
| SessionModel.RotateAccessTokenInPlace | src/auth/services/sessions.service.ts:40-61 | the user's first session holding the refresh token gets the new access token in place and keeps its refresh token; the row count, the ids and every other row stay; with no match nothing changes |
| SessionModel.DeleteByRefreshEffect | src/modules/auth/modules/sessions/sessions.service.ts:106-121 | the user's first session holding the token is deleted, so the user has one session fewer; with no match nothing changes; other users' sessions are untouched |
| Sessions.SessionStore.constructor | src/modules/auth/modules/sessions/sessions.service.ts:11-14 | the table starts empty with unique ids |
| Sessions.SessionStore.CreateSession | src/modules/auth/modules/sessions/sessions.service.ts:16-39 | appends exactly one session with the given user, fingerprint hash and tokens, expiring fifteen days after now, under a fresh id |
| Sessions.SessionStore.AddNewTokensToDB | src/modules/auth/modules/sessions/sessions.service.ts:41-64 | the table becomes the in-place rotation of both tokens of the matching session |
| Sessions.SessionStore.AddNewAccessTokenToDB | src/auth/services/sessions.service.ts:40-61 | the table becomes the in-place replacement of the matching session's access token only |
| Sessions.SessionStore.DeleteSessionById | src/modules/auth/modules/sessions/sessions.service.ts:102-104 | the row with the id is removed and nothing else |
| Sessions.SessionStore.CheckExpiredSession | src/modules/auth/modules/sessions/sessions.service.ts:66-75 | returns true exactly when now is strictly after the expiry, and then deletes that session; otherwise changes nothing |
| Sessions.SessionStore.CheckQuantitySessions | src/modules/auth/modules/sessions/sessions.service.ts:77-100 | the table becomes the trimmed table of the user's sessions |
| Sessions.SessionStore.DeleteLeading | src/modules/auth/modules/sessions/sessions.service.ts:89-98 | deleting the leading sessions one at a time removes exactly their ids |
| Sessions.SessionStore.CheckQuantitySessionsLegacy | src/auth/auth.service.ts:191-201 | above two sessions only the user's oldest session is deleted |
| Sessions.SessionStore.DeleteSessionByRefreshToken | src/modules/auth/modules/sessions/sessions.service.ts:106-121 | the user's first session holding the refresh token is deleted; no match changes nothing |
| Guards.JwtAccessGuard | src/utils/guards/access.guard.ts:27-66 | the verdict and the resulting table are those of the access decision, and ids stay unique |
| Guards.AccessAdmitsExactly | src/utils/guards/access.guard.ts:31-65 | admitted exactly when the bearer token verifies, is the access token of one of its user's sessions, that session has not expired, and the request's headers match the token's fingerprint; everything else raises 401 "Invalid access token" |
| Guards.AccessOnlyDeletesExpired | src/utils/guards/access.guard.ts:47-57 | a verified token whose user's first session holding it has expired is refused and that session is deleted; conversely any deletion is of an expired session of the token's user holding the token; an admitted request changes nothing |
| Guards.FreshSessionAdmitted | src/utils/guards/access.guard.ts:39-57 | a session opened at login from the freshly issued pair admits requests from the same device until the access token expires, and changes nothing |
| Guards.JwtRefreshGuard | src/utils/guards/refresh.guard.ts:27-66 | the verdict and the resulting table are those of the refresh decision, and ids stay unique |
| Guards.RefreshAdmitsExactly | src/utils/guards/refresh.guard.ts:35-65 | admitted exactly when the cookie verifies, is the refresh token of one of its user's sessions, and the headers match that session's stored hash; the session's expiry is not consulted; everything else raises 401 "Invalid refresh token" |
| Guards.RefreshFromOtherDeviceRevokes | src/utils/guards/refresh.guard.ts:47-57 | a valid refresh token from another device deletes exactly its session, so the user has one session fewer, and other users' sessions are untouched |
| Guards.AdminAdmitsExactly | src/utils/guards/admin.guard.ts:21-38 | admitted exactly when a bearer token verifies and its roles include ADMIN; every other request raises 403 "Not enough rights" |
| Guards.AdminFollowsMail | src/utils/guards/admin.guard.ts:27-30 | within its lifetime, a token issued with the roles an e-mail earns opens admin routes exactly when that e-mail is the administrator address; a token without roles never does |
| Guards.AccessStricterThanJwtAuth | src/auth/guards/jwt.guard.ts:20-44 | whatever the access guard admits the first module's guard admits; without a token it returns false while the access guard raises 401; a verified, matching token that no session holds is admitted by the first module's guard and refused by the access guard |
| Guards.JwtAuthAdmitsExactly | src/auth/guards/jwt.guard.ts:20-44 | the first module's guard admits exactly when a bearer token is present, verifies, and its payload fingerprint compares true against the device string; with a token, a failed verification or a fingerprint mismatch gives 401 "Invalid access token" and nothing else; without a token it returns false |
| OtpModel.LargeMailAttempts | src/modules/auth/modules/otps/services/otps-handlers.service.ts:71-77 | returns exactly while the mail attempts are below MAX_MAIL_ATTEMPTS; otherwise raises the mail-limit error |
| OtpModel.BlockNewMessageBeforeOneMinute | src/modules/auth/modules/otps/services/otps-handlers.service.ts:164-180 | returns exactly when at least one minute has passed since the row's last write; otherwise raises the too-early error |
| OtpModel.BlockSuspicionUser | src/modules/auth/modules/otps/services/otps-handlers.service.ts:24-69 | raises the mail-limit error exactly when the row is below the suspicion limit and a suspect row's fingerprint hash matches the device; then only this row changes; otherwise nothing changes |
| OtpModel.LastMailAttempts | src/modules/auth/modules/otps/services/otps-handlers.service.ts:182-201 | raises the mail-limit error exactly when the request would send the last allowed mail, touching only this row; otherwise nothing changes |
| OtpModel.UpdateOtpInfoAndSendMail | src/modules/auth/modules/otps/services/otps-handlers.service.ts:203-225 | the row counts one more mail, holds the new code with code attempts reset, and exactly that code is mailed to the address |
| OtpModel.ExpiringCode | src/modules/auth/modules/otps/services/otps-handlers.service.ts:79-107 | returns unchanged exactly when the code is at most an hour old; otherwise only this key's row and mails change |
| OtpModel.LastCodeAttempts | src/modules/auth/modules/otps/services/otps-handlers.service.ts:140-162 | returns unchanged exactly while code attempts are below MAX_CODE_ATTEMPTS; otherwise only this key's row and mails change |
| OtpModel.InvalidCode | src/modules/auth/modules/otps/services/otps-handlers.service.ts:109-138 | returns unchanged exactly when the stored code equals the given one; otherwise only this key's row and mails change |
| OtpProps.InvalidCodeCases | src/modules/auth/modules/otps/services/otps-handlers.service.ts:109-138 | a wrong code below the attempt cap adds exactly one code attempt, keeps the code and raises; at the cap the last-mail rule or a regeneration with one mail runs and the call raises |
| OtpProps.ExpiringCodeCases | src/modules/auth/modules/otps/services/otps-handlers.service.ts:79-107 | an expired code either moves the row to the cap or is replaced and mailed, and the call always raises |
| OtpProps.GetAndSendMailsGeneratedCode | src/modules/auth/modules/otps/services/otps-base.service.ts:17-36 | generation mails nothing; the send mails exactly the generated code to the requested address when generation returned, and nothing when it raised |
| OtpProps.GenerateForUnseenKey | src/modules/auth/modules/otps/services/otps-base.service.ts:122-137 | an unseen key gets a row with the address, the new code and the device hash; if the suspicion check fires the row is pushed past the cap and the code stays stored but unsent |
| OtpProps.GenerateRefusals | src/modules/auth/modules/otps/services/otps-base.service.ts:96-105 | a known key is refused unchanged at or past the mail cap, moved to the cap when it would get its last mail, and refused unchanged within a minute of the last write |
| OtpProps.GenerateResend | src/modules/auth/modules/otps/services/otps-base.service.ts:106-121 | a resend stores one more mail attempt, a fresh code and reset code attempts, adds the address only if absent, and keeps the device hash |
| OtpProps.CheckNotFound | src/modules/auth/modules/otps/services/otps-base.service.ts:49-59 | a missing row, an address the row does not list, or a row without a pending code gives NotFound and changes nothing |
| OtpProps.CheckCapBeforeCode | src/modules/auth/modules/otps/services/otps-base.service.ts:61-63 | a row at the mail cap is refused even with the right code, and nothing changes |
| OtpProps.CheckSuccess | src/modules/auth/modules/otps/services/otps-base.service.ts:61-83 | a check succeeds exactly when the row lists the address and holds the code, is below the cap, is not correlated with a blocked device, and the code is at most an hour old; success only clears the code and resets code attempts, so checking the same code again gives NotFound |
| OtpProps.ThirdWrongCodeRegenerates | src/modules/auth/modules/otps/services/otps-handlers.service.ts:109-162 | after three wrong codes the next wrong code finds the attempts used up, and a new code is mailed or the cap is reached |
| OtpProps.MailAttemptsNeverDecrease | src/modules/auth/modules/otps/services/otps-base.service.ts:17-84 | no operation lowers a row's mail attempts or removes a row, and each touches at most its own key's row |
| OtpProps.BlockedStaysBlocked | src/modules/auth/modules/otps/services/otps-handlers.service.ts:71-77 | a key at the mail cap is refused by every operation and nothing changes |
| OtpProps.BlockedDeviceBlockedOnNewKey | src/modules/auth/modules/otps/services/otps-handlers.service.ts:24-69 | a device that exhausted the cap under one key, asking under a new key for an address that key used, is blocked at once and mailed nothing |
| OtpProps.SuspicionWidensAfterFirstAttempt | src/modules/auth/modules/otps/services/otps-handlers.service.ts:33-46 | after a key's first attempt, any capped row of the same device blocks it, whatever addresses that row used |
| OtpProps.UpdateAndSendKeepsInv | src/modules/auth/modules/otps/services/otps-handlers.service.ts:203-225 | a regeneration with its mail keeps the per-key mail bound when the row was below the cap |
| OtpProps.LastMailKeepsInv | src/modules/auth/modules/otps/services/otps-handlers.service.ts:182-201 | the last-mail rule keeps the invariant |
| OtpProps.SuspicionKeepsInv | src/modules/auth/modules/otps/services/otps-handlers.service.ts:24-69 | the suspicion check keeps the invariant |
| OtpProps.GenerateKeepsInv | src/modules/auth/modules/otps/services/otps-base.service.ts:86-140 | generation keeps the invariant and, when it returns, leaves room for the mail that follows |
| OtpProps.GetAndSendKeepsInv | src/modules/auth/modules/otps/services/otps-base.service.ts:17-36 | asking for a code keeps the invariant |
| OtpProps.ExpiringKeepsInv | src/modules/auth/modules/otps/services/otps-handlers.service.ts:79-107 | the expiry handler keeps the invariant |
| OtpProps.InvalidKeepsInv | src/modules/auth/modules/otps/services/otps-handlers.service.ts:109-138 | the wrong-code handler keeps the invariant |
| OtpProps.CheckKeepsInv | src/modules/auth/modules/otps/services/otps-base.service.ts:38-84 | checking a code keeps the invariant |
| OtpProps.RunKeepsInv | src/modules/auth/modules/otps/services/otps-base.service.ts:17-84 | any sequence of code requests and checks keeps the invariant |
| OtpProps.AtMostFourCodeMailsPerKey | src/modules/auth/modules/otps/services/otps-handlers.service.ts:10-17 | from an empty table, whatever requests arrive, no key is ever mailed more than MAX_MAIL_ATTEMPTS - 1 codes, and the counters stay in range |
| Otps.OtpTable.constructor | src/modules/auth/modules/otps/services/otps-base.service.ts:11-15 | the table starts with no rows and no mails |
| Otps.BlockSuspicionUser | src/modules/auth/modules/otps/services/otps-handlers.service.ts:24-69 | comparing the suspect rows one by one gives the outcome and state of the suspicion check |
| Otps.LastMailAttempts | src/modules/auth/modules/otps/services/otps-handlers.service.ts:182-201 | the new table and outcome are those of the last-mail rule |
| Otps.UpdateOtpInfoAndSendMail | src/modules/auth/modules/otps/services/otps-handlers.service.ts:203-225 | the new table is that of the regeneration with its mail |
| Otps.ExpiringCode | src/modules/auth/modules/otps/services/otps-handlers.service.ts:79-107 | the new table and outcome are those of the expiry handler |
| Otps.LastCodeAttempts | src/modules/auth/modules/otps/services/otps-handlers.service.ts:140-162 | the new table and outcome are those of the code-attempt cap |
| Otps.InvalidCode | src/modules/auth/modules/otps/services/otps-handlers.service.ts:109-138 | the new table and outcome are those of the wrong-code handler |
| Otps.CheckOtpCode | src/modules/auth/modules/otps/services/otps-base.service.ts:38-84 | the new table and outcome are those of the code check |
| Otps.GenerateAndSaveOtpCode | src/modules/auth/modules/otps/services/otps-base.service.ts:86-140 | the new table and outcome are those of generation |
| Otps.GetAndSendOtp | src/modules/auth/modules/otps/services/otps-base.service.ts:17-36 | the new table and outcome are those of asking for a code |
| ActivationHandlerModel.LargeMailAttempts | src/auth/services/activation-handler.service.ts:75-83 | returns exactly while the mail attempts are below MAX_MAIL_ATTEMPTS; otherwise raises the mail-limit error |
| ActivationHandlerModel.BlockNewMessageBeforeOneMinute | src/auth/services/activation-handler.service.ts:170-186 | returns exactly when at least one minute has passed since the row's last write; otherwise raises the too-early error |
| ActivationHandlerModel.BlockSuspicionUser | src/auth/services/activation-handler.service.ts:24-73 | raises the mail-limit error exactly when the row is below the suspicion limit and a suspect row's hash matches the device; the row is then pushed past the cap; otherwise nothing changes |
| ActivationHandlerModel.LastMailAttempts | src/auth/services/activation-handler.service.ts:188-207 | at the last allowed mail the row moves to the cap with code attempts reset and the call raises; otherwise nothing changes |
| ActivationHandlerModel.UpdateUserActivationAndSendMail | src/auth/services/activation-handler.service.ts:209-231 | the row counts one more mail, holds the new code with code attempts reset, and exactly that code is mailed |
| ActivationHandlerModel.ExpiringCode | src/auth/services/activation-handler.service.ts:85-113 | returns unchanged exactly when the row was written at or after the cutoff; otherwise only this row and the mails change |
| ActivationHandlerModel.LastCodeAttempts | src/auth/services/activation-handler.service.ts:146-168 | returns unchanged exactly while code attempts are below the cap; otherwise only this row and the mails change |
| ActivationHandlerModel.InvalidCode | src/auth/services/activation-handler.service.ts:115-144 | returns unchanged exactly when the code matches; otherwise only this row and the mails change |
| ActivationHandlerModel.InvalidCodeCases | src/auth/services/activation-handler.service.ts:115-144 | a wrong code below the cap adds one code attempt and raises; at the cap a regeneration with one mail runs, or the last-mail rule, and the call raises |
| ActivationHandlerModel.ExpiringCodeCases | src/auth/services/activation-handler.service.ts:85-113 | a code written before the cutoff either moves the row to the cap or is replaced and mailed, and the call raises |
| ActivationHandlerModel.SuspicionFilter | src/auth/services/activation-handler.service.ts:33-50 | on a row's first attempt only capped rows of the same device listing the address block it; on its second any capped row of the device does; from the third on nothing does |
| ActivationHandlerModel.FirstAttemptNeedsListedEmail | src/auth/services/activation-handler.service.ts:33-70 | with no capped row of the same device listing the address, a first attempt is never blocked |
| ActivationHandlerModel.FutureCutoffExpiresEverything | src/auth/services/activation-handler.service.ts:93-98 | with the cutoff in the future, every row written up to now is treated as expired: the call raises, after moving the row to the mail cap or mailing a new code |
| ActivationHandlers.UserActivationTable.constructor | src/auth/services/activation-handler.service.ts:19-22 | the table starts with no rows and no mails |
| ActivationHandlers.BlockSuspicionUser | src/auth/services/activation-handler.service.ts:24-73 | comparing the suspect rows one by one gives the outcome and state of the suspicion check |
| ActivationHandlers.LastMailAttempts | src/auth/services/activation-handler.service.ts:188-207 | the new table and outcome are those of the last-mail rule |
| ActivationHandlers.UpdateUserActivationAndSendMail | src/auth/services/activation-handler.service.ts:209-231 | the new table is that of the regeneration with its mail |
| ActivationHandlers.ExpiringCode | src/auth/services/activation-handler.service.ts:85-113 | the new table and outcome are those of the expiry handler |
| ActivationHandlers.LastCodeAttempts | src/auth/services/activation-handler.service.ts:146-168 | the new table and outcome are those of the code-attempt cap |
| ActivationHandlers.InvalidCode | src/auth/services/activation-handler.service.ts:115-144 | the new table and outcome are those of the wrong-code handler |
| ActivationModel.CheckMaxMailSend | src/auth/services/activation.service.ts:177-188 | returns exactly while the send total is below MAX_MAIL_ATTEMPTS; otherwise raises the mail-limit error |
| ActivationModel.UpdateTotalActivationAndSendMail | src/auth/services/activation.service.ts:247-279 | the total counts one more mail, the activation holds the new code with attempts reset, and exactly that code is mailed |
| ActivationModel.HandlingLargeAttempts | src/auth/services/activation.service.ts:190-215 | returns unchanged exactly while activation attempts are below the cap; otherwise only this key's record and the mails change |
| ActivationModel.CodeExpiredCheck | src/auth/services/activation.service.ts:217-245 | returns unchanged exactly when the code is at most EXPIRY old; otherwise only this key's record and the mails change |
| ActivationModel.CheckMailAccountFirst | src/auth/services/activation.service.ts:27-59 | a registration for a known address is a conflict and a login for an unknown one is NotFound, with nothing changed; otherwise the call returns exactly when generation does, and then mails the new code |
| ActivationModel.GenerateCases | src/auth/services/activation.service.ts:123-175 | a key at the send cap is refused unchanged; otherwise the total counts one more mail, or starts at one, and a fresh activation for this address and code is stored; nothing is mailed here |
| ActivationModel.CheckActivationSuccess | src/auth/services/activation.service.ts:72-121 | a check succeeds exactly when the pending activation is for this address and code, has attempts left and is fresh; success deletes it, so checking the same code again gives NotFound |
| ActivationModel.CheckActivationNotFound | src/auth/services/activation.service.ts:84-91 | a missing activation, or one for another address, gives NotFound and changes nothing |
| ActivationModel.HandlingLargeAttemptsCases | src/auth/services/activation.service.ts:190-215 | with attempts used up, at the send cap the call raises with nothing changed, and below it a new code is mailed; either way it raises |
| ActivationModel.ExpiryMailsPastCap | src/auth/services/activation.service.ts:217-245 | a key past the send cap whose code is older than EXPIRY is mailed again, and the same holds one EXPIRY later, so mails per key are unbounded |
| Activation.TotalActivationTable.constructor | src/auth/services/activation.service.ts:18-25 | the table starts with no records and no mails |
| Activation.UpdateTotalActivationAndSendMail | src/auth/services/activation.service.ts:247-279 | the new table is that of the regeneration with its mail |
| Activation.HandlingLargeAttempts | src/auth/services/activation.service.ts:190-215 | the new table and outcome are those of the attempt-cap handler |
| Activation.CodeExpiredCheck | src/auth/services/activation.service.ts:217-245 | the new table and outcome are those of the expiry check |
| Activation.CheckActivationCode | src/auth/services/activation.service.ts:72-121 | the new table and outcome are those of the code check |
| Activation.GenerateAndSaveActivationCode | src/auth/services/activation.service.ts:123-175 | the new table and outcome are those of generation |
| Activation.CheckMail | src/auth/services/activation.service.ts:27-59 | the new table and outcome are those of the account check, generation and mail |
| AuthFlows.PayloadFor | src/modules/auth/auth.service.ts:37-41 | the token payload is the user's id and roles with the device's fingerprint hash |
| AuthFlows.Registration | src/modules/auth/auth.service.ts:17-44 | a known e-mail gives Conflict with users and codes unchanged; otherwise the code check decides; a user with the earned roles is appended only on success, and its tokens carry its id, roles and the fingerprint hash |
| AuthFlows.Login | src/modules/auth/auth.service.ts:46-72 | an unknown e-mail gives NotFound with codes unchanged; otherwise the code check decides, and on success the tokens carry the user's id, roles and the fingerprint hash |
| AuthFlows.LoginRoute | src/modules/auth/auth.controller.ts:92-115 | a failed login leaves sessions alone; a successful one trims the user's sessions, then appends one holding the issued pair and the device hash, so the user holds at most MAX_SESSIONS_QUANTITY sessions |
| LegacyAuth.IssueTokensWithoutRoles | src/auth/auth.service.ts:91-103 | both tokens verify to the payload of id and fingerprint without roles; the refresh token lives fifteen days |
| LegacyAuth.IssueTokensWithRoles | src/auth/services/auth.service.ts:81-97 | both tokens verify to the payload of id, fingerprint and the user's roles |
| LegacyAuth.ValidateUser | src/auth/services/auth.service.ts:65-79 | success is a stored user with that e-mail whose hash matches the password; NotFound exactly when no user has the e-mail; a user without a password raises a server error; a mismatch is 401 with the wrong-password message |
| LegacyAuth.LoginWithoutRoles | src/auth/auth.service.ts:45-53 | succeeds exactly when validation does, with its error otherwise, and issues tokens without roles |
| LegacyAuth.LoginWithRoles | src/auth/services/auth.service.ts:51-63 | succeeds exactly when validation does, with its error otherwise, and issues tokens with the user's roles |
| LegacyAuth.GetNewTokens | src/auth/auth.service.ts:55-73 | succeeds exactly when the refresh token verifies and names a stored user, and issues that user a pair for the requesting device; every failure is 401 "Invalid refresh token" |
| LegacyAuth.Registration | src/auth/auth.service.ts:27-43 | a known e-mail is a bad request (Conflict in the later service) and no user is created; otherwise a user with the password's cost-7 hash is appended and gets tokens, with roles in the later service |
| LegacyAuth.OAuth | src/auth/services/auth.service.ts:99-136 | a known user has its sessions trimmed and gets tokens with roles, with no user created; otherwise a user with the provider and profile is created and gets tokens, and a refused creation is a bad request with nothing changed |
| LegacyAuth.RegisteredUserCanLogIn | src/auth/services/auth.service.ts:29-79 | a user registered with a password is validated with that password and refused with any other |
| LegacyAuth.RefreshUntilExpiry | src/auth/auth.service.ts:55-73 | the refresh token from a login yields a new pair for the same user exactly until fifteen days after issue |
| LegacyAuth.AdminRoutesNeedRoles | src/utils/guards/admin.guard.ts:27-30 | within their lifetime, tokens of the first service never open admin routes; tokens of the later service open them exactly when the user holds ADMIN |

## Left out

- **Cryptography is ideal.** bcrypt hashing and JWT signing and verification are modelled ideally. bcrypt's truncation of input to 72 bytes and any collision are not modelled. A salt is a parameter.
- **Code generators.** They are not part of this model. Each new code is a method parameter.
- **Mail delivery.** It is an appended outbox; delivery failures are not modelled. An OTP mail records the key it was sent for.
- **Dates.** Time is integer milliseconds. Calendar and daylight-saving arithmetic are not modelled.
- ActivationHandlerModel.ExpiringCode: the handler's expiry cutoff is the free parameter `cutoff`, so the model neither models nor claims the one-hour code lifetime the constant's name suggests. The handler service sets the current hour to the current minute less one. That cutoff is wrong even where nothing overflows: at 10:05 it is 04:05, six hours back; at 10:45 it is 20:45, in the future, so every code counts as expired, including one written a second earlier (`ActivationHandlerModel.FutureCutoffExpiresEverything`).
- **Persistence.** Prisma is modelled as in-memory maps and sequences, with these assumptions:
  - every write sets `updatedAt` to now;
  - a user's sessions come back in creation order;
  - deleting a missing id is a no-op;
  - an unknown user has no sessions;
  - schema defaults for new counters are constants equal to 1;
  - the default of `roles`, which the legacy user services rely on for every address but the administrator's, is `[USER]`.
- **Concurrency.** The `Promise.all` deletions of `checkQuantitySessions` run one after another.
- **Logout.** The un-awaited session deletion of logout in the controllers is not modelled. Neither is any interleaving of concurrent requests.
- **Framework wiring.** These parts are not part of this model:
  - controllers, except the login route's trim-then-create order, which is `AuthFlows.LoginRoute`;
  - decorators other than the fingerprint;
  - modules, DTOs and Swagger;
  - the tokens service;
  - cookie handling;
  - the OTP management query;
  - the Passport strategies and `super.canActivate`.
- **Token extraction.** A request carries an optional token. A missing token and an empty token are treated alike.
- **Legacy guard copies.** The guards under `src/auth/guards/access.guard.ts` and `src/auth/guards/refresh.guard.ts` are the same code as those under `src/utils/guards/`. One member models each pair.
- **Legacy fingerprint source.** `getMetaDataToFingerprint`, used by the first module's guard, is not defined in the `AuthService` that guard imports (`src/auth/auth.service.ts`); as written the call at `src/auth/guards/jwt.guard.ts:26` would throw before any decision. The model assumes it returns the raw fingerprint string. Its result is the parameter `raw` of `Guards.JwtAuthCheck`. The first services' string fingerprint is treated as the device hash.
- **Legacy existence check.** The activation service's registration check calls a user-service method that `src/user/user.service.ts` does not show. It is modelled as a conflict for a known address, as `src/modules/users/users.service.ts:27-35` does.
- **OAuth creation.** The database's answer to `createByOAuth` is the parameter `accepted`. The two OAuth sign-ins are one member, `LegacyAuth.OAuth`; the profile is `NO_PROFILE` where a service passes none.
- **Two legacy registrations in one member.** The two legacy `registration` methods are one member, `LegacyAuth.Registration`, selected by `conflict`.
- **Inlined look-up.** `getOtpInfoByKey` is inlined as a map look-up.
- **Integers.** Counters are unbounded integers. The source's numbers never come near a limit here.

/** The one-time-password engine as a function of the stored state: the
    `OtpInfo` table keyed by the anonymous `userKey` and the mails sent so far.
    Each handler either lets the request through untouched or commits its
    change and raises; the base operations chain the handlers in the order the
    service calls them. The new code a handler may issue is a parameter. */
module OtpModel {
  import opened Common
  import opened Helpers
  import opened Fingerprints

  const ATTEMPTS_START_VALUE: int := 1
  const ATTEMPTS_INCREMENT_VALUE: int := 1
  const MAX_CODE_ATTEMPTS: int := 3
  /** One more than the number of code mails a key can receive. */
  const MAX_MAIL_ATTEMPTS: int := 5
  const SUSPICIOUSNESS_CHECK_LIMIT: int := 3
  const NUMBER_MINUTES_BETWEEN_SENDS_NEW_CODE: int := 1
  const NUMBER_HOURS_EXPIRE_CODE: int := 1

  /** A row of the `OtpInfo` table. `emails` is the space-separated list of the
      addresses a code was requested for; `fingerprint` is the hash of the
      device that created the row. */
  datatype OtpInfo = OtpInfo(
    emails: string,
    otpCode: Option<string>,
    fingerprint: Hash,
    mailAttempts: int,
    codeAttempts: int,
    updatedAt: int)

  /** A mail carrying a code, sent on behalf of the row with key `userKey`. */
  datatype Mail = Mail(userKey: string, email: string, otpCode: string)

  datatype Db = Db(rows: map<string, OtpInfo>, outbox: seq<Mail>)

  /** The state after a call and whether it returned or raised. */
  datatype Step = Step(db: Db, outcome: Outcome)

  /** `prisma.otpInfo.update` of an existing row. */
  function Put(db: Db, key: string, row: OtpInfo): Db
  {
    db.(rows := db.rows[key := row])
  }

  /** Only the row with `key` may have changed, and it exists afterwards. */
  predicate OnlyRowChanged(before: Db, after: Db, key: string)
  {
    key in after.rows && after.rows == before.rows[key := after.rows[key]]
  }

  // ---------------------------------------------------------------------------
  // Handlers

  /** `largeMailAttempts`. */
  function LargeMailAttempts(info: OtpInfo): (r: Outcome)
    ensures r.Pass? <==> info.mailAttempts < MAX_MAIL_ATTEMPTS
    ensures r.Fail? ==> r.error == BadRequest(MailLimitReached)
  {
    if info.mailAttempts >= MAX_MAIL_ATTEMPTS then Fail(BadRequest(MailLimitReached)) else Pass
  }

  /** `blockNewMessageBeforeOneMinute`. */
  function BlockNewMessageBeforeOneMinute(info: OtpInfo, now: int): (r: Outcome)
    ensures r.Pass? <==> now - info.updatedAt >= NUMBER_MINUTES_BETWEEN_SENDS_NEW_CODE * MINUTE
    ensures r.Fail? ==> r.error == BadRequest(TooEarly)
  {
    if now - NUMBER_MINUTES_BETWEEN_SENDS_NEW_CODE * MINUTE < info.updatedAt then Fail(BadRequest(TooEarly)) else Pass
  }

  /** A row the suspicion query returns: a row that reached the mail cap and,
      while the requesting row is on its first attempt, whose e-mail list
      contains the e-mail. */
  predicate IsSuspect(row: OtpInfo, info: OtpInfo, email: string)
  {
    row.mailAttempts >= MAX_MAIL_ATTEMPTS
    && (info.mailAttempts == ATTEMPTS_START_VALUE ==> Contains(row.emails, email))
  }

  /** Some suspect row was created on the device whose header string is `raw`. */
  predicate SuspectMatches(rows: map<string, OtpInfo>, info: OtpInfo, email: string, raw: string)
  {
    exists k :: k in rows && IsSuspect(rows[k], info, email) && Compare(raw, rows[k].fingerprint)
  }

  /** `blockSuspicionUser`: a request from a device that already exhausted the
      mail cap under another key is blocked by pushing this row past the cap. */
  function BlockSuspicionUser(db: Db, key: string, info: OtpInfo, email: string, raw: string, now: int): (r: Step)
    requires key in db.rows
    ensures OnlyRowChanged(db, r.db, key) && r.db.outbox == db.outbox
    ensures r.outcome.Pass? <==> !(info.mailAttempts < SUSPICIOUSNESS_CHECK_LIMIT && SuspectMatches(db.rows, info, email, raw))
    ensures r.outcome.Pass? ==> r.db == db
    ensures r.outcome.Fail? ==> r.outcome.error == BadRequest(MailLimitReached)
                                && r.db.rows[key].mailAttempts == MAX_MAIL_ATTEMPTS + ATTEMPTS_INCREMENT_VALUE
                                && r.db.rows[key].codeAttempts == db.rows[key].codeAttempts
                                && r.db.rows[key].otpCode == db.rows[key].otpCode
  {
    if info.mailAttempts < SUSPICIOUSNESS_CHECK_LIMIT && SuspectMatches(db.rows, info, email, raw) then
      var stored := db.rows[key];
      Step(Put(db, key, stored.(mailAttempts := MAX_MAIL_ATTEMPTS + ATTEMPTS_INCREMENT_VALUE, updatedAt := now)),
           Fail(BadRequest(MailLimitReached)))
    else Step(db, Pass)
  }

  /** `lastMailAttempts`: the request that would send the last allowed code
      instead moves the row to the cap and raises. */
  function LastMailAttempts(db: Db, key: string, info: OtpInfo, now: int): (r: Step)
    requires key in db.rows
    ensures OnlyRowChanged(db, r.db, key) && r.db.outbox == db.outbox
    ensures r.outcome.Pass? <==> info.mailAttempts != MAX_MAIL_ATTEMPTS - ATTEMPTS_INCREMENT_VALUE
    ensures r.outcome.Pass? ==> r.db == db
    ensures r.outcome.Fail? ==> r.outcome.error == BadRequest(MailLimitReached)
                                && r.db.rows[key].mailAttempts == db.rows[key].mailAttempts + ATTEMPTS_INCREMENT_VALUE
                                && r.db.rows[key].codeAttempts == ATTEMPTS_START_VALUE
                                && r.db.rows[key].otpCode == db.rows[key].otpCode
  {
    if info.mailAttempts == MAX_MAIL_ATTEMPTS - ATTEMPTS_INCREMENT_VALUE then
      var stored := db.rows[key];
      Step(Put(db, key, stored.(mailAttempts := stored.mailAttempts + ATTEMPTS_INCREMENT_VALUE,
                                codeAttempts := ATTEMPTS_START_VALUE, updatedAt := now)),
           Fail(BadRequest(MailLimitReached)))
    else Step(db, Pass)
  }

  /** `updateOtpInfoAndSendMail`: a new code replaces the stored one, counts as
      one more mail, resets the code attempts and is mailed. */
  function UpdateOtpInfoAndSendMail(db: Db, key: string, email: string, newOtpCode: string, now: int): (r: Db)
    requires key in db.rows
    ensures OnlyRowChanged(db, r, key)
    ensures r.outbox == db.outbox + [Mail(key, email, newOtpCode)]
    ensures r.rows[key] == db.rows[key].(mailAttempts := db.rows[key].mailAttempts + ATTEMPTS_INCREMENT_VALUE,
                                         otpCode := Some(newOtpCode), codeAttempts := ATTEMPTS_START_VALUE,
                                         updatedAt := now)
  {
    var stored := db.rows[key];
    var row := stored.(mailAttempts := stored.mailAttempts + ATTEMPTS_INCREMENT_VALUE, otpCode := Some(newOtpCode),
                       codeAttempts := ATTEMPTS_START_VALUE, updatedAt := now);
    Db(db.rows[key := row], db.outbox + [Mail(key, email, newOtpCode)])
  }

  /** `expiringCode`: a code older than an hour is replaced and mailed again,
      unless that would be the last allowed mail; either way the call raises. */
  function ExpiringCode(db: Db, key: string, info: OtpInfo, email: string, newOtpCode: string, now: int): (r: Step)
    requires key in db.rows
    ensures OnlyRowChanged(db, r.db, key)
    ensures r.outcome.Pass? <==> info.updatedAt >= now - NUMBER_HOURS_EXPIRE_CODE * HOUR
    ensures r.outcome.Pass? ==> r.db == db
  {
    if now - NUMBER_HOURS_EXPIRE_CODE * HOUR > info.updatedAt then
      var s := LastMailAttempts(db, key, info, now);
      if s.outcome.Fail? then s
      else Step(UpdateOtpInfoAndSendMail(db, key, email, newOtpCode, now), Fail(BadRequest(CodeExpired(email))))
    else Step(db, Pass)
  }

  /** `lastCodeAttempts`: after the allowed number of wrong codes a new code is
      issued and mailed (unless that would be the last allowed mail), and the
      call raises. */
  function LastCodeAttempts(db: Db, key: string, info: OtpInfo, email: string, newOtpCode: string, now: int): (r: Step)
    requires key in db.rows
    ensures OnlyRowChanged(db, r.db, key)
    ensures r.outcome.Pass? <==> info.codeAttempts < MAX_CODE_ATTEMPTS
    ensures r.outcome.Pass? ==> r.db == db
  {
    if info.codeAttempts >= MAX_CODE_ATTEMPTS then
      var s := LastMailAttempts(db, key, info, now);
      if s.outcome.Fail? then s
      else Step(UpdateOtpInfoAndSendMail(db, key, email, newOtpCode, now), Fail(BadRequest(WrongCodeResent(email))))
    else Step(db, Pass)
  }

  /** `invalidCode`: a wrong code counts one more code attempt and raises, or,
      once the attempts are used up, goes down the `lastCodeAttempts` path. */
  function InvalidCode(db: Db, key: string, info: OtpInfo, email: string, otpCode: string, newOtpCode: string, now: int)
    : (r: Step)
    requires key in db.rows
    ensures OnlyRowChanged(db, r.db, key)
    ensures r.outcome.Pass? <==> info.otpCode == Some(otpCode)
    ensures r.outcome.Pass? ==> r.db == db
  {
    if info.otpCode != Some(otpCode) then
      var s := LastCodeAttempts(db, key, info, email, newOtpCode, now);
      if s.outcome.Fail? then s
      else
        var stored := db.rows[key];
        Step(Put(db, key, stored.(codeAttempts := stored.codeAttempts + ATTEMPTS_INCREMENT_VALUE, updatedAt := now)),
             Fail(BadRequest(WrongCode)))
    else Step(db, Pass)
  }

  // ---------------------------------------------------------------------------
  // Base operations

  /** `checkOtpCode`: the code must exist for this key and e-mail; then the mail
      cap, the suspicion check, the expiry and the code itself are checked in
      that order, and a correct code is consumed. */
  function CheckOtpCode(db: Db, key: string, email: string, otpCode: string, raw: string, newOtpCode: string, now: int)
    : Step
  {
    if key !in db.rows || !Contains(db.rows[key].emails, email) || db.rows[key].otpCode.None? then
      Step(db, Fail(NotFound))
    else
      var info := db.rows[key];
      var large := LargeMailAttempts(info);
      if large.Fail? then Step(db, large)
      else
        var suspicion := BlockSuspicionUser(db, key, info, email, raw, now);
        if suspicion.outcome.Fail? then suspicion
        else
          var expiry := ExpiringCode(db, key, info, email, newOtpCode, now);
          if expiry.outcome.Fail? then expiry
          else
            var invalid := InvalidCode(db, key, info, email, otpCode, newOtpCode, now);
            if invalid.outcome.Fail? then invalid
            else Step(Put(db, key, info.(otpCode := None, codeAttempts := ATTEMPTS_START_VALUE, updatedAt := now)), Pass)
  }

  /** The row a successful resend stores: one more mail, fresh code, reset code
      attempts, the e-mail added to the list; the device fingerprint is kept. */
  function ResentRow(stored: OtpInfo, email: string, newOtpCode: string, now: int): OtpInfo
  {
    stored.(mailAttempts := stored.mailAttempts + ATTEMPTS_INCREMENT_VALUE, codeAttempts := ATTEMPTS_START_VALUE,
            otpCode := Some(newOtpCode), emails := ConcatIfStringNotInclude(stored.emails, email), updatedAt := now)
  }

  /** The row created for an unseen key (counters at their schema default). */
  function CreatedRow(email: string, fingerprint: IFingerprint, newOtpCode: string, now: int): OtpInfo
  {
    OtpInfo(email, Some(newOtpCode), fingerprint.hashFingerprint, ATTEMPTS_START_VALUE, ATTEMPTS_START_VALUE, now)
  }

  /** `generateAndSaveOtpCode`: for a known key the mail cap, the last-mail
      rule and the cooldown are checked before the row is updated; an unseen
      key gets a new row; then the saved row goes through the suspicion check. */
  function GenerateAndSaveOtpCode(db: Db, key: string, email: string, fingerprint: IFingerprint,
                                  newOtpCode: string, now: int): Step
  {
    if key in db.rows then
      var info := db.rows[key];
      var large := LargeMailAttempts(info);
      if large.Fail? then Step(db, large)
      else
        var last := LastMailAttempts(db, key, info, now);
        if last.outcome.Fail? then last
        else
          var cooldown := BlockNewMessageBeforeOneMinute(info, now);
          if cooldown.Fail? then Step(db, cooldown)
          else
            var row := ResentRow(info, email, newOtpCode, now);
            BlockSuspicionUser(Put(db, key, row), key, row, email, fingerprint.reqHeadersString, now)
    else
      var row := CreatedRow(email, fingerprint, newOtpCode, now);
      BlockSuspicionUser(Put(db, key, row), key, row, email, fingerprint.reqHeadersString, now)
  }

  /** `getAndSendOtp`: the generated code is mailed only when generation returned. */
  function GetAndSendOtp(db: Db, key: string, email: string, fingerprint: IFingerprint, newOtpCode: string, now: int)
    : Step
  {
    var s := GenerateAndSaveOtpCode(db, key, email, fingerprint, newOtpCode, now);
    if s.outcome.Fail? then s
    else Step(s.db.(outbox := s.db.outbox + [Mail(key, email, newOtpCode)]), Pass)
  }
}

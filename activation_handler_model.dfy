/** The handler set of the older activation engine as functions of the stored
    `userActivation` rows. It is the same machine as the one-time-password
    handlers, over rows keyed by id whose e-mails are a list, and with the
    expiry cutoff supplied by the caller. */
module ActivationHandlerModel {
  import opened Common

  const ATTEMPTS_START_VALUE: int := 1
  const ATTEMPTS_INCREMENT_VALUE: int := 1
  const MAX_CODE_ATTEMPTS: int := 3
  /** One more than the number of code mails a row may receive. */
  const MAX_MAIL_ATTEMPTS: int := 5
  const SUSPICIOUSNESS_CHECK_LIMIT: int := 3
  const NUMBER_MINUTES_BETWEEN_SENDS_NEW_CODE: int := 1

  /** A `userActivation` row. */
  datatype UserActivation = UserActivation(
    emails: seq<string>,
    fingerprint: Hash,
    mailAttempts: int,
    codeAttempts: int,
    activationCode: string,
    updatedAt: int)

  datatype ActivationMail = ActivationMail(email: string, activationCode: string)

  /** The rows by id, and the mails sent so far. */
  datatype Db = Db(rows: map<nat, UserActivation>, outbox: seq<ActivationMail>)

  datatype Step = Step(db: Db, outcome: Outcome)

  function Put(db: Db, id: nat, row: UserActivation): Db
  {
    db.(rows := db.rows[id := row])
  }

  predicate OnlyRowChanged(before: Db, after: Db, id: nat)
  {
    id in after.rows && after.rows == before.rows[id := after.rows[id]]
  }

  /** `largeMailAttempts`. */
  function LargeMailAttempts(ua: UserActivation): (r: Outcome)
    ensures r.Pass? <==> ua.mailAttempts < MAX_MAIL_ATTEMPTS
    ensures r.Fail? ==> r.error == BadRequest(MailLimitReached)
  {
    if ua.mailAttempts >= MAX_MAIL_ATTEMPTS then Fail(BadRequest(MailLimitReached)) else Pass
  }

  /** `blockNewMessageBeforeOneMinute`. */
  function BlockNewMessageBeforeOneMinute(ua: UserActivation, now: int): (r: Outcome)
    ensures r.Pass? <==> now - ua.updatedAt >= NUMBER_MINUTES_BETWEEN_SENDS_NEW_CODE * MINUTE
    ensures r.Fail? ==> r.error == BadRequest(TooEarly)
  {
    if now - NUMBER_MINUTES_BETWEEN_SENDS_NEW_CODE * MINUTE < ua.updatedAt then Fail(BadRequest(TooEarly)) else Pass
  }

  /** A capped row that, while the requesting row is on its first attempt,
      lists the e-mail exactly. */
  predicate IsSuspect(row: UserActivation, ua: UserActivation, email: string)
  {
    row.mailAttempts >= MAX_MAIL_ATTEMPTS && (ua.mailAttempts == ATTEMPTS_START_VALUE ==> email in row.emails)
  }

  predicate SuspectMatches(rows: map<nat, UserActivation>, ua: UserActivation, email: string, raw: string)
  {
    exists id :: id in rows && IsSuspect(rows[id], ua, email) && Compare(raw, rows[id].fingerprint)
  }

  /** `blockSuspicionUser`. */
  function BlockSuspicionUser(db: Db, id: nat, ua: UserActivation, email: string, raw: string, now: int): (r: Step)
    requires id in db.rows
    ensures OnlyRowChanged(db, r.db, id) && r.db.outbox == db.outbox
    ensures r.outcome.Pass? <==> !(ua.mailAttempts < SUSPICIOUSNESS_CHECK_LIMIT && SuspectMatches(db.rows, ua, email, raw))
    ensures r.outcome.Pass? ==> r.db == db
    ensures r.outcome.Fail? ==> r.outcome.error == BadRequest(MailLimitReached)
                                && r.db.rows[id] == db.rows[id].(mailAttempts := MAX_MAIL_ATTEMPTS + ATTEMPTS_INCREMENT_VALUE,
                                                                 updatedAt := now)
  {
    if ua.mailAttempts < SUSPICIOUSNESS_CHECK_LIMIT && SuspectMatches(db.rows, ua, email, raw) then
      Step(Put(db, id, db.rows[id].(mailAttempts := MAX_MAIL_ATTEMPTS + ATTEMPTS_INCREMENT_VALUE, updatedAt := now)),
           Fail(BadRequest(MailLimitReached)))
    else Step(db, Pass)
  }

  /** `lastMailAttempts`. */
  function LastMailAttempts(db: Db, id: nat, ua: UserActivation, now: int): (r: Step)
    requires id in db.rows
    ensures OnlyRowChanged(db, r.db, id) && r.db.outbox == db.outbox
    ensures r.outcome.Pass? <==> ua.mailAttempts != MAX_MAIL_ATTEMPTS - ATTEMPTS_INCREMENT_VALUE
    ensures r.outcome.Pass? ==> r.db == db
    ensures r.outcome.Fail? ==> r.outcome.error == BadRequest(MailLimitReached)
                                && r.db.rows[id].mailAttempts == db.rows[id].mailAttempts + ATTEMPTS_INCREMENT_VALUE
                                && r.db.rows[id].codeAttempts == ATTEMPTS_START_VALUE
  {
    if ua.mailAttempts == MAX_MAIL_ATTEMPTS - ATTEMPTS_INCREMENT_VALUE then
      var stored := db.rows[id];
      Step(Put(db, id, stored.(mailAttempts := stored.mailAttempts + ATTEMPTS_INCREMENT_VALUE,
                               codeAttempts := ATTEMPTS_START_VALUE, updatedAt := now)),
           Fail(BadRequest(MailLimitReached)))
    else Step(db, Pass)
  }

  /** `updateUserActivationAndSendMail`. */
  function UpdateUserActivationAndSendMail(db: Db, id: nat, email: string, newActivationCode: string, now: int): (r: Db)
    requires id in db.rows
    ensures OnlyRowChanged(db, r, id)
    ensures r.outbox == db.outbox + [ActivationMail(email, newActivationCode)]
    ensures r.rows[id].mailAttempts == db.rows[id].mailAttempts + ATTEMPTS_INCREMENT_VALUE
    ensures r.rows[id].activationCode == newActivationCode && r.rows[id].codeAttempts == ATTEMPTS_START_VALUE
    ensures r.rows[id].emails == db.rows[id].emails && r.rows[id].fingerprint == db.rows[id].fingerprint
  {
    var stored := db.rows[id];
    var row := stored.(mailAttempts := stored.mailAttempts + ATTEMPTS_INCREMENT_VALUE, activationCode := newActivationCode,
                       codeAttempts := ATTEMPTS_START_VALUE, updatedAt := now);
    Db(db.rows[id := row], db.outbox + [ActivationMail(email, newActivationCode)])
  }

  /** `expiringCode`; the code is expired when it was written before `cutoff`.
      The service computes the cutoff by setting the current hour to the
      current minute less one, which is not an hour back: it may lie hours in
      the past or in the future. The model leaves `cutoff` free and claims no
      particular code lifetime. */
  function ExpiringCode(db: Db, id: nat, ua: UserActivation, email: string, newActivationCode: string, now: int,
                        cutoff: int): (r: Step)
    requires id in db.rows
    ensures OnlyRowChanged(db, r.db, id)
    ensures r.outcome.Pass? <==> cutoff <= ua.updatedAt
    ensures r.outcome.Pass? ==> r.db == db
  {
    if cutoff > ua.updatedAt then
      var s := LastMailAttempts(db, id, ua, now);
      if s.outcome.Fail? then s
      else Step(UpdateUserActivationAndSendMail(db, id, email, newActivationCode, now), Fail(BadRequest(CodeExpired(email))))
    else Step(db, Pass)
  }

  /** `lastCodeAttempts`. */
  function LastCodeAttempts(db: Db, id: nat, ua: UserActivation, email: string, newActivationCode: string, now: int)
    : (r: Step)
    requires id in db.rows
    ensures OnlyRowChanged(db, r.db, id)
    ensures r.outcome.Pass? <==> ua.codeAttempts < MAX_CODE_ATTEMPTS
    ensures r.outcome.Pass? ==> r.db == db
  {
    if ua.codeAttempts >= MAX_CODE_ATTEMPTS then
      var s := LastMailAttempts(db, id, ua, now);
      if s.outcome.Fail? then s
      else Step(UpdateUserActivationAndSendMail(db, id, email, newActivationCode, now),
                Fail(BadRequest(WrongCodeResent(email))))
    else Step(db, Pass)
  }

  /** `invalidCode`. */
  function InvalidCode(db: Db, id: nat, ua: UserActivation, email: string, activationCode: string,
                       newActivationCode: string, now: int): (r: Step)
    requires id in db.rows
    ensures OnlyRowChanged(db, r.db, id)
    ensures r.outcome.Pass? <==> ua.activationCode == activationCode
    ensures r.outcome.Pass? ==> r.db == db
  {
    if ua.activationCode != activationCode then
      var s := LastCodeAttempts(db, id, ua, email, newActivationCode, now);
      if s.outcome.Fail? then s
      else
        var stored := db.rows[id];
        Step(Put(db, id, stored.(codeAttempts := stored.codeAttempts + ATTEMPTS_INCREMENT_VALUE, updatedAt := now)),
             Fail(BadRequest(WrongCode)))
    else Step(db, Pass)
  }

  // ---------------------------------------------------------------------------
  // Properties

  /** `invalidCode` in each of its cases, for the row as stored. */
  lemma InvalidCodeCases(db: Db, id: nat, email: string, activationCode: string, newActivationCode: string, now: int)
    requires id in db.rows
    ensures var ua := db.rows[id];
      var r := InvalidCode(db, id, ua, email, activationCode, newActivationCode, now);
      && (ua.activationCode == activationCode ==> r == Step(db, Pass))
      && (ua.activationCode != activationCode && ua.codeAttempts < MAX_CODE_ATTEMPTS ==>
            r == Step(Put(db, id, ua.(codeAttempts := ua.codeAttempts + 1, updatedAt := now)), Fail(BadRequest(WrongCode))))
      && (ua.activationCode != activationCode && ua.codeAttempts >= MAX_CODE_ATTEMPTS
          && ua.mailAttempts == MAX_MAIL_ATTEMPTS - 1 ==>
            r == Step(Put(db, id, ua.(mailAttempts := MAX_MAIL_ATTEMPTS, codeAttempts := 1, updatedAt := now)),
                      Fail(BadRequest(MailLimitReached))))
      && (ua.activationCode != activationCode && ua.codeAttempts >= MAX_CODE_ATTEMPTS
          && ua.mailAttempts != MAX_MAIL_ATTEMPTS - 1 ==>
            r == Step(Db(db.rows[id := ua.(mailAttempts := ua.mailAttempts + 1, activationCode := newActivationCode,
                                           codeAttempts := 1, updatedAt := now)],
                         db.outbox + [ActivationMail(email, newActivationCode)]),
                      Fail(BadRequest(WrongCodeResent(email)))))
  {
  }

  /** `expiringCode` in each of its cases, for the row as stored. */
  lemma ExpiringCodeCases(db: Db, id: nat, email: string, newActivationCode: string, now: int, cutoff: int)
    requires id in db.rows
    ensures var ua := db.rows[id];
      var r := ExpiringCode(db, id, ua, email, newActivationCode, now, cutoff);
      && (cutoff <= ua.updatedAt ==> r == Step(db, Pass))
      && (cutoff > ua.updatedAt && ua.mailAttempts == MAX_MAIL_ATTEMPTS - 1 ==>
            r == Step(Put(db, id, ua.(mailAttempts := MAX_MAIL_ATTEMPTS, codeAttempts := 1, updatedAt := now)),
                      Fail(BadRequest(MailLimitReached))))
      && (cutoff > ua.updatedAt && ua.mailAttempts != MAX_MAIL_ATTEMPTS - 1 ==>
            r == Step(Db(db.rows[id := ua.(mailAttempts := ua.mailAttempts + 1, activationCode := newActivationCode,
                                           codeAttempts := 1, updatedAt := now)],
                         db.outbox + [ActivationMail(email, newActivationCode)]),
                      Fail(BadRequest(CodeExpired(email)))))
  {
  }

  /** On a row's first attempt only capped rows of the same device that list
      the e-mail itself block it; on its second attempt any capped row of the
      same device does; from the third attempt on nothing does. */
  lemma SuspicionFilter(db: Db, id: nat, email: string, raw: string, now: int, other: nat)
    requires id in db.rows && other in db.rows
    requires db.rows[other].mailAttempts >= MAX_MAIL_ATTEMPTS && Compare(raw, db.rows[other].fingerprint)
    ensures var ua := db.rows[id];
      var r := BlockSuspicionUser(db, id, ua, email, raw, now);
      && (ua.mailAttempts == ATTEMPTS_START_VALUE && email in db.rows[other].emails ==> r.outcome.Fail?)
      && (ua.mailAttempts == ATTEMPTS_START_VALUE + 1 ==> r.outcome.Fail?)
      && (ua.mailAttempts >= SUSPICIOUSNESS_CHECK_LIMIT ==> r == Step(db, Pass))
  {
    var ua := db.rows[id];
    if ua.mailAttempts == ATTEMPTS_START_VALUE + 1 || email in db.rows[other].emails {
      assert IsSuspect(db.rows[other], ua, email);
    }
  }

  /** With no capped row of the same device listing the e-mail, a first
      attempt is never blocked, however many capped rows of that device exist. */
  lemma FirstAttemptNeedsListedEmail(db: Db, id: nat, email: string, raw: string, now: int)
    requires id in db.rows && db.rows[id].mailAttempts == ATTEMPTS_START_VALUE
    requires forall o :: o in db.rows && Compare(raw, db.rows[o].fingerprint) ==> email !in db.rows[o].emails
    ensures BlockSuspicionUser(db, id, db.rows[id], email, raw, now) == Step(db, Pass)
  {
  }

  /** When the service's cutoff lies in the future, as it does whenever the
      current minute exceeds the current hour plus one, every code written up
      to now counts as expired: the call raises, and the row either moves to
      the mail cap or receives a new code by mail. */
  lemma FutureCutoffExpiresEverything(db: Db, id: nat, email: string, newActivationCode: string, now: int, cutoff: int)
    requires id in db.rows && db.rows[id].updatedAt <= now < cutoff
    ensures var ua := db.rows[id];
      var r := ExpiringCode(db, id, ua, email, newActivationCode, now, cutoff);
      && r.outcome.Fail?
      && (r.db == LastMailAttempts(db, id, ua, now).db
          || r.db == UpdateUserActivationAndSendMail(db, id, email, newActivationCode, now))
  {
  }
}

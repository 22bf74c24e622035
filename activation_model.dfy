/** The activation service of the first authentication module as functions of
    the stored `totalActivationAttempts` records: each unauthorised user key
    has a total of mails sent and at most one pending activation. */
module ActivationModel {
  import opened Common
  import opened Users

  const MAX_CODE_ATTEMPTS: int := 3
  const MAX_MAIL_ATTEMPTS: int := 5
  /** Schema default of `totalSendMailAttempts` and `activationAttempts`. */
  const ATTEMPTS_START_VALUE: int := 1
  /** The age after which `codeExpiredCheck` treats a code as expired. */
  const EXPIRY: int := MINUTE

  /** A pending `userActivation`. */
  datatype Activation = Activation(email: string, activationCode: string, activationAttempts: int, updatedAt: int)

  /** A `totalActivationAttempts` record with its activation, if any. */
  datatype TotalActivation = TotalActivation(totalSendMailAttempts: int, userActivation: Option<Activation>)

  datatype Mail = Mail(userKey: string, email: string, activationCode: string)

  datatype Db = Db(records: map<string, TotalActivation>, outbox: seq<Mail>)

  datatype Step = Step(db: Db, outcome: Outcome)

  datatype CheckType = Login | Registration

  function Put(db: Db, key: string, t: TotalActivation): Db
  {
    db.(records := db.records[key := t])
  }

  /** The record of `key` exists and has a pending activation. */
  predicate HasActivation(db: Db, key: string)
  {
    key in db.records && db.records[key].userActivation.Some?
  }

  /** `checkMaxMailSend`. */
  function CheckMaxMailSend(t: TotalActivation): (r: Outcome)
    ensures r.Pass? <==> t.totalSendMailAttempts < MAX_MAIL_ATTEMPTS
    ensures r.Fail? ==> r.error == BadRequest(MailLimitReached)
  {
    if t.totalSendMailAttempts >= MAX_MAIL_ATTEMPTS then Fail(BadRequest(MailLimitReached)) else Pass
  }

  /** `updateTotalActivationAndSendMail`: one more mail on the total, a new
      code with reset attempts on the activation, and the mail. */
  function UpdateTotalActivationAndSendMail(db: Db, key: string, email: string, newActivationCode: string, now: int)
    : (r: Db)
    requires HasActivation(db, key)
    ensures HasActivation(r, key) && r.records == db.records[key := r.records[key]]
    ensures r.records[key].totalSendMailAttempts == db.records[key].totalSendMailAttempts + 1
    ensures r.records[key].userActivation.value
         == db.records[key].userActivation.value.(activationCode := newActivationCode,
                                                  activationAttempts := ATTEMPTS_START_VALUE, updatedAt := now)
    ensures r.outbox == db.outbox + [Mail(key, email, newActivationCode)]
  {
    var t := db.records[key];
    var ua := t.userActivation.value;
    Db(db.records[key := TotalActivation(t.totalSendMailAttempts + 1,
                                         Some(ua.(activationCode := newActivationCode,
                                                  activationAttempts := ATTEMPTS_START_VALUE, updatedAt := now)))],
       db.outbox + [Mail(key, email, newActivationCode)])
  }

  /** `handlingLargeAttempts`: once the code attempts are used up the call
      always raises, after mailing a new code unless the mail cap is reached. */
  function HandlingLargeAttempts(db: Db, key: string, t: TotalActivation, email: string, newActivationCode: string,
                                 now: int): (r: Step)
    requires HasActivation(db, key) && t.userActivation.Some?
    ensures r.outcome.Pass? <==> t.userActivation.value.activationAttempts < MAX_CODE_ATTEMPTS
    ensures r.outcome.Pass? ==> r.db == db
  {
    if t.userActivation.value.activationAttempts >= MAX_CODE_ATTEMPTS then
      var cap := CheckMaxMailSend(t);
      if cap.Fail? then Step(db, cap)
      else Step(UpdateTotalActivationAndSendMail(db, key, email, newActivationCode, now),
                Fail(BadRequest(NewCodeSent(email))))
    else Step(db, Pass)
  }

  /** `codeExpiredCheck`: a code older than `EXPIRY` first goes through
      `handlingLargeAttempts`; if that returns, a new code is mailed and the
      call raises. */
  function CodeExpiredCheck(db: Db, key: string, t: TotalActivation, email: string, newActivationCode: string, now: int)
    : (r: Step)
    requires HasActivation(db, key) && t.userActivation.Some?
    ensures r.outcome.Pass? <==> now - EXPIRY <= t.userActivation.value.updatedAt
    ensures r.outcome.Pass? ==> r.db == db
  {
    if now - EXPIRY > t.userActivation.value.updatedAt then
      var h := HandlingLargeAttempts(db, key, t, email, newActivationCode, now);
      if h.outcome.Fail? then h
      else Step(UpdateTotalActivationAndSendMail(db, key, email, newActivationCode, now),
                Fail(BadRequest(CodeExpired(email))))
    else Step(db, Pass)
  }

  /** `checkActivationCode`. */
  function CheckActivationCode(db: Db, key: string, email: string, activationCode: string, newActivationCode: string,
                               now: int): Step
  {
    if !HasActivation(db, key) || db.records[key].userActivation.value.email != email then Step(db, Fail(NotFound))
    else
      var t := db.records[key];
      var ua := t.userActivation.value;
      var large := HandlingLargeAttempts(db, key, t, email, newActivationCode, now);
      if large.outcome.Fail? then large
      else
        var expired := CodeExpiredCheck(db, key, t, email, newActivationCode, now);
        if expired.outcome.Fail? then expired
        else if ua.activationCode != activationCode then
          Step(Put(db, key, t.(userActivation := Some(ua.(activationAttempts := ua.activationAttempts + 1,
                                                          updatedAt := now)))),
               Fail(BadRequest(WrongCode)))
        else Step(Put(db, key, t.(userActivation := None)), Pass)
  }

  /** The activation stored by `generateAndSaveActivationCode`; the update of
      an existing activation and the creation of a new one store the same. */
  function FreshActivation(email: string, activationCode: string, now: int): Activation
  {
    Activation(email, activationCode, ATTEMPTS_START_VALUE, now)
  }

  /** `generateAndSaveActivationCode`. */
  function GenerateAndSaveActivationCode(db: Db, key: string, email: string, activationCode: string, now: int): Step
  {
    if key in db.records then
      var t := db.records[key];
      var cap := CheckMaxMailSend(t);
      if cap.Fail? then Step(db, cap)
      else Step(Put(db, key, TotalActivation(t.totalSendMailAttempts + 1,
                                             Some(FreshActivation(email, activationCode, now)))), Pass)
    else Step(Put(db, key, TotalActivation(ATTEMPTS_START_VALUE, Some(FreshActivation(email, activationCode, now)))),
              Pass)
  }

  /** `checkMail`: the account check for the request type, then generation,
      then the mail. */
  function CheckMail(db: Db, users: seq<User>, key: string, email: string, kind: CheckType, activationCode: string,
                     now: int): Step
  {
    if kind == Registration && FindByEmail(users, email).Some? then Step(db, Fail(Conflict))
    else if kind == Login && FindByEmail(users, email).None? then Step(db, Fail(NotFound))
    else
      var g := GenerateAndSaveActivationCode(db, key, email, activationCode, now);
      if g.outcome.Fail? then g
      else Step(g.db.(outbox := g.db.outbox + [Mail(key, email, activationCode)]), Pass)
  }

  // ---------------------------------------------------------------------------
  // Properties

  /** `checkMail` refuses a registration for a known address and a login for
      an unknown one without touching anything; otherwise it returns exactly
      when generation does and then mails the new code to the address. */
  lemma CheckMailAccountFirst(db: Db, users: seq<User>, key: string, email: string, kind: CheckType, code: string,
                              now: int)
    ensures var r := CheckMail(db, users, key, email, kind, code, now);
      && (kind == Registration && (exists u :: u in users && u.email == email) ==> r == Step(db, Fail(Conflict)))
      && (kind == Login && (forall u :: u in users ==> u.email != email) ==> r == Step(db, Fail(NotFound)))
      && (r.outcome.Pass? ==>
            r.db.outbox == db.outbox + [Mail(key, email, code)]
            && r.db.records == GenerateAndSaveActivationCode(db, key, email, code, now).db.records)
  {
    if kind == Registration && (exists u :: u in users && u.email == email) {
      assert FindByEmail(users, email).Some?;
    }
    if kind == Login && (forall u :: u in users ==> u.email != email) {
      assert FindByEmail(users, email).None?;
    }
  }

  /** Generation: a key at the mail cap is refused unchanged; otherwise the
      record counts one more mail (or starts at one) and holds a fresh
      activation for this address and code. No mail is sent here. */
  lemma GenerateCases(db: Db, key: string, email: string, code: string, now: int)
    ensures var r := GenerateAndSaveActivationCode(db, key, email, code, now);
      && r.db.outbox == db.outbox
      && (key in db.records && db.records[key].totalSendMailAttempts >= MAX_MAIL_ATTEMPTS ==>
            r == Step(db, Fail(BadRequest(MailLimitReached))))
      && (key in db.records && db.records[key].totalSendMailAttempts < MAX_MAIL_ATTEMPTS ==>
            r.outcome == Pass
            && r.db.records == db.records[key := TotalActivation(db.records[key].totalSendMailAttempts + 1,
                                                                 Some(Activation(email, code, 1, now)))])
      && (key !in db.records ==>
            r.outcome == Pass && r.db.records == db.records[key := TotalActivation(1, Some(Activation(email, code, 1, now)))])
  {
  }

  /** A check succeeds exactly when the pending activation is for this address
      and code, has attempts left and is fresh; success deletes the activation,
      so the same check right after is NotFound. The send total is not
      consulted. */
  lemma CheckActivationSuccess(db: Db, key: string, email: string, code: string, newCode: string, now: int,
                               later: int, newCode2: string)
    ensures var r := CheckActivationCode(db, key, email, code, newCode, now);
      && (r.outcome.Pass? <==>
            && HasActivation(db, key)
            && db.records[key].userActivation.value.email == email
            && db.records[key].userActivation.value.activationCode == code
            && db.records[key].userActivation.value.activationAttempts < MAX_CODE_ATTEMPTS
            && db.records[key].userActivation.value.updatedAt >= now - EXPIRY)
      && (r.outcome.Pass? ==>
            r.db == Put(db, key, db.records[key].(userActivation := None))
            && CheckActivationCode(r.db, key, email, code, newCode2, later) == Step(r.db, Fail(NotFound)))
  {
  }

  /** A missing activation or one for another address is NotFound, unchanged. */
  lemma CheckActivationNotFound(db: Db, key: string, email: string, code: string, newCode: string, now: int)
    requires !HasActivation(db, key) || db.records[key].userActivation.value.email != email
    ensures CheckActivationCode(db, key, email, code, newCode, now) == Step(db, Fail(NotFound))
  {
  }

  /** Used-up code attempts: at the mail cap the call raises with nothing
      changed, below it a new code is mailed; either way the call raises. */
  lemma HandlingLargeAttemptsCases(db: Db, key: string, email: string, newCode: string, now: int)
    requires HasActivation(db, key)
    requires db.records[key].userActivation.value.activationAttempts >= MAX_CODE_ATTEMPTS
    ensures var r := HandlingLargeAttempts(db, key, db.records[key], email, newCode, now);
      && (db.records[key].totalSendMailAttempts >= MAX_MAIL_ATTEMPTS ==> r == Step(db, Fail(BadRequest(MailLimitReached))))
      && (db.records[key].totalSendMailAttempts < MAX_MAIL_ATTEMPTS ==>
            r == Step(UpdateTotalActivationAndSendMail(db, key, email, newCode, now), Fail(BadRequest(NewCodeSent(email)))))
  {
  }

  /** The expiry path mails a new code without consulting the mail cap: a key
      past the cap whose code is older than `EXPIRY` is mailed again, and one
      `EXPIRY` later the same holds of the new state, so a key can be mailed
      any number of codes. */
  lemma ExpiryMailsPastCap(db: Db, key: string, email: string, code: string, newCode: string, now: int, later: int)
    requires HasActivation(db, key) && db.records[key].userActivation.value.email == email
    requires db.records[key].totalSendMailAttempts >= MAX_MAIL_ATTEMPTS
    requires db.records[key].userActivation.value.activationAttempts < MAX_CODE_ATTEMPTS
    requires now - EXPIRY > db.records[key].userActivation.value.updatedAt
    requires later - EXPIRY > now
    ensures var r := CheckActivationCode(db, key, email, code, newCode, now);
      && r.outcome == Fail(BadRequest(CodeExpired(email)))
      && r.db.outbox == db.outbox + [Mail(key, email, newCode)]
      && r.db.records[key].totalSendMailAttempts == db.records[key].totalSendMailAttempts + 1
      && HasActivation(r.db, key) && r.db.records[key].userActivation.value.email == email
      && r.db.records[key].userActivation.value.activationAttempts < MAX_CODE_ATTEMPTS
      && later - EXPIRY > r.db.records[key].userActivation.value.updatedAt
  {
  }
}

/** What the one-time-password engine guarantees: the effect of each handler
    case, the order of the checks, the consumption of a correct code, blocking
    that never lifts, device correlation, and the bound on mails per key over
    any sequence of requests. */
module OtpProps {
  import opened Common
  import opened Helpers
  import opened Fingerprints
  import opened OtpModel

  // ---------------------------------------------------------------------------
  // Handlers

  /** `invalidCode` in each of its cases, for the row as stored. */
  lemma InvalidCodeCases(db: Db, key: string, email: string, otpCode: string, newOtpCode: string, now: int)
    requires key in db.rows
    ensures var info := db.rows[key];
      var r := InvalidCode(db, key, info, email, otpCode, newOtpCode, now);
      && (info.otpCode == Some(otpCode) ==> r == Step(db, Pass))
      && (info.otpCode != Some(otpCode) && info.codeAttempts < MAX_CODE_ATTEMPTS ==>
            r == Step(Put(db, key, info.(codeAttempts := info.codeAttempts + 1, updatedAt := now)),
                      Fail(BadRequest(WrongCode))))
      && (info.otpCode != Some(otpCode) && info.codeAttempts >= MAX_CODE_ATTEMPTS
          && info.mailAttempts == MAX_MAIL_ATTEMPTS - 1 ==>
            r == Step(Put(db, key, info.(mailAttempts := MAX_MAIL_ATTEMPTS, codeAttempts := 1, updatedAt := now)),
                      Fail(BadRequest(MailLimitReached))))
      && (info.otpCode != Some(otpCode) && info.codeAttempts >= MAX_CODE_ATTEMPTS
          && info.mailAttempts != MAX_MAIL_ATTEMPTS - 1 ==>
            && r.outcome == Fail(BadRequest(WrongCodeResent(email)))
            && r.db.rows == db.rows[key := info.(mailAttempts := info.mailAttempts + 1, otpCode := Some(newOtpCode),
                                                  codeAttempts := 1, updatedAt := now)]
            && r.db.outbox == db.outbox + [Mail(key, email, newOtpCode)])
  {
  }

  /** `expiringCode` in each of its cases, for the row as stored. */
  lemma ExpiringCodeCases(db: Db, key: string, email: string, newOtpCode: string, now: int)
    requires key in db.rows
    ensures var info := db.rows[key];
      var r := ExpiringCode(db, key, info, email, newOtpCode, now);
      && (info.updatedAt >= now - HOUR ==> r == Step(db, Pass))
      && (info.updatedAt < now - HOUR && info.mailAttempts == MAX_MAIL_ATTEMPTS - 1 ==>
            r == Step(Put(db, key, info.(mailAttempts := MAX_MAIL_ATTEMPTS, codeAttempts := 1, updatedAt := now)),
                      Fail(BadRequest(MailLimitReached))))
      && (info.updatedAt < now - HOUR && info.mailAttempts != MAX_MAIL_ATTEMPTS - 1 ==>
            && r.outcome == Fail(BadRequest(CodeExpired(email)))
            && r.db.rows == db.rows[key := info.(mailAttempts := info.mailAttempts + 1, otpCode := Some(newOtpCode),
                                                  codeAttempts := 1, updatedAt := now)]
            && r.db.outbox == db.outbox + [Mail(key, email, newOtpCode)])
  {
  }

  // ---------------------------------------------------------------------------
  // generateAndSaveOtpCode and getAndSendOtp

  /** Generating never mails; `getAndSendOtp` mails exactly the generated code
      to the requested address when generation returned, and nothing when it raised. */
  lemma GetAndSendMailsGeneratedCode(db: Db, key: string, email: string, fp: IFingerprint, code: string, now: int)
    ensures var g := GenerateAndSaveOtpCode(db, key, email, fp, code, now);
      var s := GetAndSendOtp(db, key, email, fp, code, now);
      && g.db.outbox == db.outbox
      && s.outcome == g.outcome
      && s.db.rows == g.db.rows
      && (g.outcome.Pass? ==> s.db.outbox == db.outbox + [Mail(key, email, code)] && s.db.rows[key].otpCode == Some(code))
      && (g.outcome.Fail? ==> s.db.outbox == db.outbox)
  {
  }

  /** An unseen key gets a row holding the e-mail, the new code and the device
      hash. The suspicion check then runs on that row: if it fires, the row is
      pushed past the mail cap and the code stays stored but unsent. */
  lemma GenerateForUnseenKey(db: Db, key: string, email: string, fp: IFingerprint, code: string, now: int)
    requires key !in db.rows
    ensures var s := GenerateAndSaveOtpCode(db, key, email, fp, code, now);
      var row := s.db.rows[key];
      && s.db.rows == db.rows[key := row]
      && row.emails == email && row.otpCode == Some(code) && row.fingerprint == fp.hashFingerprint
      && row.codeAttempts == ATTEMPTS_START_VALUE
      && (s.outcome.Pass? <==> !SuspectMatches(db.rows[key := CreatedRow(email, fp, code, now)],
                                               CreatedRow(email, fp, code, now), email, fp.reqHeadersString))
      && (s.outcome.Pass? ==> row.mailAttempts == ATTEMPTS_START_VALUE)
      && (s.outcome.Fail? ==> s.outcome.error == BadRequest(MailLimitReached)
                              && row.mailAttempts == MAX_MAIL_ATTEMPTS + 1)
  {
  }

  /** A known key is refused, in this order: unchanged at or past the mail cap;
      moved to the cap when the request would send the last allowed code;
      unchanged within a minute of the last write. */
  lemma GenerateRefusals(db: Db, key: string, email: string, fp: IFingerprint, code: string, now: int)
    requires key in db.rows
    ensures var info := db.rows[key];
      var s := GenerateAndSaveOtpCode(db, key, email, fp, code, now);
      && (info.mailAttempts >= MAX_MAIL_ATTEMPTS ==> s == Step(db, Fail(BadRequest(MailLimitReached))))
      && (info.mailAttempts == MAX_MAIL_ATTEMPTS - 1 ==>
            s == Step(Put(db, key, info.(mailAttempts := MAX_MAIL_ATTEMPTS, codeAttempts := 1, updatedAt := now)),
                      Fail(BadRequest(MailLimitReached))))
      && (info.mailAttempts < MAX_MAIL_ATTEMPTS - 1 && info.updatedAt > now - MINUTE ==>
            s == Step(db, Fail(BadRequest(TooEarly))))
  {
  }

  /** A resend that passes the three checks stores one more mail attempt, a
      fresh code and reset code attempts, adds the e-mail to the list only if
      it is not already there, and keeps the device hash of the row. */
  lemma GenerateResend(db: Db, key: string, email: string, fp: IFingerprint, code: string, now: int)
    requires key in db.rows
    requires db.rows[key].mailAttempts < MAX_MAIL_ATTEMPTS - 1 && db.rows[key].updatedAt <= now - MINUTE
    ensures var info := db.rows[key];
      var s := GenerateAndSaveOtpCode(db, key, email, fp, code, now);
      var row := s.db.rows[key];
      && s.db.rows == db.rows[key := row]
      && row.otpCode == Some(code) && row.codeAttempts == 1
      && row.fingerprint == info.fingerprint
      && row.emails == (if Contains(info.emails, email) then info.emails else info.emails + " " + email)
      && (s.outcome.Pass? ==> row.mailAttempts == info.mailAttempts + 1)
      && (s.outcome.Fail? ==> row.mailAttempts == MAX_MAIL_ATTEMPTS + 1)
  {
  }

  // ---------------------------------------------------------------------------
  // checkOtpCode

  /** A key without a row, an e-mail the row does not list, or a row without a
      pending code is answered with NotFound and nothing changes. */
  lemma CheckNotFound(db: Db, key: string, email: string, otpCode: string, raw: string, newOtpCode: string, now: int)
    requires key !in db.rows || !Contains(db.rows[key].emails, email) || db.rows[key].otpCode.None?
    ensures CheckOtpCode(db, key, email, otpCode, raw, newOtpCode, now) == Step(db, Fail(NotFound))
  {
  }

  /** The mail cap is checked before the code: a capped row is refused even
      with the right code, and nothing changes. */
  lemma CheckCapBeforeCode(db: Db, key: string, email: string, raw: string, newOtpCode: string, now: int)
    requires key in db.rows && Contains(db.rows[key].emails, email) && db.rows[key].otpCode.Some?
    requires db.rows[key].mailAttempts >= MAX_MAIL_ATTEMPTS
    ensures CheckOtpCode(db, key, email, db.rows[key].otpCode.value, raw, newOtpCode, now)
         == Step(db, Fail(BadRequest(MailLimitReached)))
  {
  }

  /** A check succeeds exactly when the row lists the e-mail and holds this
      code, is below the mail cap, is not correlated with a blocked device, and
      its code is at most an hour old. Success consumes the code and resets the
      code attempts, nothing else, so the same check right after is NotFound. */
  lemma CheckSuccess(db: Db, key: string, email: string, otpCode: string, raw: string, newOtpCode: string, now: int,
                     later: int, newOtpCode2: string)
    ensures var s := CheckOtpCode(db, key, email, otpCode, raw, newOtpCode, now);
      && (s.outcome.Pass? <==>
            && key in db.rows
            && Contains(db.rows[key].emails, email)
            && db.rows[key].otpCode == Some(otpCode)
            && db.rows[key].mailAttempts < MAX_MAIL_ATTEMPTS
            && !(db.rows[key].mailAttempts < SUSPICIOUSNESS_CHECK_LIMIT
                 && SuspectMatches(db.rows, db.rows[key], email, raw))
            && db.rows[key].updatedAt >= now - HOUR)
      && (s.outcome.Pass? ==>
            && s.db == Put(db, key, db.rows[key].(otpCode := None, codeAttempts := 1, updatedAt := now))
            && CheckOtpCode(s.db, key, email, otpCode, raw, newOtpCode2, later) == Step(s.db, Fail(NotFound)))
  {
  }

  /** Three wrong codes in a row lead to a new code being mailed (or to the cap
      when that would be the last allowed mail): the third wrong code finds the
      attempts used up. */
  lemma ThirdWrongCodeRegenerates(db: Db, key: string, email: string, wrong: string, raw: string, newOtpCode: string,
                                  now: int)
    requires key in db.rows && Contains(db.rows[key].emails, email) && db.rows[key].otpCode.Some?
    requires db.rows[key].otpCode != Some(wrong)
    requires db.rows[key].mailAttempts < MAX_MAIL_ATTEMPTS - 1
    requires !(db.rows[key].mailAttempts < SUSPICIOUSNESS_CHECK_LIMIT && SuspectMatches(db.rows, db.rows[key], email, raw))
    requires db.rows[key].updatedAt >= now - HOUR
    ensures var s := CheckOtpCode(db, key, email, wrong, raw, newOtpCode, now);
      && (db.rows[key].codeAttempts < MAX_CODE_ATTEMPTS ==>
            s.outcome == Fail(BadRequest(WrongCode))
            && s.db.rows[key].codeAttempts == db.rows[key].codeAttempts + 1
            && s.db.rows[key].otpCode == db.rows[key].otpCode && s.db.outbox == db.outbox)
      && (db.rows[key].codeAttempts >= MAX_CODE_ATTEMPTS ==>
            s.outcome == Fail(BadRequest(WrongCodeResent(email)))
            && s.db.rows[key].codeAttempts == 1 && s.db.rows[key].otpCode == Some(newOtpCode)
            && s.db.outbox == db.outbox + [Mail(key, email, newOtpCode)])
  {
    InvalidCodeCases(db, key, email, wrong, newOtpCode, now);
  }

  // ---------------------------------------------------------------------------
  // Blocking

  /** No operation ever lowers a row's mail attempts or removes a row, and each
      touches at most the row of its own key. */
  lemma MailAttemptsNeverDecrease(db: Db, key: string, email: string, fp: IFingerprint, otpCode: string, raw: string,
                                  newOtpCode: string, now: int, k: string)
    requires k in db.rows
    ensures var s := GetAndSendOtp(db, key, email, fp, newOtpCode, now);
      k in s.db.rows && s.db.rows[k].mailAttempts >= db.rows[k].mailAttempts
      && (k != key ==> s.db.rows[k] == db.rows[k])
    ensures var s := CheckOtpCode(db, key, email, otpCode, raw, newOtpCode, now);
      k in s.db.rows && s.db.rows[k].mailAttempts >= db.rows[k].mailAttempts
      && (k != key ==> s.db.rows[k] == db.rows[k])
  {
  }

  /** A key at the mail cap is refused by every operation and nothing changes;
      since no operation lowers the count, it stays refused. */
  lemma BlockedStaysBlocked(db: Db, key: string, email: string, fp: IFingerprint, otpCode: string, raw: string,
                            newOtpCode: string, now: int)
    requires key in db.rows && db.rows[key].mailAttempts >= MAX_MAIL_ATTEMPTS
    ensures GetAndSendOtp(db, key, email, fp, newOtpCode, now) == Step(db, Fail(BadRequest(MailLimitReached)))
    ensures var s := CheckOtpCode(db, key, email, otpCode, raw, newOtpCode, now);
      s.db == db && s.outcome.Fail? && s.outcome.error in {NotFound, BadRequest(MailLimitReached)}
  {
  }

  /** A device that exhausted the cap under one key, asking for a code under a
      new key for an address that key had used, is blocked at once: the new row
      is created past the cap and no mail is sent. */
  lemma BlockedDeviceBlockedOnNewKey(db: Db, blocked: string, key: string, email: string, headers: Headers, salt: nat,
                                     code: string, now: int)
    requires blocked in db.rows && key !in db.rows
    requires db.rows[blocked].mailAttempts >= MAX_MAIL_ATTEMPTS
    requires Contains(db.rows[blocked].emails, email)
    requires Compare(ReqHeadersString(headers), db.rows[blocked].fingerprint)
    ensures var s := GetAndSendOtp(db, key, email, FingerprintOf(headers, salt), code, now);
      && s.outcome == Fail(BadRequest(MailLimitReached))
      && s.db.outbox == db.outbox
      && s.db.rows[key].mailAttempts == MAX_MAIL_ATTEMPTS + 1
  {
    var fp := FingerprintOf(headers, salt);
    var row := CreatedRow(email, fp, code, now);
    assert blocked in db.rows[key := row];
  }

  /** The e-mail filter of the suspicion query applies only to a row's first
      attempt: on the next request a key is blocked by any capped row of the
      same device, whatever addresses that row had used. */
  lemma SuspicionWidensAfterFirstAttempt(db: Db, blocked: string, key: string, email: string, fp: IFingerprint,
                                         code: string, now: int)
    requires blocked in db.rows && key in db.rows && blocked != key
    requires db.rows[key].mailAttempts == ATTEMPTS_START_VALUE && db.rows[key].updatedAt <= now - MINUTE
    requires db.rows[blocked].mailAttempts >= MAX_MAIL_ATTEMPTS
    requires Compare(fp.reqHeadersString, db.rows[blocked].fingerprint)
    ensures var s := GetAndSendOtp(db, key, email, fp, code, now);
      s.outcome == Fail(BadRequest(MailLimitReached)) && s.db.outbox == db.outbox
  {
    var row := ResentRow(db.rows[key], email, code, now);
    assert blocked in db.rows[key := row] && db.rows[key := row][blocked] == db.rows[blocked];
  }

  // ---------------------------------------------------------------------------
  // At most MAX_MAIL_ATTEMPTS - 1 code mails per key

  /** The number of mails sent on behalf of `key`. */
  function MailsFor(outbox: seq<Mail>, key: string): nat
  {
    if |outbox| == 0 then 0
    else MailsFor(outbox[..|outbox| - 1], key) + (if outbox[|outbox| - 1].userKey == key then 1 else 0)
  }

  lemma MailsForAppend(outbox: seq<Mail>, m: Mail, key: string)
    ensures MailsFor(outbox + [m], key) == MailsFor(outbox, key) + (if m.userKey == key then 1 else 0)
  {
    assert (outbox + [m])[..|outbox|] == outbox;
  }

  const MAX_CODE_MAILS: int := MAX_MAIL_ATTEMPTS - ATTEMPTS_INCREMENT_VALUE

  predicate RowInRange(row: OtpInfo)
  {
    && ATTEMPTS_START_VALUE <= row.mailAttempts <= MAX_MAIL_ATTEMPTS + ATTEMPTS_INCREMENT_VALUE
    && ATTEMPTS_START_VALUE <= row.codeAttempts <= MAX_CODE_ATTEMPTS
  }

  /** Counters stay within their ranges, a key has been mailed at most as many
      codes as its mail attempts and never more than `MAX_CODE_MAILS`, and a
      key without a row has been mailed nothing. */
  ghost predicate Inv(db: Db)
  {
    && (forall k :: k in db.rows ==>
          RowInRange(db.rows[k]) && MailsFor(db.outbox, k) <= db.rows[k].mailAttempts
          && MailsFor(db.outbox, k) <= MAX_CODE_MAILS)
    && (forall k :: k !in db.rows ==> MailsFor(db.outbox, k) == 0)
  }

  lemma InvPut(db: Db, key: string, row: OtpInfo)
    requires Inv(db) && RowInRange(row)
    requires MailsFor(db.outbox, key) <= row.mailAttempts
    ensures Inv(Put(db, key, row))
  {
    var after := Put(db, key, row);
    forall k | k in after.rows
      ensures MailsFor(after.outbox, k) <= after.rows[k].mailAttempts && MailsFor(after.outbox, k) <= MAX_CODE_MAILS
    {
      if k != key {
        assert k in db.rows;
      } else if key !in db.rows {
        assert MailsFor(db.outbox, key) == 0;
      }
    }
  }

  /** Mailing a code for a key whose mail attempts already count that mail. */
  lemma InvMail(db: Db, m: Mail)
    requires Inv(db) && m.userKey in db.rows
    requires MailsFor(db.outbox, m.userKey) < db.rows[m.userKey].mailAttempts
    requires MailsFor(db.outbox, m.userKey) < MAX_CODE_MAILS
    ensures Inv(db.(outbox := db.outbox + [m]))
  {
    forall k
      ensures MailsFor(db.outbox + [m], k) == MailsFor(db.outbox, k) + (if m.userKey == k then 1 else 0)
    {
      MailsForAppend(db.outbox, m, k);
    }
  }

  lemma UpdateAndSendKeepsInv(db: Db, key: string, email: string, newOtpCode: string, now: int)
    requires Inv(db) && key in db.rows && db.rows[key].mailAttempts < MAX_MAIL_ATTEMPTS - 1
    ensures Inv(UpdateOtpInfoAndSendMail(db, key, email, newOtpCode, now))
  {
    var stored := db.rows[key];
    var row := stored.(mailAttempts := stored.mailAttempts + ATTEMPTS_INCREMENT_VALUE, otpCode := Some(newOtpCode),
                       codeAttempts := ATTEMPTS_START_VALUE, updatedAt := now);
    InvPut(db, key, row);
    InvMail(Put(db, key, row), Mail(key, email, newOtpCode));
  }

  lemma LastMailKeepsInv(db: Db, key: string, now: int)
    requires Inv(db) && key in db.rows
    ensures Inv(LastMailAttempts(db, key, db.rows[key], now).db)
  {
    var info := db.rows[key];
    if info.mailAttempts == MAX_MAIL_ATTEMPTS - ATTEMPTS_INCREMENT_VALUE {
      InvPut(db, key, info.(mailAttempts := info.mailAttempts + ATTEMPTS_INCREMENT_VALUE,
                            codeAttempts := ATTEMPTS_START_VALUE, updatedAt := now));
    }
  }

  lemma SuspicionKeepsInv(db: Db, key: string, email: string, raw: string, now: int)
    requires Inv(db) && key in db.rows
    ensures Inv(BlockSuspicionUser(db, key, db.rows[key], email, raw, now).db)
  {
    var info := db.rows[key];
    if info.mailAttempts < SUSPICIOUSNESS_CHECK_LIMIT && SuspectMatches(db.rows, info, email, raw) {
      InvPut(db, key, info.(mailAttempts := MAX_MAIL_ATTEMPTS + ATTEMPTS_INCREMENT_VALUE, updatedAt := now));
    }
  }

  /** Generation keeps the invariant and, when it returns, leaves room for the
      mail `getAndSendOtp` then sends. */
  lemma GenerateKeepsInv(db: Db, key: string, email: string, fp: IFingerprint, code: string, now: int)
    requires Inv(db)
    ensures var s := GenerateAndSaveOtpCode(db, key, email, fp, code, now);
      && Inv(s.db)
      && (s.outcome.Pass? ==> key in s.db.rows && MailsFor(s.db.outbox, key) < s.db.rows[key].mailAttempts
                              && MailsFor(s.db.outbox, key) < MAX_CODE_MAILS)
  {
    if key in db.rows {
      var info := db.rows[key];
      if info.mailAttempts < MAX_MAIL_ATTEMPTS {
        LastMailKeepsInv(db, key, now);
        if info.mailAttempts != MAX_MAIL_ATTEMPTS - ATTEMPTS_INCREMENT_VALUE
           && BlockNewMessageBeforeOneMinute(info, now).Pass? {
          var row := ResentRow(info, email, code, now);
          InvPut(db, key, row);
          SuspicionKeepsInv(Put(db, key, row), key, email, fp.reqHeadersString, now);
        }
      }
    } else {
      var row := CreatedRow(email, fp, code, now);
      InvPut(db, key, row);
      SuspicionKeepsInv(Put(db, key, row), key, email, fp.reqHeadersString, now);
    }
  }

  lemma GetAndSendKeepsInv(db: Db, key: string, email: string, fp: IFingerprint, code: string, now: int)
    requires Inv(db)
    ensures Inv(GetAndSendOtp(db, key, email, fp, code, now).db)
  {
    GenerateKeepsInv(db, key, email, fp, code, now);
    var g := GenerateAndSaveOtpCode(db, key, email, fp, code, now);
    if g.outcome.Pass? {
      InvMail(g.db, Mail(key, email, code));
    }
  }

  lemma ExpiringKeepsInv(db: Db, key: string, email: string, newOtpCode: string, now: int)
    requires Inv(db) && key in db.rows && db.rows[key].mailAttempts < MAX_MAIL_ATTEMPTS
    ensures Inv(ExpiringCode(db, key, db.rows[key], email, newOtpCode, now).db)
  {
    LastMailKeepsInv(db, key, now);
    if db.rows[key].mailAttempts != MAX_MAIL_ATTEMPTS - ATTEMPTS_INCREMENT_VALUE {
      UpdateAndSendKeepsInv(db, key, email, newOtpCode, now);
    }
  }

  lemma InvalidKeepsInv(db: Db, key: string, email: string, otpCode: string, newOtpCode: string, now: int)
    requires Inv(db) && key in db.rows && db.rows[key].mailAttempts < MAX_MAIL_ATTEMPTS
    ensures Inv(InvalidCode(db, key, db.rows[key], email, otpCode, newOtpCode, now).db)
  {
    var info := db.rows[key];
    LastMailKeepsInv(db, key, now);
    if info.mailAttempts != MAX_MAIL_ATTEMPTS - ATTEMPTS_INCREMENT_VALUE {
      UpdateAndSendKeepsInv(db, key, email, newOtpCode, now);
    }
    if info.codeAttempts < MAX_CODE_ATTEMPTS {
      InvPut(db, key, info.(codeAttempts := info.codeAttempts + ATTEMPTS_INCREMENT_VALUE, updatedAt := now));
    }
  }

  lemma CheckKeepsInv(db: Db, key: string, email: string, otpCode: string, raw: string, newOtpCode: string, now: int)
    requires Inv(db)
    ensures Inv(CheckOtpCode(db, key, email, otpCode, raw, newOtpCode, now).db)
  {
    if key in db.rows && Contains(db.rows[key].emails, email) && db.rows[key].otpCode.Some? {
      var info := db.rows[key];
      if info.mailAttempts < MAX_MAIL_ATTEMPTS {
        SuspicionKeepsInv(db, key, email, raw, now);
        ExpiringKeepsInv(db, key, email, newOtpCode, now);
        InvalidKeepsInv(db, key, email, otpCode, newOtpCode, now);
        InvPut(db, key, info.(otpCode := None, codeAttempts := ATTEMPTS_START_VALUE, updatedAt := now));
      }
    }
  }

  /** A request to the engine: ask for a code, or check one. */
  datatype Request =
    | SendCode(key: string, email: string, fingerprint: IFingerprint, newOtpCode: string, now: int)
    | CheckCode(key: string, email: string, otpCode: string, raw: string, newOtpCode: string, now: int)

  function Handle(db: Db, req: Request): Db
  {
    match req
    case SendCode(key, email, fp, code, now) => GetAndSendOtp(db, key, email, fp, code, now).db
    case CheckCode(key, email, otpCode, raw, code, now) => CheckOtpCode(db, key, email, otpCode, raw, code, now).db
  }

  /** The state after serving the requests in order, whether each returned or raised. */
  function Run(db: Db, reqs: seq<Request>): Db
    decreases |reqs|
  {
    if |reqs| == 0 then db else Run(Handle(db, reqs[0]), reqs[1..])
  }

  lemma {:induction false} RunKeepsInv(db: Db, reqs: seq<Request>)
    requires Inv(db)
    ensures Inv(Run(db, reqs))
    decreases |reqs|
  {
    if |reqs| > 0 {
      match reqs[0] {
        case SendCode(key, email, fp, code, now) => GetAndSendKeepsInv(db, key, email, fp, code, now);
        case CheckCode(key, email, otpCode, raw, code, now) => CheckKeepsInv(db, key, email, otpCode, raw, code, now);
      }
      RunKeepsInv(Handle(db, reqs[0]), reqs[1..]);
    }
  }

  /** Whatever requests arrive, starting from an empty table no key is ever
      mailed more than `MAX_MAIL_ATTEMPTS - 1` codes, and the counters stay
      within their ranges. */
  lemma AtMostFourCodeMailsPerKey(reqs: seq<Request>, key: string)
    ensures MailsFor(Run(Db(map[], []), reqs).outbox, key) <= MAX_MAIL_ATTEMPTS - 1
    ensures key in Run(Db(map[], []), reqs).rows ==> RowInRange(Run(Db(map[], []), reqs).rows[key])
  {
    RunKeepsInv(Db(map[], []), reqs);
  }
}

/** The one-time-password services over a mutable table: the `otpInfo` rows
    and the mails handed to the mail service. Every method is proved to leave
    the table, and to return, exactly as the matching function of `OtpModel`
    says, so the properties proved in `OtpProps` hold of these methods. */
module Otps {
  import opened Common
  import opened Helpers
  import opened Fingerprints
  import opened OtpModel

  /** The `otpInfo` table keyed by `userKey`, and the mails sent so far. */
  class OtpTable {
    var rows: map<string, OtpInfo>
    var outbox: seq<Mail>

    constructor ()
      ensures rows == map[] && outbox == []
    {
      rows := map[];
      outbox := [];
    }

    function State(): Db
      reads this
    {
      OtpModel.Db(rows, outbox)
    }
  }

  // ---------------------------------------------------------------------------
  // Handlers

  /** `blockSuspicionUser`: the capped rows the query selects are compared one
      by one with the device; on any match this row is pushed past the cap. */
  method BlockSuspicionUser(table: OtpTable, key: string, info: OtpInfo, email: string, raw: string, now: int)
    returns (outcome: Outcome)
    requires key in table.rows
    modifies table
    ensures Step(table.State(), outcome) == OtpModel.BlockSuspicionUser(old(table.State()), key, info, email, raw, now)
  {
    if info.mailAttempts < SUSPICIOUSNESS_CHECK_LIMIT {
      var candidates := set k | k in table.rows && IsSuspect(table.rows[k], info, email);
      var unchecked := candidates;
      ghost var checked: set<string> := {};
      var anyMatch := false;
      while unchecked != {}
        invariant unchecked <= candidates && checked == candidates - unchecked
        invariant anyMatch <==> exists k :: k in checked && Compare(raw, table.rows[k].fingerprint)
        decreases |unchecked|
      {
        var k :| k in unchecked;
        anyMatch := anyMatch || Compare(raw, table.rows[k].fingerprint);
        unchecked := unchecked - {k};
        checked := checked + {k};
      }
      assert anyMatch <==> SuspectMatches(table.rows, info, email, raw);
      if anyMatch {
        table.rows := table.rows[key := table.rows[key].(mailAttempts := MAX_MAIL_ATTEMPTS + ATTEMPTS_INCREMENT_VALUE,
                                                         updatedAt := now)];
        return Fail(BadRequest(MailLimitReached));
      }
    }
    return Pass;
  }

  /** `lastMailAttempts`. */
  method LastMailAttempts(table: OtpTable, key: string, info: OtpInfo, now: int) returns (outcome: Outcome)
    requires key in table.rows
    modifies table
    ensures Step(table.State(), outcome) == OtpModel.LastMailAttempts(old(table.State()), key, info, now)
  {
    if info.mailAttempts == MAX_MAIL_ATTEMPTS - ATTEMPTS_INCREMENT_VALUE {
      var stored := table.rows[key];
      table.rows := table.rows[key := stored.(mailAttempts := stored.mailAttempts + ATTEMPTS_INCREMENT_VALUE,
                                              codeAttempts := ATTEMPTS_START_VALUE, updatedAt := now)];
      return Fail(BadRequest(MailLimitReached));
    }
    return Pass;
  }

  /** `updateOtpInfoAndSendMail`. */
  method UpdateOtpInfoAndSendMail(table: OtpTable, key: string, email: string, newOtpCode: string, now: int)
    requires key in table.rows
    modifies table
    ensures table.State() == OtpModel.UpdateOtpInfoAndSendMail(old(table.State()), key, email, newOtpCode, now)
  {
    var stored := table.rows[key];
    table.rows := table.rows[key := stored.(mailAttempts := stored.mailAttempts + ATTEMPTS_INCREMENT_VALUE,
                                            otpCode := Some(newOtpCode), codeAttempts := ATTEMPTS_START_VALUE,
                                            updatedAt := now)];
    table.outbox := table.outbox + [Mail(key, email, newOtpCode)];
  }

  /** `expiringCode`. */
  method ExpiringCode(table: OtpTable, key: string, info: OtpInfo, email: string, newOtpCode: string, now: int)
    returns (outcome: Outcome)
    requires key in table.rows
    modifies table
    ensures Step(table.State(), outcome) == OtpModel.ExpiringCode(old(table.State()), key, info, email, newOtpCode, now)
  {
    if now - NUMBER_HOURS_EXPIRE_CODE * HOUR > info.updatedAt {
      outcome := LastMailAttempts(table, key, info, now);
      if outcome.Fail? {
        return;
      }
      UpdateOtpInfoAndSendMail(table, key, email, newOtpCode, now);
      return Fail(BadRequest(CodeExpired(email)));
    }
    return Pass;
  }

  /** `lastCodeAttempts`. */
  method LastCodeAttempts(table: OtpTable, key: string, info: OtpInfo, email: string, newOtpCode: string, now: int)
    returns (outcome: Outcome)
    requires key in table.rows
    modifies table
    ensures Step(table.State(), outcome) == OtpModel.LastCodeAttempts(old(table.State()), key, info, email, newOtpCode, now)
  {
    if info.codeAttempts >= MAX_CODE_ATTEMPTS {
      outcome := LastMailAttempts(table, key, info, now);
      if outcome.Fail? {
        return;
      }
      UpdateOtpInfoAndSendMail(table, key, email, newOtpCode, now);
      return Fail(BadRequest(WrongCodeResent(email)));
    }
    return Pass;
  }

  /** `invalidCode`. */
  method InvalidCode(table: OtpTable, key: string, info: OtpInfo, email: string, otpCode: string, newOtpCode: string,
                     now: int)
    returns (outcome: Outcome)
    requires key in table.rows
    modifies table
    ensures Step(table.State(), outcome)
         == OtpModel.InvalidCode(old(table.State()), key, info, email, otpCode, newOtpCode, now)
  {
    if info.otpCode != Some(otpCode) {
      outcome := LastCodeAttempts(table, key, info, email, newOtpCode, now);
      if outcome.Fail? {
        return;
      }
      var stored := table.rows[key];
      table.rows := table.rows[key := stored.(codeAttempts := stored.codeAttempts + ATTEMPTS_INCREMENT_VALUE,
                                              updatedAt := now)];
      return Fail(BadRequest(WrongCode));
    }
    return Pass;
  }

  // ---------------------------------------------------------------------------
  // Base operations

  /** `checkOtpCode`. */
  method CheckOtpCode(table: OtpTable, key: string, email: string, otpCode: string, raw: string, newOtpCode: string,
                      now: int)
    returns (outcome: Outcome)
    modifies table
    ensures Step(table.State(), outcome) == OtpModel.CheckOtpCode(old(table.State()), key, email, otpCode, raw, newOtpCode, now)
  {
    if key !in table.rows || !Contains(table.rows[key].emails, email) || table.rows[key].otpCode.None? {
      return Fail(NotFound);
    }
    var info := table.rows[key];
    outcome := LargeMailAttempts(info);
    if outcome.Fail? {
      return;
    }
    outcome := BlockSuspicionUser(table, key, info, email, raw, now);
    if outcome.Fail? {
      return;
    }
    outcome := ExpiringCode(table, key, info, email, newOtpCode, now);
    if outcome.Fail? {
      return;
    }
    outcome := InvalidCode(table, key, info, email, otpCode, newOtpCode, now);
    if outcome.Fail? {
      return;
    }
    table.rows := table.rows[key := info.(otpCode := None, codeAttempts := ATTEMPTS_START_VALUE, updatedAt := now)];
  }

  /** `generateAndSaveOtpCode`. */
  method GenerateAndSaveOtpCode(table: OtpTable, key: string, email: string, fingerprint: IFingerprint,
                                newOtpCode: string, now: int)
    returns (outcome: Outcome)
    modifies table
    ensures Step(table.State(), outcome)
         == OtpModel.GenerateAndSaveOtpCode(old(table.State()), key, email, fingerprint, newOtpCode, now)
  {
    var row;
    if key in table.rows {
      var info := table.rows[key];
      outcome := LargeMailAttempts(info);
      if outcome.Fail? {
        return;
      }
      outcome := LastMailAttempts(table, key, info, now);
      if outcome.Fail? {
        return;
      }
      outcome := BlockNewMessageBeforeOneMinute(info, now);
      if outcome.Fail? {
        return;
      }
      row := ResentRow(info, email, newOtpCode, now);
    } else {
      row := CreatedRow(email, fingerprint, newOtpCode, now);
    }
    table.rows := table.rows[key := row];
    outcome := BlockSuspicionUser(table, key, row, email, fingerprint.reqHeadersString, now);
  }

  /** `getAndSendOtp`. */
  method GetAndSendOtp(table: OtpTable, key: string, email: string, fingerprint: IFingerprint, newOtpCode: string,
                       now: int)
    returns (outcome: Outcome)
    modifies table
    ensures Step(table.State(), outcome) == OtpModel.GetAndSendOtp(old(table.State()), key, email, fingerprint, newOtpCode, now)
  {
    outcome := GenerateAndSaveOtpCode(table, key, email, fingerprint, newOtpCode, now);
    if outcome.Fail? {
      return;
    }
    table.outbox := table.outbox + [Mail(key, email, newOtpCode)];
  }
}

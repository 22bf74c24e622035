/** The handler set of the older activation engine over a mutable table of
    `userActivation` rows; each method is proved to act as the matching
    function of `ActivationHandlerModel`. */
module ActivationHandlers {
  import opened Common
  import opened ActivationHandlerModel

  class UserActivationTable {
    var rows: map<nat, UserActivation>
    var outbox: seq<ActivationMail>

    constructor ()
      ensures rows == map[] && outbox == []
    {
      rows := map[];
      outbox := [];
    }

    function State(): Db
      reads this
    {
      ActivationHandlerModel.Db(rows, outbox)
    }
  }

  /** `blockSuspicionUser`: the capped rows the query selects are compared one
      by one with the device. */
  method BlockSuspicionUser(table: UserActivationTable, id: nat, ua: UserActivation, email: string, raw: string, now: int)
    returns (outcome: Outcome)
    requires id in table.rows
    modifies table
    ensures Step(table.State(), outcome)
         == ActivationHandlerModel.BlockSuspicionUser(old(table.State()), id, ua, email, raw, now)
  {
    if ua.mailAttempts < SUSPICIOUSNESS_CHECK_LIMIT {
      var candidates := set o | o in table.rows && IsSuspect(table.rows[o], ua, email);
      var unchecked := candidates;
      ghost var checked: set<nat> := {};
      var anyMatch := false;
      while unchecked != {}
        invariant unchecked <= candidates && checked == candidates - unchecked
        invariant anyMatch <==> exists o :: o in checked && Compare(raw, table.rows[o].fingerprint)
        decreases |unchecked|
      {
        var o :| o in unchecked;
        anyMatch := anyMatch || Compare(raw, table.rows[o].fingerprint);
        unchecked := unchecked - {o};
        checked := checked + {o};
      }
      assert anyMatch <==> SuspectMatches(table.rows, ua, email, raw);
      if anyMatch {
        table.rows := table.rows[id := table.rows[id].(mailAttempts := MAX_MAIL_ATTEMPTS + ATTEMPTS_INCREMENT_VALUE,
                                                       updatedAt := now)];
        return Fail(BadRequest(MailLimitReached));
      }
    }
    return Pass;
  }

  /** `lastMailAttempts`. */
  method LastMailAttempts(table: UserActivationTable, id: nat, ua: UserActivation, now: int) returns (outcome: Outcome)
    requires id in table.rows
    modifies table
    ensures Step(table.State(), outcome) == ActivationHandlerModel.LastMailAttempts(old(table.State()), id, ua, now)
  {
    if ua.mailAttempts == MAX_MAIL_ATTEMPTS - ATTEMPTS_INCREMENT_VALUE {
      var stored := table.rows[id];
      table.rows := table.rows[id := stored.(mailAttempts := stored.mailAttempts + ATTEMPTS_INCREMENT_VALUE,
                                             codeAttempts := ATTEMPTS_START_VALUE, updatedAt := now)];
      return Fail(BadRequest(MailLimitReached));
    }
    return Pass;
  }

  /** `updateUserActivationAndSendMail`. */
  method UpdateUserActivationAndSendMail(table: UserActivationTable, id: nat, email: string, newActivationCode: string,
                                         now: int)
    requires id in table.rows
    modifies table
    ensures table.State()
         == ActivationHandlerModel.UpdateUserActivationAndSendMail(old(table.State()), id, email, newActivationCode, now)
  {
    var stored := table.rows[id];
    table.rows := table.rows[id := stored.(mailAttempts := stored.mailAttempts + ATTEMPTS_INCREMENT_VALUE,
                                           activationCode := newActivationCode, codeAttempts := ATTEMPTS_START_VALUE,
                                           updatedAt := now)];
    table.outbox := table.outbox + [ActivationMail(email, newActivationCode)];
  }

  /** `expiringCode`, with the expiry threshold computed by the caller. */
  method ExpiringCode(table: UserActivationTable, id: nat, ua: UserActivation, email: string, newActivationCode: string,
                      now: int, cutoff: int)
    returns (outcome: Outcome)
    requires id in table.rows
    modifies table
    ensures Step(table.State(), outcome)
         == ActivationHandlerModel.ExpiringCode(old(table.State()), id, ua, email, newActivationCode, now, cutoff)
  {
    if cutoff > ua.updatedAt {
      outcome := LastMailAttempts(table, id, ua, now);
      if outcome.Fail? {
        return;
      }
      UpdateUserActivationAndSendMail(table, id, email, newActivationCode, now);
      return Fail(BadRequest(CodeExpired(email)));
    }
    return Pass;
  }

  /** `lastCodeAttempts`. */
  method LastCodeAttempts(table: UserActivationTable, id: nat, ua: UserActivation, email: string,
                          newActivationCode: string, now: int)
    returns (outcome: Outcome)
    requires id in table.rows
    modifies table
    ensures Step(table.State(), outcome)
         == ActivationHandlerModel.LastCodeAttempts(old(table.State()), id, ua, email, newActivationCode, now)
  {
    if ua.codeAttempts >= MAX_CODE_ATTEMPTS {
      outcome := LastMailAttempts(table, id, ua, now);
      if outcome.Fail? {
        return;
      }
      UpdateUserActivationAndSendMail(table, id, email, newActivationCode, now);
      return Fail(BadRequest(WrongCodeResent(email)));
    }
    return Pass;
  }

  /** `invalidCode`. */
  method InvalidCode(table: UserActivationTable, id: nat, ua: UserActivation, email: string, activationCode: string,
                     newActivationCode: string, now: int)
    returns (outcome: Outcome)
    requires id in table.rows
    modifies table
    ensures Step(table.State(), outcome)
         == ActivationHandlerModel.InvalidCode(old(table.State()), id, ua, email, activationCode, newActivationCode, now)
  {
    if ua.activationCode != activationCode {
      outcome := LastCodeAttempts(table, id, ua, email, newActivationCode, now);
      if outcome.Fail? {
        return;
      }
      var stored := table.rows[id];
      table.rows := table.rows[id := stored.(codeAttempts := stored.codeAttempts + ATTEMPTS_INCREMENT_VALUE,
                                             updatedAt := now)];
      return Fail(BadRequest(WrongCode));
    }
    return Pass;
  }
}

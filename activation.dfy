/** The activation service of the first authentication module over a mutable
    table of `totalActivationAttempts` records; each method is proved to act
    as the matching function of `ActivationModel`. */
module Activation {
  import opened Common
  import opened Users
  import opened ActivationModel

  class TotalActivationTable {
    var records: map<string, TotalActivation>
    var outbox: seq<Mail>

    constructor ()
      ensures records == map[] && outbox == []
    {
      records := map[];
      outbox := [];
    }

    function State(): Db
      reads this
    {
      ActivationModel.Db(records, outbox)
    }
  }

  /** `updateTotalActivationAndSendMail`. */
  method UpdateTotalActivationAndSendMail(table: TotalActivationTable, key: string, email: string,
                                          newActivationCode: string, now: int)
    requires HasActivation(table.State(), key)
    modifies table
    ensures table.State()
         == ActivationModel.UpdateTotalActivationAndSendMail(old(table.State()), key, email, newActivationCode, now)
  {
    var t := table.records[key];
    var ua := t.userActivation.value;
    table.records := table.records[key := TotalActivation(t.totalSendMailAttempts + 1,
                                                          Some(ua.(activationCode := newActivationCode,
                                                                   activationAttempts := ATTEMPTS_START_VALUE,
                                                                   updatedAt := now)))];
    table.outbox := table.outbox + [Mail(key, email, newActivationCode)];
  }

  /** `handlingLargeAttempts`. */
  method HandlingLargeAttempts(table: TotalActivationTable, key: string, t: TotalActivation, email: string,
                               newActivationCode: string, now: int)
    returns (outcome: Outcome)
    requires HasActivation(table.State(), key) && t.userActivation.Some?
    modifies table
    ensures Step(table.State(), outcome)
         == ActivationModel.HandlingLargeAttempts(old(table.State()), key, t, email, newActivationCode, now)
  {
    if t.userActivation.value.activationAttempts >= MAX_CODE_ATTEMPTS {
      outcome := CheckMaxMailSend(t);
      if outcome.Fail? {
        return;
      }
      UpdateTotalActivationAndSendMail(table, key, email, newActivationCode, now);
      return Fail(BadRequest(NewCodeSent(email)));
    }
    return Pass;
  }

  /** `codeExpiredCheck`. */
  method CodeExpiredCheck(table: TotalActivationTable, key: string, t: TotalActivation, email: string,
                          newActivationCode: string, now: int)
    returns (outcome: Outcome)
    requires HasActivation(table.State(), key) && t.userActivation.Some?
    modifies table
    ensures Step(table.State(), outcome)
         == ActivationModel.CodeExpiredCheck(old(table.State()), key, t, email, newActivationCode, now)
  {
    if now - EXPIRY > t.userActivation.value.updatedAt {
      outcome := HandlingLargeAttempts(table, key, t, email, newActivationCode, now);
      if outcome.Fail? {
        return;
      }
      UpdateTotalActivationAndSendMail(table, key, email, newActivationCode, now);
      return Fail(BadRequest(CodeExpired(email)));
    }
    return Pass;
  }

  /** `checkActivationCode`. */
  method CheckActivationCode(table: TotalActivationTable, key: string, email: string, activationCode: string,
                             newActivationCode: string, now: int)
    returns (outcome: Outcome)
    modifies table
    ensures Step(table.State(), outcome)
         == ActivationModel.CheckActivationCode(old(table.State()), key, email, activationCode, newActivationCode, now)
  {
    if key !in table.records || table.records[key].userActivation.None?
       || table.records[key].userActivation.value.email != email {
      return Fail(NotFound);
    }
    var t := table.records[key];
    var ua := t.userActivation.value;
    outcome := HandlingLargeAttempts(table, key, t, email, newActivationCode, now);
    if outcome.Fail? {
      return;
    }
    outcome := CodeExpiredCheck(table, key, t, email, newActivationCode, now);
    if outcome.Fail? {
      return;
    }
    if ua.activationCode != activationCode {
      table.records := table.records[key := t.(userActivation := Some(ua.(activationAttempts := ua.activationAttempts + 1,
                                                                          updatedAt := now)))];
      return Fail(BadRequest(WrongCode));
    }
    table.records := table.records[key := t.(userActivation := None)];
  }

  /** `generateAndSaveActivationCode`; the code is an input. */
  method GenerateAndSaveActivationCode(table: TotalActivationTable, key: string, email: string, activationCode: string,
                                       now: int)
    returns (outcome: Outcome)
    modifies table
    ensures Step(table.State(), outcome)
         == ActivationModel.GenerateAndSaveActivationCode(old(table.State()), key, email, activationCode, now)
  {
    if key in table.records {
      var t := table.records[key];
      outcome := CheckMaxMailSend(t);
      if outcome.Fail? {
        return;
      }
      table.records := table.records[key := TotalActivation(t.totalSendMailAttempts + 1,
                                                            Some(FreshActivation(email, activationCode, now)))];
    } else {
      table.records := table.records[key := TotalActivation(ATTEMPTS_START_VALUE,
                                                            Some(FreshActivation(email, activationCode, now)))];
    }
    return Pass;
  }

  /** `checkMail`. */
  method CheckMail(table: TotalActivationTable, users: seq<User>, key: string, email: string, kind: CheckType,
                   activationCode: string, now: int)
    returns (outcome: Outcome)
    modifies table
    ensures Step(table.State(), outcome)
         == ActivationModel.CheckMail(old(table.State()), users, key, email, kind, activationCode, now)
  {
    if kind == Registration && FindByEmail(users, email).Some? {
      return Fail(Conflict);
    }
    if kind == Login && FindByEmail(users, email).None? {
      return Fail(NotFound);
    }
    outcome := GenerateAndSaveActivationCode(table, key, email, activationCode, now);
    if outcome.Fail? {
      return;
    }
    table.outbox := table.outbox + [Mail(key, email, activationCode)];
  }
}

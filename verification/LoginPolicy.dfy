/** Login lockout: auth-policy.service.ts and login.service.ts over the log of login-log.repository.ts. */
module LoginPolicy {
  import opened Callers
  import opened Common

  datatype LogRow = LogRow(userId: Option<string>, target: string, success: bool, ip: string, createdAt: int, failReason: string)

  function FailuresSince(rows: seq<LogRow>, k: Key, since: int): nat {
    if rows == [] then 0
    else
      var n := |rows| - 1;
      var r := rows[n];
      FailuresSince(rows[..n], k, since)
      + if Concerns(k, r.target, r.ip) && !r.success && r.createdAt >= since then 1 else 0
  }

  predicate FailedSince(r: LogRow, since: int) {
    !r.success && r.createdAt >= since
  }

  function FailedRows(rows: seq<LogRow>, k: Key, since: int): set<int> {
    set i | 0 <= i < |rows| && Concerns(k, rows[i].target, rows[i].ip) && FailedSince(rows[i], since)
  }

  /** The count is the number of rows that concern the key and failed since. */
  lemma {:induction false} FailuresAreRows(rows: seq<LogRow>, k: Key, since: int)
    ensures FailuresSince(rows, k, since) == |FailedRows(rows, k, since)|
  {
    if rows == [] {
      assert FailedRows(rows, k, since) == {};
    } else {
      FailuresAreRows(rows[..|rows| - 1], k, since);
      OneMoreRow(rows, k, since);
    }
  }

  lemma OneMoreRow(rows: seq<LogRow>, k: Key, since: int)
    requires rows != []
    ensures var n := |rows| - 1;
            var here := Concerns(k, rows[n].target, rows[n].ip) && FailedSince(rows[n], since);
            |FailedRows(rows, k, since)| == |FailedRows(rows[..n], k, since)| + if here then 1 else 0
  {
    var n := |rows| - 1;
    var here := Concerns(k, rows[n].target, rows[n].ip) && FailedSince(rows[n], since);
    var before, added := FailedRows(rows[..n], k, since), if here then {n} else {};
    forall i: int
      ensures i in FailedRows(rows, k, since) <==> i in before + added
    {
      assert 0 <= i < n ==> rows[..n][i] == rows[i];
    }
    assert FailedRows(rows, k, since) == before + added;
  }

  lemma FailuresByTarget(rows: seq<LogRow>, target: string, since: int)
    ensures FailuresSince(rows, OfTarget(target), since)
         == |set i | 0 <= i < |rows| && rows[i].target == target && FailedSince(rows[i], since)|
  {
    FailuresAreRows(rows, OfTarget(target), since);
    assert FailedRows(rows, OfTarget(target), since)
        == (set i | 0 <= i < |rows| && rows[i].target == target && FailedSince(rows[i], since));
  }

  lemma FailuresByAddress(rows: seq<LogRow>, ip: string, since: int)
    ensures FailuresSince(rows, OfIp(ip), since)
         == |set i | 0 <= i < |rows| && rows[i].ip == ip && FailedSince(rows[i], since)|
  {
    FailuresAreRows(rows, OfIp(ip), since);
    assert FailedRows(rows, OfIp(ip), since)
        == (set i | 0 <= i < |rows| && rows[i].ip == ip && FailedSince(rows[i], since));
  }

  const MAX_LOGIN_ATTEMPTS := 5
  const LOCKOUT_DURATION := 15 * 60 * 1000

  datatype Lockout = Open | TargetLocked | IpLocked

  /** Both counts are taken; the target's is judged first. */
  function CheckLockout(rows: seq<LogRow>, target: string, ip: string, now: int): Lockout {
    var since := now - LOCKOUT_DURATION;
    if FailuresSince(rows, OfTarget(target), since) >= MAX_LOGIN_ATTEMPTS then TargetLocked
    else if FailuresSince(rows, OfIp(ip), since) >= MAX_LOGIN_ATTEMPTS * 2 then IpLocked
    else Open
  }

  class LoginLog {
    var rows: seq<LogRow>

    constructor ()
      ensures rows == []
    {
      rows := [];
    }

    method CountLoginFailuresSince(k: Key, since: int) returns (n: nat)
      ensures n == FailuresSince(rows, k, since)
    {
      n := FailuresSince(rows, k, since);
    }

    method CreateLoginLog(row: LogRow, writable: bool) returns (ok: bool)
      modifies this
      ensures ok == writable && rows == old(rows) + if ok then [row] else []
    {
      ok := writable;
      if ok {
        rows := rows + [row];
      }
    }
  }

  class AuthPolicyService {
    const log: LoginLog

    constructor (log: LoginLog)
      ensures this.log == log
    {
      this.log := log;
    }

    method CheckLoginLockout(target: string, ip: string, now: int) returns (r: Lockout)
      ensures r == CheckLockout(log.rows, target, ip, now)
      ensures var rows, since := log.rows, now - 900000;
              var byTarget := set i | 0 <= i < |rows| && rows[i].target == target && FailedSince(rows[i], since);
              var byAddress := set i | 0 <= i < |rows| && rows[i].ip == ip && FailedSince(rows[i], since);
              && (r == TargetLocked <==> |byTarget| >= 5)
              && (r == IpLocked <==> |byTarget| < 5 && |byAddress| >= 10)
    {
      FailuresByTarget(log.rows, target, now - LOCKOUT_DURATION);
      FailuresByAddress(log.rows, ip, now - LOCKOUT_DURATION);
      var since := now - LOCKOUT_DURATION;
      var targetFailures := log.CountLoginFailuresSince(OfTarget(target), since);
      var ipFailures := log.CountLoginFailuresSince(OfIp(ip), since);
      if targetFailures >= MAX_LOGIN_ATTEMPTS {
        return TargetLocked;
      }
      if ipFailures >= MAX_LOGIN_ATTEMPTS * 2 {
        return IpLocked;
      }
      return Open;
    }
  }

  /** What the rest of the system answers during one login. */
  datatype Attempt = Attempt(
    userId: Option<string>, byCode: bool, codeValid: bool, hasPassword: bool, passwordValid: bool,
    lastLoginUpdated: bool, successLogged: bool, tokensIssued: bool, failureLogged: bool)

  /** LogLost: writing the failure row failed, and that error is what the caller sees. */
  datatype Outcome = NoTarget | Locked(lock: Lockout) | LoggedIn | Refused(reason: string) | LogLost

  predicate SecretAccepted(a: Attempt) {
    if a.byCode then a.codeValid else a.hasPassword && a.passwordValid
  }

  /** The reason logged with a failure; a thrown error's own text when no other reason was set. */
  function Reason(a: Attempt): string {
    if a.userId.None? then "user does not exist"
    else if a.byCode && !a.codeValid then "code invalid or expired"
    else if !a.byCode && !a.hasPassword then "account has no password"
    else if !a.byCode && !a.passwordValid then "wrong password"
    else "internal error"
  }

  /** A success row is written before the tokens are issued. */
  predicate LogsSuccess(a: Attempt) {
    a.userId.Some? && SecretAccepted(a) && a.lastLoginUpdated && a.successLogged
  }

  predicate Succeeds(a: Attempt) {
    LogsSuccess(a) && a.tokensIssued
  }

  /** The rows one login that passed the check appends: a success row may be followed by a failure row. */
  function RowsOf(a: Attempt, target: string, ip: string, now: int): seq<LogRow> {
    (if LogsSuccess(a) then [LogRow(a.userId, target, true, ip, now, "")] else [])
    + (if Succeeds(a) || !a.failureLogged then [] else [LogRow(a.userId, target, false, ip, now, Reason(a))])
  }

  function OutcomeOf(a: Attempt): Outcome {
    if Succeeds(a) then LoggedIn else if a.failureLogged then Refused(Reason(a)) else LogLost
  }

  /** What a login that passed the check answers and writes, in terms of what the rest of the system has answered. */
  ghost predicate AnswersInWords(a: Attempt, target: string, ip: string, now: int, r: Outcome, added: seq<LogRow>) {
    var secretRight := if a.byCode then a.codeValid else a.hasPassword && a.passwordValid;
    var welcome := a.userId.Some? && secretRight && a.lastLoginUpdated && a.successLogged;
    && (r == LoggedIn <==> welcome && a.tokensIssued)
    && (r.Refused? <==> !(welcome && a.tokensIssued) && a.failureLogged)
    && (r.Refused? ==> r.reason == if a.userId.None? then "user does not exist"
                                   else if a.byCode && !a.codeValid then "code invalid or expired"
                                   else if !a.byCode && !a.hasPassword then "account has no password"
                                   else if !a.byCode && !a.passwordValid then "wrong password"
                                   else "internal error")
    && added == (if welcome then [LogRow(a.userId, target, true, ip, now, "")] else [])
                + (if r.Refused? then [LogRow(a.userId, target, false, ip, now, r.reason)] else [])
  }

  lemma LoginInWords(a: Attempt, target: string, ip: string, now: int)
    ensures AnswersInWords(a, target, ip, now, OutcomeOf(a), RowsOf(a, target, ip, now))
  {
  }

  class LoginService {
    const policy: AuthPolicyService

    constructor (policy: AuthPolicyService)
      ensures this.policy == policy
    {
      this.policy := policy;
    }

    /** Why the code or the password is refused; empty when it is right. */
    method CheckSecret(a: Attempt) returns (failureReason: string)
      ensures failureReason == if a.byCode && !a.codeValid then "code invalid or expired"
                               else if !a.byCode && !a.hasPassword then "account has no password"
                               else if !a.byCode && !a.passwordValid then "wrong password"
                               else ""
    {
      failureReason := "";
      if a.byCode {
        if !a.codeValid {
          failureReason := "code invalid or expired";
        }
      } else if !a.hasPassword {
        failureReason := "account has no password";
      } else if !a.passwordValid {
        failureReason := "wrong password";
      }
    }

    method Login(username: string, email: string, phone: string, ip: string, now: int, a: Attempt) returns (r: Outcome)
      modifies policy.log
      ensures var target := if username != "" then username else if email != "" then email else phone;
              var lockout := CheckLockout(old(policy.log.rows), target, ip, now);
              && (r == NoTarget <==> target == "")
              && (target != "" ==> (r == Locked(lockout) <==> lockout != Open))
              && (target != "" && lockout == Open ==>
                    policy.log.rows == old(policy.log.rows) + RowsOf(a, target, ip, now)
                    && r == OutcomeOf(a))
              && (target == "" || lockout != Open ==> policy.log.rows == old(policy.log.rows))
      ensures var target := if username != "" then username else if email != "" then email else phone;
              target != "" && CheckLockout(old(policy.log.rows), target, ip, now) == Open ==>
                && |policy.log.rows| >= |old(policy.log.rows)|
                && AnswersInWords(a, target, ip, now, r, policy.log.rows[|old(policy.log.rows)|..])
    {
      var target := if username != "" then username else if email != "" then email else phone;
      LoginInWords(a, target, ip, now);
      if target == "" {
        return NoTarget;
      }
      var lockout := policy.CheckLoginLockout(target, ip, now);
      if lockout != Open {
        return Locked(lockout);
      }
      r := LoginUnlocked(target, ip, now, a);
    }

    /** The rest of a login that has passed the check. */
    method LoginUnlocked(target: string, ip: string, now: int, a: Attempt) returns (r: Outcome)
      modifies policy.log
      ensures r == OutcomeOf(a) && policy.log.rows == old(policy.log.rows) + RowsOf(a, target, ip, now)
    {
      if a.userId.None? {
        r := Refuse(LogRow(None, target, false, ip, now, "user does not exist"), a.failureLogged);
        return;
      }
      var failureReason := CheckSecret(a);
      if failureReason == "" && a.lastLoginUpdated {
        var logged := policy.log.CreateLoginLog(LogRow(a.userId, target, true, ip, now, ""), a.successLogged);
        if logged && a.tokensIssued {
          return LoggedIn;
        }
      }
      var reason := if failureReason == "" then "internal error" else failureReason;
      r := Refuse(LogRow(a.userId, target, false, ip, now, reason), a.failureLogged);
    }

    /** Logs a failure; the caller sees the reason, or the error of a log write that fails. */
    method Refuse(row: LogRow, writable: bool) returns (r: Outcome)
      modifies policy.log
      ensures r == if writable then Refused(row.failReason) else LogLost
      ensures policy.log.rows == old(policy.log.rows) + if writable then [row] else []
    {
      var logged := policy.log.CreateLoginLog(row, writable);
      return if logged then Refused(row.failReason) else LogLost;
    }
  }
}

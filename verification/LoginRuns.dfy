/** Logins whose checks and log writes interleave: how many failures a window can hold. */
module LoginRuns {
  import opened Callers
  import opened Common
  import opened LoginPolicy
  import RateLimit

  /** The log, the logins between their check and their last row, and the clock. */
  datatype State = State(rows: seq<LogRow>, calls: map<nat, Call>, now: int)

  datatype Event =
    | Check(id: nat, call: Call)
    | LogSuccess(ofCall: nat, user: string)
    | LogFailure(failed: nat, userId: Option<string>, reason: string)
    | Finish(done: nat)
    | Tick(to: int)

  function Next(s: State, e: Event): State {
    match e
    case Check(id, c) =>
      if id !in s.calls && c.target != "" && CheckLockout(s.rows, c.target, c.ip, s.now) == Open
      then s.(calls := s.calls[id := c]) else s
    case LogSuccess(id, u) =>
      if id in s.calls then s.(rows := s.rows + [LogRow(Some(u), s.calls[id].target, true, s.calls[id].ip, s.now, "")]) else s
    case LogFailure(id, u, why) =>
      if id in s.calls then
        State(s.rows + [LogRow(u, s.calls[id].target, false, s.calls[id].ip, s.now, why)], s.calls - {id}, s.now)
      else s
    case Finish(id) => s.(calls := s.calls - {id})
    case Tick(to) => if to >= s.now then s.(now := to) else s
  }

  function Run(es: seq<Event>, start: int): State {
    if es == [] then State([], map[], start) else Next(Run(es[..|es| - 1], start), es[|es| - 1])
  }

  /** Never more than n logins of this target or address between check and last row. */
  ghost predicate AtMostInFlight(es: seq<Event>, start: int, k: Key, n: nat) {
    |Pending(Run(es, start).calls, k)| <= n && (es != [] ==> AtMostInFlight(es[..|es| - 1], start, k, n))
  }

  /** When the failures of one key were written. */
  function Times(rows: seq<LogRow>, k: Key): seq<int> {
    if rows == [] then []
    else
      var n := |rows| - 1;
      var r := rows[n];
      Times(rows[..n], k) + if Concerns(k, r.target, r.ip) && !r.success then [r.createdAt] else []
  }

  ghost function ViewOf(s: State, k: Key): RateLimit.View {
    RateLimit.View(Times(s.rows, k), |Pending(s.calls, k)|, s.now)
  }

  function PolicyOf(k: Key, inFlight: nat): RateLimit.Policy {
    RateLimit.Policy(LOCKOUT_DURATION, if k.OfTarget? then MAX_LOGIN_ATTEMPTS else MAX_LOGIN_ATTEMPTS * 2, inFlight)
  }

  lemma {:induction false} FailuresAreCounted(rows: seq<LogRow>, k: Key, since: int, now: int)
    requires forall i :: 0 <= i < |rows| ==> rows[i].createdAt <= now
    ensures FailuresSince(rows, k, since) == RateLimit.CountIn(Times(rows, k), since, now)
  {
    if rows != [] {
      var n := |rows| - 1;
      var r := rows[n];
      FailuresAreCounted(rows[..n], k, since, now);
      assert r.createdAt <= now;
      RateLimit.CountAppend(Times(rows[..n], k), r.createdAt, since, now);
      if !Concerns(k, r.target, r.ip) || r.success {
        assert Times(rows, k) == Times(rows[..n], k);
      }
    }
  }

  lemma TimesAppend(rows: seq<LogRow>, r: LogRow, k: Key)
    ensures Times(rows + [r], k) == Times(rows, k) + if Concerns(k, r.target, r.ip) && !r.success then [r.createdAt] else []
  {
    assert (rows + [r])[..|rows|] == rows;
  }

  lemma CheckIsMove(s: State, id: nat, c: Call, k: Key, inFlight: nat) returns (m: RateLimit.Move)
    requires forall i :: 0 <= i < |s.rows| ==> s.rows[i].createdAt <= s.now
    requires id !in s.calls && c.target != "" && CheckLockout(s.rows, c.target, c.ip, s.now) == Open
    requires |Pending(s.calls[id := c], k)| <= inFlight
    ensures RateLimit.Allowed(PolicyOf(k, inFlight), ViewOf(s, k), m)
    ensures ViewOf(Next(s, Check(id, c)), k) == RateLimit.After(ViewOf(s, k), m)
  {
    PendingWith(s.calls, k, id, c);
    if Concerns(k, c.target, c.ip) {
      m := RateLimit.Pass;
      OpenMeansBelowLimit(s.rows, c, k, s.now);
    } else {
      m := RateLimit.Idle;
    }
  }

  lemma OpenMeansBelowLimit(rows: seq<LogRow>, c: Call, k: Key, now: int)
    requires forall i :: 0 <= i < |rows| ==> rows[i].createdAt <= now
    requires CheckLockout(rows, c.target, c.ip, now) == Open && Concerns(k, c.target, c.ip)
    ensures RateLimit.CountIn(Times(rows, k), now - LOCKOUT_DURATION, now) < PolicyOf(k, 0).limit
  {
    FailuresAreCounted(rows, k, now - LOCKOUT_DURATION, now);
  }

  lemma FailureIsMove(s: State, id: nat, u: Option<string>, why: string, k: Key, inFlight: nat) returns (m: RateLimit.Move)
    requires id in s.calls
    ensures RateLimit.Allowed(PolicyOf(k, inFlight), ViewOf(s, k), m)
    ensures ViewOf(Next(s, LogFailure(id, u, why)), k) == RateLimit.After(ViewOf(s, k), m)
  {
    PendingWithout(s.calls, k, id);
    TimesAppend(s.rows, LogRow(u, s.calls[id].target, false, s.calls[id].ip, s.now, why), k);
    m := if Concerns(k, s.calls[id].target, s.calls[id].ip) then RateLimit.Write else RateLimit.Idle;
  }

  /** For each key, a step of the system is an allowed move of the limiter. */
  lemma StepIsMove(s: State, e: Event, k: Key, inFlight: nat) returns (m: RateLimit.Move)
    requires forall i :: 0 <= i < |s.rows| ==> s.rows[i].createdAt <= s.now
    requires |Pending(Next(s, e).calls, k)| <= inFlight
    ensures RateLimit.Allowed(PolicyOf(k, inFlight), ViewOf(s, k), m)
    ensures ViewOf(Next(s, e), k) == RateLimit.After(ViewOf(s, k), m)
  {
    m := RateLimit.Idle;
    match e {
      case Check(id, c) =>
        if id !in s.calls && c.target != "" && CheckLockout(s.rows, c.target, c.ip, s.now) == Open {
          m := CheckIsMove(s, id, c, k, inFlight);
        }
      case LogSuccess(id, u) =>
        if id in s.calls {
          TimesAppend(s.rows, LogRow(Some(u), s.calls[id].target, true, s.calls[id].ip, s.now, ""), k);
        }
      case LogFailure(id, u, why) =>
        if id in s.calls {
          m := FailureIsMove(s, id, u, why, k, inFlight);
        }
      case Finish(id) =>
        if id in s.calls {
          PendingWithout(s.calls, k, id);
          if Concerns(k, s.calls[id].target, s.calls[id].ip) {
            m := RateLimit.Abandon;
          }
        } else {
          assert s.calls - {id} == s.calls;
        }
      case Tick(to) =>
        if to >= s.now {
          m := RateLimit.Tick(to);
        }
    }
  }

  lemma {:induction false} RowsAreInThePast(es: seq<Event>, start: int)
    ensures forall i :: 0 <= i < |Run(es, start).rows| ==> Run(es, start).rows[i].createdAt <= Run(es, start).now
  {
    if es != [] {
      RowsAreInThePast(es[..|es| - 1], start);
    }
  }

  /** What one target or address sees of a run is a run of the limiter. */
  lemma {:induction false} RunIsLimited(es: seq<Event>, start: int, k: Key, inFlight: nat) returns (ms: seq<RateLimit.Move>)
    requires AtMostInFlight(es, start, k, inFlight)
    ensures RateLimit.AllowedRun(PolicyOf(k, inFlight), ms, start)
    ensures RateLimit.Run(ms, start) == ViewOf(Run(es, start), k)
  {
    ms := [];
    if es == [] {
      assert Pending(map[], k) == {};
    } else {
      var n := |es| - 1;
      ms := RunIsLimited(es[..n], start, k, inFlight);
      RowsAreInThePast(es[..n], start);
      var m := StepIsMove(Run(es[..n], start), es[n], k, inFlight);
      RateLimit.RunMore(PolicyOf(k, inFlight), ms, m, start);
      ms := ms + [m];
    }
  }

  // ---------------------------------------------------------------- every run of the limiter is some run of logins

  /** A login without a target is refused before its check. */
  predicate Receives(k: Key) {
    k != OfTarget("")
  }

  /** All rows and calls are those of the first n of a family of callers that meet in k only. */
  ghost predicate FromFamily(s: State, k: Key, n: nat) {
    && (forall i :: 0 <= i < |s.rows| ==>
          Known(k, n, s.rows[i].target, s.rows[i].ip) && !s.rows[i].success && s.rows[i].createdAt <= s.now)
    && CallsKnown(s.calls, k, n)
  }

  lemma {:induction false} OthersNeverFailed(rows: seq<LogRow>, k: Key, n: nat, since: int)
    requires forall i :: 0 <= i < |rows| ==> Known(k, n, rows[i].target, rows[i].ip)
    ensures FailuresSince(rows, OtherKey(k, n), since) == 0
  {
    if rows != [] {
      var m := |rows| - 1;
      OthersNeverFailed(rows[..m], k, n, since);
      KnownConcerns(k, n, rows[m].target, rows[m].ip);
    }
  }

  /** While k is below its limit the next caller of the family is let through. */
  lemma NextCallerPasses(s: State, k: Key, n: nat, inFlight: nat)
    requires FromFamily(s, k, n) && RateLimit.Allowed(PolicyOf(k, inFlight), ViewOf(s, k), RateLimit.Pass)
    ensures CheckLockout(s.rows, CallFor(k, n).target, CallFor(k, n).ip, s.now) == Open
  {
    CountIsBelowLimit(s, k, inFlight);
    OthersNeverFailed(s.rows, k, n, s.now - LOCKOUT_DURATION);
    BelowBothLimitsIsOpen(s.rows, k, n, s.now);
  }

  lemma CountIsBelowLimit(s: State, k: Key, inFlight: nat)
    requires forall i :: 0 <= i < |s.rows| ==> s.rows[i].createdAt <= s.now
    requires RateLimit.Allowed(PolicyOf(k, inFlight), ViewOf(s, k), RateLimit.Pass)
    ensures FailuresSince(s.rows, k, s.now - LOCKOUT_DURATION) < PolicyOf(k, 0).limit
  {
    FailuresAreCounted(s.rows, k, s.now - LOCKOUT_DURATION, s.now);
  }

  lemma BelowBothLimitsIsOpen(rows: seq<LogRow>, k: Key, n: nat, now: int)
    requires FailuresSince(rows, k, now - LOCKOUT_DURATION) < PolicyOf(k, 0).limit
    requires FailuresSince(rows, OtherKey(k, n), now - LOCKOUT_DURATION) == 0
    ensures CheckLockout(rows, CallFor(k, n).target, CallFor(k, n).ip, now) == Open
  {
    var c := CallFor(k, n);
    match k
    case OfTarget(_) => assert k == OfTarget(c.target) && OtherKey(k, n) == OfIp(c.ip);
    case OfIp(_) => assert k == OfIp(c.ip) && OtherKey(k, n) == OfTarget(c.target);
  }

  lemma FamilyGrows(s: State, k: Key, n: nat)
    requires FromFamily(s, k, n)
    ensures FromFamily(s, k, n + 1)
  {
    forall i | 0 <= i < |s.rows|
      ensures Known(k, n + 1, s.rows[i].target, s.rows[i].ip)
    {
      KnownConcerns(k, n, s.rows[i].target, s.rows[i].ip);
    }
    CallsStayKnown(s.calls, k, n);
  }

  lemma PassRealised(s: State, k: Key, n: nat, inFlight: nat)
    requires Receives(k) && FromFamily(s, k, n) && RateLimit.Allowed(PolicyOf(k, inFlight), ViewOf(s, k), RateLimit.Pass)
    ensures var s' := Next(s, Check(n, CallFor(k, n)));
            ViewOf(s', k) == RateLimit.After(ViewOf(s, k), RateLimit.Pass) && FromFamily(s', k, n + 1)
  {
    NextCallerPasses(s, k, n, inFlight);
    CallIsValid(k, n);
    NextJoins(s.calls, k, n);
    FamilyGrows(s, k, n);
  }

  lemma WriteRealised(s: State, k: Key, n: nat, id: nat)
    requires FromFamily(s, k, n) && id in s.calls
    ensures var s' := Next(s, LogFailure(id, None, ""));
            ViewOf(s', k) == RateLimit.After(ViewOf(s, k), RateLimit.Write) && FromFamily(s', k, n)
  {
    KnownConcerns(k, n, s.calls[id].target, s.calls[id].ip);
    PendingWithout(s.calls, k, id);
    TimesAppend(s.rows, LogRow(None, s.calls[id].target, false, s.calls[id].ip, s.now, ""), k);
  }

  lemma AbandonRealised(s: State, k: Key, n: nat, id: nat)
    requires FromFamily(s, k, n) && id in s.calls
    ensures var s' := Next(s, Finish(id));
            ViewOf(s', k) == RateLimit.After(ViewOf(s, k), RateLimit.Abandon) && FromFamily(s', k, n)
  {
    KnownConcerns(k, n, s.calls[id].target, s.calls[id].ip);
    PendingWithout(s.calls, k, id);
  }

  /** Every allowed move of the limiter is some event of logins. */
  lemma MoveIsEvent(s: State, k: Key, n: nat, inFlight: nat, m: RateLimit.Move) returns (e: Event)
    requires Receives(k) && FromFamily(s, k, n) && RateLimit.Allowed(PolicyOf(k, inFlight), ViewOf(s, k), m)
    ensures ViewOf(Next(s, e), k) == RateLimit.After(ViewOf(s, k), m) && FromFamily(Next(s, e), k, n + 1)
  {
    FamilyGrows(s, k, n);
    match m {
      case Pass =>
        e := Check(n, CallFor(k, n));
        PassRealised(s, k, n, inFlight);
      case Write =>
        var id := SomeoneIsPending(s.calls, k);
        e := LogFailure(id, None, "");
        WriteRealised(s, k, n, id);
        FamilyGrows(Next(s, e), k, n);
      case Abandon =>
        var id := SomeoneIsPending(s.calls, k);
        e := Finish(id);
        AbandonRealised(s, k, n, id);
        FamilyGrows(Next(s, e), k, n);
      case Tick(to) => e := Tick(to);
      case Idle =>
        e := Finish(n);
        assert s.calls - {n} == s.calls;
    }
  }

  lemma RunMore(es: seq<Event>, e: Event, start: int, k: Key, n: nat)
    requires AtMostInFlight(es, start, k, n) && |Pending(Next(Run(es, start), e).calls, k)| <= n
    ensures AtMostInFlight(es + [e], start, k, n) && Run(es + [e], start) == Next(Run(es, start), e)
  {
    assert (es + [e])[..|es|] == es;
  }

  /** Whatever the limiter can do with one key, logins can do with any address and any target that is not empty. */
  lemma {:induction false} LimiterIsRealised(ms: seq<RateLimit.Move>, start: int, k: Key, inFlight: nat) returns (es: seq<Event>)
    requires Receives(k) && RateLimit.AllowedRun(PolicyOf(k, inFlight), ms, start)
    ensures AtMostInFlight(es, start, k, inFlight)
    ensures ViewOf(Run(es, start), k) == RateLimit.Run(ms, start)
    ensures FromFamily(Run(es, start), k, |ms|)
  {
    es := [];
    if ms == [] {
      assert Pending(map[], k) == {};
    } else {
      var front, m := ms[..|ms| - 1], ms[|ms| - 1];
      es := LimiterIsRealised(front, start, k, inFlight);
      var e := MoveIsEvent(Run(es, start), k, |front|, inFlight, m);
      RateLimit.PendingFits(PolicyOf(k, inFlight), ms, start);
      RunMore(es, e, start, k, inFlight);
      es := es + [e];
    }
  }

  // ---------------------------------------------------------------- the bounds

  /** With at most n logins of k in flight, every closed window of length w holds at most b failures of k. */
  ghost predicate FailuresWithin(k: Key, n: nat, w: nat, b: int) {
    forall es, from :: AtMostInFlight(es, 0, k, n) ==> RateLimit.InWindow(Times(Run(es, 0).rows, k), from, w) <= b
  }

  /** Logins obey a bound exactly when the limiter does. */
  lemma BoundsAreTheLimiters(k: Key, n: nat, w: nat, b: int)
    requires Receives(k)
    ensures FailuresWithin(k, n, w, b) <==> RateLimit.Holds(PolicyOf(k, n), w, b)
  {
    if RateLimit.Holds(PolicyOf(k, n), w, b) {
      forall es, from | AtMostInFlight(es, 0, k, n)
        ensures RateLimit.InWindow(Times(Run(es, 0).rows, k), from, w) <= b
      {
        var ms := RunIsLimited(es, 0, k, n);
        assert RateLimit.InWindow(RateLimit.Run(ms, 0).sent, from, w) <= b;
      }
    }
    if FailuresWithin(k, n, w, b) {
      forall ms, from | RateLimit.AllowedRun(PolicyOf(k, n), ms, 0)
        ensures RateLimit.InWindow(RateLimit.Run(ms, 0).sent, from, w) <= b
      {
        var es := LimiterIsRealised(ms, 0, k, n);
        assert RateLimit.InWindow(Times(Run(es, 0).rows, k), from, w) <= b;
      }
    }
  }

  function Limit(k: Key): nat {
    if k.OfTarget? then MAX_LOGIN_ATTEMPTS else MAX_LOGIN_ATTEMPTS * 2
  }

  /**
   * With at most n >= 1 logins of a target or address in flight, a window of at most 15 minutes holds at most
   * 4 + n of its failures, or 9 + n, and no smaller bound holds; for longer windows not even that one does.
   */
  lemma LoginFailuresAreBounded(k: Key, n: nat, w: nat, b: int)
    requires n >= 1
    ensures Receives(k) && w <= LOCKOUT_DURATION ==> (FailuresWithin(k, n, w, b) <==> b >= Limit(k) - 1 + n)
    ensures Receives(k) ==> (FailuresWithin(k, n, w, Limit(k) - 1 + n) <==> w <= LOCKOUT_DURATION)
    ensures !Receives(k) ==> (FailuresWithin(k, n, w, b) <==> b >= 0)
  {
    if Receives(k) {
      BoundsAreTheLimiters(k, n, w, b);
      BoundsAreTheLimiters(k, n, w, Limit(k) - 1 + n);
      RateLimit.BoundHoldsIffWindowFits(PolicyOf(k, n), w);
      if w <= LOCKOUT_DURATION {
        RateLimit.BoundIsExact(PolicyOf(k, n), w, b);
      }
    } else {
      NoFailuresWithoutTarget(n, w, b);
    }
  }

  lemma {:induction false} NoTargetNoRows(es: seq<Event>, start: int)
    ensures Times(Run(es, start).rows, OfTarget("")) == [] && Pending(Run(es, start).calls, OfTarget("")) == {}
  {
    if es != [] {
      var n := |es| - 1;
      NoTargetNoRows(es[..n], start);
      NoTargetInStep(Run(es[..n], start), es[n]);
    }
  }

  lemma NoTargetInStep(s: State, e: Event)
    requires Times(s.rows, OfTarget("")) == [] && Pending(s.calls, OfTarget("")) == {}
    ensures Times(Next(s, e).rows, OfTarget("")) == [] && Pending(Next(s, e).calls, OfTarget("")) == {}
  {
    NoTargetLogged(s, e);
    NoTargetPending(s, e);
  }

  lemma NoTargetPending(s: State, e: Event)
    requires Pending(s.calls, OfTarget("")) == {}
    ensures Pending(Next(s, e).calls, OfTarget("")) == {}
  {
    forall id | id in Next(s, e).calls
      ensures id !in Pending(Next(s, e).calls, OfTarget(""))
    {
      assert id !in Pending(s.calls, OfTarget(""));
    }
  }

  lemma NoTargetLogged(s: State, e: Event)
    requires Times(s.rows, OfTarget("")) == [] && Pending(s.calls, OfTarget("")) == {}
    ensures Times(Next(s, e).rows, OfTarget("")) == []
  {
    match e {
      case LogFailure(id, u, why) =>
        assert id !in Pending(s.calls, OfTarget(""));
        if id in s.calls {
          TimesAppend(s.rows, LogRow(u, s.calls[id].target, false, s.calls[id].ip, s.now, why), OfTarget(""));
        }
      case LogSuccess(id, u) =>
        if id in s.calls {
          TimesAppend(s.rows, LogRow(Some(u), s.calls[id].target, true, s.calls[id].ip, s.now, ""), OfTarget(""));
        }
      case _ =>
    }
  }

  lemma NoFailuresWithoutTarget(n: nat, w: nat, b: int)
    ensures FailuresWithin(OfTarget(""), n, w, b) <==> b >= 0
  {
    if b >= 0 {
      forall es, from | AtMostInFlight(es, 0, OfTarget(""), n)
        ensures RateLimit.InWindow(Times(Run(es, 0).rows, OfTarget("")), from, w) <= b
      {
        NoTargetNoRows(es, 0);
      }
    } else {
      NoTargetNoRows([], 0);
      assert AtMostInFlight([], 0, OfTarget(""), n) && RateLimit.InWindow(Times(Run([], 0).rows, OfTarget("")), 0, w) > b;
    }
  }

  /** The limits as written, 5 per target and 10 per address, bound the failures exactly when logins come one at a time. */
  lemma WrittenLimitHoldsIffOneAtATime(k: Key, n: nat)
    requires n >= 1
    ensures FailuresWithin(k, n, LOCKOUT_DURATION, Limit(k)) <==> n == 1 || !Receives(k)
  {
    LoginFailuresAreBounded(k, n, LOCKOUT_DURATION, Limit(k));
  }

  // ---------------------------------------------------------------- one login is a run

  /** The events of one login from check to last row. */
  function EventsOf(id: nat, call: Call, a: Attempt): seq<Event> {
    [Check(id, call)]
    + (if LogsSuccess(a) then [LogSuccess(id, a.userId.value)] else []) + [LastOf(id, a)]
  }

  /** A login ends with its failure row, or without one when it succeeds or the row cannot be written. */
  function LastOf(id: nat, a: Attempt): Event {
    if Succeeds(a) || !a.failureLogged then Finish(id) else LogFailure(id, a.userId, Reason(a))
  }

  function Play(s: State, es: seq<Event>): State
    decreases |es|
  {
    if es == [] then s else Play(Next(s, es[0]), es[1..])
  }

  lemma OneFailureCounts(rows: seq<LogRow>, u: Option<string>, target: string, ip: string, now: int, why: string)
    requires Times(rows, OfTarget(target)) == []
    ensures |Times(rows + [LogRow(u, target, false, ip, now, why)], OfTarget(target))| == 1
  {
    TimesAppend(rows, LogRow(u, target, false, ip, now, why), OfTarget(target));
  }

  lemma SuccessDoesNotCount(u: Option<string>, target: string, ip: string, now: int, k: Key)
    ensures Times([LogRow(u, target, true, ip, now, "")], k) == []
  {
    TimesAppend([], LogRow(u, target, true, ip, now, ""), k);
    assert [] + [LogRow(u, target, true, ip, now, "")] == [LogRow(u, target, true, ip, now, "")];
  }

  /** What one attempt writes for its target: one failure, unless it succeeds or the row is lost. */
  lemma AttemptFailsAtMostOnce(a: Attempt, target: string, ip: string, now: int)
    ensures |Times(RowsOf(a, target, ip, now), OfTarget(target))| == if Succeeds(a) || !a.failureLogged then 0 else 1
  {
    SuccessDoesNotCount(a.userId, target, ip, now, OfTarget(target));
    var first := if LogsSuccess(a) then [LogRow(a.userId, target, true, ip, now, "")] else [];
    if Succeeds(a) || !a.failureLogged {
      assert RowsOf(a, target, ip, now) == first;
    } else {
      OneFailureCounts(first, a.userId, target, ip, now, Reason(a));
    }
  }

  lemma PlayTwo(s: State, a: Event, b: Event)
    ensures Play(s, [a, b]) == Next(Next(s, a), b)
  {
    assert [a, b][1..] == [b] && [b][1..] == [];
    assert Play(Next(s, a), [b]) == Play(Next(Next(s, a), b), []);
  }

  lemma PlayThree(s: State, a: Event, b: Event, c: Event)
    ensures Play(s, [a, b, c]) == Next(Next(Next(s, a), b), c)
  {
    assert [a, b, c][1..] == [b, c];
    PlayTwo(Next(s, a), b, c);
  }

  /** The rows written after the check, whatever the outcome, and the call is over. */
  lemma AfterCheck(s: State, id: nat, call: Call, a: Attempt)
    requires id in s.calls && s.calls[id] == call
    ensures var rows := s.rows + RowsOf(a, call.target, call.ip, s.now);
            Next(if LogsSuccess(a) then Next(s, LogSuccess(id, a.userId.value)) else s, LastOf(id, a))
              == State(rows, s.calls - {id}, s.now)
  {
    assert s.rows + [] == s.rows;
  }

  lemma PlayEvents(s: State, id: nat, call: Call, a: Attempt)
    ensures var checked := Next(s, Check(id, call));
            Play(s, EventsOf(id, call, a))
              == Next(if LogsSuccess(a) then Next(checked, LogSuccess(id, a.userId.value)) else checked, LastOf(id, a))
  {
    var last := LastOf(id, a);
    if LogsSuccess(a) {
      assert EventsOf(id, call, a) == [Check(id, call), LogSuccess(id, a.userId.value), last];
      PlayThree(s, Check(id, call), LogSuccess(id, a.userId.value), last);
    } else {
      assert EventsOf(id, call, a) == [Check(id, call), last];
      PlayTwo(s, Check(id, call), last);
    }
  }

  lemma LockedOutWritesNothing(s: State, id: nat, a: Attempt)
    requires id !in s.calls
    ensures a.userId.Some? ==> Next(s, LogSuccess(id, a.userId.value)) == s
    ensures Next(s, LastOf(id, a)) == s
  {
    assert s.calls - {id} == s.calls;
  }

  /** Uninterrupted, those events append what the login service appends and leave nothing in flight. */
  lemma LoginIsARun(s: State, id: nat, call: Call, a: Attempt)
    requires id !in s.calls
    ensures var passed := call.target != "" && CheckLockout(s.rows, call.target, call.ip, s.now) == Open;
            Play(s, EventsOf(id, call, a))
              == if passed then s.(rows := s.rows + RowsOf(a, call.target, call.ip, s.now)) else s
  {
    PlayEvents(s, id, call, a);
    if call.target != "" && CheckLockout(s.rows, call.target, call.ip, s.now) == Open {
      AfterCheck(s.(calls := s.calls[id := call]), id, call, a);
      assert s.calls[id := call] - {id} == s.calls;
    } else {
      LockedOutWritesNothing(s, id, a);
    }
  }
}

/** How many codes the send limits let through when checks and writes of several calls interleave, with and without cleanup. */
module SendLimits {
  import opened Callers
  import opened Common
  import opened Validators
  import opened Verification
  import RateLimit

  /** `all` is every code ever created; the table holds those that the last cleanup kept. */
  datatype State = State(all: seq<CodeRow>, cutoff: Option<int>, calls: map<nat, Call>, now: int) {
    function Rows(): seq<CodeRow> {
      if cutoff.Some? then Kept(all, cutoff.value) else all
    }
  }

  datatype Event =
    | Check(id: nat, call: Call)
    | Create(ofCall: nat, code: string, codeType: CodeType)
    | Drop(dropped: nat)
    | Clean
    | Tick(to: int)

  function NewCode(s: State, c: Call, code: string, codeType: CodeType): CodeRow {
    CodeRow(|s.all|, c.target, code, codeType, s.now + CODE_LIFETIME, false, c.ip, s.now)
  }

  function Next(s: State, e: Event): State {
    match e
    case Check(id, c) =>
      if id !in s.calls && ValidTarget(c.target) && CheckSend(s.Rows(), c.target, c.ip, s.now) == MaySend
      then s.(calls := s.calls[id := c]) else s
    case Create(id, code, t) =>
      if id in s.calls then s.(all := s.all + [NewCode(s, s.calls[id], code, t)], calls := s.calls - {id}) else s
    case Drop(id) => s.(calls := s.calls - {id})
    case Clean => s.(cutoff := Some(s.now))
    case Tick(to) => if to >= s.now then s.(now := to) else s
  }

  function Run(es: seq<Event>, start: int): State {
    if es == [] then State([], None, map[], start) else Next(Run(es[..|es| - 1], start), es[|es| - 1])
  }

  /** Never more than n sends for this target or address between check and write. */
  ghost predicate AtMostInFlight(es: seq<Event>, start: int, k: Key, n: nat) {
    |Pending(Run(es, start).calls, k)| <= n && (es != [] ==> AtMostInFlight(es[..|es| - 1], start, k, n))
  }

  ghost predicate Timely(s: State) {
    && (forall i :: 0 <= i < |s.all| ==> s.all[i].createdAt <= s.now && s.all[i].expiresAt == s.all[i].createdAt + CODE_LIFETIME)
    && (s.cutoff.Some? ==> s.cutoff.value <= s.now)
  }

  /** The derived table is what the store operations make of it: created rows are appended, cleanup deletes. */
  lemma RowsFollowStore(s: State, e: Event)
    requires Timely(s)
    ensures Timely(Next(s, e))
    ensures Next(s, e).Rows() == match e
                                 case Create(id, code, t) =>
                                   if id in s.calls then s.Rows() + [NewCode(s, s.calls[id], code, t)] else s.Rows()
                                 case Clean => Kept(s.Rows(), s.now)
                                 case _ => s.Rows()
  {
    match e {
      case Create(id, code, t) =>
        if id in s.calls && s.cutoff.Some? {
          KeptAppend(s.all, NewCode(s, s.calls[id], code, t), s.cutoff.value);
        }
      case Clean =>
        if s.cutoff.Some? {
          KeptTwice(s.all, s.cutoff.value, s.now);
        }
      case _ =>
    }
  }

  function Times(rows: seq<CodeRow>, k: Key): seq<int> {
    if rows == [] then []
    else
      var n := |rows| - 1;
      Times(rows[..n], k) + if Concerns(k, rows[n].target, rows[n].ip) then [rows[n].createdAt] else []
  }

  ghost function ViewOf(s: State, k: Key): RateLimit.View {
    RateLimit.View(Times(s.all, k), |Pending(s.calls, k)|, s.now)
  }

  function WindowOf(k: Key): nat {
    if k.OfTarget? then ONE_HOUR else ONE_DAY
  }

  /** With cleanup only rows younger than their lifetime are sure to be counted. */
  function PolicyOf(k: Key, inFlight: nat, cleaning: bool): RateLimit.Policy {
    RateLimit.Policy(if cleaning then CODE_LIFETIME else WindowOf(k), if k.OfTarget? then TARGET_LIMIT else IP_LIMIT, inFlight)
  }

  /** What the check counts is at least what was sent in the effective window. */
  lemma {:induction false} CountCoversWindow(all: seq<CodeRow>, cutoff: Option<int>, k: Key, s: int, since: int, now: int)
    requires forall i :: 0 <= i < |all| ==> all[i].createdAt <= now && all[i].expiresAt == all[i].createdAt + CODE_LIFETIME
    requires cutoff.Some? ==> cutoff.value <= since + CODE_LIFETIME
    requires s <= since
    ensures CountSince(if cutoff.Some? then Kept(all, cutoff.value) else all, k, s)
         >= RateLimit.CountIn(Times(all, k), since, now)
  {
    if all != [] {
      var n := |all| - 1;
      var r := all[n];
      CountCoversWindow(all[..n], cutoff, k, s, since, now);
      assert r.createdAt <= now && r.expiresAt == r.createdAt + CODE_LIFETIME;
      TimesOfLast(all, k, since, now);
      if cutoff.Some? {
        KeptCountOfLast(all, cutoff.value, k, s);
      }
    }
  }

  lemma TimesOfLast(all: seq<CodeRow>, k: Key, since: int, now: int)
    requires all != []
    ensures var n := |all| - 1;
            RateLimit.CountIn(Times(all, k), since, now) == RateLimit.CountIn(Times(all[..n], k), since, now)
              + if Concerns(k, all[n].target, all[n].ip) && since <= all[n].createdAt <= now then 1 else 0
  {
    var n := |all| - 1;
    RateLimit.CountAppend(Times(all[..n], k), all[n].createdAt, since, now);
    assert Times(all[..n], k) + [] == Times(all[..n], k);
  }

  lemma CountOfLast(all: seq<CodeRow>, k: Key, since: int)
    requires all != []
    ensures var r := all[|all| - 1];
            CountSince(all, k, since)
            == CountSince(all[..|all| - 1], k, since) + if Concerns(k, r.target, r.ip) && r.createdAt >= since then 1 else 0
  {
  }

  lemma KeptCountOfLast(all: seq<CodeRow>, cutoff: int, k: Key, since: int)
    requires all != []
    ensures var r := all[|all| - 1];
            CountSince(Kept(all, cutoff), k, since) == CountSince(Kept(all[..|all| - 1], cutoff), k, since)
              + if Concerns(k, r.target, r.ip) && r.createdAt >= since && r.expiresAt >= cutoff then 1 else 0
  {
    var front, r := Kept(all[..|all| - 1], cutoff), all[|all| - 1];
    CountAppend(front, r, k, since);
    assert front + [] == front;
  }

  lemma CountAppend(rows: seq<CodeRow>, r: CodeRow, k: Key, s: int)
    ensures CountSince(rows + [r], k, s)
         == CountSince(rows, k, s) + if Concerns(k, r.target, r.ip) && r.createdAt >= s then 1 else 0
  {
    assert (rows + [r])[..|rows|] == rows;
  }

  lemma CheckIsMove(s: State, id: nat, c: Call, k: Key, inFlight: nat, cleaning: bool) returns (m: RateLimit.Move)
    requires Timely(s) && (s.cutoff.Some? ==> cleaning)
    requires id !in s.calls && ValidTarget(c.target) && CheckSend(s.Rows(), c.target, c.ip, s.now) == MaySend
    requires |Pending(s.calls[id := c], k)| <= inFlight
    ensures RateLimit.Allowed(PolicyOf(k, inFlight, cleaning), ViewOf(s, k), m)
    ensures ViewOf(Next(s, Check(id, c)), k) == RateLimit.After(ViewOf(s, k), m)
  {
    PendingWith(s.calls, k, id, c);
    if Concerns(k, c.target, c.ip) {
      m := RateLimit.Pass;
      MaySendMeansBelowLimit(s, c, k, cleaning);
    } else {
      m := RateLimit.Idle;
    }
  }

  predicate BelowLimit(rows: seq<CodeRow>, k: Key, now: int) {
    CountSince(rows, k, now - WindowOf(k)) < if k.OfTarget? then TARGET_LIMIT else IP_LIMIT
  }

  lemma MaySendIffBothBelow(rows: seq<CodeRow>, target: string, ip: string, now: int)
    ensures CheckSend(rows, target, ip, now) == MaySend
       <==> BelowLimit(rows, OfTarget(target), now) && BelowLimit(rows, OfIp(ip), now)
  {
  }

  lemma MaySendMeansBelowLimit(s: State, c: Call, k: Key, cleaning: bool)
    requires Timely(s) && (s.cutoff.Some? ==> cleaning)
    requires CheckSend(s.Rows(), c.target, c.ip, s.now) == MaySend && Concerns(k, c.target, c.ip)
    ensures var p := PolicyOf(k, 0, cleaning);
            RateLimit.CountIn(Times(s.all, k), s.now - p.window, s.now) < p.limit
  {
    MaySendIffBothBelow(s.Rows(), c.target, c.ip, s.now);
    CountCoversWindow(s.all, s.cutoff, k, s.now - WindowOf(k), s.now - PolicyOf(k, 0, cleaning).window, s.now);
  }

  lemma CreateIsMove(s: State, id: nat, code: string, t: CodeType, k: Key, p: RateLimit.Policy) returns (m: RateLimit.Move)
    requires id in s.calls
    ensures RateLimit.Allowed(p, ViewOf(s, k), m)
    ensures ViewOf(Next(s, Create(id, code, t)), k) == RateLimit.After(ViewOf(s, k), m)
  {
    PendingWithout(s.calls, k, id);
    var r := NewCode(s, s.calls[id], code, t);
    assert (s.all + [r])[..|s.all|] == s.all;
    m := if Concerns(k, s.calls[id].target, s.calls[id].ip) then RateLimit.Write else RateLimit.Idle;
  }

  lemma StepIsMove(s: State, e: Event, k: Key, inFlight: nat, cleaning: bool) returns (m: RateLimit.Move)
    requires Timely(s) && (s.cutoff.Some? ==> cleaning) && |Pending(Next(s, e).calls, k)| <= inFlight
    ensures RateLimit.Allowed(PolicyOf(k, inFlight, cleaning), ViewOf(s, k), m)
    ensures ViewOf(Next(s, e), k) == RateLimit.After(ViewOf(s, k), m)
  {
    m := RateLimit.Idle;
    match e {
      case Check(id, c) =>
        if id !in s.calls && ValidTarget(c.target) && CheckSend(s.Rows(), c.target, c.ip, s.now) == MaySend {
          m := CheckIsMove(s, id, c, k, inFlight, cleaning);
        }
      case Create(id, code, t) =>
        if id in s.calls {
          m := CreateIsMove(s, id, code, t, k, PolicyOf(k, inFlight, cleaning));
        }
      case Drop(id) =>
        if id in s.calls {
          PendingWithout(s.calls, k, id);
          if Concerns(k, s.calls[id].target, s.calls[id].ip) {
            m := RateLimit.Abandon;
          }
        } else {
          assert s.calls - {id} == s.calls;
        }
      case Clean =>
      case Tick(to) =>
        if to >= s.now {
          m := RateLimit.Tick(to);
        }
    }
  }

  /** What one target or address sees of a run is a run of the limiter. */
  lemma {:induction false} RunIsLimited(es: seq<Event>, start: int, k: Key, inFlight: nat, cleaning: bool)
    returns (ms: seq<RateLimit.Move>)
    requires AtMostInFlight(es, start, k, inFlight)
    requires cleaning || Clean !in es
    ensures Timely(Run(es, start)) && (Run(es, start).cutoff.Some? ==> cleaning)
    ensures RateLimit.AllowedRun(PolicyOf(k, inFlight, cleaning), ms, start)
    ensures RateLimit.Run(ms, start) == ViewOf(Run(es, start), k)
  {
    ms := [];
    if es == [] {
      assert Pending(map[], k) == {};
    } else {
      var n := |es| - 1;
      ms := RunIsLimited(es[..n], start, k, inFlight, cleaning);
      var s := Run(es[..n], start);
      var m := StepIsMove(s, es[n], k, inFlight, cleaning);
      RateLimit.RunMore(PolicyOf(k, inFlight, cleaning), ms, m, start);
      RowsFollowStore(s, es[n]);
      ms := ms + [m];
    }
  }

  // ---------------------------------------------------------------- what cleanup takes away

  ghost predicate CountsWindow(all: seq<CodeRow>, cleaned: bool, k: Key, now: int) {
    if cleaned then CountSince(Kept(all, now), k, now - WindowOf(k)) == RateLimit.CountIn(Times(all, k), now - CODE_LIFETIME, now)
    else CountSince(all, k, now - WindowOf(k)) == RateLimit.CountIn(Times(all, k), now - WindowOf(k), now)
  }

  lemma CountsOneMore(all: seq<CodeRow>, cleaned: bool, k: Key, now: int)
    requires all != [] && CountsWindow(all[..|all| - 1], cleaned, k, now)
    requires var r := all[|all| - 1]; r.createdAt <= now && r.expiresAt == r.createdAt + CODE_LIFETIME
    ensures CountsWindow(all, cleaned, k, now)
  {
    if cleaned {
      TimesOfLast(all, k, now - CODE_LIFETIME, now);
      KeptCountOfLast(all, now, k, now - WindowOf(k));
    } else {
      TimesOfLast(all, k, now - WindowOf(k), now);
      CountOfLast(all, k, now - WindowOf(k));
    }
  }

  /** The window the check effectively counts: its own, or the life of a code when a cleanup comes just before it. */
  lemma {:induction false} CountAfterCleanup(all: seq<CodeRow>, cleaned: bool, k: Key, now: int)
    requires forall i :: 0 <= i < |all| ==> all[i].createdAt <= now && all[i].expiresAt == all[i].createdAt + CODE_LIFETIME
    ensures CountsWindow(all, cleaned, k, now)
  {
    if all != [] {
      var n := |all| - 1;
      CountAfterCleanup(all[..n], cleaned, k, now);
      assert all[n].createdAt <= now && all[n].expiresAt == all[n].createdAt + CODE_LIFETIME;
      CountsOneMore(all, cleaned, k, now);
    }
  }

  // ---------------------------------------------------------------- every run of the limiter is some run of sends

  /** Codes can be sent to this target, or from this address. */
  predicate Receives(k: Key) {
    k.OfTarget? ==> ValidTarget(k.target)
  }

  ghost predicate RowsKnown(rows: seq<CodeRow>, k: Key, n: nat) {
    forall i :: 0 <= i < |rows| ==> Known(k, n, rows[i].target, rows[i].ip)
  }

  /** All codes and calls are those of the first n of a family of callers that meet in k only. */
  ghost predicate FromFamily(s: State, k: Key, n: nat) {
    Timely(s) && RowsKnown(s.all, k, n) && CallsKnown(s.calls, k, n)
  }

  lemma {:induction false} OthersNeverSent(rows: seq<CodeRow>, k: Key, n: nat, since: int)
    requires RowsKnown(rows, k, n)
    ensures CountSince(rows, OtherKey(k, n), since) == 0
  {
    if rows != [] {
      var m := |rows| - 1;
      OthersNeverSent(rows[..m], k, n, since);
      KnownConcerns(k, n, rows[m].target, rows[m].ip);
    }
  }

  lemma {:induction false} KeptAreKnown(rows: seq<CodeRow>, k: Key, n: nat, cutoff: int)
    requires RowsKnown(rows, k, n)
    ensures RowsKnown(Kept(rows, cutoff), k, n)
  {
    if rows != [] {
      var front, last := rows[..|rows| - 1], rows[|rows| - 1];
      KeptAreKnown(front, k, n, cutoff);
      forall i | 0 <= i < |Kept(rows, cutoff)|
        ensures Known(k, n, Kept(rows, cutoff)[i].target, Kept(rows, cutoff)[i].ip)
      {
        assert Kept(rows, cutoff)[i] == if i < |Kept(front, cutoff)| then Kept(front, cutoff)[i] else last;
      }
    }
  }

  /** A cleanup at this instant, or none ever. */
  predicate CleanedNow(s: State, cleaning: bool) {
    s.cutoff == if cleaning then Some(s.now) else None
  }

  lemma KeyIsBelowLimit(s: State, k: Key, inFlight: nat, cleaning: bool)
    requires Timely(s) && CleanedNow(s, cleaning)
    requires RateLimit.Allowed(PolicyOf(k, inFlight, cleaning), ViewOf(s, k), RateLimit.Pass)
    ensures BelowLimit(s.Rows(), k, s.now)
  {
    CountAfterCleanup(s.all, cleaning, k, s.now);
  }

  lemma OtherKeyIsBelowLimit(s: State, k: Key, n: nat)
    requires FromFamily(s, k, n)
    ensures BelowLimit(s.Rows(), OtherKey(k, n), s.now)
  {
    if s.cutoff.Some? {
      KeptAreKnown(s.all, k, n, s.cutoff.value);
    }
    OthersNeverSent(s.Rows(), k, n, s.now - WindowOf(OtherKey(k, n)));
  }

  /** While k is below its limit the next caller of the family may send. */
  lemma NextCallerMaySend(s: State, k: Key, n: nat, inFlight: nat, cleaning: bool)
    requires FromFamily(s, k, n) && CleanedNow(s, cleaning)
    requires RateLimit.Allowed(PolicyOf(k, inFlight, cleaning), ViewOf(s, k), RateLimit.Pass)
    ensures CheckSend(s.Rows(), CallFor(k, n).target, CallFor(k, n).ip, s.now) == MaySend
  {
    KeyIsBelowLimit(s, k, inFlight, cleaning);
    OtherKeyIsBelowLimit(s, k, n);
    MaySendIffBothBelow(s.Rows(), CallFor(k, n).target, CallFor(k, n).ip, s.now);
  }

  lemma FamilyGrows(s: State, k: Key, n: nat)
    requires FromFamily(s, k, n)
    ensures FromFamily(s, k, n + 1)
  {
    forall i | 0 <= i < |s.all|
      ensures Known(k, n + 1, s.all[i].target, s.all[i].ip)
    {
      KnownConcerns(k, n, s.all[i].target, s.all[i].ip);
    }
    CallsStayKnown(s.calls, k, n);
  }

  lemma PassRealised(s: State, k: Key, n: nat, inFlight: nat, cleaning: bool)
    requires Receives(k) && FromFamily(s, k, n) && CleanedNow(s, cleaning)
    requires RateLimit.Allowed(PolicyOf(k, inFlight, cleaning), ViewOf(s, k), RateLimit.Pass)
    ensures var s' := Next(s, Check(n, CallFor(k, n)));
            ViewOf(s', k) == RateLimit.After(ViewOf(s, k), RateLimit.Pass) && FromFamily(s', k, n + 1)
  {
    NextCallerMaySend(s, k, n, inFlight, cleaning);
    CallIsValid(k, n);
    NextJoins(s.calls, k, n);
    FamilyGrows(s, k, n);
  }

  lemma WriteRealised(s: State, k: Key, n: nat, id: nat)
    requires FromFamily(s, k, n) && id in s.calls
    ensures var s' := Next(s, Create(id, "", LOGIN));
            ViewOf(s', k) == RateLimit.After(ViewOf(s, k), RateLimit.Write) && FromFamily(s', k, n)
  {
    KnownConcerns(k, n, s.calls[id].target, s.calls[id].ip);
    PendingWithout(s.calls, k, id);
    var r := NewCode(s, s.calls[id], "", LOGIN);
    assert (s.all + [r])[..|s.all|] == s.all;
  }

  lemma AbandonRealised(s: State, k: Key, n: nat, id: nat)
    requires FromFamily(s, k, n) && id in s.calls
    ensures var s' := Next(s, Drop(id));
            ViewOf(s', k) == RateLimit.After(ViewOf(s, k), RateLimit.Abandon) && FromFamily(s', k, n)
  {
    KnownConcerns(k, n, s.calls[id].target, s.calls[id].ip);
    PendingWithout(s.calls, k, id);
  }

  /** With cleanup allowed, a cleanup at once; without, nothing at all. */
  lemma CleanFirst(s: State, k: Key, n: nat, cleaning: bool) returns (es: seq<Event>)
    requires FromFamily(s, k, n) && (s.cutoff.Some? ==> cleaning)
    ensures es == if cleaning then [Clean] else []
    ensures var s' := if cleaning then Next(s, Clean) else s;
            CleanedNow(s', cleaning) && ViewOf(s', k) == ViewOf(s, k) && FromFamily(s', k, n)
  {
    es := if cleaning then [Clean] else [];
  }

  /** Every allowed move of the limiter is an event of sends, after a cleanup where there may be one. */
  lemma MoveIsEvent(s: State, k: Key, n: nat, inFlight: nat, cleaning: bool, m: RateLimit.Move) returns (e: Event)
    requires Receives(k) && FromFamily(s, k, n) && CleanedNow(s, cleaning)
    requires RateLimit.Allowed(PolicyOf(k, inFlight, cleaning), ViewOf(s, k), m)
    ensures e != Clean && Next(s, e).cutoff == s.cutoff
    ensures ViewOf(Next(s, e), k) == RateLimit.After(ViewOf(s, k), m) && FromFamily(Next(s, e), k, n + 1)
  {
    FamilyGrows(s, k, n);
    match m {
      case Pass =>
        e := Check(n, CallFor(k, n));
        PassRealised(s, k, n, inFlight, cleaning);
      case Write =>
        var id := SomeoneIsPending(s.calls, k);
        e := Create(id, "", LOGIN);
        WriteRealised(s, k, n, id);
        FamilyGrows(Next(s, e), k, n);
      case Abandon =>
        var id := SomeoneIsPending(s.calls, k);
        e := Drop(id);
        AbandonRealised(s, k, n, id);
        FamilyGrows(Next(s, e), k, n);
      case Tick(to) => e := Tick(to);
      case Idle =>
        e := Drop(n);
        assert s.calls - {n} == s.calls;
    }
  }

  lemma RunMore(es: seq<Event>, e: Event, start: int, k: Key, n: nat)
    requires AtMostInFlight(es, start, k, n) && |Pending(Next(Run(es, start), e).calls, k)| <= n
    ensures AtMostInFlight(es + [e], start, k, n) && Run(es + [e], start) == Next(Run(es, start), e)
  {
    assert (es + [e])[..|es|] == es;
  }

  /** Whatever the limiter can do with one key, sends can do with any address and any target that can receive codes. */
  lemma {:induction false} LimiterIsRealised(ms: seq<RateLimit.Move>, start: int, k: Key, inFlight: nat, cleaning: bool)
    returns (es: seq<Event>)
    requires Receives(k) && RateLimit.AllowedRun(PolicyOf(k, inFlight, cleaning), ms, start)
    ensures AtMostInFlight(es, start, k, inFlight) && (cleaning || Clean !in es)
    ensures ViewOf(Run(es, start), k) == RateLimit.Run(ms, start)
    ensures FromFamily(Run(es, start), k, |ms|) && (Run(es, start).cutoff.Some? ==> cleaning)
  {
    es := [];
    if ms == [] {
      assert Pending(map[], k) == {};
    } else {
      var front, m := ms[..|ms| - 1], ms[|ms| - 1];
      es := LimiterIsRealised(front, start, k, inFlight, cleaning);
      RateLimit.PendingFits(PolicyOf(k, inFlight, cleaning), ms, start);
      RateLimit.PendingFits(PolicyOf(k, inFlight, cleaning), front, start);
      var clean := CleanFirst(Run(es, start), k, |front|, cleaning);
      if cleaning {
        RunMore(es, Clean, start, k, inFlight);
        es := es + [Clean];
      }
      var e := MoveIsEvent(Run(es, start), k, |front|, inFlight, cleaning, m);
      RunMore(es, e, start, k, inFlight);
      es := es + [e];
    }
  }

  // ---------------------------------------------------------------- the bounds

  /** With at most n sends for k in flight, every closed window of length w holds at most b codes of k. */
  ghost predicate CodesWithin(k: Key, n: nat, cleaning: bool, w: nat, b: int) {
    forall es, from :: AtMostInFlight(es, 0, k, n) && (cleaning || Clean !in es) ==>
      RateLimit.InWindow(Times(Run(es, 0).all, k), from, w) <= b
  }

  /** Sends to or from a key that receives codes obey a bound exactly when the limiter does. */
  lemma BoundsAreTheLimiters(k: Key, n: nat, cleaning: bool, w: nat, b: int)
    requires Receives(k)
    ensures CodesWithin(k, n, cleaning, w, b) <==> RateLimit.Holds(PolicyOf(k, n, cleaning), w, b)
  {
    if RateLimit.Holds(PolicyOf(k, n, cleaning), w, b) {
      forall es, from | AtMostInFlight(es, 0, k, n) && (cleaning || Clean !in es)
        ensures RateLimit.InWindow(Times(Run(es, 0).all, k), from, w) <= b
      {
        var ms := RunIsLimited(es, 0, k, n, cleaning);
        assert RateLimit.InWindow(RateLimit.Run(ms, 0).sent, from, w) <= b;
      }
    }
    if CodesWithin(k, n, cleaning, w, b) {
      forall ms, from | RateLimit.AllowedRun(PolicyOf(k, n, cleaning), ms, 0)
        ensures RateLimit.InWindow(RateLimit.Run(ms, 0).sent, from, w) <= b
      {
        var es := LimiterIsRealised(ms, 0, k, n, cleaning);
        assert RateLimit.InWindow(Times(Run(es, 0).all, k), from, w) <= b;
      }
    }
  }

  function Limit(k: Key): nat {
    if k.OfTarget? then TARGET_LIMIT else IP_LIMIT
  }

  /**
   * Without cleanup and with at most n >= 1 sends for a target or address in flight: at most 4 + n codes per target in
   * any hour and 19 + n per address in any day, no smaller bound, and for longer windows not even these.
   */
  lemma CodesAreBounded(k: Key, n: nat, w: nat, b: int)
    requires n >= 1
    ensures Receives(k) && w <= WindowOf(k) ==> (CodesWithin(k, n, false, w, b) <==> b >= Limit(k) - 1 + n)
    ensures Receives(k) ==> (CodesWithin(k, n, false, w, Limit(k) - 1 + n) <==> w <= WindowOf(k))
    ensures !Receives(k) ==> (CodesWithin(k, n, false, w, b) <==> b >= 0)
  {
    if Receives(k) {
      BoundsAreTheLimiters(k, n, false, w, b);
      BoundsAreTheLimiters(k, n, false, w, Limit(k) - 1 + n);
      RateLimit.BoundHoldsIffWindowFits(PolicyOf(k, n, false), w);
      if w <= WindowOf(k) {
        RateLimit.BoundIsExact(PolicyOf(k, n, false), w, b);
      }
    } else {
      NoCodesElsewhere(k, n, false, w, b);
    }
  }

  /** With cleanup at any time the same bounds hold, and are exact, just for windows of at most five minutes. */
  lemma CodesAreBoundedUnderCleanup(k: Key, n: nat, w: nat, b: int)
    requires n >= 1
    ensures Receives(k) && w <= CODE_LIFETIME ==> (CodesWithin(k, n, true, w, b) <==> b >= Limit(k) - 1 + n)
    ensures Receives(k) ==> (CodesWithin(k, n, true, w, Limit(k) - 1 + n) <==> w <= CODE_LIFETIME)
    ensures !Receives(k) ==> (CodesWithin(k, n, true, w, b) <==> b >= 0)
  {
    if Receives(k) {
      BoundsAreTheLimiters(k, n, true, w, b);
      BoundsAreTheLimiters(k, n, true, w, Limit(k) - 1 + n);
      RateLimit.BoundHoldsIffWindowFits(PolicyOf(k, n, true), w);
      if w <= CODE_LIFETIME {
        RateLimit.BoundIsExact(PolicyOf(k, n, true), w, b);
      }
    } else {
      NoCodesElsewhere(k, n, true, w, b);
    }
  }

  /** A target that is neither mail nor phone is never sent a code. */
  lemma {:induction false} NoCodesInRun(es: seq<Event>, start: int, k: Key)
    requires !Receives(k)
    ensures Times(Run(es, start).all, k) == [] && Pending(Run(es, start).calls, k) == {}
  {
    if es != [] {
      var n := |es| - 1;
      NoCodesInRun(es[..n], start, k);
      NoCodesInStep(Run(es[..n], start), es[n], k);
    }
  }

  lemma NoCodesInStep(s: State, e: Event, k: Key)
    requires !Receives(k) && Times(s.all, k) == [] && Pending(s.calls, k) == {}
    ensures Times(Next(s, e).all, k) == [] && Pending(Next(s, e).calls, k) == {}
  {
    if e.Create? && e.ofCall in s.calls {
      var r := NewCode(s, s.calls[e.ofCall], e.code, e.codeType);
      assert (s.all + [r])[..|s.all|] == s.all;
      assert e.ofCall !in Pending(s.calls, k);
    }
    forall id | id in Next(s, e).calls
      ensures id !in Pending(Next(s, e).calls, k)
    {
      assert id !in Pending(s.calls, k);
    }
  }

  lemma NoCodesElsewhere(k: Key, n: nat, cleaning: bool, w: nat, b: int)
    requires !Receives(k)
    ensures CodesWithin(k, n, cleaning, w, b) <==> b >= 0
  {
    if b >= 0 {
      forall es, from | AtMostInFlight(es, 0, k, n) && (cleaning || Clean !in es)
        ensures RateLimit.InWindow(Times(Run(es, 0).all, k), from, w) <= b
      {
        NoCodesInRun(es, 0, k);
      }
    } else {
      NoCodesInRun([], 0, k);
      assert AtMostInFlight([], 0, k, n) && RateLimit.InWindow(Times(Run([], 0).all, k), 0, w) > b;
    }
  }

  /** The limits as written bound the codes, one send at a time, exactly up to the code lifetime when there is cleanup. */
  lemma WrittenLimitSurvivesCleanupIff(k: Key, w: nat)
    ensures CodesWithin(k, 1, true, w, Limit(k)) <==> w <= CODE_LIFETIME || !Receives(k)
  {
    CodesAreBoundedUnderCleanup(k, 1, w, Limit(k));
  }

  /** Without cleanup they bound the codes of their own window exactly when sends come one at a time. */
  lemma WrittenLimitHoldsIffOneAtATime(k: Key, n: nat)
    requires n >= 1
    ensures CodesWithin(k, n, false, WindowOf(k), Limit(k)) <==> n == 1 || !Receives(k)
  {
    CodesAreBounded(k, n, WindowOf(k), Limit(k));
  }

  /** Nothing keeps two codes for one target apart in time: windows of any length, also of one instant, may hold five. */
  lemma NoMinimumDistance(target: string, w: nat)
    ensures CodesWithin(OfTarget(target), 1, false, w, TARGET_LIMIT - 1) <==> !ValidTarget(target)
  {
    CodesAreBounded(OfTarget(target), 1, w, TARGET_LIMIT - 1);
    CodesAreBounded(OfTarget(target), 1, w, TARGET_LIMIT);
    if w > ONE_HOUR && CodesWithin(OfTarget(target), 1, false, w, TARGET_LIMIT - 1) {
      LargerBound(OfTarget(target), w);
    }
  }

  lemma LargerBound(k: Key, w: nat)
    requires CodesWithin(k, 1, false, w, Limit(k) - 1)
    ensures CodesWithin(k, 1, false, w, Limit(k))
  {
    forall es, from | AtMostInFlight(es, 0, k, 1) && Clean !in es
      ensures RateLimit.InWindow(Times(Run(es, 0).all, k), from, w) <= Limit(k)
    {
      assert RateLimit.InWindow(Times(Run(es, 0).all, k), from, w) <= Limit(k) - 1;
    }
  }
}

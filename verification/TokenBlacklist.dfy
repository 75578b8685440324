/** The two-store blacklist of token-blacklist.service.ts, its clock and its timers. */
module TokenBlacklist {
  import opened Common

  datatype Scope = Access | Refresh

  /** What decoding a token yields; `jti` and `exp` are the claims of RFC 7519, sections 4.1.7 and 4.1.4. */
  datatype Claims = Claims(jti: Option<string>, exp: Option<int>)

  datatype Added = Added(jti: Option<string>, added: bool)

  /** A scheduled deletion from the in-memory map. */
  datatype Timer = Timer(key: string, at: int)

  function ComposeKey(scope: Scope, jti: string): string {
    "jwt:blacklist:" + (if scope == Access then "access" else "refresh") + ":" + jti
  }

  lemma KeysAreDistinct(s: Scope, j: string, s': Scope, j': string)
    ensures ComposeKey(s, j) == ComposeKey(s', j') <==> s == s' && j == j'
  {
    var p, a, r := "jwt:blacklist:", "jwt:blacklist:access:", "jwt:blacklist:refresh:";
    assert forall k: string :: ComposeKey(Access, k) == a + k && ComposeKey(Refresh, k) == r + k;
    assert (a + j)[|p|] == 'a' && (r + j')[|p|] == 'r' && (r + j)[|p|] == 'r' && (a + j')[|p|] == 'a';
    assert (a + j)[|a|..] == j && (a + j')[|a|..] == j' && (r + j)[|r|..] == j && (r + j')[|r|..] == j';
  }

  /** Node runs a timer at once, after 1 ms, when its delay does not fit 31 bits. */
  const MAX_DELAY := 2147483647

  function FireTime(now: int, ttlMs: int): int {
    now + if ttlMs > MAX_DELAY then 1 else ttlMs
  }

  /** redis maps a key to the instant it expires; local maps a key to the token's expiry. */
  datatype Stores = Stores(redis: map<string, int>, local: map<string, int>, timers: multiset<Timer>)

  const EMPTY := Stores(map[], map[], multiset{})

  predicate Usable(c: Option<Claims>, now: int) {
    c.Some? && c.value.jti.Some? && c.value.jti.value != "" && c.value.exp.Some? && c.value.exp.value != 0
    && c.value.exp.value * 1000 - now > 0
  }

  function TtlSeconds(ttlMs: int): int {
    if ttlMs / 1000 > 1 then ttlMs / 1000 else 1
  }

  /** redisWorks: Redis is ready and its SET succeeds. */
  function Add(s: Stores, c: Option<Claims>, scope: Scope, now: int, redisWorks: bool): Stores {
    if !Usable(c, now) then s
    else
      var key := ComposeKey(scope, c.value.jti.value);
      var ttlMs := c.value.exp.value * 1000 - now;
      if redisWorks then s.(redis := s.redis[key := now + TtlSeconds(ttlMs) * 1000])
      else s.(local := s.local[key := c.value.exp.value * 1000], timers := s.timers + multiset{Timer(key, FireTime(now, ttlMs))})
  }

  /** One entry is written to one of the stores and a timer set for the second; nothing else changes. */
  ghost predicate AddedInWords(before: Stores, after: Stores, key: string, expiry: int, now: int, redisWorks: bool) {
    if redisWorks then
      && after.local == before.local && after.timers == before.timers
      && after.redis.Keys == before.redis.Keys + {key}
      && (forall k :: k in before.redis && k != key ==> after.redis[k] == before.redis[k])
      && expiry - 1000 < after.redis[key] && (after.redis[key] <= expiry || after.redis[key] == now + 1000)
    else
      && after.redis == before.redis && after.local == before.local[key := expiry]
      && after.timers == before.timers + multiset{Timer(key, if expiry - now >= 0x8000_0000 then now + 1 else expiry)}
  }

  /** redisWorks: Redis is ready and its EXISTS succeeds. */
  predicate Reported(s: Stores, key: string, now: int, redisWorks: bool) {
    if redisWorks then key in s.redis && now < s.redis[key]
    else key in s.local && s.local[key] != 0 && now <= s.local[key]
  }

  /** A lookup drops a stale in-memory entry. */
  function Lookup(s: Stores, key: string, now: int, redisWorks: bool): Stores {
    if !redisWorks && key in s.local && s.local[key] != 0 && now > s.local[key] then s.(local := s.local - {key}) else s
  }

  predicate Due(s: Stores, now: int, t: Timer) {
    t in s.timers && t.at <= now
  }

  /** A timer that is due runs, at any later moment. */
  function Fire(s: Stores, now: int, t: Timer): Stores {
    if Due(s, now, t) then Stores(s.redis, s.local - {t.key}, s.timers - multiset{t}) else s
  }

  /** A token without a jti or an expiry to come changes nothing; any other is one entry. */
  lemma AddIsOneEntry(s: Stores, c: Option<Claims>, scope: Scope, now: int, redisWorks: bool)
    ensures var after := Add(s, c, scope, now, redisWorks);
            if c.Some? && c.value.jti.Some? && c.value.jti.value != "" && c.value.exp.Some? && c.value.exp.value != 0
               && c.value.exp.value * 1000 > now
            then AddedInWords(s, after, ComposeKey(scope, c.value.jti.value), c.value.exp.value * 1000, now, redisWorks)
            else after == s
  {
    if Usable(c, now) {
      var ttlMs := c.value.exp.value * 1000 - now;
      assert TtlSeconds(ttlMs) * 1000 > ttlMs - 1000 && (TtlSeconds(ttlMs) * 1000 <= ttlMs || TtlSeconds(ttlMs) == 1);
    }
  }

  class TokenBlacklistService {
    var redis: map<string, int>
    var local: map<string, int>
    var timers: multiset<Timer>

    constructor ()
      ensures Model() == EMPTY
    {
      redis, local, timers := map[], map[], multiset{};
    }

    function Model(): Stores
      reads this
    {
      Stores(redis, local, timers)
    }

    method AddToken(c: Option<Claims>, scope: Scope, now: int, ready: bool, setOk: bool) returns (r: Added)
      modifies this
      ensures Model() == Add(old(Model()), c, scope, now, ready && setOk)
      ensures r.added == Usable(c, now) && r.jti == if c.Some? then c.value.jti else None
    {
      if c.None? {
        return Added(None, false);
      }
      var Claims(jti, exp) := c.value;
      if jti.None? || jti.value == "" || exp.None? || exp.value == 0 {
        return Added(jti, false);
      }
      var expiresAtMs := exp.value * 1000;
      var ttlMs := expiresAtMs - now;
      if ttlMs <= 0 {
        return Added(jti, false);
      }
      var ttlSec := if ttlMs / 1000 > 1 then ttlMs / 1000 else 1;
      var key := ComposeKey(scope, jti.value);
      if ready && setOk {
        redis := redis[key := now + ttlSec * 1000];
      } else {
        KeepLocally(key, expiresAtMs, now);
      }
      return Added(jti, true);
    }

    method KeepLocally(key: string, expiresAtMs: int, now: int)
      modifies this
      ensures redis == old(redis) && local == old(local)[key := expiresAtMs]
      ensures timers == old(timers) + multiset{Timer(key, FireTime(now, expiresAtMs - now))}
    {
      local := local[key := expiresAtMs];
      timers := timers + multiset{Timer(key, FireTime(now, expiresAtMs - now))};
    }

    method IsTokenBlacklisted(jti: string, scope: Scope, now: int, ready: bool, existsOk: bool) returns (r: bool)
      modifies this
      ensures r == Reported(old(Model()), ComposeKey(scope, jti), now, ready && existsOk)
      ensures Model() == Lookup(old(Model()), ComposeKey(scope, jti), now, ready && existsOk)
    {
      var key := ComposeKey(scope, jti);
      if ready && existsOk {
        return key in redis && now < redis[key];
      }
      if key !in local || local[key] == 0 {
        return false;
      }
      if now > local[key] {
        local := local - {key};
        return false;
      }
      return true;
    }

    method FireTimer(now: int, t: Timer)
      modifies this
      ensures Model() == Fire(old(Model()), now, t)
    {
      if t in timers && t.at <= now {
        local := local - {t.key};
        timers := timers - multiset{t};
      }
    }
  }

  /** A lookup in memory leaves the key's entry exactly when it reports it, and no other entry changes. */
  lemma LookupDropsStale(s: Stores, key: string, now: int)
    requires key in s.local ==> s.local[key] != 0
    ensures var after := Lookup(s, key, now, false);
            && (key in after.local <==> Reported(s, key, now, false)) && after.local == s.local - ({key} - after.local.Keys)
            && after.redis == s.redis && after.timers == s.timers && Lookup(s, key, now, true) == s
  {
  }

  // ---------------------------------------------------------------- runs

  datatype Event =
    | Adding(claims: Option<Claims>, scope: Scope, addWorks: bool)
    | Looking(key: string, lookWorks: bool)
    | Firing(timer: Timer)

  /** One thing happening at one instant. */
  datatype Timed = Timed(now: int, event: Event)

  function Next(s: Stores, t: Timed): Stores {
    match t.event
    case Adding(c, scope, works) => Add(s, c, scope, t.now, works)
    case Looking(key, works) => Lookup(s, key, t.now, works)
    case Firing(timer) => Fire(s, t.now, timer)
  }

  function Run(ts: seq<Timed>): Stores {
    if ts == [] then EMPTY else Next(Run(ts[..|ts| - 1]), ts[|ts| - 1])
  }

  /** An add that goes through to a store, Redis if works, under this key; nobody has verified what it claims. */
  predicate IsAdd(t: Timed, key: string, works: bool) {
    && t.event.Adding? && t.event.addWorks == works && Usable(t.event.claims, t.now)
    && ComposeKey(t.event.scope, t.event.claims.value.jti.value) == key
  }

  /** The claimed expiry. */
  function Expiry(t: Timed): int
    requires t.event.Adding? && Usable(t.event.claims, t.now)
  {
    t.event.claims.value.exp.value * 1000
  }

  /** When Redis lets the entry go. */
  function RedisUntil(t: Timed): (until: int)
    requires t.event.Adding? && Usable(t.event.claims, t.now)
    ensures Expiry(t) - 1000 < until < Expiry(t) + 1000 && (until <= Expiry(t) || until == t.now + 1000)
  {
    t.now + TtlSeconds(Expiry(t) - t.now) * 1000
  }

  /** When the entry's timer is due. */
  function TimerAt(t: Timed): (at: int)
    requires t.event.Adding? && Usable(t.event.claims, t.now)
    ensures at <= Expiry(t)
  {
    FireTime(t.now, Expiry(t) - t.now)
  }

  /** The last add to the store under the key. */
  ghost predicate LastAdd(ts: seq<Timed>, key: string, works: bool, i: nat) {
    i < |ts| && IsAdd(ts[i], key, works) && forall k :: i < k < |ts| ==> !IsAdd(ts[k], key, works)
  }

  ghost predicate InTime(ts: seq<Timed>, now: int) {
    forall t :: t in ts ==> t.now <= now
  }

  // ---------------------------------------------------------------- Redis

  lemma RedisAfter(s: Stores, t: Timed, key: string)
    ensures var s' := Next(s, t);
            if IsAdd(t, key, true) then key in s'.redis && s'.redis[key] == RedisUntil(t)
            else (key in s'.redis <==> key in s.redis) && (key in s.redis ==> s'.redis[key] == s.redis[key])
  {
  }

  lemma LastAddOneMore(ts: seq<Timed>, key: string, works: bool)
    requires ts != []
    ensures var n := |ts| - 1;
            forall i: nat :: LastAdd(ts, key, works, i) <==>
                               if IsAdd(ts[n], key, works) then i == n else LastAdd(ts[..n], key, works, i)
  {
  }

  lemma {:induction false} RedisHasLastAdd(ts: seq<Timed>, key: string)
    ensures key in Run(ts).redis <==> exists i: nat :: LastAdd(ts, key, true, i)
    ensures forall i: nat :: LastAdd(ts, key, true, i) ==> Run(ts).redis[key] == RedisUntil(ts[i])
  {
    if ts != [] {
      var n := |ts| - 1;
      RedisHasLastAdd(ts[..n], key);
      RedisAfter(Run(ts[..n]), ts[n], key);
      LastAddOneMore(ts, key, true);
      assert IsAdd(ts[n], key, true) ==> LastAdd(ts, key, true, n);
    }
  }

  /** Redis reports a key exactly as long as its last add holds, earlier ones notwithstanding. */
  lemma RedisReportsIff(ts: seq<Timed>, key: string, now: int)
    ensures Reported(Run(ts), key, now, true) <==> exists i: nat :: LastAdd(ts, key, true, i) && now < RedisUntil(ts[i])
  {
    RedisHasLastAdd(ts, key);
  }

  // ---------------------------------------------------------------- memory

  /** This event runs a timer of the key. */
  predicate Removes(s: Stores, t: Timed, key: string) {
    t.event.Firing? && t.event.timer.key == key && Due(s, t.now, t.event.timer)
  }

  predicate RemovedAt(ts: seq<Timed>, key: string, k: nat)
    requires k < |ts|
  {
    Removes(Run(ts[..k]), ts[k], key)
  }

  /** The last add to memory under the key, with no timer of the key run since. */
  ghost predicate Stands(ts: seq<Timed>, key: string, i: nat) {
    LastAdd(ts, key, false, i) && forall k :: i < k < |ts| ==> !RemovedAt(ts, key, k)
  }

  lemma StandsOneMore(ts: seq<Timed>, key: string, i: nat)
    requires ts != []
    ensures var n := |ts| - 1;
            Stands(ts, key, i) <==> if i == n then IsAdd(ts[n], key, false)
                                    else Stands(ts[..n], key, i) && !IsAdd(ts[n], key, false) && !RemovedAt(ts, key, n)
  {
    var n := |ts| - 1;
    LastAddOneMore(ts, key, false);
    forall k: nat | k < n
      ensures RemovedAt(ts[..n], key, k) == RemovedAt(ts, key, k)
    {
      assert ts[..n][..k] == ts[..k];
    }
  }

  lemma MemoryAfter(s: Stores, t: Timed, key: string)
    ensures var s' := Next(s, t);
            if IsAdd(t, key, false) then key in s'.local && s'.local[key] == Expiry(t)
            else if Removes(s, t, key) then key !in s'.local
            else (key in s'.local ==> key in s.local && s'.local[key] == s.local[key])
                 && (key in s.local && t.now <= s.local[key] ==> key in s'.local)
  {
  }

  lemma {:induction false} MemoryIsAnAdd(ts: seq<Timed>, key: string)
    requires key in Run(ts).local
    ensures exists i: nat :: Stands(ts, key, i) && Run(ts).local[key] == Expiry(ts[i])
  {
    var n := |ts| - 1;
    MemoryAfter(Run(ts[..n]), ts[n], key);
    if IsAdd(ts[n], key, false) {
      StandsOneMore(ts, key, n);
    } else {
      MemoryIsAnAdd(ts[..n], key);
      var i: nat :| Stands(ts[..n], key, i) && Run(ts[..n]).local[key] == Expiry(ts[..n][i]);
      StandsOneMore(ts, key, i);
    }
  }

  lemma {:induction false} StandingIsInMemory(ts: seq<Timed>, key: string, i: nat)
    requires Stands(ts, key, i) && InTime(ts, Expiry(ts[i]))
    ensures key in Run(ts).local && Run(ts).local[key] == Expiry(ts[i])
  {
    var n := |ts| - 1;
    StandsOneMore(ts, key, i);
    MemoryAfter(Run(ts[..n]), ts[n], key);
    if i < n {
      StandingIsInMemory(ts[..n], key, i);
      assert ts[n] in ts;
    }
  }

  /** Memory reports a key exactly while its last add has not expired and no timer of the key, whoever set it, has run since. */
  lemma MemoryReportsIff(ts: seq<Timed>, key: string, now: int)
    requires InTime(ts, now)
    ensures Reported(Run(ts), key, now, false) <==> exists i: nat :: Stands(ts, key, i) && now <= Expiry(ts[i])
  {
    if Reported(Run(ts), key, now, false) {
      MemoryIsAnAdd(ts, key);
    }
    if i: nat :| Stands(ts, key, i) && now <= Expiry(ts[i]) {
      StandingIsInMemory(ts, key, i);
    }
  }

  // ---------------------------------------------------------------- whatever the timers do

  /** The run without its timers. */
  function Plan(ts: seq<Timed>): seq<Timed> {
    if ts == [] then [] else Plan(ts[..|ts| - 1]) + if ts[|ts| - 1].event.Firing? then [] else [ts[|ts| - 1]]
  }

  lemma {:induction false} PlanHolds(ts: seq<Timed>, t: Timed)
    ensures t in Plan(ts) <==> t in ts && !t.event.Firing?
  {
    if ts != [] {
      var n := |ts| - 1;
      PlanHolds(ts[..n], t);
      assert t in ts <==> t in ts[..n] || t == ts[n];
    }
  }

  ghost predicate Unfired(ts: seq<Timed>) {
    forall i :: 0 <= i < |ts| ==> !ts[i].event.Firing?
  }

  lemma PlanOneMore(ts: seq<Timed>)
    requires ts != [] && !ts[|ts| - 1].event.Firing?
    ensures Plan(ts) == Plan(ts[..|ts| - 1]) + [ts[|ts| - 1]]
  {
  }

  lemma {:induction false} PlanOfUnfired(ts: seq<Timed>)
    requires Unfired(ts)
    ensures Plan(ts) == ts
  {
    if ts != [] {
      var n := |ts| - 1;
      PlanOfUnfired(ts[..n]);
      PlanOneMore(ts);
      assert ts[..n] + [ts[n]] == ts;
    }
  }

  /** Every timer was set by an add, and stays until it runs. */
  lemma {:induction false} TimersAreOfAdds(ts: seq<Timed>, timer: Timer)
    ensures timer in Run(ts).timers ==> exists t :: t in ts && IsAdd(t, timer.key, false) && TimerAt(t) == timer.at
    ensures Unfired(ts) ==>
              forall t :: t in ts && IsAdd(t, timer.key, false) && TimerAt(t) == timer.at ==> timer in Run(ts).timers
  {
    if ts != [] {
      var n := |ts| - 1;
      TimersAreOfAdds(ts[..n], timer);
      TimerAfter(Run(ts[..n]), ts[n], timer);
      assert forall t :: t in ts <==> t in ts[..n] || t == ts[n];
    }
  }

  lemma TimerAfter(s: Stores, t: Timed, timer: Timer)
    ensures timer in Next(s, t).timers ==> timer in s.timers || (IsAdd(t, timer.key, false) && TimerAt(t) == timer.at)
    ensures !t.event.Firing? ==>
              (timer in Next(s, t).timers <==> timer in s.timers || (IsAdd(t, timer.key, false) && TimerAt(t) == timer.at))
  {
  }

  /** However the timers run, memory reports the key. */
  ghost predicate SurelyReported(plan: seq<Timed>, key: string, now: int) {
    forall ts :: Plan(ts) == plan && InTime(ts, now) ==> Reported(Run(ts), key, now, false)
  }

  /** No timer set for the key is due. */
  ghost predicate NoneDue(ts: seq<Timed>, key: string, now: int) {
    forall t :: t in ts && IsAdd(t, key, false) ==> now < TimerAt(t)
  }

  /**
   * Memory is sure to report a key exactly when it was added there and no add under it, earlier or later, names an
   * expiry that is due by now or one so far that its timer is due after a millisecond.
   */
  lemma MemorySurelyReportsIff(plan: seq<Timed>, key: string, now: int)
    requires InTime(plan, now) && Unfired(plan)
    ensures SurelyReported(plan, key, now) <==> (exists t :: t in plan && IsAdd(t, key, false)) && NoneDue(plan, key, now)
  {
    PlanOfUnfired(plan);
    if SurelyReported(plan, key, now) {
      assert Reported(Run(plan), key, now, false);
      ReportedWasAdded(plan, key, now);
      forall t | t in plan && IsAdd(t, key, false)
        ensures now < TimerAt(t)
      {
        if TimerAt(t) <= now {
          DueTimerRemoves(plan, key, now, t);
        }
      }
    }
    if (exists t :: t in plan && IsAdd(t, key, false)) && NoneDue(plan, key, now) {
      forall ts | Plan(ts) == plan && InTime(ts, now)
        ensures Reported(Run(ts), key, now, false)
      {
        UndueTimersStay(ts, key, now);
      }
    }
  }

  lemma ReportedWasAdded(ts: seq<Timed>, key: string, now: int)
    requires Reported(Run(ts), key, now, false)
    ensures exists t :: t in ts && IsAdd(t, key, false)
  {
    MemoryIsAnAdd(ts, key);
    var i: nat :| Stands(ts, key, i);
    assert ts[i] in ts;
  }

  lemma DueTimerRemoves(plan: seq<Timed>, key: string, now: int, t: Timed)
    requires InTime(plan, now) && Unfired(plan)
    requires t in plan && IsAdd(t, key, false) && TimerAt(t) <= now
    ensures !SurelyReported(plan, key, now)
  {
    var timer := Timer(key, TimerAt(t));
    var ts := plan + [Timed(now, Firing(timer))];
    TimersAreOfAdds(plan, timer);
    FiredLast(plan, now, timer);
    assert InTime(ts, now) && Plan(ts) == plan && !Reported(Run(ts), key, now, false);
  }

  lemma FiredLast(plan: seq<Timed>, now: int, timer: Timer)
    requires Unfired(plan)
    ensures var ts := plan + [Timed(now, Firing(timer))]; Plan(ts) == plan && Run(ts) == Fire(Run(plan), now, timer)
  {
    PlanOfUnfired(plan);
    assert (plan + [Timed(now, Firing(timer))])[..|plan|] == plan;
    assert plan + [] == plan;
  }

  lemma {:induction false} AddIsLast(ts: seq<Timed>, key: string, works: bool, t: Timed) returns (i: nat)
    requires t in ts && IsAdd(t, key, works)
    ensures LastAdd(ts, key, works, i)
  {
    var n := |ts| - 1;
    if IsAdd(ts[n], key, works) {
      i := n;
    } else {
      i := AddIsLast(ts[..n], key, works, t);
    }
  }

  lemma UndueTimersStay(ts: seq<Timed>, key: string, now: int)
    requires InTime(ts, now) && (exists t :: t in Plan(ts) && IsAdd(t, key, false))
    requires NoneDue(Plan(ts), key, now)
    ensures Reported(Run(ts), key, now, false)
  {
    var t :| t in Plan(ts) && IsAdd(t, key, false);
    PlanHolds(ts, t);
    var i := AddIsLast(ts, key, false, t);
    PlanHolds(ts, ts[i]);
    forall k | i < k < |ts|
      ensures !RemovedAt(ts, key, k)
    {
      NoTimerDue(ts, key, now, k);
    }
    assert Stands(ts, key, i) && now <= Expiry(ts[i]);
    MemoryReportsIff(ts, key, now);
  }

  lemma NoTimerDue(ts: seq<Timed>, key: string, now: int, k: nat)
    requires k < |ts| && InTime(ts, now)
    requires NoneDue(Plan(ts), key, now)
    ensures !RemovedAt(ts, key, k)
  {
    if RemovedAt(ts, key, k) {
      TimersAreOfAdds(ts[..k], ts[k].event.timer);
      var t :| t in ts[..k] && IsAdd(t, key, false) && TimerAt(t) == ts[k].event.timer.at;
      PlanHolds(ts, t);
    }
  }

  // ---------------------------------------------------------------- what a holder of a token can count on

  /**
   * A token that was added is reported by the store that took it up to a second before its expiry on Redis, and until
   * its expiry in memory, unless another add under its key cuts that short: a later one on Redis, any one in memory.
   */
  lemma AddedIsReported(ts: seq<Timed>, i: nat, key: string, works: bool, now: int)
    requires i < |ts| && IsAdd(ts[i], key, works) && InTime(ts, now)
    requires if works then forall k :: i <= k < |ts| && IsAdd(ts[k], key, true) ==> now <= Expiry(ts[k]) - 1000
             else NoneDue(ts, key, now)
    ensures Reported(Run(ts), key, now, works)
  {
    if works {
      var k := AddIsLast(ts, key, true, ts[i]);
      RedisReportsIff(ts, key, now);
    } else {
      PlanHolds(ts, ts[i]);
      forall t | t in Plan(ts) && IsAdd(t, key, false)
        ensures now < TimerAt(t)
      {
        PlanHolds(ts, t);
      }
      UndueTimersStay(ts, key, now);
    }
  }

  /** Nothing is reported after the expiry its last add has named in memory, nor a second or more after it on Redis. */
  lemma NothingOutlivesExpiry(ts: seq<Timed>, key: string, now: int, works: bool)
    requires Reported(Run(ts), key, now, works)
    ensures exists i: nat :: LastAdd(ts, key, works, i) && if works then now < Expiry(ts[i]) + 1000 else now <= Expiry(ts[i])
  {
    if works {
      RedisReportsIff(ts, key, now);
      var i: nat :| LastAdd(ts, key, true, i) && now < RedisUntil(ts[i]);
      assert now < Expiry(ts[i]) + 1000;
    } else {
      MemoryIsAnAdd(ts, key);
    }
  }

  /** An entry taken by one store is invisible through the other one, so the proviso on lookups is needed. */
  lemma OtherStoreDoesNotKnow(s: Stores, c: Option<Claims>, scope: Scope, at: int, works: bool, now: int)
    requires Usable(c, at)
    ensures var key := ComposeKey(scope, c.value.jti.value);
            Reported(Add(s, c, scope, at, works), key, now, !works) == Reported(s, key, now, !works)
  {
  }

  /** With a delay beyond Node's range the in-memory entry may be gone one millisecond later. */
  lemma LongTimersFireAtOnce(s: Stores, c: Option<Claims>, scope: Scope, at: int, later: int)
    requires Usable(c, at) && c.value.exp.value * 1000 - at > MAX_DELAY
    ensures var key := ComposeKey(scope, c.value.jti.value);
            var s' := Add(s, c, scope, at, false);
            !Reported(Fire(s', at + 1, Timer(key, at + 1)), key, later, false)
  {
    var key := ComposeKey(scope, c.value.jti.value);
    assert Timer(key, at + 1) in Add(s, c, scope, at, false).timers;
  }
}

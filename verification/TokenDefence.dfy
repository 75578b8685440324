/** The blacklist as second line of defence: what it refuses when the database has missed a revocation. */
module TokenDefence {
  import opened Common
  import opened RefreshTokens
  import opened TokenRotation
  import opened TokenRuns
  import B = TokenBlacklist

  function InstantOf(e: Event): int {
    match e
    case Generating(_, _, now, _, _) => now
    case Refreshing(_, _, env) => env.now
    case LoggingOut(_, _, env) => env.now
    case Firing(at, _) => at
  }

  /** The refresh token an event presents. */
  function Presented(e: Event): Option<Jwt> {
    match e
    case Refreshing(t, _, _) => Some(t)
    case LoggingOut(_, opts, _) => opts.refreshToken
    case _ => None
  }

  /** Whether it would go to Redis rather than to memory. */
  predicate GoesToRedis(e: Event) {
    match e
    case Refreshing(_, _, env) => env.addWorks
    case LoggingOut(_, _, env) => env.addWorks
    case _ => false
  }

  function KeyOf(jti: string): string {
    B.ComposeKey(B.Refresh, jti)
  }

  function AddOf(e: Event): B.Timed {
    B.Timed(InstantOf(e), B.Adding(if Presented(e).Some? then ClaimsOf(Presented(e).value) else None, B.Refresh, GoesToRedis(e)))
  }

  /** The event blacklists this jti: it exchanges a token, or a logout presents one, verified or not. */
  predicate Marks(s: State, lifetime: string, e: Event, jti: string, redis: bool) {
    && Presented(e).Some? && Presented(e).value.jti == Some(jti)
    && (e.Refreshing? ==> Accepts(s, lifetime, e))
    && B.IsAdd(AddOf(e), KeyOf(jti), redis)
  }

  predicate MarkedAt(lifetime: string, es: seq<Event>, k: nat, jti: string, redis: bool)
    requires k < |es|
  {
    Marks(Run(lifetime, es[..k]), lifetime, es[k], jti, redis)
  }

  /** The last event that blacklists this jti in this store. */
  ghost predicate LastMark(lifetime: string, es: seq<Event>, k: nat, jti: string, redis: bool) {
    k < |es| && MarkedAt(lifetime, es, k, jti, redis) && forall l :: k < l < |es| ==> !MarkedAt(lifetime, es, l, jti, redis)
  }

  /** Redis holds the jti: the claim of its last blacklisting there, whoever made it, has not run out. */
  ghost predicate HeldByRedis(lifetime: string, es: seq<Event>, jti: string, now: int) {
    exists k: nat :: LastMark(lifetime, es, k, jti, true) && now < B.RedisUntil(AddOf(es[k]))
  }

  /** A timer of the jti runs. */
  predicate Unmarks(s: State, e: Event, jti: string) {
    e.Firing? && e.timer.key == KeyOf(jti) && B.Due(s.black, e.at, e.timer)
  }

  predicate UnmarkedAt(lifetime: string, es: seq<Event>, k: nat, jti: string)
    requires k < |es|
  {
    Unmarks(Run(lifetime, es[..k]), es[k], jti)
  }

  /** The last blacklisting in memory, with no timer of the jti run since. */
  ghost predicate Stands(lifetime: string, es: seq<Event>, k: nat, jti: string) {
    LastMark(lifetime, es, k, jti, false) && forall l :: k < l < |es| ==> !UnmarkedAt(lifetime, es, l, jti)
  }

  ghost predicate HeldInMemory(lifetime: string, es: seq<Event>, jti: string, now: int) {
    exists k: nat :: Stands(lifetime, es, k, jti) && now <= B.Expiry(AddOf(es[k]))
  }

  ghost predicate Held(lifetime: string, es: seq<Event>, jti: string, now: int, redis: bool) {
    if redis then HeldByRedis(lifetime, es, jti, now) else HeldInMemory(lifetime, es, jti, now)
  }

  // ---------------------------------------------------------------- what one event does to the entry of one jti

  lemma AccessKeyIsOther(c: Option<B.Claims>, jti: string, now: int, works: bool, s: B.Stores)
    ensures var s' := B.Add(s, c, B.Access, now, works);
            && (KeyOf(jti) in s'.redis <==> KeyOf(jti) in s.redis)
            && (KeyOf(jti) in s.redis ==> s'.redis[KeyOf(jti)] == s.redis[KeyOf(jti)])
            && (KeyOf(jti) in s'.local <==> KeyOf(jti) in s.local)
            && (KeyOf(jti) in s.local ==> s'.local[KeyOf(jti)] == s.local[KeyOf(jti)])
  {
    if c.Some? && c.value.jti.Some? {
      B.KeysAreDistinct(B.Access, c.value.jti.value, B.Refresh, jti);
    }
  }

  /** Blacklisting what an event presents touches its own jti's entry only. */
  lemma PresentedAdd(s: B.Stores, e: Event, jti: string)
    requires Presented(e).Some?
    ensures var key, s' := KeyOf(jti), B.Next(s, AddOf(e));
            var own := Presented(e).value.jti == Some(jti);
            && (if own && B.IsAdd(AddOf(e), key, true) then key in s'.redis && s'.redis[key] == B.RedisUntil(AddOf(e))
                else (key in s'.redis <==> key in s.redis) && (key in s.redis ==> s'.redis[key] == s.redis[key]))
            && (if own && B.IsAdd(AddOf(e), key, false) then key in s'.local && s'.local[key] == B.Expiry(AddOf(e))
                else (key in s'.local <==> key in s.local) && (key in s.local ==> s'.local[key] == s.local[key]))
  {
    if Presented(e).value.jti.Some? {
      B.KeysAreDistinct(B.Refresh, Presented(e).value.jti.value, B.Refresh, jti);
    }
  }

  lemma RedisAfter(s: State, lifetime: string, e: Event, jti: string)
    ensures var key, before, after := KeyOf(jti), s.black.redis, Next(s, lifetime, e).black.redis;
            if Marks(s, lifetime, e, jti, true) then key in after && after[key] == B.RedisUntil(AddOf(e))
            else (key in after <==> key in before) && (key in before ==> after[key] == before[key])
  {
    match e
    case Generating(_, _, _, _, _) =>
    case Refreshing(t, _, env) => PresentedAdd(Looked(s, t, env), e, jti);
    case LoggingOut(_, opts, env) =>
      AccessKeyIsOther(env.access, jti, env.now, env.accessWorks, s.black);
      if opts.refreshToken.Some? {
        PresentedAdd(B.Add(s.black, env.access, B.Access, env.now, env.accessWorks), e, jti);
      }
    case Firing(_, _) =>
  }

  lemma MemoryAfter(s: State, lifetime: string, e: Event, jti: string)
    ensures var key, before, after := KeyOf(jti), s.black.local, Next(s, lifetime, e).black.local;
            if Marks(s, lifetime, e, jti, false) then key in after && after[key] == B.Expiry(AddOf(e))
            else if Unmarks(s, e, jti) then key !in after
            else (key in after ==> key in before && after[key] == before[key])
                 && (key in before && InstantOf(e) <= before[key] ==> key in after)
  {
    match e
    case Generating(_, _, _, _, _) =>
    case Refreshing(t, _, env) =>
      LookedDropsStale(s, t, env, jti);
      PresentedAdd(Looked(s, t, env), e, jti);
    case LoggingOut(_, opts, env) =>
      AccessKeyIsOther(env.access, jti, env.now, env.accessWorks, s.black);
      if opts.refreshToken.Some? {
        PresentedAdd(B.Add(s.black, env.access, B.Access, env.now, env.accessWorks), e, jti);
      }
    case Firing(_, _) =>
  }

  lemma LookedDropsStale(s: State, t: Jwt, env: RefreshEnv, jti: string)
    ensures var key, before, after := KeyOf(jti), s.black.local, Looked(s, t, env).local;
            (key in after ==> key in before && after[key] == before[key])
            && (key in before && env.now <= before[key] ==> key in after)
  {
  }

  // ---------------------------------------------------------------- whole runs

  lemma AtEarlier(lifetime: string, es: seq<Event>, n: nat, k: nat, jti: string, redis: bool)
    requires k < n <= |es|
    ensures MarkedAt(lifetime, es[..n], k, jti, redis) == MarkedAt(lifetime, es, k, jti, redis)
    ensures UnmarkedAt(lifetime, es[..n], k, jti) == UnmarkedAt(lifetime, es, k, jti)
  {
    assert es[..n][..k] == es[..k];
  }

  lemma MarkedBefore(lifetime: string, es: seq<Event>, jti: string, redis: bool)
    requires es != []
    ensures var n := |es| - 1;
            forall k: nat :: LastMark(lifetime, es, k, jti, redis) <==>
                               if MarkedAt(lifetime, es, n, jti, redis) then k == n
                               else LastMark(lifetime, es[..n], k, jti, redis)
  {
    var n := |es| - 1;
    forall k: nat | k < n
      ensures MarkedAt(lifetime, es[..n], k, jti, redis) == MarkedAt(lifetime, es, k, jti, redis)
    {
      AtEarlier(lifetime, es, n, k, jti, redis);
    }
  }

  lemma {:induction false} RedisHasLastMark(lifetime: string, es: seq<Event>, jti: string)
    ensures var redis := Run(lifetime, es).black.redis;
            && (KeyOf(jti) in redis <==> exists k: nat :: LastMark(lifetime, es, k, jti, true))
            && forall k: nat :: LastMark(lifetime, es, k, jti, true) ==> redis[KeyOf(jti)] == B.RedisUntil(AddOf(es[k]))
  {
    if es != [] {
      var n := |es| - 1;
      RedisHasLastMark(lifetime, es[..n], jti);
      RedisAfter(Run(lifetime, es[..n]), lifetime, es[n], jti);
      MarkedBefore(lifetime, es, jti, true);
      assert MarkedAt(lifetime, es, n, jti, true) ==> LastMark(lifetime, es, n, jti, true);
    }
  }

  lemma StandsOneMore(lifetime: string, es: seq<Event>, jti: string, k: nat)
    requires es != []
    ensures var n := |es| - 1;
            Stands(lifetime, es, k, jti)
            <==> if MarkedAt(lifetime, es, n, jti, false) then k == n
                 else Stands(lifetime, es[..n], k, jti) && !UnmarkedAt(lifetime, es, n, jti)
  {
    var n := |es| - 1;
    MarkedBefore(lifetime, es, jti, false);
    forall l: nat | l < n
      ensures UnmarkedAt(lifetime, es[..n], l, jti) == UnmarkedAt(lifetime, es, l, jti)
    {
      AtEarlier(lifetime, es, n, l, jti, false);
    }
  }

  lemma {:induction false} MemoryIsAMark(lifetime: string, es: seq<Event>, jti: string) returns (k: nat)
    requires KeyOf(jti) in Run(lifetime, es).black.local
    ensures Stands(lifetime, es, k, jti) && Run(lifetime, es).black.local[KeyOf(jti)] == B.Expiry(AddOf(es[k]))
  {
    var n := |es| - 1;
    MemoryAfter(Run(lifetime, es[..n]), lifetime, es[n], jti);
    if MarkedAt(lifetime, es, n, jti, false) {
      k := n;
    } else {
      k := MemoryIsAMark(lifetime, es[..n], jti);
    }
    StandsOneMore(lifetime, es, jti, k);
  }

  lemma {:induction false} StandingIsInMemory(lifetime: string, es: seq<Event>, jti: string, k: nat)
    requires Stands(lifetime, es, k, jti) && forall l :: k <= l < |es| ==> InstantOf(es[l]) <= B.Expiry(AddOf(es[k]))
    ensures var local := Run(lifetime, es).black.local;
            KeyOf(jti) in local && local[KeyOf(jti)] == B.Expiry(AddOf(es[k]))
  {
    var n := |es| - 1;
    StandsOneMore(lifetime, es, jti, k);
    MemoryAfter(Run(lifetime, es[..n]), lifetime, es[n], jti);
    if k < n {
      StandingIsInMemory(lifetime, es[..n], jti, k);
    }
  }

  /** What the blacklist answers after a run, in terms of the events that blacklisted the jti. */
  lemma ReportedIffHeld(lifetime: string, es: seq<Event>, jti: string, now: int, redis: bool)
    requires forall k :: 0 <= k < |es| ==> InstantOf(es[k]) <= now
    ensures B.Reported(Run(lifetime, es).black, KeyOf(jti), now, redis) <==> Held(lifetime, es, jti, now, redis)
  {
    if redis {
      RedisHasLastMark(lifetime, es, jti);
    } else {
      if B.Reported(Run(lifetime, es).black, KeyOf(jti), now, false) {
        var k := MemoryIsAMark(lifetime, es, jti);
      }
      if k: nat :| Stands(lifetime, es, k, jti) && now <= B.Expiry(AddOf(es[k])) {
        StandingIsInMemory(lifetime, es, jti, k);
      }
    }
  }

  /** All checks and writes of a refresh except the question to the blacklist. */
  predicate PassesOtherwise(s: State, e: Event)
    requires e.Refreshing?
  {
    && Verifies(s.issued, e.token, e.env.now) && e.token.jti.value in s.rows && s.rows[e.token.jti.value].Live()
    && e.env.userExists
    && CanCreate(s.rows, e.env.mint.jti, Sign(e.token.sub, e.env.mint), e.env.mint.signs && e.env.createOk)
  }

  /**
   * After any run, a refresh that passes all other checks is refused exactly when the store it asks holds the jti: on
   * Redis, when the last token blacklisted there under the jti claims an expiry still to come; in memory, when moreover
   * no timer of the jti has run since.
   */
  lemma BlacklistedIsRefused(lifetime: string, es: seq<Event>, e: Event)
    requires e.Refreshing? && e.token.jti.Some? && forall k :: 0 <= k < |es| ==> InstantOf(es[k]) <= InstantOf(e)
    ensures Accepts(Run(lifetime, es), lifetime, e)
       <==> PassesOtherwise(Run(lifetime, es), e)
            && !Held(lifetime, es, e.token.jti.value, InstantOf(e), e.env.lookWorks)
  {
    ReportedIffHeld(lifetime, es, e.token.jti.value, InstantOf(e), e.env.lookWorks);
  }

  /**
   * An exchanged token is exchanged again only if both lines fail: the revoke write was lost, and the store that is asked
   * does not hold the jti.
   */
  lemma ReuseNeedsBothToFail(lifetime: string, es: seq<Event>, i: nat, j: nat)
    requires FreshRun(lifetime, es) && i < j < |es| && forall k :: 0 <= k < j ==> InstantOf(es[k]) <= InstantOf(es[j])
    requires Accepts(Run(lifetime, es[..i]), lifetime, es[i]) && Accepts(Run(lifetime, es[..j]), lifetime, es[j])
    requires es[i].token.jti == es[j].token.jti
    ensures !es[i].env.revokeOk
    ensures !Held(lifetime, es[..j], es[j].token.jti.value, InstantOf(es[j]), es[j].env.lookWorks)
  {
    if es[i].env.revokeOk {
      NoTokenIsAcceptedTwice(lifetime, es, i, j);
    }
    AcceptedIsLive(Run(lifetime, es[..j]), lifetime, es[j]);
    BlacklistedIsRefused(lifetime, es[..j], es[j]);
  }

  /** The exchange itself blacklists the token, so on Redis reuse needs a later blacklisting that claims an earlier expiry. */
  lemma ReuseOnRedisNeedsAnotherClaim(lifetime: string, es: seq<Event>, i: nat, j: nat) returns (k: nat)
    requires FreshRun(lifetime, es) && i < j < |es| && forall k :: 0 <= k < j ==> InstantOf(es[k]) <= InstantOf(es[j])
    requires Accepts(Run(lifetime, es[..i]), lifetime, es[i]) && Accepts(Run(lifetime, es[..j]), lifetime, es[j])
    requires es[i].token.jti == es[j].token.jti && es[i].env.addWorks && es[j].env.lookWorks
    requires B.Usable(ClaimsOf(es[i].token), InstantOf(es[i])) && InstantOf(es[j]) <= es[i].token.exp * 1000 - 1000
    ensures i < k < j && MarkedAt(lifetime, es, k, es[j].token.jti.value, true)
    ensures InstantOf(es[j]) >= B.RedisUntil(AddOf(es[k]))
  {
    var jti := es[j].token.jti.value;
    ReuseNeedsBothToFail(lifetime, es, i, j);
    AtEarlier(lifetime, es, j, i, jti, true);
    k := LastOfMarks(lifetime, es[..j], i, jti);
    AtEarlier(lifetime, es, j, k, jti, true);
  }

  lemma {:induction false} LastOfMarks(lifetime: string, es: seq<Event>, i: nat, jti: string) returns (k: nat)
    requires i < |es| && MarkedAt(lifetime, es, i, jti, true)
    ensures i <= k && LastMark(lifetime, es, k, jti, true)
  {
    var n := |es| - 1;
    MarkedBefore(lifetime, es, jti, true);
    if MarkedAt(lifetime, es, n, jti, true) {
      k := n;
    } else {
      AtEarlier(lifetime, es, n, i, jti, true);
      k := LastOfMarks(lifetime, es[..n], i, jti);
    }
  }

  // ---------------------------------------------------------------- a claim nobody verifies

  const JTI := "jti"
  const NO_CONTEXT := Context(None, None, None, None)

  function Draw(jti: string, exp: int): Mint {
    Mint(jti, exp, 0, Stamp("access", exp, 0), true)
  }

  /** Everything works except the revoke write. */
  function LosesRevoke(now: int, jti: string): RefreshEnv {
    RefreshEnv(now, true, true, Draw(jti, 100), true, false, true)
  }

  /** A token of this jti that was never signed here and claims to expire after a second. */
  const FORGED := Jwt("anybody", Some(JTI), 1, 1)

  const TOKEN := Sign("user", Draw(JTI, 100))

  const REOPENING: seq<Event> := [
    Generating("user", NO_CONTEXT, 0, Draw(JTI, 100), true),
    Refreshing(TOKEN, NO_CONTEXT, LosesRevoke(0, "first")),
    LoggingOut("anybody", LogoutOptions(Some(FORGED), None, false), LogoutEnv(0, None, true, true, true, true)),
    Refreshing(TOKEN, NO_CONTEXT, LosesRevoke(2000, "second"))
  ]

  /** The token is still live, and these others were handed out. */
  ghost predicate Open(s: State, others: set<string>) {
    && s.rows.Keys == s.issued.Keys == others + {JTI} && s.issued[JTI] == s.rows[JTI].token == TOKEN && s.rows[JTI].Live()
    && forall j :: j in s.rows ==> s.rows[j].token.jti == Some(j)
  }

  lemma Opening(lifetime: string)
    ensures Open(Next(Empty, lifetime, REOPENING[0]), {}) && Next(Empty, lifetime, REOPENING[0]).black == B.EMPTY
  {
  }

  lemma Exchanges(s: State, lifetime: string, others: set<string>, now: int, child: string)
    requires Open(s, others) && child !in others && child != JTI && now < 100000
    requires !B.Reported(s.black, KeyOf(JTI), now, true)
    ensures var e := Refreshing(TOKEN, NO_CONTEXT, LosesRevoke(now, child));
            Accepts(s, lifetime, e) && FreshJti(s, e) && Open(Next(s, lifetime, e), others + {child})
  {
    assert JTI != "";
  }

  lemma ForgedLogout(s: State, lifetime: string, others: set<string>)
    requires Open(s, others)
    ensures var s' := Next(s, lifetime, REOPENING[2]);
            Open(s', others) && !B.Reported(s'.black, KeyOf(JTI), 2000, true)
  {
    RedisAfter(s, lifetime, REOPENING[2], JTI);
    assert JTI != "";
  }

  /**
   * Such a blacklisting reopens a token: a logout that presents an unverified token of the same jti with a near expiry
   * replaces the entry, and the token is exchanged again, asked in the same store, 98 seconds before its expiry.
   */
  lemma UnverifiedClaimReopens(lifetime: string)
    ensures FreshRun(lifetime, REOPENING)
    ensures Accepts(Run(lifetime, REOPENING[..1]), lifetime, REOPENING[1])
    ensures Accepts(Run(lifetime, REOPENING[..3]), lifetime, REOPENING[3])
    ensures REOPENING[1].token == REOPENING[3].token && REOPENING[1].env.addWorks && REOPENING[3].env.lookWorks
    ensures InstantOf(REOPENING[3]) == REOPENING[1].token.exp * 1000 - 98000
  {
    var s1, s2 := FirstExchange(lifetime);
    var s3 := SecondExchange(s2, lifetime);
    ReachesFour(lifetime, REOPENING, s1, s2, s3);
  }

  ghost predicate FollowsFresh(s: State, lifetime: string, e: Event, s': State) {
    FreshJti(s, e) && s' == Next(s, lifetime, e)
  }

  lemma FirstExchange(lifetime: string) returns (s1: State, s2: State)
    ensures FollowsFresh(Empty, lifetime, REOPENING[0], s1) && FollowsFresh(s1, lifetime, REOPENING[1], s2)
    ensures Accepts(s1, lifetime, REOPENING[1]) && Open(s2, {"first"})
  {
    Opening(lifetime);
    s1 := Next(Empty, lifetime, REOPENING[0]);
    Exchanges(s1, lifetime, {}, 0, "first");
    s2 := Next(s1, lifetime, REOPENING[1]);
    assert {} + {"first"} == {"first"};
  }

  lemma SecondExchange(s2: State, lifetime: string) returns (s3: State)
    requires Open(s2, {"first"})
    ensures FollowsFresh(s2, lifetime, REOPENING[2], s3) && FreshJti(s3, REOPENING[3]) && Accepts(s3, lifetime, REOPENING[3])
  {
    ForgedLogout(s2, lifetime, {"first"});
    s3 := Next(s2, lifetime, REOPENING[2]);
    Exchanges(s3, lifetime, {"first"}, 2000, "second");
  }

  lemma ReachesFour(lifetime: string, es: seq<Event>, s1: State, s2: State, s3: State)
    requires |es| == 4 && FreshJti(s3, es[3])
    requires FollowsFresh(Empty, lifetime, es[0], s1) && FollowsFresh(s1, lifetime, es[1], s2)
    requires FollowsFresh(s2, lifetime, es[2], s3)
    ensures FreshRun(lifetime, es) && Run(lifetime, es[..1]) == s1 && Run(lifetime, es[..3]) == s3
  {
    ReachesNext(lifetime, es, 0, Empty, s1);
    ReachesNext(lifetime, es, 1, s1, s2);
    ReachesNext(lifetime, es, 2, s2, s3);
    ReachesNext(lifetime, es, 3, s3, Next(s3, lifetime, es[3]));
    assert es[..4] == es;
  }

  /** The run has come to s after j events, none of which drew a jti again. */
  predicate Reaches(lifetime: string, es: seq<Event>, j: nat, s: State) {
    j <= |es| && FreshRun(lifetime, es[..j]) && Run(lifetime, es[..j]) == s
  }

  lemma ReachesNext(lifetime: string, es: seq<Event>, j: nat, s: State, s': State)
    requires j < |es| && Reaches(lifetime, es, j, s) && FollowsFresh(s, lifetime, es[j], s')
    ensures Reaches(lifetime, es, j + 1, s')
  {
    assert es[..j + 1][..j] == es[..j];
  }
}

/** Refreshes whose checks and writes interleave with each other and with everything else: how often one token is exchanged. */
module RefreshRaces {
  import opened Common
  import opened RefreshTokens
  import opened TokenRotation
  import Decimal
  import OneShot
  import B = TokenBlacklist

  /** calls: the jtis whose refresh has passed its checks and not written yet; exchanged: those new tokens were handed out for. */
  datatype RaceState = RaceState(s: State, calls: map<nat, string>, exchanged: seq<string>)

  datatype Event =
    | Begin(call: nat, token: Jwt, env: RefreshEnv)
    | Commit(committed: nat, ctx: Context, withEnv: RefreshEnv)
    | Drop(dropped: nat)
    | Issue(userId: string, issueCtx: Context, now: int, mint: Mint, createOk: bool)
    | Leave(ofUser: string, opts: LogoutOptions, leaveEnv: LogoutEnv)

  /** The writes of a refresh: the new row, the old one retired, the old token blacklisted. */
  function Exchanged(s: State, used: string, ctx: Context, lifetime: string, env: RefreshEnv): State
    requires used in s.issued && used in s.rows
  {
    var t := s.issued[used];
    var token := Sign(t.sub, env.mint);
    var row := NewRow(s, token, ExpiresAt(env.now, lifetime), Inherit(ctx, s.rows[used].context));
    State(Retired(s.rows[env.mint.jti := row], used, env), s.issued[env.mint.jti := token],
          s.parent[env.mint.jti := used], B.Add(s.black, ClaimsOf(t), B.Refresh, env.now, env.addWorks))
  }

  predicate CanCommit(s: State, used: string, env: RefreshEnv) {
    used in s.issued && used in s.rows
    && CanCreate(s.rows, env.mint.jti, Sign(s.issued[used].sub, env.mint), env.mint.signs && env.createOk)
  }

  function Next(r: RaceState, lifetime: string, e: Event): RaceState {
    match e
    case Begin(c, t, env) =>
      var looked := r.(s := r.s.(black := Looked(r.s, t, env)));
      if c !in r.calls && MayRefresh(r.s, t, env) then looked.(calls := r.calls[c := t.jti.value]) else looked
    case Commit(c, ctx, env) =>
      if c !in r.calls then r
      else if CanCommit(r.s, r.calls[c], env) then
        RaceState(Exchanged(r.s, r.calls[c], ctx, lifetime, env), r.calls - {c}, r.exchanged + [r.calls[c]])
      else r.(calls := r.calls - {c})
    case Drop(c) => r.(calls := r.calls - {c})
    case Issue(u, ctx, now, mint, ok) => r.(s := Generate(r.s, u, ctx, now, lifetime, mint, ok).0)
    case Leave(u, opts, env) => r.(s := Logout(r.s, u, opts, env).0)
  }

  /** One after the other, the two halves are the refresh of the service. */
  lemma BeginThenCommitIsRefresh(r: RaceState, lifetime: string, c: nat, t: Jwt, ctx: Context, env: RefreshEnv)
    requires c !in r.calls
    ensures var r' := Next(Next(r, lifetime, Begin(c, t, env)), lifetime, Commit(c, ctx, env));
            && r'.s == Refresh(r.s, t, ctx, lifetime, env).0 && r'.calls == r.calls
            && if Refresh(r.s, t, ctx, lifetime, env).1 then r'.exchanged == r.exchanged + [t.jti.value]
               else r'.exchanged == r.exchanged
  {
  }

  function Run(lifetime: string, es: seq<Event>): RaceState {
    if es == [] then RaceState(Empty, map[], []) else Next(Run(lifetime, es[..|es| - 1]), lifetime, es[|es| - 1])
  }

  /** Never more than n refreshes of this token between check and write. */
  ghost predicate AtMostInFlight(lifetime: string, es: seq<Event>, jti: string, n: nat) {
    |OneShot.Pending(Run(lifetime, es).calls, jti)| <= n
    && (es != [] ==> AtMostInFlight(lifetime, es[..|es| - 1], jti, n))
  }

  predicate RevokesSucceed(es: seq<Event>) {
    forall i :: 0 <= i < |es| && es[i].Commit? ==> es[i].withEnv.revokeOk
  }

  predicate Revoked(rows: Rows, jti: string) {
    jti in rows && !rows[jti].Live()
  }

  ghost function ViewOf(r: RaceState, jti: string): OneShot.View {
    OneShot.View(Revoked(r.s.rows, jti), |OneShot.Pending(r.calls, jti)|, Occurrences(r.exchanged, jti))
  }

  // ---------------------------------------------------------------- each event is a move for each token

  lemma ExchangeRevokes(s: State, used: string, ctx: Context, lifetime: string, env: RefreshEnv, jti: string)
    requires CanCommit(s, used, env) && env.revokeOk
    ensures Revoked(Exchanged(s, used, ctx, lifetime, env).rows, jti) <==> jti == used || Revoked(s.rows, jti)
  {
  }

  lemma IssueKeepsRevoked(s: State, u: string, ctx: Context, now: int, lifetime: string, mint: Mint, ok: bool, jti: string)
    ensures Revoked(Generate(s, u, ctx, now, lifetime, mint, ok).0.rows, jti) <==> Revoked(s.rows, jti)
  {
  }

  lemma LeaveKeepsRevoked(s: State, u: string, opts: LogoutOptions, env: LogoutEnv, jti: string)
    requires Revoked(s.rows, jti)
    ensures Revoked(Logout(s, u, opts, env).0.rows, jti)
  {
  }

  lemma CommitIsMove(r: RaceState, lifetime: string, c: nat, ctx: Context, env: RefreshEnv, jti: string, n: nat)
    returns (m: OneShot.Move)
    requires c in r.calls && env.revokeOk
    ensures OneShot.Allowed(n, ViewOf(r, jti), m)
    ensures ViewOf(Next(r, lifetime, Commit(c, ctx, env)), jti) == OneShot.After(ViewOf(r, jti), m)
  {
    var used := r.calls[c];
    OneShot.PendingWithout(r.calls, c, jti);
    if CanCommit(r.s, used, env) {
      ExchangeRevokes(r.s, used, ctx, lifetime, env, jti);
      OneMoreOccurrence(r.exchanged, used, jti);
      m := if used == jti then OneShot.Accept else OneShot.Idle;
    } else {
      m := if used == jti then OneShot.Abandon else OneShot.Idle;
    }
  }

  lemma StepIsMove(r: RaceState, lifetime: string, e: Event, jti: string, n: nat) returns (m: OneShot.Move)
    requires |OneShot.Pending(Next(r, lifetime, e).calls, jti)| <= n && (e.Commit? ==> e.withEnv.revokeOk)
    ensures OneShot.Allowed(n, ViewOf(r, jti), m)
    ensures ViewOf(Next(r, lifetime, e), jti) == OneShot.After(ViewOf(r, jti), m)
  {
    m := OneShot.Idle;
    match e {
      case Begin(c, t, env) =>
        if c !in r.calls && MayRefresh(r.s, t, env) {
          OneShot.PendingWith(r.calls, c, t.jti.value, jti);
          m := if t.jti.value == jti then OneShot.Pass else OneShot.Idle;
        }
      case Commit(c, ctx, env) =>
        if c in r.calls {
          m := CommitIsMove(r, lifetime, c, ctx, env, jti, n);
        }
      case Drop(c) =>
        if c in r.calls {
          OneShot.PendingWithout(r.calls, c, jti);
          m := if r.calls[c] == jti then OneShot.Abandon else OneShot.Idle;
        } else {
          assert r.calls - {c} == r.calls;
        }
      case Issue(u, ctx, now, mint, ok) =>
        IssueKeepsRevoked(r.s, u, ctx, now, lifetime, mint, ok, jti);
      case Leave(u, opts, env) =>
        if Revoked(r.s.rows, jti) {
          LeaveKeepsRevoked(r.s, u, opts, env, jti);
        }
        m := if Revoked(Next(r, lifetime, e).s.rows, jti) then OneShot.Spoil else OneShot.Idle;
    }
  }

  lemma {:induction false} RunIsOneShot(lifetime: string, es: seq<Event>, jti: string, n: nat)
    requires AtMostInFlight(lifetime, es, jti, n) && RevokesSucceed(es)
    ensures OneShot.Inv(n, ViewOf(Run(lifetime, es), jti))
  {
    if es == [] {
      assert OneShot.Pending(map[], jti) == {};
    } else {
      var front, e := es[..|es| - 1], es[|es| - 1];
      RunIsOneShot(lifetime, front, jti, n);
      var m := StepIsMove(Run(lifetime, front), lifetime, e, jti, n);
      OneShot.StepKeepsInv(n, ViewOf(Run(lifetime, front), jti), m);
    }
  }

  // ---------------------------------------------------------------- a run that reaches the bound

  const USED := "refresh"
  const NO_CONTEXT := Context(None, None, None, None)

  function Draw(jti: string): Mint {
    Mint(jti, 10, 0, Stamp("access", 10, 0), true)
  }

  /** Everything works, at instant 0; the new token would get this jti. */
  function AllWorks(jti: string): RefreshEnv {
    RefreshEnv(0, true, true, Draw(jti), true, true, true)
  }

  function Issuing(): Event {
    Issue("user", NO_CONTEXT, 0, Draw(USED), true)
  }

  function Beginning(c: nat): Event {
    Begin(c, Sign("user", Draw(USED)), AllWorks(Decimal.Natural(c)))
  }

  function Committing(c: nat): Event {
    Commit(c, NO_CONTEXT, AllWorks(Decimal.Natural(c)))
  }

  /** One token, n refreshes of it that pass their checks, of which k have written. */
  function Begins(k: nat): seq<Event> {
    if k == 0 then [Issuing()] else Begins(k - 1) + [Beginning(k - 1)]
  }

  function Commits(n: nat, k: nat): seq<Event> {
    if k == 0 then Begins(n) else Commits(n, k - 1) + [Committing(k - 1)]
  }

  /** The used token and the tokens handed out for it, the first k of n refreshes having written. */
  ghost predicate Raced(r: RaceState, k: nat, n: nat) {
    && r.calls == OneShot.CallsFrom(USED, k, n) && r.exchanged == OneShot.Times(USED, k)
    && USED in r.s.rows && USED in r.s.issued && r.s.issued[USED] == Sign("user", Draw(USED))
    && OnlyChildrenBelow(r.s.rows, k)
    && (k == 0 ==> r.s.rows[USED].Live() && r.s.black == Empty.black)
  }

  ghost predicate OnlyChildrenBelow(rows: Rows, k: nat) {
    forall j :: j in rows ==> rows[j].token.jti == Some(j) && (j == USED || ChildBelow(j, k))
  }

  ghost predicate ChildBelow(j: string, k: nat) {
    exists i: nat :: i < k && j == Decimal.Natural(i)
  }

  lemma OneMoreChild(j: string, k: nat)
    ensures ChildBelow(j, k + 1) <==> ChildBelow(j, k) || j == Decimal.Natural(k)
  {
    if ChildBelow(j, k) {
      var i: nat :| i < k && j == Decimal.Natural(i);
      assert i < k + 1;
    }
    assert k < k + 1;
  }

  lemma OneMoreChildRow(rows: Rows, rows': Rows, k: nat)
    requires OnlyChildrenBelow(rows, k)
    requires forall j :: j in rows' ==> if j in rows then rows'[j].token == rows[j].token
                                        else j == Decimal.Natural(k) && rows'[j].token.jti == Some(j)
    ensures OnlyChildrenBelow(rows', k + 1)
  {
    forall j | j in rows'
      ensures rows'[j].token.jti == Some(j) && (j == USED || ChildBelow(j, k + 1))
    {
      OneMoreChild(j, k);
    }
  }

  lemma ExchangeAddsRow(s: State, used: string, ctx: Context, lifetime: string, env: RefreshEnv)
    requires CanCommit(s, used, env)
    ensures var rows' := Exchanged(s, used, ctx, lifetime, env).rows;
            && used in rows'
            && forall j :: j in rows' ==> if j in s.rows then rows'[j].token == s.rows[j].token
                                          else j == env.mint.jti && rows'[j].token.jti == Some(j)
  {
  }

  lemma NextChildIsNew(r: RaceState, k: nat, n: nat)
    requires Raced(r, k, n)
    ensures Decimal.Natural(k) !in r.s.rows && Decimal.Natural(k) != USED
    ensures forall j :: j in r.s.rows ==> r.s.rows[j].token != Sign("user", Draw(Decimal.Natural(k)))
  {
    assert USED[0] == 'r' && '0' <= Decimal.Natural(k)[0] <= '9';
    if Decimal.Natural(k) in r.s.rows {
      var i: nat :| i < k && Decimal.Natural(k) == Decimal.Natural(i);
      Decimal.NaturalsDiffer(i, k);
    }
  }

  lemma RunMore(lifetime: string, es: seq<Event>, e: Event, n: nat)
    requires AtMostInFlight(lifetime, es, USED, n) && RevokesSucceed(es) && (e.Commit? ==> e.withEnv.revokeOk)
    requires |OneShot.Pending(Next(Run(lifetime, es), lifetime, e).calls, USED)| <= n
    ensures AtMostInFlight(lifetime, es + [e], USED, n) && RevokesSucceed(es + [e])
    ensures Run(lifetime, es + [e]) == Next(Run(lifetime, es), lifetime, e)
  {
    assert (es + [e])[..|es|] == es;
  }

  lemma IssuedOnce(lifetime: string, n: nat)
    ensures RacesTo(lifetime, Begins(0), n, 0, 0)
  {
    assert OneShot.Pending(map[], USED) == {};
    assert AtMostInFlight(lifetime, [], USED, n) && Run(lifetime, []) == RaceState(Empty, map[], []);
    RunMore(lifetime, [], Issuing(), n);
    assert [] + [Issuing()] == Begins(0);
  }

  lemma BeginMore(r: RaceState, lifetime: string, k: nat)
    requires Raced(r, 0, k)
    ensures Raced(Next(r, lifetime, Beginning(k)), 0, k + 1)
  {
    assert |USED| == 7;
  }

  lemma CommitMore(r: RaceState, lifetime: string, k: nat, n: nat)
    requires Raced(r, k, n) && k < n
    ensures Raced(Next(r, lifetime, Committing(k)), k + 1, n)
  {
    NextChildIsNew(r, k, n);
    OneShot.FirstCallEnds(USED, k, n);
    var env := AllWorks(Decimal.Natural(k));
    ExchangeAddsRow(r.s, USED, NO_CONTEXT, lifetime, env);
    OneMoreChildRow(r.s.rows, Exchanged(r.s, USED, NO_CONTEXT, lifetime, env).rows, k);
  }

  /** A run as the theorem below speaks of, after which the first k of n refreshes have written. */
  ghost predicate RacesTo(lifetime: string, es: seq<Event>, bound: nat, k: nat, n: nat) {
    Raced(Run(lifetime, es), k, n) && AtMostInFlight(lifetime, es, USED, bound) && RevokesSucceed(es)
  }

  lemma RacesOn(lifetime: string, es: seq<Event>, e: Event, bound: nat, k: nat, n: nat)
    requires AtMostInFlight(lifetime, es, USED, bound) && RevokesSucceed(es) && (e.Commit? ==> e.withEnv.revokeOk)
    requires Raced(Next(Run(lifetime, es), lifetime, e), k, n) && k <= n <= bound
    ensures RacesTo(lifetime, es + [e], bound, k, n)
  {
    OneShot.CallsInFlight(USED, k, n);
    RunMore(lifetime, es, e, bound);
  }

  lemma CommitOnce(lifetime: string, es: seq<Event>, k: nat, n: nat)
    requires RacesTo(lifetime, es, n, k, n) && k < n
    ensures RacesTo(lifetime, es + [Committing(k)], n, k + 1, n)
  {
    CommitMore(Run(lifetime, es), lifetime, k, n);
    RacesOn(lifetime, es, Committing(k), n, k + 1, n);
  }

  lemma BeginOnce(lifetime: string, es: seq<Event>, bound: nat, k: nat)
    requires RacesTo(lifetime, es, bound, 0, k) && k < bound
    ensures RacesTo(lifetime, es + [Beginning(k)], bound, 0, k + 1)
  {
    BeginMore(Run(lifetime, es), lifetime, k);
    RacesOn(lifetime, es, Beginning(k), bound, 0, k + 1);
  }

  lemma {:induction false} BeginsRun(lifetime: string, n: nat, k: nat)
    requires k <= n
    ensures RacesTo(lifetime, Begins(k), n, 0, k)
  {
    if k == 0 {
      IssuedOnce(lifetime, n);
    } else {
      BeginsRun(lifetime, n, k - 1);
      BeginOnce(lifetime, Begins(k - 1), n, k - 1);
    }
  }

  lemma {:induction false} CommitsRun(lifetime: string, n: nat, k: nat)
    requires k <= n
    ensures RacesTo(lifetime, Commits(n, k), n, k, n)
  {
    if k == 0 {
      BeginsRun(lifetime, n, n);
    } else {
      CommitsRun(lifetime, n, k - 1);
      CommitOnce(lifetime, Commits(n, k - 1), k - 1, n);
    }
  }

  // ---------------------------------------------------------------- the bound

  /** With at most n refreshes of a token in flight and revoke writes that succeed, no token is exchanged more than b times. */
  ghost predicate ExchangedAtMost(lifetime: string, n: nat, b: nat) {
    forall es, jti :: AtMostInFlight(lifetime, es, jti, n) && RevokesSucceed(es) ==>
      Occurrences(Run(lifetime, es).exchanged, jti) <= b
  }

  /** A token is exchanged as often as refreshes of it overlap, and no oftener: once exactly when they come one by one. */
  lemma ExchangedAtMostIff(lifetime: string, n: nat, b: nat)
    ensures ExchangedAtMost(lifetime, n, b) <==> n <= b
  {
    if n <= b {
      forall es, jti | AtMostInFlight(lifetime, es, jti, n) && RevokesSucceed(es)
        ensures Occurrences(Run(lifetime, es).exchanged, jti) <= b
      {
        RunIsOneShot(lifetime, es, jti, n);
      }
    } else {
      CommitsRun(lifetime, n, n);
      OneShot.TimesOccur(USED, n);
      assert Occurrences(Run(lifetime, Commits(n, n)).exchanged, USED) == n;
    }
  }
}

/** What a rotated token takes over from its predecessor, and what that means for logging out a device. */
module TokenContexts {
  import opened Common
  import opened RefreshTokens
  import opened TokenRotation
  import opened TokenRuns
  import Duration
  import B = TokenBlacklist

  predicate Given(text: Option<string>) {
    text.Some? && text.value != ""
  }

  /** A column of the new row: what the request gives, otherwise what the used row had, otherwise nothing. */
  predicate TakesOver(column: Option<string>, asked: Option<string>, former: Option<string>) {
    && (Given(asked) ==> column == asked)
    && (!Given(asked) && Given(former) ==> column == former)
    && (!Given(asked) && !Given(former) ==> column == None)
  }

  /** The lifetime in milliseconds: seven days when it is not set or cannot be read. */
  predicate LivesFor(ms: int, lifetime: string) {
    var read := Duration.Milliseconds(lifetime);
    ms == if lifetime != "" && read.Some? then read.value else 7 * 24 * 3600 * 1000
  }

  lemma LifetimeIsRead(now: int, lifetime: string)
    ensures LivesFor(ExpiresAt(now, lifetime) - now, lifetime)
  {
    if lifetime == "" {
      Duration.SevenDays("7d");
    }
  }

  /** Every column of the row that an accepted refresh adds, and what it does to the used row. */
  lemma SuccessorRow(s: State, t: Jwt, ctx: Context, lifetime: string, env: RefreshEnv)
    requires Refresh(s, t, ctx, lifetime, env).1
    ensures t.jti.Some? && t.jti.value in s.rows && env.mint.jti !in s.rows
    ensures var s', used := Refresh(s, t, ctx, lifetime, env).0, s.rows[t.jti.value];
            && s'.rows.Keys == s.rows.Keys + {env.mint.jti}
            && var r := s'.rows[env.mint.jti];
            && r.userId == t.sub && r.revokedAt == None && r.replacedBy == None && r.born == |s.rows|
            && r.token == Jwt(t.sub, Some(env.mint.jti), env.mint.exp, env.mint.signature)
            && LivesFor(r.expiresAt - env.now, lifetime)
            && TakesOver(r.context.deviceInfo, ctx.deviceInfo, used.context.deviceInfo)
            && TakesOver(r.context.deviceId, ctx.deviceId, used.context.deviceId)
            && TakesOver(r.context.userAgent, ctx.userAgent, used.context.userAgent)
            && TakesOver(r.context.ip, ctx.ip, used.context.ip)
            && s'.rows[t.jti.value] == (if env.revokeOk then used.(revokedAt := Some(env.now), replacedBy := Some(env.mint.jti))
                                        else used)
            && forall j :: j in s.rows && j != t.jti.value ==> s'.rows[j] == s.rows[j]
  {
    LifetimeIsRead(env.now, lifetime);
  }

  /** Every column of the row that issuing adds. */
  lemma IssuedRow(s: State, u: string, ctx: Context, now: int, lifetime: string, mint: Mint, ok: bool)
    requires Generate(s, u, ctx, now, lifetime, mint, ok).1
    ensures mint.jti !in s.rows
    ensures var s' := Generate(s, u, ctx, now, lifetime, mint, ok).0;
            && s'.rows.Keys == s.rows.Keys + {mint.jti} && (forall j :: j in s.rows ==> s'.rows[j] == s.rows[j])
            && var r := s'.rows[mint.jti];
            && r.userId == u && r.context == ctx && r.revokedAt == None && r.replacedBy == None && r.born == |s.rows|
            && r.token == Jwt(u, Some(mint.jti), mint.exp, mint.signature) && LivesFor(r.expiresAt - now, lifetime)
  {
    GeneratedRow(s, u, ctx, now, lifetime, mint, ok);
    LifetimeIsRead(now, lifetime);
    OnlyAdded(s.rows, mint.jti, Row(u, Sign(u, mint), ExpiresAt(now, lifetime), ctx, |s.rows|, None, None));
  }

  lemma OnlyAdded(rows: Rows, jti: string, row: Row)
    requires jti !in rows
    ensures var after := rows[jti := row];
            after.Keys == rows.Keys + {jti} && after[jti] == row && forall j :: j in rows ==> after[j] == rows[j]
  {
  }

  lemma GeneratedRow(s: State, u: string, ctx: Context, now: int, lifetime: string, mint: Mint, ok: bool)
    requires Generate(s, u, ctx, now, lifetime, mint, ok).1
    ensures mint.jti !in s.rows
    ensures Generate(s, u, ctx, now, lifetime, mint, ok).0.rows
         == s.rows[mint.jti := Row(u, Sign(u, mint), ExpiresAt(now, lifetime), ctx, |s.rows|, None, None)]
  {
  }

  /** Exactly which refreshes are accepted. */
  lemma AcceptedIff(s: State, t: Jwt, ctx: Context, lifetime: string, env: RefreshEnv)
    ensures Refresh(s, t, ctx, lifetime, env).1
       <==> && Given(t.jti) && t.jti.value in s.issued && s.issued[t.jti.value] == t && env.now < t.exp * 1000
            && !B.Reported(s.black, B.ComposeKey(B.Refresh, t.jti.value), env.now, env.lookWorks)
            && t.jti.value in s.rows && s.rows[t.jti.value].revokedAt == None && env.userExists
            && env.mint.signs && env.createOk && env.mint.jti !in s.rows
            && forall j :: j in s.rows ==> s.rows[j].token != Jwt(t.sub, Some(env.mint.jti), env.mint.exp, env.mint.signature)
  {
  }

  // ---------------------------------------------------------------- the device of a family

  /** The token belongs to the family that started from r. */
  ghost predicate InFamily(s: State, r: string, j: string) {
    Inv(s) && j in s.rows && Root(s, j) == r
  }

  /** No accepted refresh of this family has sent a device id. */
  ghost predicate Silent(lifetime: string, es: seq<Event>, r: string) {
    es != [] ==>
      var s, e := Run(lifetime, es[..|es| - 1]), es[|es| - 1];
      && Silent(lifetime, es[..|es| - 1], r)
      && (Accepts(s, lifetime, e) && e.token.jti.Some? && InFamily(s, r, e.token.jti.value) ==> !Given(e.context.deviceId))
  }

  /** Old tokens keep their parents, rows only gain revocations and links. */
  ghost predicate Grown(s: State, s': State) {
    && Inv(s) && Inv(s') && Advances(s.rows, s'.rows)
    && forall j :: j in s.rows ==> (j in s'.parent <==> j in s.parent) && (j in s.parent ==> s'.parent[j] == s.parent[j])
  }

  lemma NextGrows(s: State, lifetime: string, e: Event)
    requires Inv(s) && FreshJti(s, e)
    ensures Grown(s, Next(s, lifetime, e))
  {
    NextKeeps(s, lifetime, e);
    ParentsStay(s, lifetime, e);
  }

  lemma ParentsStay(s: State, lifetime: string, e: Event)
    requires Inv(s) && FreshJti(s, e)
    ensures var s' := Next(s, lifetime, e);
            forall j :: j in s.rows ==> (j in s'.parent <==> j in s.parent) && (j in s.parent ==> s'.parent[j] == s.parent[j])
  {
    if e.Refreshing? {
      ChildIsNew(s, e.env.mint.jti);
    }
  }

  lemma {:induction false} RootStays(s: State, s': State, j: string)
    requires Grown(s, s') && j in s.rows
    ensures j in s'.rows && Root(s', j) == Root(s, j)
    decreases s.rows[j].born
  {
    if j in s.parent {
      assert ParentOk(s, j);
      RootStays(s, s', s.parent[j]);
    }
  }

  lemma {:induction false} RootIsOwner(s: State, j: string)
    requires Inv(s) && j in s.rows
    ensures Root(s, j) in s.rows && Root(s, j) !in s.parent && s.rows[Root(s, j)].userId == s.rows[j].userId
    decreases s.rows[j].born
  {
    if j in s.parent {
      assert ParentOk(s, j);
      RootIsOwner(s, s.parent[j]);
    }
  }

  ghost predicate DeviceOf(s: State, r: string, d: string) {
    Inv(s) && r in s.rows && r !in s.parent && forall j :: InFamily(s, r, j) ==> s.rows[j].context.deviceId == Some(d)
  }

  lemma NextKeepsDevice(s: State, lifetime: string, e: Event, r: string, d: string)
    requires DeviceOf(s, r, d) && d != "" && FreshJti(s, e)
    requires Accepts(s, lifetime, e) && e.token.jti.Some? && InFamily(s, r, e.token.jti.value) ==> !Given(e.context.deviceId)
    ensures DeviceOf(Next(s, lifetime, e), r, d)
  {
    var s' := Next(s, lifetime, e);
    NextGrows(s, lifetime, e);
    forall j | InFamily(s', r, j)
      ensures s'.rows[j].context.deviceId == Some(d)
    {
      if j in s.rows {
        RootStays(s, s', j);
        assert InFamily(s, r, j);
      } else {
        NewInFamily(s, lifetime, e, r, j);
        assert InFamily(s, r, e.token.jti.value);
        SuccessorRow(s, e.token, e.context, lifetime, e.env);
      }
    }
  }

  /** A row that an event adds to an existing family is the successor of a member. */
  lemma NewInFamily(s: State, lifetime: string, e: Event, r: string, j: string)
    requires Inv(s) && FreshJti(s, e) && r in s.rows && j !in s.rows && InFamily(Next(s, lifetime, e), r, j)
    ensures Accepts(s, lifetime, e) && j == e.env.mint.jti && e.token.jti.Some? && InFamily(s, r, e.token.jti.value)
  {
    var s' := Next(s, lifetime, e);
    NextGrows(s, lifetime, e);
    match e {
      case Generating(u, ctx, now, mint, ok) =>
        ChildIsNew(s, mint.jti);
      case Refreshing(t, ctx, env) =>
        SuccessorRow(s, t, ctx, lifetime, env);
        assert s'.parent[j] == t.jti.value;
        RootStays(s, s', t.jti.value);
      case _ =>
    }
  }

  /** A family that starts on a device stays on it as long as its refreshes name none. */
  lemma {:induction false} FamilyKeepsDevice(lifetime: string, es: seq<Event>, r: string, d: string)
    requires FreshRun(lifetime, es) && Silent(lifetime, es, r) && d != ""
    requires r in Run(lifetime, es).rows && r !in Run(lifetime, es).parent
    requires Run(lifetime, es).rows[r].context.deviceId == Some(d)
    ensures DeviceOf(Run(lifetime, es), r, d)
  {
    RunKeeps(lifetime, es);
    if es != [] {
      var front, e := es[..|es| - 1], es[|es| - 1];
      var s := Run(lifetime, front);
      RunKeeps(lifetime, front);
      NextGrows(s, lifetime, e);
      if r in s.rows {
        FamilyKeepsDevice(lifetime, front, r, d);
        NextKeepsDevice(s, lifetime, e, r, d);
      } else {
        FirstOfFamily(s, lifetime, e, r, d);
      }
    }
  }

  lemma FirstOfFamily(s: State, lifetime: string, e: Event, r: string, d: string)
    requires Inv(s) && FreshJti(s, e) && r !in s.rows && Inv(Next(s, lifetime, e))
    requires r in Next(s, lifetime, e).rows && r !in Next(s, lifetime, e).parent
    requires Next(s, lifetime, e).rows[r].context.deviceId == Some(d)
    ensures DeviceOf(Next(s, lifetime, e), r, d)
  {
    var s' := Next(s, lifetime, e);
    NextGrows(s, lifetime, e);
    forall j | InFamily(s', r, j)
      ensures j == r
    {
      if j in s.rows {
        RootStays(s, s', j);
        RootIsOwner(s, j);
      }
    }
  }

  /** Logging out that device leaves such a family no live token. */
  lemma LogoutEndsFamily(lifetime: string, es: seq<Event>, r: string, d: string, opts: LogoutOptions, env: LogoutEnv)
    requires FreshRun(lifetime, es) && Silent(lifetime, es, r) && d != ""
    requires r in Run(lifetime, es).rows && r !in Run(lifetime, es).parent
    requires Run(lifetime, es).rows[r].context.deviceId == Some(d)
    requires !opts.revokeAllDevices && opts.deviceId == Some(d) && env.bulkOk
    ensures var s := Run(lifetime, es);
            var s' := Logout(s, s.rows[r].userId, opts, env).0;
            forall j :: InFamily(s, r, j) ==> j in s'.rows && !s'.rows[j].Live()
  {
    FamilyKeepsDevice(lifetime, es, r, d);
    var s := Run(lifetime, es);
    var s' := Logout(s, s.rows[r].userId, opts, env).0;
    forall j | InFamily(s, r, j)
      ensures j in s'.rows && !s'.rows[j].Live()
    {
      RootIsOwner(s, j);
      LogoutOneDevice(s, s.rows[r].userId, opts, env, j);
    }
  }

  // ---------------------------------------------------------------- what a logout answers and does

  /** The presented token was signed here, is unaltered and has not expired. */
  predicate Genuine(s: State, t: Jwt, now: int) {
    Given(t.jti) && t.jti.value in s.issued && s.issued[t.jti.value] == t && now < t.exp * 1000
  }

  /** The row a presented token addresses: by its jti when it is genuine, by its hash otherwise. */
  predicate Addresses(s: State, t: Jwt, now: int, j: string)
    requires j in s.rows
  {
    if Genuine(s, t, now) then t.jti == Some(j) else s.rows[j].token == t
  }

  /** Every row after a logout. */
  lemma LogoutRows(s: State, u: string, opts: LogoutOptions, env: LogoutEnv, j: string)
    requires j in s.rows
    ensures var r, s' := s.rows[j], Logout(s, u, opts, env).0;
            var presented := opts.refreshToken.Some? && env.oneOk && Addresses(s, opts.refreshToken.value, env.now, j);
            var inBulk := env.bulkOk && r.userId == u && r.revokedAt == None && !presented
                          && (opts.revokeAllDevices || (Given(opts.deviceId) && r.context.deviceId == opts.deviceId));
            s'.rows.Keys == s.rows.Keys
            && s'.rows[j] == if presented || inBulk then r.(revokedAt := Some(env.now)) else r
  {
  }

  /** Every part of the answer; the count of a bulk step is LogoutCountConserves. */
  lemma LogoutAnswer(s: State, u: string, opts: LogoutOptions, env: LogoutEnv)
    ensures var answer := Logout(s, u, opts, env).1;
            && (answer.accessTokenRevoked
                <==> env.access.Some? && Given(env.access.value.jti) && env.access.value.exp.Some?
                     && env.access.value.exp.value != 0 && env.now < env.access.value.exp.value * 1000)
            && (answer.refreshTokenRevoked
                <==> opts.refreshToken.Some?
                     && (Genuine(s, opts.refreshToken.value, env.now)
                         ==> env.oneOk && opts.refreshToken.value.jti.value in s.rows))
    ensures var answer, bulk := Logout(s, u, opts, env).1, opts.revokeAllDevices || Given(opts.deviceId);
            && (answer.allDevicesLoggedOut <==> opts.revokeAllDevices && env.bulkOk)
            && (answer.revokedTokensCount.None? <==> if bulk then !env.bulkOk else opts.refreshToken.None?)
            && (!bulk && opts.refreshToken.Some? ==>
                  answer.revokedTokensCount == Some(if answer.refreshTokenRevoked then 1 else 0))
    ensures var answer, bulk := Logout(s, u, opts, env).1, opts.revokeAllDevices || Given(opts.deviceId);
            answer.message == (if bulk && !env.bulkOk then Failed
                               else if opts.revokeAllDevices then AllDevices(answer.revokedTokensCount.value)
                               else if answer.revokedTokensCount.Some? && answer.revokedTokensCount.value > 0
                                    then ThisDevice(answer.revokedTokensCount.value)
                               else LoggedOut)
  {
    if opts.refreshToken.Some? {
      var t := opts.refreshToken.value;
      assert Genuine(s, t, env.now) && t.jti.value in s.rows ==> t.jti.value in Selected(s.rows, ByJti(t.jti.value));
    }
  }

  /** A logout blacklists the access token it is called with, and the refresh token it presents, in the stores that work. */
  lemma LogoutBlacklists(s: State, u: string, opts: LogoutOptions, env: LogoutEnv)
    ensures var s' := Logout(s, u, opts, env).0;
            && (B.Usable(env.access, env.now) ==>
                  B.Reported(s'.black, B.ComposeKey(B.Access, env.access.value.jti.value), env.now, env.accessWorks))
            && (opts.refreshToken.Some? && B.Usable(ClaimsOf(opts.refreshToken.value), env.now) ==>
                  B.Reported(s'.black, B.ComposeKey(B.Refresh, opts.refreshToken.value.jti.value), env.now, env.addWorks))
  {
    if B.Usable(env.access, env.now) && opts.refreshToken.Some? && opts.refreshToken.value.jti.Some? {
      B.KeysAreDistinct(B.Access, env.access.value.jti.value, B.Refresh, opts.refreshToken.value.jti.value);
    }
  }
}

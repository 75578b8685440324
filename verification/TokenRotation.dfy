/** Issuing, rotation and logout of token.service.ts, and what holds over whole runs of them. */
module TokenRotation {
  import opened Common
  import opened RefreshTokens
  import Duration
  import B = TokenBlacklist

  /**
   * Everything the properties speak about. `issued` holds the tokens signed with the refresh secret that
   * were handed out; `parent` remembers which token each rotated token was exchanged for; `black` is the blacklist.
   */
  datatype State = State(rows: Rows, issued: map<string, Jwt>, parent: map<string, string>, black: B.Stores)

  const Empty := State(map[], map[], map[], B.EMPTY)

  /** What is drawn for a new token. */
  datatype Stamp = Stamp(jti: string, exp: int, signature: nat)

  /**
   * The draws for a new refresh token and for the access token that goes with it; signing either fails when the
   * JWT library does not accept its configured lifetime.
   */
  datatype Mint = Mint(jti: string, exp: int, signature: nat, access: Stamp, signs: bool)

  datatype Tokens = Tokens(access: Jwt, refresh: Jwt)

  const SEVEN_DAYS := 7 * 24 * 60 * 60 * 1000

  /** An unset lifetime means 7d; one that cannot be parsed falls back to seven days. */
  function ExpiresAt(now: int, lifetime: string): int {
    var ms := Duration.Milliseconds(if lifetime != "" then lifetime else "7d");
    now + if ms.Some? then ms.value else SEVEN_DAYS
  }

  function Sign(userId: string, mint: Mint): Jwt {
    Jwt(userId, Some(mint.jti), mint.exp, mint.signature)
  }

  function AccessToken(userId: string, mint: Mint): Jwt {
    Jwt(userId, Some(mint.access.jti), mint.access.exp, mint.access.signature)
  }

  /** Signature and expiry check of the JWT library, which compares whole seconds; a jti is a UUID, never empty. */
  predicate Verifies(issued: map<string, Jwt>, t: Jwt, now: int) {
    t.jti.Some? && t.jti.value != "" && t.jti.value in issued && issued[t.jti.value] == t && now < t.exp * 1000
  }

  function NewRow(s: State, token: Jwt, expiresAt: int, ctx: Context): Row {
    Row(token.sub, token, expiresAt, ctx, |s.rows|, None, None)
  }

  predicate CanCreate(rows: Rows, jti: string, token: Jwt, writable: bool) {
    writable && jti !in rows && forall j :: j in rows ==> rows[j].token != token
  }

  function Generate(
      s: State, userId: string, ctx: Context, now: int, lifetime: string, mint: Mint, createOk: bool): (State, bool)
  {
    var token := Sign(userId, mint);
    if CanCreate(s.rows, mint.jti, token, mint.signs && createOk) then
      (State(s.rows[mint.jti := NewRow(s, token, ExpiresAt(now, lifetime), ctx)], s.issued[mint.jti := token],
             s.parent, s.black), true)
    else (s, false)
  }

  /** What a refresh learns from the clock, Redis, the user table, randomness and the two writes. */
  datatype RefreshEnv = RefreshEnv(
    now: int, lookWorks: bool, userExists: bool, mint: Mint, createOk: bool, revokeOk: bool, addWorks: bool)

  /** What decoding a token yields, verified or not. */
  function ClaimsOf(t: Jwt): Option<B.Claims> {
    Some(B.Claims(t.jti, Some(t.exp)))
  }

  function BlackKey(t: Jwt): string
    requires t.jti.Some?
  {
    B.ComposeKey(B.Refresh, t.jti.value)
  }

  /** JavaScript's a || b || undefined on optional strings. */
  function FirstTruthy(a: Option<string>, b: Option<string>): Option<string> {
    if a.Some? && a.value != "" then a else if b.Some? && b.value != "" then b else None
  }

  function Inherit(ctx: Context, former: Context): Context {
    Context(FirstTruthy(ctx.deviceInfo, former.deviceInfo), FirstTruthy(ctx.deviceId, former.deviceId),
            FirstTruthy(ctx.userAgent, former.userAgent), FirstTruthy(ctx.ip, former.ip))
  }

  /** The checks before anything is written. */
  predicate MayRefresh(s: State, t: Jwt, env: RefreshEnv) {
    && Verifies(s.issued, t, env.now) && !B.Reported(s.black, BlackKey(t), env.now, env.lookWorks)
    && t.jti.value in s.rows && s.rows[t.jti.value].Live()
    && env.userExists
  }

  /** The lookup may drop a stale entry. */
  function Looked(s: State, t: Jwt, env: RefreshEnv): B.Stores {
    if Verifies(s.issued, t, env.now) then B.Lookup(s.black, BlackKey(t), env.now, env.lookWorks) else s.black
  }

  /** The exchanged token's row names its successor, unless that write is lost. */
  function Retired(rows: Rows, used: string, env: RefreshEnv): Rows {
    if env.revokeOk then RevokeAll(rows, ByJti(used), env.now, Some(env.mint.jti)) else rows
  }

  /** The whole exchange; true means a new token was handed out. */
  function Refresh(s: State, t: Jwt, ctx: Context, lifetime: string, env: RefreshEnv): (State, bool) {
    var token := Sign(t.sub, env.mint);
    if MayRefresh(s, t, env) && CanCreate(s.rows, env.mint.jti, token, env.mint.signs && env.createOk) then
      var used := t.jti.value;
      var row := NewRow(s, token, ExpiresAt(env.now, lifetime), Inherit(ctx, s.rows[used].context));
      var rows := Retired(s.rows[env.mint.jti := row], used, env);
      var black := B.Add(Looked(s, t, env), ClaimsOf(t), B.Refresh, env.now, env.addWorks);
      (State(rows, s.issued[env.mint.jti := token], s.parent[env.mint.jti := used], black), true)
    else (s.(black := Looked(s, t, env)), false)
  }

  datatype LogoutOptions = LogoutOptions(refreshToken: Option<Jwt>, deviceId: Option<string>, revokeAllDevices: bool)

  /** The access token's claims, whether each blacklisting reaches Redis, and whether the two writes reach the database. */
  datatype LogoutEnv = LogoutEnv(
    now: int, access: Option<B.Claims>, accessWorks: bool, addWorks: bool, oneOk: bool, bulkOk: bool)

  datatype Message = AllDevices(n: nat) | ThisDevice(m: nat) | LoggedOut | Failed

  datatype LogoutResult = LogoutResult(
    accessTokenRevoked: bool, refreshTokenRevoked: bool, allDevicesLoggedOut: bool, revokedTokensCount: Option<nat>,
    message: Message)

  /** The presented token is looked up by jti when it verifies and by its hash otherwise. */
  function PresentedWhere(s: State, t: Jwt, now: int): Where {
    if Verifies(s.issued, t, now) then ByJti(t.jti.value) else ByToken(t)
  }

  function AfterPresented(s: State, opts: LogoutOptions, env: LogoutEnv): Rows {
    if opts.refreshToken.Some? && env.oneOk then
      RevokeAll(s.rows, PresentedWhere(s, opts.refreshToken.value, env.now), env.now, None)
    else s.rows
  }

  /** Both tokens are blacklisted by what they claim, the refresh token also when it does not verify. */
  function Blackened(s: State, opts: LogoutOptions, env: LogoutEnv): B.Stores {
    var black := B.Add(s.black, env.access, B.Access, env.now, env.accessWorks);
    if opts.refreshToken.Some? then B.Add(black, ClaimsOf(opts.refreshToken.value), B.Refresh, env.now, env.addWorks)
    else black
  }

  /** A token that does not verify is reported as revoked whether or not a row was found. */
  predicate PresentedReported(s: State, opts: LogoutOptions, env: LogoutEnv) {
    opts.refreshToken.Some?
    && (Verifies(s.issued, opts.refreshToken.value, env.now)
        ==> env.oneOk && Selected(s.rows, PresentedWhere(s, opts.refreshToken.value, env.now)) != {})
  }

  /** The bulk step of a logout, if there is one. */
  function BulkWhere(userId: string, opts: LogoutOptions): Option<Where> {
    if opts.revokeAllDevices then Some(LiveOfUser(userId, None))
    else if opts.deviceId.Some? && opts.deviceId.value != "" then Some(LiveOfDevice(userId, opts.deviceId.value))
    else None
  }

  /** The rows after the bulk step, and the whole result. */
  function BulkStep(rows: Rows, userId: string, opts: LogoutOptions, env: LogoutEnv, access: bool, reported: bool)
    : (Rows, LogoutResult)
  {
    match BulkWhere(userId, opts)
    case Some(w) =>
      if env.bulkOk then
        var n := |Selected(rows, w)|;
        (RevokeAll(rows, w, env.now, None),
         LogoutResult(access, reported, opts.revokeAllDevices, Some(n),
                      if opts.revokeAllDevices then AllDevices(n) else if n > 0 then ThisDevice(n) else LoggedOut))
      else (rows, LogoutResult(access, reported, false, None, Failed))
    case None =>
      var count := if opts.refreshToken.Some? then Some(if reported then 1 else 0) else None;
      (rows, LogoutResult(access, reported, false, count, if reported then ThisDevice(1) else LoggedOut))
  }

  function Logout(s: State, userId: string, opts: LogoutOptions, env: LogoutEnv): (State, LogoutResult) {
    var (rows, result) := BulkStep(AfterPresented(s, opts, env), userId, opts, env,
                                   B.Usable(env.access, env.now), PresentedReported(s, opts, env));
    (s.(rows := rows, black := Blackened(s, opts, env)), result)
  }

  // ---------------------------------------------------------------- the service

  class TokenService {
    const store: TokenStore
    const blacklist: B.TokenBlacklistService
    const lifetime: string
    var issued: map<string, Jwt>
    ghost var parent: map<string, string>

    constructor (store: TokenStore, blacklist: B.TokenBlacklistService, lifetime: string)
      requires store.rows == map[] && blacklist.Model() == Empty.black
      ensures this.store == store && this.blacklist == blacklist && this.lifetime == lifetime && Model() == Empty
    {
      this.store, this.blacklist, this.lifetime := store, blacklist, lifetime;
      this.issued, this.parent := map[], map[];
    }

    ghost function Model(): State
      reads this, store, blacklist
    {
      State(store.rows, issued, parent, blacklist.Model())
    }

    method ExpiryOf(now: int) returns (at: int)
      ensures at == ExpiresAt(now, lifetime)
    {
      at := now + SEVEN_DAYS;
      var ms := Duration.Milliseconds(if lifetime != "" then lifetime else "7d");
      if ms.Some? {
        at := now + ms.value;
      }
    }

    method GenerateTokens(userId: string, ctx: Context, now: int, mint: Mint, createOk: bool) returns (r: Result<Tokens>)
      modifies this, store
      ensures var after := Generate(old(Model()), userId, ctx, now, lifetime, mint, createOk);
              Model() == after.0 && r.Success? == after.1
              && (r.Success? ==> r.value.access == Jwt(userId, Some(mint.access.jti), mint.access.exp, mint.access.signature)
                                 && r.value.refresh == Jwt(userId, Some(mint.jti), mint.exp, mint.signature))
    {
      if !mint.signs {
        return Failure("signing failed");
      }
      var tokens := Tokens(AccessToken(userId, mint), Sign(userId, mint));
      var expiresAt := ExpiryOf(now);
      var row := Row(userId, tokens.refresh, expiresAt, ctx, |store.rows|, None, None);
      var ok := store.CreateRefreshToken(mint.jti, row, createOk);
      if !ok {
        return Failure("storing the refresh token failed");
      }
      issued := issued[mint.jti := tokens.refresh];
      return Success(tokens);
    }

    /** All the checks of a refresh; the row of the presented token when they pass. */
    method CheckRefresh(t: Jwt, env: RefreshEnv) returns (row: Option<Row>)
      modifies blacklist
      ensures Model() == old(Model()).(black := Looked(old(Model()), t, env))
      ensures row == if MayRefresh(old(Model()), t, env) then Some(store.rows[t.jti.value]) else None
    {
      if !Verifies(issued, t, env.now) {
        return None;
      }
      var blacklisted := blacklist.IsTokenBlacklisted(t.jti.value, B.Refresh, env.now, env.lookWorks, true);
      if blacklisted {
        return None;
      }
      var found := store.FindByJti(t.jti.value);
      if found.None? || !found.value.Live() || !env.userExists {
        return None;
      }
      return found;
    }

    method Retire(t: Jwt, env: RefreshEnv)
      requires t.jti.Some? && t.jti.value in store.rows
      modifies store, blacklist
      ensures store.rows == Retired(old(store.rows), t.jti.value, env)
      ensures blacklist.Model() == B.Add(old(blacklist.Model()), ClaimsOf(t), B.Refresh, env.now, env.addWorks)
    {
      assert t.jti.value in Selected(store.rows, ByJti(t.jti.value));
      var _ := store.RevokeOne(ByJti(t.jti.value), env.now, Some(env.mint.jti), env.revokeOk);
      var _ := blacklist.AddToken(ClaimsOf(t), B.Refresh, env.now, env.addWorks, true);
    }

    method RefreshToken(t: Jwt, ctx: Context, env: RefreshEnv) returns (r: Result<Tokens>)
      modifies this, store, blacklist
      ensures var after := Refresh(old(Model()), t, ctx, lifetime, env);
              Model() == after.0 && r.Success? == after.1
              && (r.Success? ==>
                    && r.value.access == Jwt(t.sub, Some(env.mint.access.jti), env.mint.access.exp, env.mint.access.signature)
                    && r.value.refresh == Jwt(t.sub, Some(env.mint.jti), env.mint.exp, env.mint.signature))
    {
      var found := CheckRefresh(t, env);
      if found.None? {
        return Failure("refresh token invalid");
      }
      var created := StoreSuccessor(t, Inherit(ctx, found.value.context), env);
      if !created {
        return Failure("refresh token invalid");
      }
      Retire(t, env);
      issued := issued[env.mint.jti := Sign(t.sub, env.mint)];
      parent := parent[env.mint.jti := t.jti.value];
      return Success(Tokens(AccessToken(t.sub, env.mint), Sign(t.sub, env.mint)));
    }

    /** Signs the new token and stores its row. */
    method StoreSuccessor(t: Jwt, ctx: Context, env: RefreshEnv) returns (created: bool)
      modifies store
      ensures var token := Sign(t.sub, env.mint);
              && created == CanCreate(old(store.rows), env.mint.jti, token, env.mint.signs && env.createOk)
              && store.rows == if !created then old(store.rows)
                               else old(store.rows)[env.mint.jti :=
                                      NewRow(old(Model()), token, ExpiresAt(env.now, lifetime), ctx)]
    {
      if !env.mint.signs {
        return false;
      }
      var token := Sign(t.sub, env.mint);
      var expiresAt := ExpiryOf(env.now);
      var row := Row(t.sub, token, expiresAt, ctx, |store.rows|, None, None);
      created := store.CreateRefreshToken(env.mint.jti, row, env.createOk);
    }

    /** Revokes the row of the presented token and blacklists the token; whether that is reported as revoked. */
    method RevokePresented(t: Jwt, env: LogoutEnv) returns (reported: bool)
      modifies store, blacklist
      ensures var s, opts := old(Model()), LogoutOptions(Some(t), None, false);
              && store.rows == AfterPresented(s, opts, env) && reported == PresentedReported(s, opts, env)
              && blacklist.Model() == B.Add(s.black, ClaimsOf(t), B.Refresh, env.now, env.addWorks)
      ensures issued == old(issued) && parent == old(parent)
    {
      UnselectedIsUntouched(store.rows, PresentedWhere(Model(), t, env.now), env.now);
      if Verifies(issued, t, env.now) {
        reported := store.RevokeOne(ByJti(t.jti.value), env.now, None, env.oneOk);
      } else {
        var _ := store.RevokeOne(ByToken(t), env.now, None, env.oneOk);
        reported := true;
      }
      var _ := blacklist.AddToken(ClaimsOf(t), B.Refresh, env.now, env.addWorks, true);
    }

    method LogoutUser(userId: string, opts: LogoutOptions, env: LogoutEnv) returns (result: LogoutResult)
      modifies this, store, blacklist
      ensures Model() == Logout(old(Model()), userId, opts, env).0
      ensures result == Logout(old(Model()), userId, opts, env).1
    {
      var access, reported := RevokeTokens(opts, env);
      result := LogoutResult(access, reported, false, None, LoggedOut);
      result := RevokeInBulk(userId, opts, env, result);
    }

    /** The first two steps of a logout: the access token, then the refresh token if one is presented. */
    method RevokeTokens(opts: LogoutOptions, env: LogoutEnv) returns (access: bool, reported: bool)
      modifies store, blacklist
      ensures store.rows == AfterPresented(old(Model()), opts, env) && blacklist.Model() == Blackened(old(Model()), opts, env)
      ensures access == B.Usable(env.access, env.now) && reported == PresentedReported(old(Model()), opts, env)
    {
      var added := blacklist.AddToken(env.access, B.Access, env.now, env.accessWorks, true);
      access, reported := added.added, false;
      if opts.refreshToken.Some? {
        reported := RevokePresented(opts.refreshToken.value, env);
      }
    }

    /** The bulk step, its count and the message; `first` is what the steps before it have found. */
    method RevokeInBulk(userId: string, opts: LogoutOptions, env: LogoutEnv, first: LogoutResult) returns (result: LogoutResult)
      requires first == LogoutResult(first.accessTokenRevoked, first.refreshTokenRevoked, false, None, LoggedOut)
      requires opts.refreshToken.None? ==> !first.refreshTokenRevoked
      modifies store
      ensures (store.rows, result)
           == BulkStep(old(store.rows), userId, opts, env, first.accessTokenRevoked, first.refreshTokenRevoked)
    {
      result := first;
      var bulk := BulkWhere(userId, opts);
      if bulk.Some? {
        if !env.bulkOk {
          return result.(message := Failed);
        }
        var count := store.RevokeMany(bulk.value, env.now, None);
        result := result.(allDevicesLoggedOut := opts.revokeAllDevices, revokedTokensCount := Some(count));
      } else if opts.refreshToken.Some? {
        result := result.(revokedTokensCount := Some(if result.refreshTokenRevoked then 1 else 0));
      }
      if result.allDevicesLoggedOut {
        result := result.(message := AllDevices(result.revokedTokensCount.value));
      } else if result.revokedTokensCount.Some? && result.revokedTokensCount.value > 0 {
        result := result.(message := ThisDevice(result.revokedTokensCount.value));
      }
    }
  }

  lemma UnselectedIsUntouched(rows: Rows, w: Where, at: int)
    ensures Selected(rows, w) == {} ==> RevokeAll(rows, w, at, None) == rows
  {
    if Selected(rows, w) == {} {
      forall j | j in rows
        ensures !Selects(w, j, rows[j])
      {
        assert j !in Selected(rows, w);
      }
    }
  }
}

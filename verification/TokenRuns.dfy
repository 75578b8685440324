/** Invariants of the refresh-token state machine over whole runs. */
module TokenRuns {
  import opened Common
  import opened RefreshTokens
  import opened TokenRotation
  import B = TokenBlacklist

  datatype Event =
    | Generating(userId: string, ctx: Context, now: int, mint: Mint, createOk: bool)
    | Refreshing(token: Jwt, context: Context, env: RefreshEnv)
    | LoggingOut(ofUser: string, opts: LogoutOptions, logoutEnv: LogoutEnv)
    | Firing(at: int, timer: B.Timer)

  function Next(s: State, lifetime: string, e: Event): State {
    match e
    case Generating(u, ctx, now, mint, ok) => Generate(s, u, ctx, now, lifetime, mint, ok).0
    case Refreshing(t, ctx, env) => Refresh(s, t, ctx, lifetime, env).0
    case LoggingOut(u, opts, env) => Logout(s, u, opts, env).0
    case Firing(at, timer) => s.(black := B.Fire(s.black, at, timer))
  }

  /** Randomness: a new jti has not been handed out before. */
  predicate FreshJti(s: State, e: Event) {
    match e
    case Generating(_, _, _, mint, _) => mint.jti !in s.issued
    case Refreshing(_, _, env) => env.mint.jti !in s.issued
    case _ => true
  }

  predicate Accepts(s: State, lifetime: string, e: Event) {
    e.Refreshing? && Refresh(s, e.token, e.context, lifetime, e.env).1
  }

  /** The write that revokes the exchanged token, if there is one, reaches the database. */
  predicate RevokeSucceeds(e: Event) {
    e.Refreshing? ==> e.env.revokeOk
  }

  // ---------------------------------------------------------------- invariants

  ghost predicate RowOk(s: State, j: string)
    requires j in s.rows
  {
    var r := s.rows[j];
    && j in s.issued && s.issued[j] == r.token && r.token.jti == Some(j) && r.token.sub == r.userId
    && r.born < |s.rows|
    && (r.replacedBy.Some? ==>
          !r.Live() && r.replacedBy.value in s.parent && s.parent[r.replacedBy.value] == j)
  }

  ghost predicate ParentOk(s: State, j: string)
    requires j in s.parent
  {
    && j in s.rows && s.parent[j] in s.rows
    && s.rows[s.parent[j]].born < s.rows[j].born
    && s.rows[s.parent[j]].userId == s.rows[j].userId
  }

  /** Holds whatever writes fail. */
  ghost predicate Inv(s: State) {
    && (forall j :: j in s.rows ==> RowOk(s, j))
    && (forall j :: j in s.parent ==> ParentOk(s, j))
  }

  /** Every exchange left its mark on the exchanged row. */
  ghost predicate Linked(s: State) {
    forall j :: j in s.parent ==> s.parent[j] in s.rows && s.rows[s.parent[j]].replacedBy == Some(j)
  }

  /** Rows keep identity, owner and token; nothing is un-revoked and no replacedBy changes once set. */
  ghost predicate Advances(a: Rows, b: Rows) {
    forall j :: j in a ==>
      && j in b
      && b[j] == a[j].(revokedAt := b[j].revokedAt, replacedBy := b[j].replacedBy)
      && (!a[j].Live() ==> !b[j].Live())
      && (a[j].replacedBy.Some? ==> b[j].replacedBy == a[j].replacedBy)
  }

  /** Rows may only lose their being live. */
  ghost predicate OnlyRevokes(a: Rows, b: Rows) {
    && a.Keys == b.Keys
    && forall j :: j in a ==> b[j] == a[j].(revokedAt := b[j].revokedAt) && (!a[j].Live() ==> !b[j].Live())
  }

  lemma RevokeWithoutSuccessor(rows: Rows, w: Where, at: int)
    ensures OnlyRevokes(rows, RevokeAll(rows, w, at, None))
  {
  }

  lemma RevokingKeeps(s: State, rows: Rows)
    requires Inv(s) && OnlyRevokes(s.rows, rows)
    ensures Inv(s.(rows := rows)) && Advances(s.rows, rows) && (Linked(s) ==> Linked(s.(rows := rows)))
  {
    var s' := s.(rows := rows);
    assert |rows| == |rows.Keys| && |s.rows| == |s.rows.Keys|;
    forall j | j in s'.rows
      ensures RowOk(s', j)
    {
      assert RowOk(s, j);
    }
    forall j | j in s'.parent
      ensures ParentOk(s', j)
    {
      assert ParentOk(s, j);
    }
  }

  lemma InsertKeeps(s: State, jti: string, row: Row)
    requires Inv(s) && jti !in s.rows && jti !in s.issued
    requires row.token.jti == Some(jti) && row.token.sub == row.userId && row.born == |s.rows|
    requires row.revokedAt.None? && row.replacedBy.None?
    ensures var s' := s.(rows := s.rows[jti := row], issued := s.issued[jti := row.token]);
            Inv(s') && Advances(s.rows, s'.rows) && (Linked(s) ==> Linked(s'))
  {
    var s' := s.(rows := s.rows[jti := row], issued := s.issued[jti := row.token]);
    forall j | j in s'.rows
      ensures RowOk(s', j)
    {
      InsertKeepsRow(s, jti, row, j);
    }
    forall j | j in s'.parent
      ensures ParentOk(s', j)
    {
      assert ParentOk(s, j);
    }
  }

  lemma InsertKeepsRow(s: State, jti: string, row: Row, j: string)
    requires Inv(s) && jti !in s.rows && jti !in s.issued && (j == jti || j in s.rows)
    requires row.token.jti == Some(jti) && row.token.sub == row.userId && row.born == |s.rows| && row.replacedBy.None?
    ensures RowOk(s.(rows := s.rows[jti := row], issued := s.issued[jti := row.token]), j)
  {
    assert s.rows[jti := row].Keys == s.rows.Keys + {jti};
    if j != jti {
      assert RowOk(s, j);
    }
  }

  /** The blacklist is no part of the invariants. */
  lemma BlackIsApart(s: State, black: B.Stores)
    requires Inv(s)
    ensures Inv(s.(black := black)) && (Linked(s.(black := black)) <==> Linked(s))
  {
    var s' := s.(black := black);
    forall j | j in s'.rows
      ensures RowOk(s', j)
    {
      assert RowOk(s, j);
    }
    forall j | j in s'.parent
      ensures ParentOk(s', j)
    {
      assert ParentOk(s, j);
    }
  }

  lemma GenerateKeeps(s: State, u: string, ctx: Context, now: int, lifetime: string, mint: Mint, ok: bool)
    requires Inv(s) && mint.jti !in s.issued
    ensures var s' := Generate(s, u, ctx, now, lifetime, mint, ok).0;
            Inv(s') && Advances(s.rows, s'.rows) && (Linked(s) ==> Linked(s'))
  {
    if Generate(s, u, ctx, now, lifetime, mint, ok).1 {
      InsertKeeps(s, mint.jti, NewRow(s, Sign(u, mint), ExpiresAt(now, lifetime), ctx));
    }
  }

  /** A child just inserted, and the row it is exchanged for. */
  ghost predicate Exchange(g: State, used: string, child: string) {
    && Inv(g) && used in g.rows && child in g.rows && child !in g.parent
    && g.rows[used].born < g.rows[child].born && g.rows[used].userId == g.rows[child].userId
  }

  lemma UnlinkedKeeps(g: State, used: string, child: string)
    requires Exchange(g, used, child)
    ensures var s' := g.(parent := g.parent[child := used]);
            Inv(s') && (g.rows[used].replacedBy.None? ==> !Linked(s'))
  {
    var s' := g.(parent := g.parent[child := used]);
    assert RowOk(g, used);
    forall j | j in s'.rows
      ensures RowOk(s', j)
    {
      assert RowOk(g, j);
    }
    forall j | j in s'.parent
      ensures ParentOk(s', j)
    {
      assert j != child ==> ParentOk(g, j);
    }
    assert s'.parent[child] == used;
  }

  /** The exchange with its mark on the used row. */
  function Marked(g: State, used: string, child: string, at: int): State
    requires used in g.rows
  {
    g.(rows := g.rows[used := g.rows[used].Revoked(at, Some(child))], parent := g.parent[child := used])
  }

  lemma LinkKeeps(g: State, used: string, child: string, at: int)
    requires Exchange(g, used, child)
    ensures Inv(Marked(g, used, child, at))
  {
    var s' := Marked(g, used, child, at);
    assert RowOk(g, used);
    forall j | j in s'.rows
      ensures RowOk(s', j)
    {
      LinkKeepsRow(g, used, child, at, j);
    }
    forall j | j in s'.parent
      ensures ParentOk(s', j)
    {
      assert j != child ==> ParentOk(g, j);
    }
  }

  lemma FirstLinkAdvances(g: State, used: string, child: string, at: int)
    requires Exchange(g, used, child) && g.rows[used].replacedBy.None?
    ensures Advances(g.rows, Marked(g, used, child, at).rows) && (Linked(g) ==> Linked(Marked(g, used, child, at)))
  {
  }

  lemma LinkKeepsRow(g: State, used: string, child: string, at: int, j: string)
    requires Exchange(g, used, child) && j in g.rows
    ensures RowOk(Marked(g, used, child, at), j)
  {
    var rows := Marked(g, used, child, at).rows;
    assert rows.Keys == g.rows.Keys && |rows| == |rows.Keys| && |g.rows| == |g.rows.Keys|;
    assert RowOk(g, j);
  }

  lemma RevokeByJti(rows: Rows, jti: string, at: int, successor: Option<string>)
    requires jti in rows
    ensures RevokeAll(rows, ByJti(jti), at, successor) == rows[jti := rows[jti].Revoked(at, successor)]
  {
  }

  lemma AdvancesTrans(a: Rows, b: Rows, c: Rows)
    requires Advances(a, b) && Advances(b, c)
    ensures Advances(a, c)
  {
  }

  /** An exchange whose revoke write succeeds keeps every exchange linked; one whose write is lost breaks that. */
  lemma RefreshKeeps(s: State, t: Jwt, ctx: Context, lifetime: string, env: RefreshEnv)
    requires Inv(s) && env.mint.jti !in s.issued
    ensures Inv(Refresh(s, t, ctx, lifetime, env).0) && Advances(s.rows, Refresh(s, t, ctx, lifetime, env).0.rows)
    ensures Linked(s) ==>
              (Linked(Refresh(s, t, ctx, lifetime, env).0) <==> Refresh(s, t, ctx, lifetime, env).1 ==> env.revokeOk)
  {
    var black := Refresh(s, t, ctx, lifetime, env).0.black;
    if Refresh(s, t, ctx, lifetime, env).1 {
      var used, child := t.jti.value, env.mint.jti;
      assert RowOk(s, used);
      var row := NewRow(s, Sign(t.sub, env.mint), ExpiresAt(env.now, lifetime), Inherit(ctx, s.rows[used].context));
      InsertKeeps(s, child, row);
      var g := s.(rows := s.rows[child := row], issued := s.issued[child := row.token]);
      ChildIsNew(s, child);
      ExchangeKeeps(s, g, used, child, env);
      BlackIsApart(g.(rows := Retired(g.rows, used, env), parent := g.parent[child := used]), black);
    } else {
      BlackIsApart(s, black);
    }
  }

  /** Retiring the used token keeps every exchange linked, unless that write is lost. */
  lemma ExchangeKeeps(s: State, g: State, used: string, child: string, env: RefreshEnv)
    requires Exchange(g, used, child) && env.mint.jti == child && Advances(s.rows, g.rows) && (Linked(s) ==> Linked(g))
    ensures var s' := g.(rows := Retired(g.rows, used, env), parent := g.parent[child := used]);
            Inv(s') && (g.rows[used].replacedBy.None? ==>
                          Advances(s.rows, s'.rows) && (Linked(s) ==> (Linked(s') <==> env.revokeOk)))
  {
    if env.revokeOk {
      RevokeByJti(g.rows, used, env.now, Some(child));
      LinkKeeps(g, used, child, env.now);
      if g.rows[used].replacedBy.None? {
        FirstLinkAdvances(g, used, child, env.now);
        AdvancesTrans(s.rows, g.rows, Retired(g.rows, used, env));
      }
    } else {
      UnlinkedKeeps(g, used, child);
    }
  }

  lemma ChildIsNew(s: State, child: string)
    requires Inv(s)
    ensures child !in s.issued ==> child !in s.rows && child !in s.parent
  {
    if child in s.rows {
      assert RowOk(s, child);
    }
    if child in s.parent {
      assert ParentOk(s, child);
    }
  }

  lemma LogoutKeeps(s: State, u: string, opts: LogoutOptions, env: LogoutEnv)
    requires Inv(s)
    ensures var s' := Logout(s, u, opts, env).0;
            Inv(s') && Advances(s.rows, s'.rows) && (Linked(s) ==> Linked(s'))
  {
    var mid := s.(rows := AfterPresented(s, opts, env));
    if opts.refreshToken.Some? && env.oneOk {
      RevokeWithoutSuccessor(s.rows, PresentedWhere(s, opts.refreshToken.value, env.now), env.now);
    }
    RevokingKeeps(s, mid.rows);
    if BulkWhere(u, opts).Some? && env.bulkOk {
      RevokeWithoutSuccessor(mid.rows, BulkWhere(u, opts).value, env.now);
    }
    var rows := Logout(s, u, opts, env).0.rows;
    RevokingKeeps(mid, rows);
    AdvancesTrans(s.rows, mid.rows, rows);
    BlackIsApart(s.(rows := rows), Blackened(s, opts, env));
  }

  /** What every step keeps, and that no step un-revokes a row or rewrites a link. */
  lemma NextKeeps(s: State, lifetime: string, e: Event)
    requires Inv(s) && FreshJti(s, e)
    ensures Inv(Next(s, lifetime, e)) && Advances(s.rows, Next(s, lifetime, e).rows)
    ensures Linked(s) && RevokeSucceeds(e) ==> Linked(Next(s, lifetime, e))
  {
    match e {
      case Generating(u, ctx, now, mint, ok) => GenerateKeeps(s, u, ctx, now, lifetime, mint, ok);
      case Refreshing(t, ctx, env) => RefreshKeeps(s, t, ctx, lifetime, env);
      case LoggingOut(u, opts, env) => LogoutKeeps(s, u, opts, env);
      case Firing(at, timer) => BlackIsApart(s, B.Fire(s.black, at, timer));
    }
  }

  // ---------------------------------------------------------------- runs

  function Run(lifetime: string, es: seq<Event>): State {
    if es == [] then Empty else Next(Run(lifetime, es[..|es| - 1]), lifetime, es[|es| - 1])
  }

  predicate FreshRun(lifetime: string, es: seq<Event>) {
    es != [] ==>
      FreshRun(lifetime, es[..|es| - 1]) && FreshJti(Run(lifetime, es[..|es| - 1]), es[|es| - 1])
  }

  lemma {:induction false} RunKeeps(lifetime: string, es: seq<Event>)
    requires FreshRun(lifetime, es)
    ensures Inv(Run(lifetime, es))
    ensures (forall e :: e in es ==> RevokeSucceeds(e)) ==> Linked(Run(lifetime, es))
  {
    if es != [] {
      var n := |es| - 1;
      RunKeeps(lifetime, es[..n]);
      NextKeeps(Run(lifetime, es[..n]), lifetime, es[n]);
    }
  }

  lemma {:induction false} RunAdvances(lifetime: string, es: seq<Event>, i: nat)
    requires FreshRun(lifetime, es) && i <= |es|
    ensures FreshRun(lifetime, es[..i]) && Advances(Run(lifetime, es[..i]).rows, Run(lifetime, es).rows)
  {
    if i < |es| {
      var n := |es| - 1;
      RunAdvances(lifetime, es[..n], i);
      assert es[..n][..i] == es[..i];
      RunKeeps(lifetime, es[..n]);
      NextKeeps(Run(lifetime, es[..n]), lifetime, es[n]);
      AdvancesTrans(Run(lifetime, es[..i]).rows, Run(lifetime, es[..n]).rows, Run(lifetime, es).rows);
    } else {
      assert es[..i] == es;
    }
  }

  // ---------------------------------------------------------------- families

  /** The token a chain of exchanges started from. */
  ghost function Root(s: State, j: string): string
    requires Inv(s) && j in s.rows
    decreases s.rows[j].born
  {
    if j in s.parent then assert ParentOk(s, j); Root(s, s.parent[j]) else j
  }

  /** How many exchanges lie between a token and its root. */
  ghost function Depth(s: State, j: string): nat
    requires Inv(s) && j in s.rows
    decreases s.rows[j].born
  {
    if j in s.parent then assert ParentOk(s, j); 1 + Depth(s, s.parent[j]) else 0
  }

  /** Follows replacedBy k times. */
  function Follow(rows: Rows, j: string, k: nat): Option<string>
    decreases k
  {
    if k == 0 then Some(j)
    else if j in rows && rows[j].replacedBy.Some? then Follow(rows, rows[j].replacedBy.value, k - 1)
    else None
  }

  lemma {:induction false} FollowOneMore(rows: Rows, j: string, k: nat, m: string)
    requires Follow(rows, j, k) == Some(m) && m in rows && rows[m].replacedBy.Some?
    ensures Follow(rows, j, k + 1) == rows[m].replacedBy
    decreases k
  {
    if k > 0 {
      FollowOneMore(rows, rows[j].replacedBy.value, k - 1, m);
    } else {
      assert Follow(rows, rows[j].replacedBy.value, 0) == rows[j].replacedBy;
    }
  }

  lemma {:induction false} SameDepthIsSameToken(s: State, x: string, y: string)
    requires Inv(s) && Linked(s) && x in s.rows && y in s.rows
    requires Root(s, x) == Root(s, y) && Depth(s, x) == Depth(s, y)
    ensures x == y
    decreases Depth(s, x)
  {
    if x in s.parent {
      assert ParentOk(s, x) && ParentOk(s, y);
      SameDepthIsSameToken(s, s.parent[x], s.parent[y]);
    }
  }

  /** Of two tokens of one family the shallower reaches the deeper along replacedBy: the family is one chain. */
  lemma {:induction false} FamilyIsOneChain(s: State, x: string, y: string)
    requires Inv(s) && Linked(s) && x in s.rows && y in s.rows
    requires Root(s, x) == Root(s, y) && Depth(s, x) <= Depth(s, y)
    ensures Follow(s.rows, x, Depth(s, y) - Depth(s, x)) == Some(y)
    decreases Depth(s, y)
  {
    if Depth(s, x) == Depth(s, y) {
      SameDepthIsSameToken(s, x, y);
    } else {
      assert ParentOk(s, y);
      FamilyIsOneChain(s, x, s.parent[y]);
      FollowOneMore(s.rows, x, Depth(s, s.parent[y]) - Depth(s, x), s.parent[y]);
    }
  }

  /** Links lead to later rows only, so a chain never comes back to where it started. */
  lemma {:induction false} ChainsAreAcyclic(s: State, j: string, k: nat)
    requires Inv(s) && j in s.rows && Follow(s.rows, j, k).Some?
    ensures var m := Follow(s.rows, j, k).value;
            m in s.rows && s.rows[m].userId == s.rows[j].userId && s.rows[m].born >= s.rows[j].born + k
    decreases k
  {
    if k > 0 {
      assert RowOk(s, j);
      var n := s.rows[j].replacedBy.value;
      assert ParentOk(s, n);
      ChainsAreAcyclic(s, n, k - 1);
    }
  }

  lemma ReplacedIsNotLive(s: State, j: string, k: nat)
    requires Inv(s) && j in s.rows && k > 0 && Follow(s.rows, j, k).Some?
    ensures !s.rows[j].Live()
  {
    assert RowOk(s, j);
  }

  lemma FollowedIsReplaced(s: State, x: string, k: nat, y: string)
    requires Inv(s) && x in s.rows && k > 0 && Follow(s.rows, x, k) == Some(y)
    ensures y in s.rows && s.rows[x].userId == s.rows[y].userId && !s.rows[x].Live()
  {
    ChainsAreAcyclic(s, x, k);
    ReplacedIsNotLive(s, x, k);
  }

  lemma DeeperIsLater(s: State, x: string, y: string)
    requires Inv(s) && Linked(s) && x in s.rows && y in s.rows && Root(s, x) == Root(s, y) && Depth(s, x) < Depth(s, y)
    ensures s.rows[x].userId == s.rows[y].userId && !s.rows[x].Live()
  {
    FamilyIsOneChain(s, x, y);
    FollowedIsReplaced(s, x, Depth(s, y) - Depth(s, x), y);
  }

  lemma OneLiveToken(s: State, x: string, y: string)
    requires Inv(s) && Linked(s) && x in s.rows && y in s.rows && Root(s, x) == Root(s, y) && Depth(s, x) <= Depth(s, y)
    ensures s.rows[x].userId == s.rows[y].userId && (s.rows[x].Live() ==> x == y)
  {
    if Depth(s, x) < Depth(s, y) {
      DeeperIsLater(s, x, y);
    } else {
      SameDepthIsSameToken(s, x, y);
    }
  }

  /** Whichever rows a run has made: at most one token of a family is not revoked, and a family has one owner. */
  lemma OneLiveTokenPerFamily(lifetime: string, es: seq<Event>)
    requires FreshRun(lifetime, es) && forall e :: e in es ==> RevokeSucceeds(e)
    ensures var s := Run(lifetime, es);
            Inv(s) && forall x, y :: x in s.rows && y in s.rows && Root(s, x) == Root(s, y) ==>
                        && s.rows[x].userId == s.rows[y].userId
                        && (s.rows[x].Live() && s.rows[y].Live() ==> x == y)
  {
    var s := Run(lifetime, es);
    RunKeeps(lifetime, es);
    forall x, y | x in s.rows && y in s.rows && Root(s, x) == Root(s, y)
      ensures s.rows[x].userId == s.rows[y].userId && (s.rows[x].Live() && s.rows[y].Live() ==> x == y)
    {
      if Depth(s, x) <= Depth(s, y) {
        OneLiveToken(s, x, y);
      } else {
        OneLiveToken(s, y, x);
      }
    }
  }

  lemma AcceptedIsLive(s: State, lifetime: string, e: Event)
    requires Accepts(s, lifetime, e)
    ensures e.token.jti.Some? && e.token.jti.value in s.rows && s.rows[e.token.jti.value].Live()
  {
  }

  lemma AcceptedIsRevoked(s: State, lifetime: string, e: Event)
    requires Accepts(s, lifetime, e) && RevokeSucceeds(e)
    ensures e.token.jti.Some? && e.token.jti.value in Next(s, lifetime, e).rows
    ensures !Next(s, lifetime, e).rows[e.token.jti.value].Live()
  {
  }

  lemma RevokedStays(lifetime: string, es: seq<Event>, i: nat, j: nat, jti: string)
    requires FreshRun(lifetime, es) && i <= j <= |es|
    requires jti in Run(lifetime, es[..i]).rows && !Run(lifetime, es[..i]).rows[jti].Live()
    ensures jti in Run(lifetime, es[..j]).rows && !Run(lifetime, es[..j]).rows[jti].Live()
  {
    RunAdvances(lifetime, es, j);
    RunAdvances(lifetime, es[..j], i);
    assert es[..j][..i] == es[..i];
  }

  /** In one run no jti is exchanged twice. */
  lemma NoTokenIsAcceptedTwice(lifetime: string, es: seq<Event>, i: nat, j: nat)
    requires FreshRun(lifetime, es) && i < j < |es| && RevokeSucceeds(es[i])
    requires Accepts(Run(lifetime, es[..i]), lifetime, es[i]) && Accepts(Run(lifetime, es[..j]), lifetime, es[j])
    ensures es[i].token.jti != es[j].token.jti
  {
    AcceptedIsRevoked(Run(lifetime, es[..i]), lifetime, es[i]);
    AcceptedIsLive(Run(lifetime, es[..j]), lifetime, es[j]);
    assert es[..i + 1][..i] == es[..i];
    assert Run(lifetime, es[..i + 1]) == Next(Run(lifetime, es[..i]), lifetime, es[i]);
    RevokedStays(lifetime, es, i + 1, j, es[i].token.jti.value);
  }

  /** After an exchange the same token passes the database check again exactly when the revoke write was lost. */
  lemma ReusableIffRevokeLost(s: State, t: Jwt, ctx: Context, lifetime: string, env: RefreshEnv, later: RefreshEnv)
    requires Inv(s) && env.mint.jti !in s.issued && Refresh(s, t, ctx, lifetime, env).1
    ensures MayRefresh(Refresh(s, t, ctx, lifetime, env).0, t, later)
       <==> !env.revokeOk && !B.Reported(Refresh(s, t, ctx, lifetime, env).0.black, BlackKey(t), later.now, later.lookWorks)
            && later.userExists && later.now < t.exp * 1000
  {
    ChildIsNew(s, env.mint.jti);
  }

  // ---------------------------------------------------------------- logout

  /** Logging out everywhere leaves the user no live token. */
  lemma LogoutEverywhere(s: State, u: string, opts: LogoutOptions, env: LogoutEnv, j: string)
    requires opts.revokeAllDevices && env.bulkOk
    ensures var s' := Logout(s, u, opts, env).0;
            j in s'.rows && s'.rows[j].userId == u ==> !s'.rows[j].Live()
  {
  }

  /** Logging out one device changes the presented row and that device's live rows, and nothing else. */
  lemma LogoutOneDevice(s: State, u: string, opts: LogoutOptions, env: LogoutEnv, j: string)
    requires !opts.revokeAllDevices && opts.deviceId.Some? && opts.deviceId.value != "" && env.bulkOk && j in s.rows
    ensures var r, r' := s.rows[j], Logout(s, u, opts, env).0.rows[j];
            var presented := opts.refreshToken.Some? && env.oneOk
                             && Selects(PresentedWhere(s, opts.refreshToken.value, env.now), j, r);
            var onDevice := r.userId == u && r.context.deviceId == opts.deviceId;
            && (r' != r ==> presented || (onDevice && r.Live()))
            && (presented || onDevice ==> !r'.Live())
            && (r' != r ==> r' == r.(revokedAt := Some(env.now)))
  {
  }

  /** The count reported by a bulk logout is the number of live rows the bulk step turned. */
  lemma LogoutCountConserves(s: State, u: string, opts: LogoutOptions, env: LogoutEnv)
    requires BulkWhere(u, opts).Some? && env.bulkOk
    ensures var (s', result) := Logout(s, u, opts, env);
            result.revokedTokensCount.Some? &&
            |LiveJtis(AfterPresented(s, opts, env))| == |LiveJtis(s'.rows)| + result.revokedTokensCount.value
  {
    BulkRevokeConservesLive(AfterPresented(s, opts, env), BulkWhere(u, opts).value, env.now, None);
  }

  /** The row a presented token stands for. */
  function PresentedRows(s: State, t: Jwt, now: int): set<string> {
    Selected(s.rows, PresentedWhere(s, t, now))
  }

  lemma OneRowPerToken(s: State, t: Jwt, now: int, j: string, k: string)
    requires Inv(s) && j in PresentedRows(s, t, now) && k in PresentedRows(s, t, now)
    ensures j == k
  {
    assert RowOk(s, j) && RowOk(s, k);
  }

  /**
   * With neither bulk option the reported count is right exactly when nothing was reported or the write
   * went through to a row that was still live; a revoked or unknown token can be counted although no row turned.
   */
  lemma SingleLogoutCount(s: State, u: string, opts: LogoutOptions, env: LogoutEnv)
    requires Inv(s) && BulkWhere(u, opts).None? && opts.refreshToken.Some?
    ensures var (s', result) := Logout(s, u, opts, env);
            result.revokedTokensCount.Some? &&
            (|LiveJtis(s.rows)| == |LiveJtis(s'.rows)| + result.revokedTokensCount.value
             <==> !PresentedReported(s, opts, env)
                  || (env.oneOk && PresentedRows(s, opts.refreshToken.value, env.now) * LiveJtis(s.rows) != {}))
  {
    var t := opts.refreshToken.value;
    var hit := PresentedRows(s, t, env.now);
    var before, after := LiveJtis(s.rows), LiveJtis(Logout(s, u, opts, env).0.rows);
    if env.oneOk {
      assert after == before - hit;
      forall j, k | j in hit && k in hit
        ensures j == k
      {
        OneRowPerToken(s, t, env.now, j, k);
      }
      TakesAtMostOne(before, hit);
    } else {
      assert after == before;
    }
  }

  lemma TakesAtMostOne(before: set<string>, hit: set<string>)
    requires forall j, k :: j in hit && k in hit ==> j == k
    ensures |before| == |before - hit| + if hit * before != {} then 1 else 0
  {
    if hit * before != {} {
      var j :| j in hit * before;
      assert before == (before - hit) + {j};
    } else {
      assert before - hit == before;
    }
  }
}

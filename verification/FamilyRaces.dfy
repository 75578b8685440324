/** Rotation families when refreshes overlap: how many tokens of one family can be live. */
module FamilyRaces {
  import opened Common
  import opened OneShot
  import opened RefreshTokens
  import opened TokenRotation
  import Decimal
  import R = RefreshRaces
  import T = TokenRuns

  /** Randomness: a new jti has not been handed out before. */
  predicate FreshJti(s: State, e: R.Event) {
    match e
    case Commit(_, _, env) => env.mint.jti !in s.issued
    case Issue(_, _, _, mint, _) => mint.jti !in s.issued
    case _ => true
  }

  predicate FreshRun(lifetime: string, es: seq<R.Event>) {
    es != [] ==>
      FreshRun(lifetime, es[..|es| - 1]) && FreshJti(R.Run(lifetime, es[..|es| - 1]).s, es[|es| - 1])
  }

  /** Never more than n refreshes of any one token between check and write. */
  ghost predicate FewInFlight(lifetime: string, es: seq<R.Event>, n: nat) {
    forall jti :: R.AtMostInFlight(lifetime, es, jti, n)
  }

  /** Every family has one owner and at most one live token. */
  ghost predicate OneLivePerFamily(s: State) {
    T.Inv(s) && forall x, y :: x in s.rows && y in s.rows && T.Root(s, x) == T.Root(s, y) ==>
      s.rows[x].userId == s.rows[y].userId && (s.rows[x].Live() && s.rows[y].Live() ==> x == y)
  }

  // ---------------------------------------------------------------- what every event keeps

  /** The tokens being refreshed have no successor yet. */
  ghost predicate Unreplaced(rows: Rows, calls: map<nat, string>) {
    forall c :: c in calls ==> calls[c] in rows && rows[calls[c]].replacedBy.None?
  }

  ghost predicate Ordered(r: R.RaceState) {
    T.Inv(r.s) && T.Linked(r.s) && Unreplaced(r.s.rows, r.calls)
  }

  lemma BeginKeeps(r: R.RaceState, lifetime: string, c: nat, t: Jwt, env: RefreshEnv)
    requires Ordered(r)
    ensures Ordered(R.Next(r, lifetime, R.Begin(c, t, env)))
  {
    T.BlackIsApart(r.s, Looked(r.s, t, env));
    if MayRefresh(r.s, t, env) {
      assert T.RowOk(r.s, t.jti.value);
    }
  }

  lemma OthersAreUntouched(s: State, used: string, ctx: Context, lifetime: string, env: RefreshEnv)
    requires R.CanCommit(s, used, env)
    ensures var rows := R.Exchanged(s, used, ctx, lifetime, env).rows;
            forall j :: j in s.rows && j != used ==> j in rows && rows[j] == s.rows[j]
  {
  }

  /** Whatever else is in flight, an exchange keeps the table's own invariants; a first one stays linked. */
  lemma ExchangedKeeps(s: State, used: string, ctx: Context, lifetime: string, env: RefreshEnv)
    requires T.Inv(s) && R.CanCommit(s, used, env) && env.mint.jti !in s.issued && env.revokeOk
    ensures var s' := R.Exchanged(s, used, ctx, lifetime, env);
            T.Inv(s') && (T.Linked(s) && s.rows[used].replacedBy.None? ==> T.Linked(s'))
  {
    var t, child := s.issued[used], env.mint.jti;
    assert T.RowOk(s, used);
    var token := Sign(t.sub, env.mint);
    var row := NewRow(s, token, ExpiresAt(env.now, lifetime), Inherit(ctx, s.rows[used].context));
    T.InsertKeeps(s, child, row);
    T.ChildIsNew(s, child);
    var g := s.(rows := s.rows[child := row], issued := s.issued[child := token]);
    T.ExchangeKeeps(s, g, used, child, env);
    var linked := g.(rows := Retired(g.rows, used, env), parent := g.parent[child := used]);
    T.BlackIsApart(linked, R.Exchanged(s, used, ctx, lifetime, env).black);
  }

  /** No other refresh of the token is in flight when there is at most one. */
  lemma OnlyOne(calls: map<nat, string>, c: nat)
    requires c in calls && |Pending(calls, calls[c])| <= 1
    ensures forall d :: d in calls && d != c ==> calls[d] != calls[c]
  {
    forall d | d in calls && d != c
      ensures calls[d] != calls[c]
    {
      if calls[d] == calls[c] {
        SubsetSize({c, d}, Pending(calls, calls[c]));
      }
    }
  }

  lemma CommitKeeps(r: R.RaceState, lifetime: string, c: nat, ctx: Context, env: RefreshEnv)
    requires Ordered(r) && env.mint.jti !in r.s.issued && env.revokeOk
    requires c in r.calls ==> |Pending(r.calls, r.calls[c])| <= 1
    ensures Ordered(R.Next(r, lifetime, R.Commit(c, ctx, env)))
  {
    if c in r.calls && R.CanCommit(r.s, r.calls[c], env) {
      ExchangedKeeps(r.s, r.calls[c], ctx, lifetime, env);
      OthersAreUntouched(r.s, r.calls[c], ctx, lifetime, env);
      OnlyOne(r.calls, c);
    }
  }

  lemma IssueKeeps(r: R.RaceState, lifetime: string, u: string, ctx: Context, now: int, mint: Mint, ok: bool)
    requires Ordered(r) && mint.jti !in r.s.issued
    ensures Ordered(R.Next(r, lifetime, R.Issue(u, ctx, now, mint, ok)))
  {
    T.GenerateKeeps(r.s, u, ctx, now, lifetime, mint, ok);
    T.ChildIsNew(r.s, mint.jti);
  }

  lemma LogoutOnlyRevokes(s: State, u: string, opts: LogoutOptions, env: LogoutEnv)
    ensures T.OnlyRevokes(s.rows, Logout(s, u, opts, env).0.rows)
  {
    if opts.refreshToken.Some? && env.oneOk {
      T.RevokeWithoutSuccessor(s.rows, PresentedWhere(s, opts.refreshToken.value, env.now), env.now);
    }
    if BulkWhere(u, opts).Some? && env.bulkOk {
      T.RevokeWithoutSuccessor(AfterPresented(s, opts, env), BulkWhere(u, opts).value, env.now);
    }
  }

  lemma LeaveKeeps(r: R.RaceState, lifetime: string, u: string, opts: LogoutOptions, env: LogoutEnv)
    requires Ordered(r)
    ensures Ordered(R.Next(r, lifetime, R.Leave(u, opts, env)))
  {
    T.LogoutKeeps(r.s, u, opts, env);
    LogoutOnlyRevokes(r.s, u, opts, env);
  }

  lemma {:induction false} RunIsOrdered(lifetime: string, es: seq<R.Event>, n: nat)
    requires n <= 1 && FewInFlight(lifetime, es, n) && R.RevokesSucceed(es) && FreshRun(lifetime, es)
    ensures Ordered(R.Run(lifetime, es))
  {
    if es != [] {
      var front, e := es[..|es| - 1], es[|es| - 1];
      assert forall jti :: R.AtMostInFlight(lifetime, es, jti, n) ==> R.AtMostInFlight(lifetime, front, jti, n);
      RunIsOrdered(lifetime, front, n);
      var r := R.Run(lifetime, front);
      match e {
        case Begin(c, t, env) => BeginKeeps(r, lifetime, c, t, env);
        case Commit(c, ctx, env) =>
          assert c in r.calls ==> R.AtMostInFlight(lifetime, front, r.calls[c], n);
          CommitKeeps(r, lifetime, c, ctx, env);
        case Drop(c) =>
        case Issue(u, ctx, now, mint, ok) => IssueKeeps(r, lifetime, u, ctx, now, mint, ok);
        case Leave(u, opts, env) => LeaveKeeps(r, lifetime, u, opts, env);
      }
    }
  }

  lemma OrderedIsSingle(s: State)
    requires T.Inv(s) && T.Linked(s)
    ensures OneLivePerFamily(s)
  {
    forall x, y | x in s.rows && y in s.rows && T.Root(s, x) == T.Root(s, y)
      ensures s.rows[x].userId == s.rows[y].userId && (s.rows[x].Live() && s.rows[y].Live() ==> x == y)
    {
      if T.Depth(s, x) <= T.Depth(s, y) {
        T.OneLiveToken(s, x, y);
      } else {
        T.OneLiveToken(s, y, x);
      }
    }
  }

  // ---------------------------------------------------------------- two overlapping refreshes

  /** The first k tokens handed out for the used one, all of them live. */
  ghost predicate Siblings(s: State, k: nat) {
    && T.Inv(s) && s.issued.Keys == s.rows.Keys && R.USED in s.rows && R.USED !in s.parent
    && forall i: nat :: i < k ==> Sibling(s, Decimal.Natural(i))
  }

  ghost predicate Sibling(s: State, j: string) {
    j in s.rows && s.rows[j].Live() && j in s.parent && s.parent[j] == R.USED
  }

  ghost predicate Spreads(lifetime: string, es: seq<R.Event>, k: nat, n: nat) {
    R.RacesTo(lifetime, es, n, k, n) && FreshRun(lifetime, es) && Siblings(R.Run(lifetime, es).s, k)
  }

  lemma CommitIsExchange(r: R.RaceState, lifetime: string, k: nat, n: nat)
    requires R.Raced(r, k, n) && k < n && Siblings(r.s, k)
    ensures var env := R.AllWorks(Decimal.Natural(k));
            && R.CanCommit(r.s, R.USED, env) && env.mint.jti !in r.s.issued
            && R.Next(r, lifetime, R.Committing(k)).s == R.Exchanged(r.s, R.USED, R.NO_CONTEXT, lifetime, env)
  {
    R.NextChildIsNew(r, k, n);
  }

  lemma SiblingsMore(s: State, lifetime: string, k: nat)
    requires Siblings(s, k) && R.CanCommit(s, R.USED, R.AllWorks(Decimal.Natural(k))) && Decimal.Natural(k) !in s.issued
    ensures Siblings(R.Exchanged(s, R.USED, R.NO_CONTEXT, lifetime, R.AllWorks(Decimal.Natural(k))), k + 1)
  {
    var env := R.AllWorks(Decimal.Natural(k));
    var s' := R.Exchanged(s, R.USED, R.NO_CONTEXT, lifetime, env);
    ExchangedKeeps(s, R.USED, R.NO_CONTEXT, lifetime, env);
    ChildIsSibling(s, lifetime, env);
    forall i: nat | i < k + 1
      ensures Sibling(s', Decimal.Natural(i))
    {
      if i < k {
        SiblingStays(s, Decimal.Natural(i), lifetime, env);
      }
    }
  }

  lemma SiblingStays(s: State, j: string, lifetime: string, env: RefreshEnv)
    requires Siblings(s, 0) && Sibling(s, j) && R.CanCommit(s, R.USED, env) && env.mint.jti !in s.rows
    ensures Sibling(R.Exchanged(s, R.USED, R.NO_CONTEXT, lifetime, env), j)
  {
    assert j != R.USED;
    OthersAreUntouched(s, R.USED, R.NO_CONTEXT, lifetime, env);
  }

  lemma ChildIsSibling(s: State, lifetime: string, env: RefreshEnv)
    requires Siblings(s, 0) && R.CanCommit(s, R.USED, env) && env.mint.jti !in s.rows
    ensures var s' := R.Exchanged(s, R.USED, R.NO_CONTEXT, lifetime, env);
            Sibling(s', env.mint.jti) && s'.issued.Keys == s'.rows.Keys && R.USED in s'.rows && R.USED !in s'.parent
  {
  }

  lemma FreshMore(lifetime: string, es: seq<R.Event>, e: R.Event)
    requires FreshRun(lifetime, es) && FreshJti(R.Run(lifetime, es).s, e)
    ensures FreshRun(lifetime, es + [e]) && R.Run(lifetime, es + [e]) == R.Next(R.Run(lifetime, es), lifetime, e)
  {
    assert (es + [e])[..|es|] == es;
  }

  lemma IssuedSpreads(lifetime: string, n: nat)
    ensures FreshRun(lifetime, R.Begins(0)) && Siblings(R.Run(lifetime, R.Begins(0)).s, 0)
  {
    FreshMore(lifetime, [], R.Issuing());
    assert [] + [R.Issuing()] == R.Begins(0);
    T.GenerateKeeps(Empty, "user", R.NO_CONTEXT, 0, lifetime, R.Draw(R.USED), true);
  }

  lemma {:induction false} BeginsSpread(lifetime: string, k: nat)
    ensures FreshRun(lifetime, R.Begins(k)) && Siblings(R.Run(lifetime, R.Begins(k)).s, 0)
  {
    if k == 0 {
      IssuedSpreads(lifetime, k);
    } else {
      BeginsSpread(lifetime, k - 1);
      FreshMore(lifetime, R.Begins(k - 1), R.Beginning(k - 1));
      var s := R.Run(lifetime, R.Begins(k - 1)).s;
      var env := R.AllWorks(Decimal.Natural(k - 1));
      T.BlackIsApart(s, Looked(s, Sign("user", R.Draw(R.USED)), env));
    }
  }

  lemma CommitSpreads(lifetime: string, es: seq<R.Event>, k: nat, n: nat)
    requires Spreads(lifetime, es, k, n) && k < n
    ensures Spreads(lifetime, es + [R.Committing(k)], k + 1, n)
  {
    CommitIsExchange(R.Run(lifetime, es), lifetime, k, n);
    SiblingsMore(R.Run(lifetime, es).s, lifetime, k);
    FreshMore(lifetime, es, R.Committing(k));
    R.CommitOnce(lifetime, es, k, n);
  }

  lemma SpreadsAtFirst(lifetime: string, n: nat)
    ensures Spreads(lifetime, R.Commits(n, 0), 0, n)
  {
    R.CommitsRun(lifetime, n, 0);
    BeginsSpread(lifetime, n);
  }

  lemma {:induction false} CommitsSpread(lifetime: string, n: nat, k: nat)
    requires k <= n
    ensures Spreads(lifetime, R.Commits(n, k), k, n)
  {
    if k == 0 {
      SpreadsAtFirst(lifetime, n);
    } else {
      CommitsSpread(lifetime, n, k - 1);
      CommitSpreads(lifetime, R.Commits(n, k - 1), k - 1, n);
    }
  }

  lemma SiblingsAreOneFamily(s: State, x: string, y: string)
    requires Siblings(s, 0) && Sibling(s, x) && Sibling(s, y) && x != y
    ensures !OneLivePerFamily(s)
  {
    assert T.Root(s, x) == T.Root(s, R.USED) == T.Root(s, y);
  }

  /** Only the used token is ever looked at in this run. */
  lemma {:induction false} OthersAreNotInFlight(lifetime: string, es: seq<R.Event>, jti: string, n: nat)
    requires jti != R.USED && forall i :: 0 <= i < |es| && es[i].Begin? ==> es[i].token.jti == Some(R.USED)
    ensures Pending(R.Run(lifetime, es).calls, jti) == {} && R.AtMostInFlight(lifetime, es, jti, n)
  {
    if es != [] {
      OthersAreNotInFlight(lifetime, es[..|es| - 1], jti, n);
      var calls := R.Run(lifetime, es[..|es| - 1]).calls;
      assert forall c :: c in calls ==> c !in Pending(calls, jti);
    }
  }

  lemma {:induction false} OnlyTheUsedBegins(n: nat, k: nat)
    ensures forall i :: 0 <= i < |R.Begins(n)| && R.Begins(n)[i].Begin? ==> R.Begins(n)[i].token.jti == Some(R.USED)
    ensures forall i :: 0 <= i < |R.Commits(n, k)| && R.Commits(n, k)[i].Begin? ==> R.Commits(n, k)[i].token.jti == Some(R.USED)
    decreases n + k
  {
    if n > 0 {
      OnlyTheUsedBegins(n - 1, 0);
    }
    if k > 0 {
      OnlyTheUsedBegins(n, k - 1);
    }
  }

  lemma TwoLive(lifetime: string, n: nat) returns (es: seq<R.Event>)
    requires n >= 2
    ensures FewInFlight(lifetime, es, n) && R.RevokesSucceed(es) && FreshRun(lifetime, es)
    ensures T.Inv(R.Run(lifetime, es).s) && !OneLivePerFamily(R.Run(lifetime, es).s)
  {
    es := R.Commits(n, n);
    CommitsSpread(lifetime, n, n);
    OnlyTheUsedBegins(n, n);
    forall jti
      ensures R.AtMostInFlight(lifetime, es, jti, n)
    {
      if jti != R.USED {
        OthersAreNotInFlight(lifetime, es, jti, n);
      }
    }
    var s := R.Run(lifetime, es).s;
    Decimal.NaturalsDiffer(0, 1);
    assert Sibling(s, Decimal.Natural(0)) && Sibling(s, Decimal.Natural(1));
    SiblingsAreOneFamily(s, Decimal.Natural(0), Decimal.Natural(1));
  }

  // ---------------------------------------------------------------- the condition

  /** In all interleaved runs of this kind, every family has at most one live token. */
  ghost predicate FamiliesStaySingle(lifetime: string, n: nat) {
    forall es :: FewInFlight(lifetime, es, n) && R.RevokesSucceed(es) && FreshRun(lifetime, es) ==>
      OneLivePerFamily(R.Run(lifetime, es).s)
  }

  /** They have exactly when no two refreshes of one token overlap; other tokens' refreshes and logouts may. */
  lemma FamiliesStaySingleIff(lifetime: string, n: nat)
    ensures FamiliesStaySingle(lifetime, n) <==> n <= 1
  {
    if n <= 1 {
      forall es | FewInFlight(lifetime, es, n) && R.RevokesSucceed(es) && FreshRun(lifetime, es)
        ensures OneLivePerFamily(R.Run(lifetime, es).s)
      {
        RunIsOrdered(lifetime, es, n);
        OrderedIsSingle(R.Run(lifetime, es).s);
      }
    } else {
      var es := TwoLive(lifetime, n);
    }
  }
}

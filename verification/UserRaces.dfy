/** Upserts of platform users whose find and write interleave: how many rows one person can get. */
module UserRaces {
  import opened Common
  import opened PlatformUsers
  import opened PlatformUserRuns
  import OneShot

  datatype Identity = Identity(platform: string, uuid: string)

  /** An upsert between its find and its write: what it looked for, and the position it found. */
  datatype Call = Call(who: Identity, found: Option<nat>)

  datatype State = State(db: Db, calls: map<nat, Call>)

  datatype Event =
    | Find(call: nat, who: Identity)
    | Write(written: nat, data: UserData, now: int)
    | Drop(dropped: nat)

  function Found(users: seq<User>, p: Identity): Option<nat> {
    var k := FindUser(users, p.platform, p.uuid);
    if k < |users| then Some(k) else None
  }

  /** The write that follows a find, on whatever the database holds by then. */
  function WriteFound(db: Db, found: Option<nat>, who: Identity, d: UserData, now: int): Db
    requires found.Some? ==> found.value < |db.users|
  {
    match found
    case Some(k) => db.(users := db.users[k := Overlaid(db.users[k], d, now)])
    case None => db.(users := db.users + [NewUser(db.nextId, who.platform, who.uuid, d, now)], nextId := db.nextId + 1)
  }

  /** Rows are never deleted, so a position once found stays one. */
  function Next(s: State, e: Event): State {
    match e
    case Find(c, p) => if c !in s.calls then s.(calls := s.calls[c := Call(p, Found(s.db.users, p))]) else s
    case Write(c, d, now) =>
      if c in s.calls && (s.calls[c].found.Some? ==> s.calls[c].found.value < |s.db.users|) then
        State(WriteFound(s.db, s.calls[c].found, s.calls[c].who, d, now), s.calls - {c})
      else s
    case Drop(c) => s.(calls := s.calls - {c})
  }

  function Run(es: seq<Event>): State {
    if es == [] then State(EMPTY, map[]) else Next(Run(es[..|es| - 1]), es[|es| - 1])
  }

  /** Without anything in between, find and write are the upsert. */
  lemma FindThenWriteIsUpsert(s: State, c: nat, p: Identity, d: UserData, now: int)
    requires c !in s.calls
    ensures Next(Next(s, Find(c, p)), Write(c, d, now)) == State(UpsertUser(s.db, p.platform, p.uuid, d, now).0, s.calls)
  {
    assert s.calls[c := Call(p, Found(s.db.users, p))] - {c} == s.calls;
  }

  /** The upserts of this person between find and write. */
  function InFlight(calls: map<nat, Call>, p: Identity): set<nat> {
    set c | c in calls && calls[c].who == p
  }

  /** Never more than n upserts of this person between find and write. */
  ghost predicate AtMostInFlight(es: seq<Event>, p: Identity, n: nat) {
    |InFlight(Run(es).calls, p)| <= n && (es != [] ==> AtMostInFlight(es[..|es| - 1], p, n))
  }

  predicate HasIdentity(u: User, p: Identity) {
    IsUser(u, p.platform, p.uuid)
  }

  /** How many rows the person has. */
  function Rows(users: seq<User>, p: Identity): nat {
    if users == [] then 0 else Rows(users[..|users| - 1], p) + if HasIdentity(users[|users| - 1], p) then 1 else 0
  }

  /** Those of the upserts in flight that found nobody are going to create a row. */
  ghost function ViewOf(s: State, p: Identity): OneShot.View {
    OneShot.View(Rows(s.db.users, p) > 0, |OneShot.Pending(s.calls, Call(p, None))|, Rows(s.db.users, p))
  }

  // ---------------------------------------------------------------- each event is a move for each person

  lemma MissesAreInFlight(calls: map<nat, Call>, p: Identity)
    ensures |OneShot.Pending(calls, Call(p, None))| <= |InFlight(calls, p)|
  {
    SubsetSize(OneShot.Pending(calls, Call(p, None)), InFlight(calls, p));
  }

  lemma RowsAppend(users: seq<User>, u: User, p: Identity)
    ensures Rows(users + [u], p) == Rows(users, p) + if HasIdentity(u, p) then 1 else 0
  {
    assert (users + [u])[..|users|] == users;
  }

  lemma {:induction false} RowsOverlaid(users: seq<User>, k: nat, u: User, p: Identity)
    requires k < |users| && (HasIdentity(u, p) <==> HasIdentity(users[k], p))
    ensures Rows(users[k := u], p) == Rows(users, p)
  {
    var n := |users| - 1;
    if k < n {
      RowsOverlaid(users[..n], k, u, p);
      assert users[k := u][..n] == users[..n][k := u];
    } else {
      assert users[k := u][..n] == users[..n];
    }
  }

  lemma {:induction false} NobodyFoundIffNoRows(users: seq<User>, p: Identity)
    ensures Found(users, p).None? <==> Rows(users, p) == 0
  {
    if users != [] {
      NobodyFoundIffNoRows(users[..|users| - 1], p);
    }
  }

  ghost predicate PositionsFit(s: State) {
    forall c :: c in s.calls && s.calls[c].found.Some? ==> s.calls[c].found.value < |s.db.users|
  }

  lemma WriteIsMove(s: State, c: nat, d: UserData, now: int, p: Identity, n: nat) returns (m: OneShot.Move)
    requires c in s.calls && PositionsFit(s)
    ensures OneShot.Allowed(n, ViewOf(s, p), m)
    ensures ViewOf(Next(s, Write(c, d, now)), p) == OneShot.After(ViewOf(s, p), m)
  {
    OneShot.PendingWithout(s.calls, c, Call(p, None));
    var call := s.calls[c];
    if call.found.Some? {
      var k := call.found.value;
      RowsOverlaid(s.db.users, k, Overlaid(s.db.users[k], d, now), p);
      m := OneShot.Idle;
    } else {
      RowsAppend(s.db.users, NewUser(s.db.nextId, call.who.platform, call.who.uuid, d, now), p);
      m := if call.who == p then OneShot.Accept else OneShot.Idle;
    }
  }

  lemma StepIsMove(s: State, e: Event, p: Identity, n: nat) returns (m: OneShot.Move)
    requires PositionsFit(s) && |InFlight(Next(s, e).calls, p)| <= n
    ensures OneShot.Allowed(n, ViewOf(s, p), m) && ViewOf(Next(s, e), p) == OneShot.After(ViewOf(s, p), m)
    ensures PositionsFit(Next(s, e))
  {
    m := OneShot.Idle;
    match e {
      case Find(c, q) =>
        if c !in s.calls {
          var call := Call(q, Found(s.db.users, q));
          OneShot.PendingWith(s.calls, c, call, Call(p, None));
          MissesAreInFlight(Next(s, e).calls, p);
          NobodyFoundIffNoRows(s.db.users, p);
          m := if call == Call(p, None) then OneShot.Pass else OneShot.Idle;
        }
      case Write(c, d, now) =>
        if c in s.calls {
          m := WriteIsMove(s, c, d, now, p, n);
        }
      case Drop(c) =>
        if c in s.calls {
          OneShot.PendingWithout(s.calls, c, Call(p, None));
          m := if s.calls[c] == Call(p, None) then OneShot.Abandon else OneShot.Idle;
        } else {
          assert s.calls - {c} == s.calls;
        }
    }
  }

  lemma {:induction false} RunIsOneShot(es: seq<Event>, p: Identity, n: nat)
    requires AtMostInFlight(es, p, n)
    ensures OneShot.Inv(n, ViewOf(Run(es), p)) && PositionsFit(Run(es))
  {
    if es == [] {
      assert OneShot.Pending(map[], Call(p, None)) == {};
    } else {
      var front, e := es[..|es| - 1], es[|es| - 1];
      RunIsOneShot(front, p, n);
      var m := StepIsMove(Run(front), e, p, n);
      OneShot.StepKeepsInv(n, ViewOf(Run(front), p), m);
    }
  }

  // ---------------------------------------------------------------- a run that reaches the bound

  const NOTHING_KNOWN := UserData(None, None, None, None)

  /** n finds of a person nobody has met yet, then k writes. */
  function Finds(p: Identity, n: nat): seq<Event> {
    if n == 0 then [] else Finds(p, n - 1) + [Find(n - 1, p)]
  }

  function Writes(p: Identity, n: nat, k: nat): seq<Event> {
    if k == 0 then Finds(p, n) else Writes(p, n, k - 1) + [Write(k - 1, NOTHING_KNOWN, 0)]
  }

  /** A run of which n upserts found nobody and the first k have written, with never more than bound in flight. */
  ghost predicate Raced(es: seq<Event>, p: Identity, k: nat, n: nat, bound: nat) {
    && Run(es).calls == OneShot.CallsFrom(Call(p, None), k, n) && Rows(Run(es).db.users, p) == k
    && AtMostInFlight(es, p, bound)
  }

  lemma AllMissesInFlight(p: Identity, k: nat, n: nat)
    requires k <= n
    ensures |InFlight(OneShot.CallsFrom(Call(p, None), k, n), p)| == n - k
  {
    var calls := OneShot.CallsFrom(Call(p, None), k, n);
    OneShot.CallsInFlight(Call(p, None), k, n);
    assert InFlight(calls, p) == OneShot.Pending(calls, Call(p, None));
  }

  lemma RunMore(es: seq<Event>, e: Event, p: Identity, bound: nat)
    requires AtMostInFlight(es, p, bound) && |InFlight(Next(Run(es), e).calls, p)| <= bound
    ensures Run(es + [e]) == Next(Run(es), e) && AtMostInFlight(es + [e], p, bound)
  {
    assert (es + [e])[..|es|] == es;
  }

  lemma FindMore(es: seq<Event>, p: Identity, n: nat, bound: nat)
    requires Raced(es, p, 0, n, bound) && n < bound
    ensures Raced(es + [Find(n, p)], p, 0, n + 1, bound)
  {
    NobodyFoundIffNoRows(Run(es).db.users, p);
    AllMissesInFlight(p, 0, n + 1);
    RunMore(es, Find(n, p), p, bound);
  }

  lemma WriteMore(es: seq<Event>, p: Identity, k: nat, n: nat, bound: nat)
    requires Raced(es, p, k, n, bound) && k < n <= bound
    ensures Raced(es + [Write(k, NOTHING_KNOWN, 0)], p, k + 1, n, bound)
  {
    var s := Run(es);
    RowsAppend(s.db.users, NewUser(s.db.nextId, p.platform, p.uuid, NOTHING_KNOWN, 0), p);
    OneShot.FirstCallEnds(Call(p, None), k, n);
    AllMissesInFlight(p, k + 1, n);
    RunMore(es, Write(k, NOTHING_KNOWN, 0), p, bound);
  }

  lemma {:induction false} FindsRun(p: Identity, n: nat, bound: nat)
    requires n <= bound
    ensures Raced(Finds(p, n), p, 0, n, bound)
  {
    if n == 0 {
      assert InFlight(map[], p) == {};
    } else {
      FindsRun(p, n - 1, bound);
      FindMore(Finds(p, n - 1), p, n - 1, bound);
    }
  }

  lemma {:induction false} WritesRun(p: Identity, n: nat, k: nat)
    requires k <= n
    ensures Raced(Writes(p, n, k), p, k, n, n)
  {
    if k == 0 {
      FindsRun(p, n, n);
    } else {
      WritesRun(p, n, k - 1);
      WriteMore(Writes(p, n, k - 1), p, k - 1, n, n);
    }
  }

  // ---------------------------------------------------------------- the bound

  /** With at most n upserts of a person in flight, nobody gets more than b rows. */
  ghost predicate RowsAtMost(n: nat, b: nat) {
    forall es, p :: AtMostInFlight(es, p, n) ==> Rows(Run(es).db.users, p) <= b
  }

  /** A person gets as many rows as upserts of them overlap, and no more: one exactly when they come one by one. */
  lemma RowsAtMostIff(n: nat, b: nat)
    ensures RowsAtMost(n, b) <==> n <= b
  {
    if n <= b {
      forall es, p | AtMostInFlight(es, p, n)
        ensures Rows(Run(es).db.users, p) <= b
      {
        RunIsOneShot(es, p, n);
      }
    } else {
      var p := Identity(TENCENT_MEETING, "");
      WritesRun(p, n, n);
      assert Rows(Run(Writes(p, n, n)).db.users, p) == n;
    }
  }

  lemma {:induction false} RowsOfTwo(users: seq<User>, i: nat, j: nat, p: Identity)
    requires i < j < |users| && HasIdentity(users[i], p) && HasIdentity(users[j], p)
    ensures Rows(users, p) >= 2
  {
    var n := |users| - 1;
    if j < n {
      RowsOfTwo(users[..n], i, j, p);
    } else {
      NobodyFoundIffNoRows(users[..n], p);
    }
  }

  ghost predicate FewInFlight(es: seq<Event>, n: nat) {
    forall p :: AtMostInFlight(es, p, n)
  }

  /** So users are unique in every run exactly when upserts of one person never overlap. */
  lemma UsersAreUniqueIff(n: nat)
    ensures (forall es :: FewInFlight(es, n) ==> UniqueUsers(Run(es).db.users)) <==> n <= 1
  {
    if n <= 1 {
      forall es | FewInFlight(es, n)
        ensures UniqueUsers(Run(es).db.users)
      {
        OneRowEach(es, n);
      }
    } else {
      TwoRows(n);
    }
  }

  lemma OneRowEach(es: seq<Event>, n: nat)
    requires n <= 1 && FewInFlight(es, n)
    ensures UniqueUsers(Run(es).db.users)
  {
    var users := Run(es).db.users;
    forall i, j | 0 <= i < j < |users|
      ensures !SameUser(users[i], users[j])
    {
      if SameUser(users[i], users[j]) {
        var p := Identity(users[i].platform, users[i].uuid.value);
        RunIsOneShot(es, p, n);
        RowsOfTwo(users, i, j, p);
      }
    }
  }

  lemma {:induction false} RowsOfUnique(users: seq<User>, p: Identity)
    requires UniqueUsers(users)
    ensures Rows(users, p) <= 1
  {
    if users != [] {
      var n := |users| - 1;
      RowsOfUnique(users[..n], p);
      NobodyFoundIffNoRows(users[..n], p);
    }
  }

  lemma {:induction false} OthersAreNotInFlight(es: seq<Event>, p: Identity, q: Identity, n: nat)
    requires p != q && forall i :: 0 <= i < |es| && es[i].Find? ==> es[i].who == p
    ensures InFlight(Run(es).calls, q) == {} && AtMostInFlight(es, q, n)
  {
    if es != [] {
      OthersAreNotInFlight(es[..|es| - 1], p, q, n);
      var s := Run(es[..|es| - 1]);
      assert forall c :: c in s.calls ==> c !in InFlight(s.calls, q);
    }
  }

  lemma {:induction false} RaceIsOf(p: Identity, n: nat, k: nat)
    ensures forall i :: 0 <= i < |Finds(p, n)| ==> Finds(p, n)[i].Find? && Finds(p, n)[i].who == p
    ensures forall i :: 0 <= i < |Writes(p, n, k)| && Writes(p, n, k)[i].Find? ==> Writes(p, n, k)[i].who == p
    decreases n + k
  {
    if n > 0 {
      RaceIsOf(p, n - 1, 0);
    }
    if k > 0 {
      RaceIsOf(p, n, k - 1);
    }
  }

  lemma TwoRows(n: nat)
    requires n >= 2
    ensures exists es :: FewInFlight(es, n) && !UniqueUsers(Run(es).db.users)
  {
    var p := Identity(TENCENT_MEETING, "");
    var es := Writes(p, n, n);
    WritesRun(p, n, n);
    RaceIsOf(p, n, n);
    forall q
      ensures AtMostInFlight(es, q, n)
    {
      if q != p {
        OthersAreNotInFlight(es, p, q, n);
      }
    }
    if UniqueUsers(Run(es).db.users) {
      RowsOfUnique(Run(es).db.users, p);
    }
    assert FewInFlight(es, n);
  }

  /** One started event on an empty table is enough when its operator is its creator, both finds coming before both writes. */
  lemma StartedEventCanDuplicate(p: Person, now: int)
    ensures var who := Identity(TENCENT_MEETING, p.uuid);
            var es := [Find(0, who), Find(1, who), Write(0, CreatorData(p), now), Write(1, SeenData(p), now)];
            Rows(Run(es).db.users, who) == 2
  {
    var who := Identity(TENCENT_MEETING, p.uuid);
    var s := Next(Next(State(EMPTY, map[]), Find(0, who)), Find(1, who));
    assert s == State(EMPTY, map[0 := Call(who, None), 1 := Call(who, None)]);
    RowsAppend([], NewUser(0, who.platform, who.uuid, CreatorData(p), now), who);
    var s' := Next(s, Write(0, CreatorData(p), now));
    RowsAppend(s'.db.users, NewUser(s'.db.nextId, who.platform, who.uuid, SeenData(p), now), who);
    RunFour([Find(0, who), Find(1, who), Write(0, CreatorData(p), now), Write(1, SeenData(p), now)]);
  }

  lemma RunFour(es: seq<Event>)
    requires |es| == 4
    ensures Run(es) == Next(Next(Next(Next(State(EMPTY, map[]), es[0]), es[1]), es[2]), es[3])
  {
    assert es[..1][..0] == [] && Run(es[..1]) == Next(Run([]), es[0]);
    assert es[..2][..1] == es[..1] && Run(es[..2]) == Next(Run(es[..1]), es[1]);
    assert es[..3][..2] == es[..2] && Run(es[..3]) == Next(Run(es[..2]), es[2]);
  }
}

/** The clearing loop of prisma/seed.ts, run against a database that refuses to leave dangling references. */
module DatabaseCleaning {
  import opened Common
  import opened TableOrder

  datatype Reference = Reference(table: string, id: nat)
  datatype Row = Row(id: nat, refs: set<Reference>)
  type Contents = map<string, set<Row>>

  /** Every reference points to a row that exists. */
  ghost predicate Intact(c: Contents) {
    forall t, r, ref :: t in c && r in c[t] && ref in r.refs ==> Resolves(c, ref)
  }

  ghost predicate Resolves(c: Contents, ref: Reference) {
    ref.table in c && exists target :: target in c[ref.table] && target.id == ref.id
  }

  /** References exist only where the schema declares a foreign key. */
  ghost predicate Conforms(g: Graph, c: Contents) {
    && c.Keys == ToSet(g.tables)
    && forall t, r, ref :: t in c && r in c[t] && ref in r.refs ==> g.Edge(t, ref.table)
  }

  /** Some row of u refers to a row of t. */
  predicate PointsAt(c: Contents, u: string, t: string) {
    u in c && exists r :: r in c[u] && exists ref :: ref in r.refs && ref.table == t
  }

  predicate ReferencedFromOutside(c: Contents, t: string) {
    exists u :: u in c && u != t && PointsAt(c, u, t)
  }

  ghost predicate HeldFromWithin(c: Contents, s: set<string>, t: string) {
    exists u :: u in s && u != t && PointsAt(c, u, t)
  }

  /** Tables that hold each other: each is referred to from another one of the set. */
  ghost predicate Knotted(c: Contents, s: set<string>) {
    && s <= c.Keys
    && forall t {:trigger HeldFromWithin(c, s, t)} :: t in s ==> HeldFromWithin(c, s, t)
  }

  function Emptied(c: Contents, s: set<string>): Contents {
    map u | u in c :: if u in s then {} else c[u]
  }

  /** The tables a cascading truncation of t empties: those that reach it over foreign keys. */
  ghost function Cascade(g: Graph, c: Contents, t: string): set<string> {
    set u | u in c && g.Reaches(u, t)
  }

  /** What clearing one table leaves; a refused deletion leaves everything. */
  ghost function Cleared(g: Graph, c: Contents, t: string, hasModel: bool): (r: Contents)
    ensures r.Keys == c.Keys
  {
    if !hasModel then Emptied(c, Cascade(g, c, t))
    else if ReferencedFromOutside(c, t) then c
    else Emptied(c, {t})
  }

  /** What the clearing loop leaves when it takes the tables in this order. */
  ghost function ClearedAll(g: Graph, c: Contents, order: seq<string>, modelled: set<string>): (r: Contents)
    ensures r.Keys == c.Keys
  {
    if order == [] then c
    else
      var last := order[|order| - 1];
      Cleared(g, ClearedAll(g, c, order[..|order| - 1], modelled), last, last in modelled)
  }

  /** The PostgreSQL side: deletions are refused while another table still points at a deleted row. */
  class Database {
    const g: Graph
    var rows: Contents

    constructor (g: Graph, rows: Contents)
      requires Intact(rows) && Conforms(g, rows)
      ensures this.g == g && this.rows == rows && Valid()
    {
      this.g, this.rows := g, rows;
    }

    ghost predicate Valid()
      reads this
    {
      Intact(rows) && Conforms(g, rows)
    }

    method DeleteMany(t: string) returns (ok: bool)
      requires Valid() && t in rows
      modifies this
      ensures Valid()
      ensures ok == !ReferencedFromOutside(old(rows), t)
      ensures rows == if ok then Emptied(old(rows), {t}) else old(rows)
    {
      ok := !ReferencedFromOutside(rows, t);
      if ok {
        EmptyingKeepsReferences(g, rows, {t});
        rows := Emptied(rows, {t});
      }
    }

    method TruncateCascade(t: string)
      requires Valid() && t in rows
      modifies this
      ensures Valid()
      ensures rows == Emptied(old(rows), Cascade(g, old(rows), t)) && rows[t] == {}
    {
      var emptied := {t};
      g.ReachesSelf(t);
      while exists u :: u in rows && u !in emptied && exists v :: v in emptied && g.Edge(u, v)
        invariant rows == old(rows) && t in emptied && emptied <= rows.Keys
        invariant forall u :: u in emptied ==> g.Reaches(u, t)
        decreases rows.Keys - emptied
      {
        var u :| u in rows && u !in emptied && exists v :: v in emptied && g.Edge(u, v);
        ghost var v :| v in emptied && g.Edge(u, v);
        g.ReachesSelf(u);
        g.ReachesStep(u, u, v);
        g.ReachesTrans(u, v, t);
        emptied := emptied + {u};
      }
      CascadeIsClosed(g, rows, emptied, t);
      forall u, v | u in rows && u !in emptied && v in emptied
        ensures !PointsAt(rows, u, v)
      {
        assert !g.Edge(u, v);
      }
      EmptyingKeepsReferences(g, rows, emptied);
      rows := Emptied(rows, emptied);
    }

    /** Uses the Prisma model when there is one and raw SQL otherwise; ok is false where the source throws. */
    method CleanupTableData(t: string, hasModel: bool) returns (ok: bool)
      requires Valid() && t in rows
      modifies this
      ensures Valid()
      ensures ok == (hasModel ==> !ReferencedFromOutside(old(rows), t))
      ensures ok ==> rows[t] == {}
      ensures rows == Cleared(g, old(rows), t, hasModel)
      ensures rows.Keys == old(rows).Keys
      ensures forall u :: u in rows ==> rows[u] == {} || rows[u] == old(rows)[u]
    {
      if hasModel {
        ok := DeleteMany(t);
      } else {
        TruncateCascade(t);
        ok := true;
      }
    }
  }

  /** What the referring tables are collected into step by step is the whole cascade. */
  lemma CascadeIsClosed(g: Graph, c: Contents, emptied: set<string>, t: string)
    requires Conforms(g, c) && t in emptied && emptied <= c.Keys
    requires forall u :: u in emptied ==> g.Reaches(u, t)
    requires forall u, v :: u in c && v in emptied && g.Edge(u, v) ==> u in emptied
    ensures emptied == Cascade(g, c, t)
  {
    forall u | u in c && g.Reaches(u, t)
      ensures u in emptied
    {
      var p :| g.IsPath(p) && p[0] == u && p[|p| - 1] == t;
      var i := |p| - 1;
      while i > 0
        invariant 0 <= i < |p| && p[i] in emptied
      {
        i := i - 1;
        assert g.Edge(p[i], p[i + 1]);
      }
    }
  }

  lemma EmptyingKeepsReferences(g: Graph, c: Contents, emptied: set<string>)
    requires Intact(c) && Conforms(g, c) && emptied <= c.Keys
    requires forall u, v :: u in c && u !in emptied && v in emptied ==> !PointsAt(c, u, v)
    ensures Intact(Emptied(c, emptied)) && Conforms(g, Emptied(c, emptied))
  {
    var c' := Emptied(c, emptied);
    forall t: string, r: Row, ref: Reference | t in c' && r in c'[t] && ref in r.refs
      ensures Resolves(c', ref)
    {
      assert t !in emptied && r in c[t] && Resolves(c, ref);
      assert PointsAt(c, t, ref.table);
      assert c'[ref.table] == c[ref.table];
    }
  }

  /** Whatever points at a table no cycle leads to is itself such a table and comes earlier. */
  lemma ReferrersComeFirst(g: Graph, order: seq<string>, u: string, t: string)
    requires DeletionOrder(g, order) && g.NoCycleAbove(t) && g.Edge(u, t) && u != t
    ensures Before(order, u, t) && g.NoCycleAbove(u)
  {
    g.ReachesSelf(t);
    forall a, b | g.Edge(a, b) && a != b && g.Reaches(b, u)
      ensures !g.Reaches(b, a)
    {
      g.ReachesStep(b, u, t);
    }
  }

  lemma AcyclicIsSafe(g: Graph, t: string)
    ensures g.Acyclic() ==> g.NoCycleAbove(t)
  {
  }

  /** Nothing is ever partly deleted or added. */
  ghost predicate Trimmed(start: Contents, now: Contents) {
    now.Keys == start.Keys && forall t :: t in now ==> now[t] == {} || now[t] == start[t]
  }

  /** Of the first i tables of the order, those no cycle leads to are empty. */
  ghost predicate SafeOnesCleared(g: Graph, order: seq<string>, i: nat, now: Contents)
    requires i <= |order|
  {
    forall k :: 0 <= k < i && g.NoCycleAbove(order[k]) ==> order[k] in now && now[order[k]] == {}
  }

  ghost predicate AllCleared(order: seq<string>, i: nat, now: Contents)
    requires i <= |order|
  {
    forall k :: 0 <= k < i ==> order[k] in now && now[order[k]] == {}
  }

  lemma KnotIsReferenced(start: Contents, before: Contents, s: set<string>, table: string)
    requires Knotted(start, s) && table in s
    requires forall t :: t in s ==> t in before && before[t] == start[t]
    ensures ReferencedFromOutside(before, table)
  {
    assert HeldFromWithin(start, s, table);
    var u :| u in s && u != table && PointsAt(start, u, table);
    assert PointsAt(before, u, table);
  }

  lemma AllClearedStep(order: seq<string>, i: nat, before: Contents, now: Contents)
    requires i < |order| && AllCleared(order, i, before) && Trimmed(before, now)
    requires order[i] in now && now[order[i]] == {}
    ensures AllCleared(order, i + 1, now)
  {
    forall k | 0 <= k < i + 1
      ensures order[k] in now && now[order[k]] == {}
    {
      assert k < i ==> before[order[k]] == {};
    }
  }

  /** When a table that no cycle leads to gets its turn, nothing outside it points at it any more. */
  lemma ReadyToClear(g: Graph, order: seq<string>, i: nat, c: Contents)
    requires DeletionOrder(g, order) && Conforms(g, c) && i < |order| && g.NoCycleAbove(order[i])
    requires forall k :: 0 <= k < i && g.NoCycleAbove(order[k]) ==> order[k] in c && c[order[k]] == {}
    ensures forall u :: u != order[i] && g.Edge(u, order[i]) ==> u in order[..i] && c[u] == {}
    ensures !ReferencedFromOutside(c, order[i])
  {
    forall u | u != order[i] && g.Edge(u, order[i])
      ensures u in order[..i] && c[u] == {}
    {
      ReferrersComeFirst(g, order, u, order[i]);
      var k, j :| 0 <= k < j < |order| && order[k] == u && order[j] == order[i];
      assert order[..i][k] == u;
    }
  }

  lemma ClearedIsTrimmed(g: Graph, c: Contents, t: string, hasModel: bool)
    requires Intact(c) && Conforms(g, c) && t in c
    ensures var c' := Cleared(g, c, t, hasModel); Intact(c') && Conforms(g, c') && Trimmed(c, c')
    ensures !ReferencedFromOutside(c, t) ==> Cleared(g, c, t, hasModel)[t] == {}
  {
    g.ReachesSelf(t);
    if !hasModel {
      forall u, v | u in c && u !in Cascade(g, c, t) && v in Cascade(g, c, t)
        ensures !PointsAt(c, u, v)
      {
        if PointsAt(c, u, v) {
          g.ReachesSelf(u);
          g.ReachesStep(u, u, v);
          g.ReachesTrans(u, v, t);
        }
      }
      EmptyingKeepsReferences(g, c, Cascade(g, c, t));
    } else if !ReferencedFromOutside(c, t) {
      EmptyingKeepsReferences(g, c, {t});
    }
  }

  /** What holds after the first i turns: references still resolve, nothing is added, the safe tables are empty. */
  ghost predicate ClearedSafely(g: Graph, c: Contents, order: seq<string>, modelled: set<string>, i: nat)
    requires i <= |order|
  {
    var now := ClearedAll(g, c, order[..i], modelled);
    Intact(now) && Conforms(g, now) && Trimmed(c, now) && SafeOnesCleared(g, order, i, now)
  }

  lemma OneMoreCleared(g: Graph, c: Contents, order: seq<string>, modelled: set<string>, i: nat)
    requires Conforms(g, c) && DeletionOrder(g, order) && i < |order| && ClearedSafely(g, c, order, modelled, i)
    ensures ClearedSafely(g, c, order, modelled, i + 1)
  {
    assert order[..i + 1][..i] == order[..i];
    var before := ClearedAll(g, c, order[..i], modelled);
    assert order[i] in ToSet(order);
    if g.NoCycleAbove(order[i]) {
      ReadyToClear(g, order, i, before);
    }
    ClearedIsTrimmed(g, before, order[i], order[i] in modelled);
  }

  /** Along a deletion order every table that no cycle leads to is empty once it has had its turn. */
  lemma {:induction false} SafeOnesAreCleared(g: Graph, c: Contents, order: seq<string>, modelled: set<string>, i: nat)
    requires Intact(c) && Conforms(g, c) && DeletionOrder(g, order) && i <= |order|
    ensures ClearedSafely(g, c, order, modelled, i)
  {
    if i > 0 {
      SafeOnesAreCleared(g, c, order, modelled, i - 1);
      OneMoreCleared(g, c, order, modelled, i - 1);
    }
  }

  // ---------------------------------------------------------------- the clearing loop

  /** The body of the clearing loop for position i; a refusal is logged and the loop goes on. */
  method ClearNext(db: Database, order: seq<string>, i: nat, modelled: set<string>, ghost start: Contents)
    returns (ok: bool)
    requires db.Valid() && DeletionOrder(db.g, order) && i < |order|
    requires Intact(start) && Conforms(db.g, start) && db.rows == ClearedAll(db.g, start, order[..i], modelled)
    modifies db
    ensures db.Valid() && db.rows == ClearedAll(db.g, start, order[..i + 1], modelled)
    ensures db.g.NoCycleAbove(order[i]) ==> ok
    ensures ok && AllCleared(order, i, old(db.rows)) ==> AllCleared(order, i + 1, db.rows)
  {
    var table := order[i];
    assert table in ToSet(order) && order[..i + 1][..i] == order[..i];
    SafeOnesAreCleared(db.g, start, order, modelled, i);
    if db.g.NoCycleAbove(table) {
      ReadyToClear(db.g, order, i, db.rows);
    }
    ghost var before := db.rows;
    ok := db.CleanupTableData(table, table in modelled);
    if ok && AllCleared(order, i, before) {
      AllClearedStep(order, i, before, db.rows);
    }
  }

  method CleanDatabase(db: Database, fks: seq<ForeignKey>, tables: seq<string>, modelled: set<string>)
    returns (cleaned: nat, total: nat, ghost order: seq<string>)
    requires db.Valid() && db.g == Graph(tables, DependencyMap(fks))
    modifies db
    ensures db.Valid() && Trimmed(old(db.rows), db.rows)
    ensures DeletionOrder(db.g, order) && db.rows == ClearedAll(db.g, old(db.rows), order, modelled)
    ensures total == |ToSet(tables)| && cleaned <= total
    // tables that no cycle leads to always end empty, so an acyclic schema is emptied without one refusal
    ensures forall t :: t in db.rows && db.g.NoCycleAbove(t) ==> db.rows[t] == {}
    ensures db.g.Acyclic() ==> cleaned == total
    ensures cleaned == total ==> AllEmpty(db.rows)
  {
    cleaned, total, order := 0, 0, [];
    if |tables| == 0 {
      assert ToSet(tables) == {};
      return;
    }
    var deps := AnalyzeTableDependencies(fks);
    var sorted := TopologicalSort(tables, deps);
    order := sorted;
    total := |sorted|;
    CountOfDistinct(order);
    ghost var start := db.rows;
    for i := 0 to |sorted|
      invariant db.Valid() && cleaned <= i
      invariant db.rows == ClearedAll(db.g, start, order[..i], modelled)
      invariant db.g.Acyclic() ==> cleaned == i
      invariant cleaned == i ==> AllCleared(order, i, db.rows)
    {
      AcyclicIsSafe(db.g, order[i]);
      var ok := ClearNext(db, sorted, i, modelled, start);
      if ok {
        cleaned := cleaned + 1;
      }
    }
    SafeOnesEndEmpty(db.g, start, order, modelled);
    if cleaned == total {
      ClearedMeansEmpty(db.g, order, db.rows);
    }
  }

  lemma ClearedMeansEmpty(g: Graph, order: seq<string>, c: Contents)
    requires DeletionOrder(g, order) && Conforms(g, c) && AllCleared(order, |order|, c)
    ensures AllEmpty(c)
  {
    forall t | t in c
      ensures c[t] == {}
    {
      assert t in ToSet(order);
    }
  }

  lemma SafeOnesEndEmpty(g: Graph, c: Contents, order: seq<string>, modelled: set<string>)
    requires Intact(c) && Conforms(g, c) && DeletionOrder(g, order)
    ensures order[..|order|] == order
    ensures var end := ClearedAll(g, c, order, modelled);
            Trimmed(c, end) && forall t :: t in end && g.NoCycleAbove(t) ==> end[t] == {}
  {
    assert order[..|order|] == order;
    SafeOnesAreCleared(g, c, order, modelled, |order|);
    forall t | t in ClearedAll(g, c, order, modelled) && g.NoCycleAbove(t)
      ensures ClearedAll(g, c, order, modelled)[t] == {}
    {
      assert t in ToSet(order);
    }
  }

  // ---------------------------------------------------------------- which tables are always emptied

  ghost predicate AllEmpty(c: Contents) {
    forall t :: t in c ==> c[t] == {}
  }

  /** A row with id 0 that refers to row 0 of every table its own depends on. */
  function RowOf(g: Graph, t: string): Row {
    Row(0, set d | d in g.DepsOf(t) && d in g.tables :: Reference(d, 0))
  }

  function OneRowEach(g: Graph): Contents {
    map t | t in ToSet(g.tables) :: {RowOf(g, t)}
  }

  lemma OneRowEachIsIntact(g: Graph)
    ensures Intact(OneRowEach(g)) && Conforms(g, OneRowEach(g))
    ensures forall u, t :: g.Edge(u, t) ==> PointsAt(OneRowEach(g), u, t)
  {
    var c := OneRowEach(g);
    forall t: string, r: Row, ref: Reference | t in c && r in c[t] && ref in r.refs
      ensures Resolves(c, ref)
    {
      assert RowOf(g, ref.table) in c[ref.table];
    }
    forall u, t | g.Edge(u, t)
      ensures PointsAt(c, u, t)
    {
      assert RowOf(g, u) in c[u] && Reference(t, 0) in RowOf(g, u).refs;
    }
  }

  ghost function ReachedFrom(g: Graph, b: string): set<string> {
    set x | x in g.tables && g.Reaches(b, x)
  }

  /** A way to another table enters it from a different one. */
  lemma LastStepInto(g: Graph, b: string, t: string) returns (u: string)
    requires g.Reaches(b, t) && b != t
    ensures g.Reaches(b, u) && g.Edge(u, t) && u != t
  {
    var p :| g.IsPath(p) && p[0] == b && p[|p| - 1] == t;
    var i := |p| - 1;
    while p[i] == t
      invariant 0 <= i < |p|
      invariant i < |p| - 1 ==> p[i + 1] == t
      decreases i
    {
      i := i - 1;
    }
    u := p[i];
    assert g.Edge(p[i], p[i + 1]);
    assert g.IsPath(p[..i + 1]);
  }

  lemma HolderHolds(c: Contents, s: set<string>, t: string, u: string)
    requires u in s && u != t && PointsAt(c, u, t)
    ensures HeldFromWithin(c, s, t)
  {
  }

  /** Over an edge from a to b with a way back, the tables that b reaches hold each other. */
  lemma CycleIsKnotted(g: Graph, a: string, b: string)
    requires g.Edge(a, b) && a != b && g.Reaches(b, a)
    ensures Knotted(OneRowEach(g), ReachedFrom(g, b))
  {
    OneRowEachIsIntact(g);
    forall t | t in ReachedFrom(g, b)
      ensures HeldFromWithin(OneRowEach(g), ReachedFrom(g, b), t)
    {
      var u := a;
      if t != b {
        u := LastStepInto(g, b, t);
      }
      HolderHolds(OneRowEach(g), ReachedFrom(g, b), t, u);
    }
  }

  /** A knot survives clearing in any order when every table is deleted through its model. */
  lemma {:induction false} KnotsStay(g: Graph, c: Contents, order: seq<string>, modelled: set<string>, s: set<string>)
    requires Knotted(c, s) && ToSet(order) <= modelled
    ensures var now := ClearedAll(g, c, order, modelled);
            now.Keys == c.Keys && forall t :: t in s ==> now[t] == c[t]
  {
    if order != [] {
      var front, last := order[..|order| - 1], order[|order| - 1];
      assert last in ToSet(order) && ToSet(front) <= ToSet(order);
      KnotsStay(g, c, front, modelled, s);
      if last in s {
        KnotIsReferenced(c, ClearedAll(g, c, front, modelled), s, last);
      }
    }
  }

  /** Where a cycle leads to t, there are contents from which no order clears t through the models. */
  lemma CycleKeepsRow(g: Graph, order: seq<string>, t: string)
    requires !g.NoCycleAbove(t) && t in g.tables && ToSet(order) <= ToSet(g.tables)
    ensures Intact(OneRowEach(g)) && Conforms(g, OneRowEach(g))
    ensures var end := ClearedAll(g, OneRowEach(g), order, ToSet(g.tables)); t in end && end[t] != {}
  {
    var a, b :| g.Edge(a, b) && a != b && g.Reaches(b, t) && g.Reaches(b, a);
    OneRowEachIsIntact(g);
    CycleIsKnotted(g, a, b);
    KnotsStay(g, OneRowEach(g), order, ToSet(g.tables), ReachedFrom(g, b));
  }

  /** From every content, and whichever tables have a model. */
  ghost predicate AlwaysEmptied(g: Graph, order: seq<string>, t: string) {
    forall c, modelled :: Intact(c) && Conforms(g, c) && t in c ==> ClearedAll(g, c, order, modelled)[t] == {}
  }

  /** From every content, every table being deleted through its model. */
  ghost predicate EmptiedByModels(g: Graph, order: seq<string>, t: string) {
    forall c :: Intact(c) && Conforms(g, c) && t in c ==> ClearedAll(g, c, order, ToSet(g.tables))[t] == {}
  }

  /** A table always ends empty exactly when no cycle leads to it; deleting through the models only makes no difference. */
  lemma AlwaysEmptiedIffNoCycleAbove(g: Graph, order: seq<string>, t: string)
    requires DeletionOrder(g, order) && t in g.tables
    ensures AlwaysEmptied(g, order, t) <==> g.NoCycleAbove(t)
    ensures EmptiedByModels(g, order, t) <==> g.NoCycleAbove(t)
  {
    if g.NoCycleAbove(t) {
      forall c, modelled | Intact(c) && Conforms(g, c) && t in c
        ensures ClearedAll(g, c, order, modelled)[t] == {}
      {
        SafeOnesEndEmpty(g, c, order, modelled);
      }
    } else {
      CycleKeepsRow(g, order, t);
    }
  }

  /** A schema is emptied from every content exactly when no cycle leads through distinct tables. */
  lemma AlwaysEmptiedIffAcyclic(g: Graph, order: seq<string>)
    requires DeletionOrder(g, order)
    ensures (forall t :: t in g.tables ==> AlwaysEmptied(g, order, t)) <==> g.Acyclic()
    ensures (forall t :: t in g.tables ==> EmptiedByModels(g, order, t)) <==> g.Acyclic()
  {
    forall t | t in g.tables
      ensures AlwaysEmptied(g, order, t) <==> g.NoCycleAbove(t)
      ensures EmptiedByModels(g, order, t) <==> g.NoCycleAbove(t)
    {
      AlwaysEmptiedIffNoCycleAbove(g, order, t);
    }
    SafeEverywhereIsAcyclic(g);
  }

  lemma SafeEverywhereIsAcyclic(g: Graph)
    ensures (forall t :: t in g.tables ==> g.NoCycleAbove(t)) <==> g.Acyclic()
  {
    if a, b :| g.Edge(a, b) && a != b && g.Reaches(b, a) {
      g.ReachesSelf(b);
      assert !g.NoCycleAbove(b);
    }
  }
}

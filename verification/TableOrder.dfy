/** The depth-first table ordering of prisma/seed.ts and the clearing loop that uses it. */
module TableOrder {
  import opened Common

  /** The listed tables and, per table, the tables its foreign keys point to. */
  datatype Graph = Graph(tables: seq<string>, deps: map<string, seq<string>>) {

    function DepsOf(t: string): seq<string> {
      if t in deps then deps[t] else []
    }

    /** A foreign key from t to d, both listed. */
    predicate Edge(t: string, d: string) {
      t in tables && d in tables && d in DepsOf(t)
    }

    ghost predicate IsPath(p: seq<string>) {
      |p| > 0 && forall i :: 0 <= i < |p| - 1 ==> Edge(p[i], p[i + 1])
    }

    /** t can be followed to d through listed tables; every table reaches itself. */
    ghost predicate Reaches(t: string, d: string) {
      exists p :: IsPath(p) && p[0] == t && p[|p| - 1] == d
    }

    lemma ReachesSelf(t: string)
      ensures Reaches(t, t)
    {
      assert IsPath([t]);
    }

    lemma ReachesStep(a: string, t: string, d: string)
      requires Reaches(a, t) && Edge(t, d)
      ensures Reaches(a, d)
    {
      var p :| IsPath(p) && p[0] == a && p[|p| - 1] == t;
      assert IsPath(p + [d]);
      assert (p + [d])[0] == a;
    }

    lemma ReachesTrans(a: string, b: string, c: string)
      requires Reaches(a, b) && Reaches(b, c)
      ensures Reaches(a, c)
    {
      var p :| IsPath(p) && p[0] == a && p[|p| - 1] == b;
      var q :| IsPath(q) && q[0] == b && q[|q| - 1] == c;
      var r := p + q[1..];
      assert forall i :: 0 <= i < |r| ==> r[i] == if i < |p| then p[i] else q[i - |p| + 1];
      assert IsPath(r);
    }

    /** A set of tables that no edge leaves holds everything its members reach. */
    lemma ClosedUnderReach(s: set<string>, t: string, d: string)
      requires forall x, y :: x in s && Edge(x, y) ==> y in s
      requires t in s && Reaches(t, d)
      ensures d in s
    {
      var p :| IsPath(p) && p[0] == t && p[|p| - 1] == d;
      var i := 0;
      while i < |p| - 1
        invariant 0 <= i < |p| && p[i] in s
      {
        assert Edge(p[i], p[i + 1]);
        i := i + 1;
      }
    }

    /** No edge between distinct tables lies on a cycle; self references are allowed. */
    ghost predicate Acyclic() {
      forall a, b :: Edge(a, b) && a != b ==> !Reaches(b, a)
    }

    /** No cycle through distinct tables can be followed to t. */
    ghost predicate NoCycleAbove(t: string) {
      forall a, b :: Edge(a, b) && a != b && Reaches(b, t) ==> !Reaches(b, a)
    }
  }

  // ---------------------------------------------------------------- depth-first search

  /** The variables the nested function `visit` shares with its caller. */
  datatype Search = Search(visited: set<string>, result: seq<string>) {
    /** Tables entered but not finished: those on the recursion stack. */
    ghost function Open(): set<string> {
      visited - ToSet(result)
    }
  }

  const NOTHING_VISITED := Search({}, [])

  /** The search after one table has been visited. */
  function Visited(g: Graph, s: Search, table: string): (r: Search)
    requires table in g.tables
    ensures s.visited <= r.visited
    decreases ToSet(g.tables) - s.visited, 0, 0
  {
    if table in s.visited then s
    else
      assert table in ToSet(g.tables) - s.visited;
      var inner := VisitedAll(g, Search(s.visited + {table}, s.result), g.DepsOf(table));
      Search(inner.visited, inner.result + [table])
  }

  /** The search after the listed ones among these tables have been visited in turn. */
  function VisitedAll(g: Graph, s: Search, list: seq<string>): (r: Search)
    ensures s.visited <= r.visited
    decreases ToSet(g.tables) - s.visited, |list|, 1
  {
    if list == [] then s
    else
      var n := |list| - 1;
      var before := VisitedAll(g, s, list[..n]);
      if list[n] in g.tables then Visited(g, before, list[n]) else before
  }

  function SortOrder(g: Graph): seq<string> {
    Reversed(VisitedAll(g, NOTHING_VISITED, g.tables).result)
  }

  class DepthFirst {
    const g: Graph
    var visited: set<string>
    var result: seq<string>

    constructor (g: Graph)
      ensures this.g == g && State() == NOTHING_VISITED
    {
      this.g := g;
      visited, result := {}, [];
    }

    function State(): Search
      reads this
    {
      Search(visited, result)
    }

    method Visit(table: string)
      requires table in g.tables
      modifies this
      ensures State() == Visited(g, old(State()), table)
      decreases ToSet(g.tables) - visited
    {
      if table in visited {
        return;
      }
      assert table in ToSet(g.tables) - visited;
      visited := visited + {table};
      ghost var entered := State();
      var deps := g.DepsOf(table);
      for i := 0 to |deps|
        invariant State() == VisitedAll(g, entered, deps[..i])
      {
        assert deps[..i + 1][..i] == deps[..i];
        if deps[i] in g.tables {
          Visit(deps[i]);
        }
      }
      assert deps[..|deps|] == deps;
      result := result + [table];
    }
  }

  method TopologicalSort(tables: seq<string>, deps: map<string, seq<string>>) returns (order: seq<string>)
    ensures order == SortOrder(Graph(tables, deps))
    ensures DeletionOrder(Graph(tables, deps), order)
    ensures FirstLeads(Graph(tables, deps), order)
  {
    var dfs := new DepthFirst(Graph(tables, deps));
    for i := 0 to |tables|
      invariant dfs.g == Graph(tables, deps)
      invariant dfs.State() == VisitedAll(dfs.g, NOTHING_VISITED, tables[..i])
    {
      assert tables[..i + 1][..i] == tables[..i];
      dfs.Visit(tables[i]);
    }
    assert tables[..|tables|] == tables;
    SortOrderIsDeletionOrder(dfs.g);
    SortOrderFirstLeads(dfs.g);
    order := Reversed(dfs.result);
  }

  // ---------------------------------------------------------------- what every step of the search keeps

  /** A finished table stands after each listed table it depends on, unless that table reaches it back. */
  ghost predicate PostOrder(g: Graph, result: seq<string>) {
    forall i, d :: 0 <= i < |result| && g.Edge(result[i], d) ==> d in result[..i] || g.Reaches(d, result[i])
  }

  ghost predicate Valid(g: Graph, s: Search) {
    && NoDuplicates(s.result)
    && ToSet(s.result) <= s.visited <= ToSet(g.tables)
    && PostOrder(g, s.result)
    && forall t, d :: t in s.result && g.Edge(t, d) ==> d in s.visited
  }

  /** The search went on from s without losing anything, and its stack is as it was. */
  ghost predicate Continues(s: Search, r: Search) {
    s.visited <= r.visited && s.result <= r.result && r.Open() == s.Open()
  }

  lemma {:induction false} VisitKeeps(g: Graph, s: Search, table: string)
    requires Valid(g, s) && table in g.tables
    requires forall o :: o in s.Open() ==> g.Reaches(o, table)
    ensures var r := Visited(g, s, table);
            && Valid(g, r) && Continues(s, r) && table in r.visited
            && (table !in s.visited ==> |r.result| > 0 && r.result[|r.result| - 1] == table)
    decreases ToSet(g.tables) - s.visited, 0, 0
  {
    if table !in s.visited {
      assert table in ToSet(g.tables) - s.visited;
      var entered := Search(s.visited + {table}, s.result);
      var deps := g.DepsOf(table);
      assert entered.Open() == s.Open() + {table};
      g.ReachesSelf(table);
      forall o, d | o in entered.Open() && d in deps && d in g.tables
        ensures g.Reaches(o, d)
      {
        g.ReachesStep(o, table, d);
      }
      VisitAllKeeps(g, entered, deps);
      var inner := VisitedAll(g, entered, deps);
      assert table !in inner.result;
      PushKeepsPostOrder(g, inner.result, table, inner.visited);
      PushKeepsValid(g, s, inner, table);
    }
  }

  /** Finishing a table whose dependencies are all visited. */
  lemma PushKeepsValid(g: Graph, s: Search, inner: Search, table: string)
    requires Valid(g, inner) && s.result <= inner.result && s.visited + {table} <= inner.visited
    requires inner.Open() == s.Open() + {table} && table !in s.visited && table !in inner.result
    requires PostOrder(g, inner.result + [table]) && forall d :: g.Edge(table, d) ==> d in inner.visited
    ensures var r := Search(inner.visited, inner.result + [table]); Valid(g, r) && Continues(s, r)
  {
    var r := Search(inner.visited, inner.result + [table]);
    ToSetAppend(inner.result, table);
    assert r.Open() == inner.Open() - {table};
  }

  lemma {:induction false} VisitAllKeeps(g: Graph, s: Search, list: seq<string>)
    requires Valid(g, s)
    requires forall o, d :: o in s.Open() && d in list && d in g.tables ==> g.Reaches(o, d)
    ensures var r := VisitedAll(g, s, list);
            Valid(g, r) && Continues(s, r) && forall d :: d in list && d in g.tables ==> d in r.visited
    decreases ToSet(g.tables) - s.visited, |list|, 1
  {
    if list != [] {
      var n := |list| - 1;
      assert list == list[..n] + [list[n]];
      VisitAllKeeps(g, s, list[..n]);
      var before := VisitedAll(g, s, list[..n]);
      if list[n] in g.tables {
        VisitKeeps(g, before, list[n]);
      }
    }
  }

  lemma PushKeepsPostOrder(g: Graph, result: seq<string>, table: string, visited: set<string>)
    requires PostOrder(g, result)
    requires forall d :: g.Edge(table, d) ==> d in visited
    requires forall o :: o in visited - ToSet(result) ==> g.Reaches(o, table)
    ensures PostOrder(g, result + [table])
  {
    var r := result + [table];
    forall i, d | 0 <= i < |r| && g.Edge(r[i], d)
      ensures d in r[..i] || g.Reaches(d, r[i])
    {
      if i < |result| {
        assert r[i] == result[i] && r[..i] == result[..i];
      } else {
        assert r[..i] == result;
        assert d in visited;
      }
    }
  }

  function Reversed<T>(s: seq<T>): (r: seq<T>)
    ensures |r| == |s| && forall i :: 0 <= i < |s| ==> r[i] == s[|s| - 1 - i]
  {
    seq(|s|, i requires 0 <= i < |s| => s[|s| - 1 - i])
  }

  /** Every listed table comes once, and before each table it depends on that cannot reach it back. */
  ghost predicate DeletionOrder(g: Graph, order: seq<string>) {
    && NoDuplicates(order)
    && ToSet(order) == ToSet(g.tables)
    && forall t, d :: g.Edge(t, d) && t != d && !g.Reaches(d, t) ==> Before(order, t, d)
  }

  /** The first listed table comes before everything else it reaches, cycles included. */
  ghost predicate FirstLeads(g: Graph, order: seq<string>) {
    g.tables != [] ==>
      forall t :: g.Reaches(g.tables[0], t) && t != g.tables[0] && t in g.tables ==> Before(order, g.tables[0], t)
  }

  lemma ReversedHolds(result: seq<string>, x: string)
    ensures x in Reversed(result) <==> x in result
  {
    var n := |result|;
    if x in result {
      var i :| 0 <= i < n && result[i] == x;
      assert Reversed(result)[n - 1 - i] == x;
    }
  }

  lemma ReversedIsDeletionOrder(g: Graph, result: seq<string>, order: seq<string>)
    requires NoDuplicates(result) && ToSet(result) == ToSet(g.tables) && PostOrder(g, result)
    requires order == Reversed(result)
    ensures DeletionOrder(g, order)
  {
    var n := |result|;
    forall x
      ensures x in order <==> x in result
    {
      ReversedHolds(result, x);
    }
    forall t, d | g.Edge(t, d) && t != d && !g.Reaches(d, t)
      ensures Before(order, t, d)
    {
      assert t in ToSet(result);
      var i :| 0 <= i < n && result[i] == t;
      assert d in result[..i];
      var j :| 0 <= j < i && result[j] == d;
      assert order[n - 1 - i] == t && order[n - 1 - j] == d;
    }
  }

  lemma SearchEnds(g: Graph, list: seq<string>)
    ensures var r := VisitedAll(g, NOTHING_VISITED, list);
            && Valid(g, r) && r.visited == ToSet(r.result)
            && forall d :: d in list && d in g.tables ==> d in r.visited
  {
    VisitAllKeeps(g, NOTHING_VISITED, list);
    var r := VisitedAll(g, NOTHING_VISITED, list);
    assert r.visited == r.Open() + ToSet(r.result);
  }

  lemma SortOrderIsDeletionOrder(g: Graph)
    ensures DeletionOrder(g, SortOrder(g))
  {
    SearchEnds(g, g.tables);
    var result := VisitedAll(g, NOTHING_VISITED, g.tables).result;
    assert ToSet(result) == ToSet(g.tables);
    ReversedIsDeletionOrder(g, result, SortOrder(g));
  }

  /** Going on with the list never changes what has been finished. */
  lemma {:induction false} LaterVisitsAppend(g: Graph, list: seq<string>, n: nat)
    requires 0 < n <= |list|
    ensures VisitedAll(g, NOTHING_VISITED, list[..n]).result <= VisitedAll(g, NOTHING_VISITED, list).result
    decreases |list|
  {
    if n < |list| {
      var front := list[..|list| - 1];
      LaterVisitsAppend(g, front, n);
      assert front[..n] == list[..n];
      SearchEnds(g, front);
      if list[|list| - 1] in g.tables {
        VisitKeeps(g, VisitedAll(g, NOTHING_VISITED, front), list[|list| - 1]);
      }
    } else {
      assert list[..n] == list;
    }
  }

  /** The visit of the first listed table finishes everything it reaches, itself last. */
  lemma FirstVisit(g: Graph)
    requires g.tables != []
    ensures var first := VisitedAll(g, NOTHING_VISITED, g.tables[..1]).result;
            && |first| > 0 && first[|first| - 1] == g.tables[0]
            && forall t :: g.Reaches(g.tables[0], t) ==> t in first
  {
    var s := VisitedAll(g, NOTHING_VISITED, g.tables[..1]);
    SearchEnds(g, g.tables[..1]);
    assert g.tables[..1][..0] == [] && g.tables[0] in g.tables;
    assert s == Visited(g, NOTHING_VISITED, g.tables[0]);
    VisitKeeps(g, NOTHING_VISITED, g.tables[0]);
    forall t | g.Reaches(g.tables[0], t)
      ensures t in s.result
    {
      g.ClosedUnderReach(s.visited, g.tables[0], t);
    }
  }

  lemma SortOrderFirstLeads(g: Graph)
    ensures FirstLeads(g, SortOrder(g))
  {
    if g.tables != [] {
      var first := VisitedAll(g, NOTHING_VISITED, g.tables[..1]).result;
      var result := VisitedAll(g, NOTHING_VISITED, g.tables).result;
      FirstVisit(g);
      LaterVisitsAppend(g, g.tables, 1);
      forall t | g.Reaches(g.tables[0], t) && t != g.tables[0]
        ensures Before(SortOrder(g), g.tables[0], t)
      {
        var j :| 0 <= j < |first| && first[j] == t;
        assert result[j] == t && result[|first| - 1] == g.tables[0];
        var n := |result|;
        assert SortOrder(g)[n - |first|] == g.tables[0] && SortOrder(g)[n - 1 - j] == t;
      }
    }
  }

  // ---------------------------------------------------------------- which edges are always ordered

  /** The same tables in another listing. */
  ghost predicate Relisted(g: Graph, g': Graph) {
    ToSet(g'.tables) == ToSet(g.tables) && g'.deps == g.deps
  }

  lemma RelistedReaches(g: Graph, g': Graph, t: string, d: string)
    requires Relisted(g, g') && g.Reaches(t, d)
    ensures g'.Reaches(t, d)
  {
    var p :| g.IsPath(p) && p[0] == t && p[|p| - 1] == d;
    forall i | 0 <= i < |p| - 1
      ensures g'.Edge(p[i], p[i + 1])
    {
      assert g.Edge(p[i], p[i + 1]);
      assert p[i] in ToSet(g.tables) && p[i + 1] in ToSet(g.tables);
    }
    assert g'.IsPath(p);
  }

  /** However the tables are listed, the sort puts t before d. */
  ghost predicate AlwaysBefore(g: Graph, t: string, d: string) {
    forall g': Graph :: Relisted(g, g') ==> Before(SortOrder(g'), t, d)
  }

  lemma FirstListedIsBefore(g: Graph, t: string, d: string)
    requires g.Reaches(d, t) && t != d && d in g.tables && t in g.tables
    ensures !AlwaysBefore(g, t, d)
  {
    var g' := Graph([d] + g.tables, g.deps);
    assert Relisted(g, g');
    RelistedReaches(g, g', d, t);
    SortOrderFirstLeads(g');
    SortOrderIsDeletionOrder(g');
    assert Before(SortOrder(g'), d, t);
    NotBothBefore(SortOrder(g'), d, t);
  }

  lemma NotBothBefore(order: seq<string>, a: string, b: string)
    requires NoDuplicates(order) && Before(order, a, b)
    ensures !Before(order, b, a)
  {
  }

  /** A foreign key between distinct tables is respected in every listing exactly when there is no way back. */
  lemma EdgeAlwaysOrderedIffNoWayBack(g: Graph, t: string, d: string)
    requires g.Edge(t, d) && t != d
    ensures AlwaysBefore(g, t, d) <==> !g.Reaches(d, t)
  {
    if g.Reaches(d, t) {
      FirstListedIsBefore(g, t, d);
    } else {
      forall g': Graph | Relisted(g, g')
        ensures Before(SortOrder(g'), t, d)
      {
        SortOrderIsDeletionOrder(g');
        assert t in ToSet(g.tables) && d in ToSet(g.tables);
        if g'.Reaches(d, t) {
          RelistedReaches(g', g, d, t);
        }
      }
    }
  }

  // ---------------------------------------------------------------- reading the foreign keys

  datatype ForeignKey = ForeignKey(table: string, foreign: string)

  /** What the foreign keys of one table point to, in query order. */
  function TargetsOf(fks: seq<ForeignKey>, t: string): seq<string> {
    if fks == [] then []
    else
      var last := fks[|fks| - 1];
      TargetsOf(fks[..|fks| - 1], t) + if last.table == t then [last.foreign] else []
  }

  lemma {:induction false} TargetsAreForeignKeys(fks: seq<ForeignKey>, t: string, d: string)
    ensures d in TargetsOf(fks, t) <==> ForeignKey(t, d) in fks
  {
    if fks != [] {
      var n := |fks| - 1;
      TargetsAreForeignKeys(fks[..n], t, d);
      assert fks == fks[..n] + [fks[n]];
    }
  }

  function Referring(fks: seq<ForeignKey>): set<string> {
    set k | k in fks :: k.table
  }

  /** The map from each referring table to the tables it refers to. */
  function DependencyMap(fks: seq<ForeignKey>): map<string, seq<string>> {
    map t | t in Referring(fks) :: TargetsOf(fks, t)
  }

  lemma EdgeIffForeignKey(tables: seq<string>, fks: seq<ForeignKey>, t: string, d: string)
    ensures Graph(tables, DependencyMap(fks)).Edge(t, d) <==> t in tables && d in tables && ForeignKey(t, d) in fks
  {
    TargetsAreForeignKeys(fks, t, d);
  }

  lemma TargetsAppend(fks: seq<ForeignKey>, fk: ForeignKey, t: string)
    ensures TargetsOf(fks + [fk], t) == TargetsOf(fks, t) + if fk.table == t then [fk.foreign] else []
  {
    assert (fks + [fk])[..|fks|] == fks;
  }

  lemma {:induction false} NoTargetsWithoutKey(fks: seq<ForeignKey>, t: string)
    requires forall k :: k in fks ==> k.table != t
    ensures TargetsOf(fks, t) == []
  {
    if fks != [] {
      NoTargetsWithoutKey(fks[..|fks| - 1], t);
    }
  }

  lemma ReferringAppend(fks: seq<ForeignKey>, fk: ForeignKey)
    ensures Referring(fks + [fk]) == Referring(fks) + {fk.table}
  {
    assert fk in fks + [fk];
    assert forall k :: k in fks ==> k in fks + [fk];
  }

  /** One more foreign key goes behind those of its table. */
  lemma DependencyMapAppend(fks: seq<ForeignKey>, fk: ForeignKey)
    ensures var deps := DependencyMap(fks);
            DependencyMap(fks + [fk]) == deps[fk.table := (if fk.table in deps then deps[fk.table] else []) + [fk.foreign]]
  {
    var deps, more := DependencyMap(fks), DependencyMap(fks + [fk]);
    ReferringAppend(fks, fk);
    if fk.table !in deps {
      NoTargetsWithoutKey(fks, fk.table);
    }
    var want := deps[fk.table := (if fk.table in deps then deps[fk.table] else []) + [fk.foreign]];
    forall t | t in more
      ensures more[t] == want[t]
    {
      TargetsAppend(fks, fk, t);
    }
    assert more.Keys == want.Keys;
  }

  method AnalyzeTableDependencies(fks: seq<ForeignKey>) returns (deps: map<string, seq<string>>)
    ensures deps == DependencyMap(fks)
  {
    deps := map[];
    for i := 0 to |fks|
      invariant deps == DependencyMap(fks[..i])
    {
      var fk := fks[i];
      DependencyMapAppend(fks[..i], fk);
      assert fks[..i + 1] == fks[..i] + [fk];
      if fk.table !in deps {
        deps := deps[fk.table := []];
      }
      deps := deps[fk.table := deps[fk.table] + [fk.foreign]];
    }
    assert fks[..|fks|] == fks;
  }
}

/** Clearing a database of which a fixed set of tables has models: exactly which tables end empty from every content. */
module PartlyModelled {
  import opened Common
  import opened TableOrder
  import opened DatabaseCleaning

  /** One of the first i turns truncates a table that x reaches, and x with it. */
  ghost predicate CascadedBy(g: Graph, order: seq<string>, modelled: set<string>, i: nat, x: string)
    requires i <= |order|
  {
    exists k :: 0 <= k < i && order[k] !in modelled && g.Reaches(x, order[k])
  }

  /** Nothing in the first i turns need have emptied x: no cascade has come by, and its own turns can be refused. */
  ghost predicate MaySurvive(g: Graph, order: seq<string>, modelled: set<string>, i: nat, x: string)
    requires i <= |order|
    decreases i, 0
  {
    !CascadedBy(g, order, modelled, i, x) && forall k :: 0 <= k < i && order[k] == x ==> MayBeRefused(g, order, modelled, k)
  }

  /** The turn at position i deletes through a model, and another table that refers to it may still hold rows. */
  ghost predicate MayBeRefused(g: Graph, order: seq<string>, modelled: set<string>, i: nat)
    requires i < |order|
    decreases i, 1
  {
    order[i] in modelled && exists x :: g.Edge(x, order[i]) && x != order[i] && MaySurvive(g, order, modelled, i, x)
  }

  lemma SurvivesOneMore(g: Graph, order: seq<string>, modelled: set<string>, i: nat, x: string)
    requires i < |order|
    ensures MaySurvive(g, order, modelled, i + 1, x)
       <==> MaySurvive(g, order, modelled, i, x)
            && (order[i] !in modelled ==> !g.Reaches(x, order[i]))
            && (order[i] == x ==> MayBeRefused(g, order, modelled, i))
  {
  }

  /** From any content, what still holds rows after i turns is among these. */
  ghost predicate OnlySurvivors(g: Graph, c: Contents, order: seq<string>, modelled: set<string>, i: nat)
    requires i <= |order|
  {
    var now := ClearedAll(g, c, order[..i], modelled);
    Intact(now) && Conforms(g, now) && forall x :: x in now && now[x] != {} ==> MaySurvive(g, order, modelled, i, x)
  }

  lemma ReferrerSurvives(g: Graph, before: Contents, order: seq<string>, modelled: set<string>, i: nat)
    requires i < |order| && Conforms(g, before) && order[i] in modelled && ReferencedFromOutside(before, order[i])
    requires forall x :: x in before && before[x] != {} ==> MaySurvive(g, order, modelled, i, x)
    ensures MayBeRefused(g, order, modelled, i)
  {
    var u :| u in before && u != order[i] && PointsAt(before, u, order[i]);
    assert g.Edge(u, order[i]);
  }

  lemma OneMoreTurn(g: Graph, c: Contents, order: seq<string>, modelled: set<string>, i: nat)
    requires i < |order| && ToSet(order) <= c.Keys && OnlySurvivors(g, c, order, modelled, i)
    ensures OnlySurvivors(g, c, order, modelled, i + 1)
  {
    assert order[..i + 1][..i] == order[..i];
    var before, t := ClearedAll(g, c, order[..i], modelled), order[i];
    assert t in ToSet(order);
    ClearedIsTrimmed(g, before, t, t in modelled);
    if t in modelled && ReferencedFromOutside(before, t) {
      ReferrerSurvives(g, before, order, modelled, i);
    }
    g.ReachesSelf(t);
    forall x | x in before && Cleared(g, before, t, t in modelled)[x] != {}
      ensures MaySurvive(g, order, modelled, i + 1, x)
    {
      SurvivesOneMore(g, order, modelled, i, x);
    }
  }

  lemma {:induction false} OnlySurvivorsHoldRows(g: Graph, c: Contents, order: seq<string>, modelled: set<string>, i: nat)
    requires Intact(c) && Conforms(g, c) && ToSet(order) <= c.Keys && i <= |order|
    ensures OnlySurvivors(g, c, order, modelled, i)
  {
    if i > 0 {
      OnlySurvivorsHoldRows(g, c, order, modelled, i - 1);
      OneMoreTurn(g, c, order, modelled, i - 1);
    }
  }

  /** With one row per table that refers to each dependency's row, all of them do hold their row. */
  ghost predicate AllSurvivors(g: Graph, order: seq<string>, modelled: set<string>, i: nat)
    requires i <= |order|
  {
    var start, now := OneRowEach(g), ClearedAll(g, OneRowEach(g), order[..i], modelled);
    forall x :: x in g.tables && MaySurvive(g, order, modelled, i, x) ==> now[x] == start[x]
  }

  lemma SurvivorRefers(g: Graph, before: Contents, order: seq<string>, modelled: set<string>, i: nat)
    requires i < |order| && before.Keys == ToSet(g.tables) && MayBeRefused(g, order, modelled, i)
    requires forall x :: x in g.tables && MaySurvive(g, order, modelled, i, x) ==> before[x] == OneRowEach(g)[x]
    ensures ReferencedFromOutside(before, order[i])
  {
    var u :| g.Edge(u, order[i]) && u != order[i] && MaySurvive(g, order, modelled, i, u);
    OneRowEachIsIntact(g);
    assert PointsAt(OneRowEach(g), u, order[i]);
    assert PointsAt(before, u, order[i]);
  }

  lemma {:induction false} SurvivorsHoldRows(g: Graph, order: seq<string>, modelled: set<string>, i: nat)
    requires i <= |order|
    ensures AllSurvivors(g, order, modelled, i)
  {
    if i > 0 {
      SurvivorsHoldRows(g, order, modelled, i - 1);
      assert order[..i][..i - 1] == order[..i - 1];
      var before := ClearedAll(g, OneRowEach(g), order[..i - 1], modelled);
      forall x | x in g.tables && MaySurvive(g, order, modelled, i, x)
        ensures Cleared(g, before, order[i - 1], order[i - 1] in modelled)[x] == OneRowEach(g)[x]
      {
        SurvivesOneMore(g, order, modelled, i - 1, x);
        if order[i - 1] == x {
          SurvivorRefers(g, before, order, modelled, i - 1);
        }
      }
    }
  }

  /** From every content of the schema, with these tables modelled and the others truncated by raw SQL. */
  ghost predicate EmptiedWith(g: Graph, order: seq<string>, modelled: set<string>, t: string) {
    forall c :: Intact(c) && Conforms(g, c) && t in c ==> ClearedAll(g, c, order, modelled)[t] == {}
  }

  /**
   * For a fixed set of modelled tables, t always ends empty exactly when some turn must empty it: the truncation of a table
   * it reaches, or its own turn, once nothing that refers to it can be left.
   */
  lemma EmptiedWithIff(g: Graph, order: seq<string>, modelled: set<string>, t: string)
    requires t in g.tables && ToSet(order) <= ToSet(g.tables)
    ensures EmptiedWith(g, order, modelled, t) <==> !MaySurvive(g, order, modelled, |order|, t)
  {
    assert order[..|order|] == order;
    if MaySurvive(g, order, modelled, |order|, t) {
      OneRowEachIsIntact(g);
      SurvivorsHoldRows(g, order, modelled, |order|);
    } else {
      forall c | Intact(c) && Conforms(g, c) && t in c
        ensures ClearedAll(g, c, order, modelled)[t] == {}
      {
        OnlySurvivorsHoldRows(g, c, order, modelled, |order|);
      }
    }
  }

  /** So a cycle does no harm above a table that reaches an unmodelled one. */
  lemma ReachingUnmodelledIsEmptied(g: Graph, order: seq<string>, modelled: set<string>, t: string, u: string)
    requires t in g.tables && ToSet(order) <= ToSet(g.tables) && u in order && u !in modelled && g.Reaches(t, u)
    ensures EmptiedWith(g, order, modelled, t)
  {
    EmptiedWithIff(g, order, modelled, t);
    var k :| 0 <= k < |order| && order[k] == u;
    assert CascadedBy(g, order, modelled, |order|, t);
  }
}

/** batchUpsertRecords of bitable.service.ts: chunks whose searches and writes interleave. */
module BitableBatch {
  import opened Common
  import opened Bitable

  datatype Request = Request(fields: Fields, query: Option<Query>)

  /** How far one request of a running batch has come. */
  datatype Progress =
    | Waiting
    | Searched(found: Option<Record>)
    | Done(result: Upserted)
    | Rejected

  predicate Finished(p: Progress) {
    p.Done? || p.Rejected?
  }

  /** One call of the batch operation; base is the remote table when it starts. */
  datatype Call = Call(requests: seq<Request>, global: Query, opts: Options, base: Store) {

    function QueryOf(i: nat): Query
      requires i < |requests|
    {
      if requests[i].query.Some? then requests[i].query.value else global
    }

    function FilterOf(i: nat): Option<Filter>
      requires i < |requests|
    {
      FilterFor(requests[i].fields, QueryOf(i))
    }

    /** Position of the record request i is about, judged on the table before the call. */
    function Target(i: nat): (r: Option<nat>)
      requires i < |requests|
      ensures r.Some? ==> r.value < |base.records|
    {
      if FilterOf(i).None? then None else FirstMatch(base.records, FilterOf(i).value)
    }

    /** What that record holds after request i alone. */
    function Written(i: nat): Fields
      requires i < |requests|
    {
      match Target(i)
      case Some(k) => Overlay(base.records[k].fields, UpdateBody(base.records[k].fields, requests[i].fields, opts))
      case None => FormatFields(requests[i].fields)
    }

    /** Two requests differ, beyond case, in a field both of them match on. */
    ghost predicate Apart(i: nat, j: nat)
      requires i < |requests| && j < |requests|
    {
      exists f :: TellsApart(f, i, j)
    }

    ghost predicate TellsApart(f: string, i: nat, j: nat)
      requires i < |requests| && j < |requests|
    {
      var a, b := requests[i].fields, requests[j].fields;
      && f in QueryOf(i).matchFields && f in QueryOf(j).matchFields
      && f in a && f in b && a[f] != Undefined && b[f] != Undefined && a[f] != Null && b[f] != Null
      && LowerAll(Show(a[f])) != LowerAll(Show(b[f]))
    }

    /** The search of request j accepts neither the record request i is about nor what i leaves there. */
    predicate Avoids(i: nat, j: nat)
      requires i < |requests| && j < |requests| && FilterOf(j).Some?
    {
      && !Matches(Written(i), FilterOf(j).value)
      && (Target(i).Some? ==> !Matches(base.records[Target(i).value].fields, FilterOf(j).value))
    }

    /** No request with a usable filter ever meets another one, whatever the matching mode. */
    ghost predicate Admissible() {
      && base.Valid()
      && forall i, j ::
           0 <= i < |requests| && 0 <= j < |requests| && i != j && FilterOf(i).Some? && FilterOf(j).Some? ==> Avoids(i, j)
    }
  }

  // ---------------------------------------------------------------- interleaved steps

  datatype World = World(store: Store, progress: seq<Progress>)

  function Start(c: Call): World {
    World(c.base, seq(|c.requests|, i => Waiting))
  }

  function Snapshot(records: seq<Record>, f: Filter): Option<Record> {
    match FirstMatch(records, f)
    case None => None
    case Some(k) => Some(records[k])
  }

  /** The next remote call of request i: first its search, then its update or create. */
  function Step(c: Call, w: World, i: nat): World
    requires |w.progress| == |c.requests| && i < |c.requests|
  {
    match w.progress[i]
    case Waiting =>
      (match c.FilterOf(i)
       case None => w.(progress := w.progress[i := Rejected])
       case Some(f) => w.(progress := w.progress[i := Searched(Snapshot(w.store.records, f))]))
    case Searched(None) =>
      World(w.store.Inserted(c.requests[i].fields), w.progress[i := Done(Upserted(Created, w.store.nextId))])
    case Searched(Some(r)) =>
      World(w.store.Updated(r.id, UpdateBody(r.fields, c.requests[i].fields, c.opts)),
            w.progress[i := Done(Upserted(Changed, r.id))])
    case _ => w
  }

  /** The record at position k as the finished requests have left it. */
  ghost predicate OldRecordsAgree(c: Call, w: World)
    requires |w.progress| == |c.requests| && |c.base.records| <= |w.store.records|
  {
    && (forall i, k :: 0 <= i < |c.requests| && c.Target(i) == Some(k) && w.progress[i].Done? ==>
          w.store.records[k] == Record(c.base.records[k].id, c.Written(i)))
    && (forall k :: 0 <= k < |c.base.records| && !Touched(c, w.progress, k) ==> w.store.records[k] == c.base.records[k])
  }

  ghost predicate Touched(c: Call, progress: seq<Progress>, k: nat)
    requires |progress| == |c.requests|
  {
    exists i :: 0 <= i < |c.requests| && progress[i].Done? && c.Target(i) == Some(k)
  }

  /** Records appended so far, in the order the creating requests got there. */
  ghost predicate NewRecordsAgree(c: Call, w: World, order: seq<nat>)
    requires |w.progress| == |c.requests|
  {
    && |w.store.records| == |c.base.records| + |order|
    && w.store.nextId == c.base.nextId + |order|
    && forall m :: 0 <= m < |order| ==>
         && order[m] < |c.requests| && c.FilterOf(order[m]).Some? && c.Target(order[m]).None?
         && w.progress[order[m]] == Done(Upserted(Created, c.base.nextId + m))
         && w.store.records[|c.base.records| + m] == Record(c.base.nextId + m, c.Written(order[m]))
  }

  ghost predicate ProgressAgrees(c: Call, i: nat, p: Progress, order: seq<nat>)
    requires i < |c.requests|
  {
    match p
    case Waiting => true
    case Rejected => c.FilterOf(i).None?
    case Searched(found) =>
      c.FilterOf(i).Some? && found == (if c.Target(i).Some? then Some(c.base.records[c.Target(i).value]) else None)
    case Done(r) =>
      && c.FilterOf(i).Some?
      && (c.Target(i).Some? ==> r == Upserted(Changed, c.base.records[c.Target(i).value].id))
      && (c.Target(i).None? ==> r.action == Created && i in order)
  }

  /** The closed form of every reachable world: only the order of creation is left open. */
  ghost predicate Consistent(c: Call, w: World, order: seq<nat>) {
    && |w.progress| == |c.requests|
    && NewRecordsAgree(c, w, order)
    && OldRecordsAgree(c, w)
    && forall i :: 0 <= i < |c.requests| ==> ProgressAgrees(c, i, w.progress[i], order)
  }

  // ---------------------------------------------------------------- requests that do not meet

  /** A record an exact filter accepts shows the requested text in every match field that has a value. */
  lemma ExactMatchShowsField(stored: Fields, fields: Fields, q: Query, f: string)
    requires q.mode == Exact && f in q.matchFields && f in fields && fields[f] != Undefined
    requires FilterFor(fields, q).Some? && Matches(stored, FilterFor(fields, q).value)
    ensures f in stored && LowerAll(Show(stored[f])) == LowerAll(Show(fields[f]))
  {
    ConditionsAreMatchFields(fields, q.matchFields, q);
    assert ConditionFor(f, fields[f], q) in ConditionsFor(fields, q.matchFields, q);
    LowerTwice(Show(fields[f]));
  }

  /** Under exact matching, requests that differ in a field both match on do not meet. */
  lemma ApartDoNotMeet(c: Call, i: nat, j: nat)
    requires i < |c.requests| && j < |c.requests| && c.QueryOf(i).mode == c.QueryOf(j).mode == Exact && c.Apart(i, j)
    requires c.FilterOf(i).Some? && c.FilterOf(j).Some?
    ensures c.Avoids(i, j)
  {
    var f :| c.TellsApart(f, i, j);
    if c.Target(i).Some? {
      var stored := c.base.records[c.Target(i).value].fields;
      ExactMatchShowsField(stored, c.requests[i].fields, c.QueryOf(i), f);
      if Matches(stored, c.FilterOf(j).value) {
        ExactMatchShowsField(stored, c.requests[j].fields, c.QueryOf(j), f);
      }
    }
    assert f in c.Written(i) && LowerAll(Show(c.Written(i)[f])) == LowerAll(Show(c.requests[i].fields[f]));
    if Matches(c.Written(i), c.FilterOf(j).value) {
      ExactMatchShowsField(c.Written(i), c.requests[j].fields, c.QueryOf(j), f);
    }
  }

  lemma TargetsDiffer(c: Call, i: nat, j: nat)
    requires c.Admissible() && i < |c.requests| && j < |c.requests| && i != j
    requires c.FilterOf(i).Some? && c.FilterOf(j).Some? && c.Target(i).Some?
    ensures c.Target(j) != c.Target(i)
  {
    assert c.Avoids(i, j);
  }

  lemma OldRecordUnseen(c: Call, w: World, order: seq<nat>, i: nat, k: nat)
    requires c.Admissible() && Consistent(c, w, order) && i < |c.requests| && k < |c.base.records|
    requires !Finished(w.progress[i]) && c.FilterOf(i).Some?
    ensures Matches(w.store.records[k].fields, c.FilterOf(i).value) <==> Matches(c.base.records[k].fields, c.FilterOf(i).value)
    ensures Matches(c.base.records[k].fields, c.FilterOf(i).value) ==> w.store.records[k] == c.base.records[k]
  {
    if Touched(c, w.progress, k) {
      var j :| 0 <= j < |c.requests| && w.progress[j].Done? && c.Target(j) == Some(k);
      assert ProgressAgrees(c, j, w.progress[j], order);
      assert c.Avoids(j, i);
    }
  }

  lemma NewRecordUnseen(c: Call, w: World, order: seq<nat>, i: nat, k: nat)
    requires c.Admissible() && Consistent(c, w, order) && i < |c.requests| && |c.base.records| <= k < |w.store.records|
    requires !Finished(w.progress[i]) && c.FilterOf(i).Some?
    ensures !Matches(w.store.records[k].fields, c.FilterOf(i).value)
  {
    assert c.Avoids(order[k - |c.base.records|], i);
  }

  /** The search of a request that has not written yet answers as it would have before the call. */
  lemma SearchUndisturbed(c: Call, w: World, order: seq<nat>, i: nat)
    requires c.Admissible() && Consistent(c, w, order) && i < |c.requests|
    requires !Finished(w.progress[i]) && c.FilterOf(i).Some?
    ensures FirstMatch(w.store.records, c.FilterOf(i).value) == c.Target(i)
    ensures c.Target(i).Some? ==> w.store.records[c.Target(i).value] == c.base.records[c.Target(i).value]
  {
    forall k | 0 <= k < |c.base.records|
      ensures Matches(w.store.records[k].fields, c.FilterOf(i).value) <==> Matches(c.base.records[k].fields, c.FilterOf(i).value)
      ensures Matches(c.base.records[k].fields, c.FilterOf(i).value) ==> w.store.records[k] == c.base.records[k]
    {
      OldRecordUnseen(c, w, order, i, k);
    }
    forall k | |c.base.records| <= k < |w.store.records|
      ensures !Matches(w.store.records[k].fields, c.FilterOf(i).value)
    {
      NewRecordUnseen(c, w, order, i, k);
    }
    ReadIsStable(c.base.records, w.store.records, c.FilterOf(i).value);
  }

  // ---------------------------------------------------------------- every step keeps the closed form

  lemma OldIdAt(c: Call, w: World, k: nat)
    requires |w.progress| == |c.requests| && |c.base.records| <= |w.store.records| && OldRecordsAgree(c, w)
    requires k < |c.base.records|
    ensures w.store.records[k].id == c.base.records[k].id
  {
    if Touched(c, w.progress, k) {
      var j :| 0 <= j < |c.requests| && w.progress[j].Done? && c.Target(j) == Some(k);
      assert w.store.records[k] == Record(c.base.records[k].id, c.Written(j));
    } else {
      assert w.store.records[k] == c.base.records[k];
    }
  }

  lemma NewRecordAt(c: Call, w: World, order: seq<nat>, m: nat)
    requires |w.progress| == |c.requests| && NewRecordsAgree(c, w, order) && m < |order|
    ensures order[m] < |c.requests| && |c.base.records| + m < |w.store.records|
    ensures w.store.records[|c.base.records| + m] == Record(c.base.nextId + m, c.Written(order[m]))
  {
  }

  lemma IdAt(c: Call, w: World, order: seq<nat>, k: nat)
    requires Consistent(c, w, order) && k < |w.store.records|
    ensures var n := |c.base.records|;
            w.store.records[k].id == if k < n then c.base.records[k].id else c.base.nextId + (k - n)
  {
    if k < |c.base.records| {
      OldIdAt(c, w, k);
    } else {
      NewRecordAt(c, w, order, k - |c.base.records|);
    }
  }

  lemma ConsistentIsValid(c: Call, w: World, order: seq<nat>)
    requires c.base.Valid() && Consistent(c, w, order)
    ensures w.store.Valid()
  {
    forall i, j | 0 <= i < j < |w.store.records|
      ensures w.store.records[i].id != w.store.records[j].id
    {
      IdAt(c, w, order, i);
      IdAt(c, w, order, j);
    }
    forall i | 0 <= i < |w.store.records|
      ensures w.store.records[i].id < w.store.nextId
    {
      IdAt(c, w, order, i);
    }
  }

  lemma StartIsConsistent(c: Call)
    ensures Consistent(c, Start(c), [])
  {
  }

  lemma CreateKeepsNewRecords(c: Call, w: World, order: seq<nat>, i: nat)
    requires |w.progress| == |c.requests| && i < |c.requests| && NewRecordsAgree(c, w, order)
    requires w.progress[i] == Searched(None) && c.FilterOf(i).Some? && c.Target(i).None?
    ensures NewRecordsAgree(c, Step(c, w, i), order + [i])
  {
    var w', order' := Step(c, w, i), order + [i];
    forall m | 0 <= m < |order'|
      ensures order'[m] < |c.requests| && c.FilterOf(order'[m]).Some? && c.Target(order'[m]).None?
      ensures w'.progress[order'[m]] == Done(Upserted(Created, c.base.nextId + m))
      ensures w'.store.records[|c.base.records| + m] == Record(c.base.nextId + m, c.Written(order'[m]))
    {
      if m < |order| {
        NewRecordAt(c, w, order, m);
        assert order'[m] == order[m] && order[m] != i;
      }
    }
  }

  lemma CreateKeepsProgress(c: Call, w: World, order: seq<nat>, i: nat)
    requires |w.progress| == |c.requests| && i < |c.requests| && w.progress[i] == Searched(None)
    requires forall j :: 0 <= j < |c.requests| ==> ProgressAgrees(c, j, w.progress[j], order)
    ensures forall j :: 0 <= j < |c.requests| ==> ProgressAgrees(c, j, Step(c, w, i).progress[j], order + [i])
  {
    var order' := order + [i];
    assert order'[|order|] == i;
    forall j | 0 <= j < |c.requests|
      ensures ProgressAgrees(c, j, Step(c, w, i).progress[j], order')
    {
      assert ProgressAgrees(c, j, w.progress[j], order);
      assert j in order ==> j in order';
    }
  }

  lemma CreateKeepsConsistent(c: Call, w: World, order: seq<nat>, i: nat)
    requires Consistent(c, w, order) && i < |c.requests| && w.progress[i] == Searched(None)
    ensures Consistent(c, Step(c, w, i), order + [i])
  {
    assert ProgressAgrees(c, i, w.progress[i], order);
    CreateKeepsNewRecords(c, w, order, i);
    CreateKeepsProgress(c, w, order, i);
    OldRecordsStay(c, w, Step(c, w, i), i);
  }

  /** Finishing a request that has no old record leaves the old records in agreement. */
  lemma OldRecordsStay(c: Call, w: World, w': World, i: nat)
    requires |w.progress| == |w'.progress| == |c.requests| && i < |c.requests|
    requires |c.base.records| <= |w.store.records| <= |w'.store.records| && OldRecordsAgree(c, w)
    requires forall k :: 0 <= k < |c.base.records| ==> w'.store.records[k] == w.store.records[k]
    requires forall j :: 0 <= j < |c.requests| && j != i ==> w'.progress[j] == w.progress[j]
    requires c.Target(i).None? || (!w.progress[i].Done? && !w'.progress[i].Done?)
    ensures OldRecordsAgree(c, w')
  {
    forall k | 0 <= k < |c.base.records| && !Touched(c, w'.progress, k)
      ensures w'.store.records[k] == c.base.records[k]
    {
      TouchedStays(c, w.progress, w'.progress, k);
    }
  }

  lemma UpdateStep(c: Call, w: World, order: seq<nat>, i: nat)
    requires c.Admissible() && Consistent(c, w, order) && i < |c.requests|
    requires w.progress[i].Searched? && w.progress[i].found.Some?
    ensures c.FilterOf(i).Some? && c.Target(i).Some? && i !in order
    ensures var k := c.Target(i).value;
            var id := c.base.records[k].id;
            Step(c, w, i) == World(Store(w.store.records[k := Record(id, c.Written(i))], w.store.nextId),
                                   w.progress[i := Done(Upserted(Changed, id))])
  {
    assert ProgressAgrees(c, i, w.progress[i], order);
    var k := c.Target(i).value;
    var r := c.base.records[k];
    SearchUndisturbed(c, w, order, i);
    ConsistentIsValid(c, w, order);
    UpdatedAt(w.store, k, UpdateBody(r.fields, c.requests[i].fields, c.opts));
  }

  lemma UpdateKeepsOldRecords(c: Call, w: World, w': World, order: seq<nat>, i: nat)
    requires c.Admissible() && Consistent(c, w, order) && i < |c.requests| && c.FilterOf(i).Some? && c.Target(i).Some?
    requires var k := c.Target(i).value;
             var id := c.base.records[k].id;
             && w'.store.records == w.store.records[k := Record(id, c.Written(i))]
             && w'.progress == w.progress[i := Done(Upserted(Changed, id))]
    ensures OldRecordsAgree(c, w')
  {
    forall j, l | 0 <= j < |c.requests| && c.Target(j) == Some(l) && w'.progress[j].Done?
      ensures w'.store.records[l] == Record(c.base.records[l].id, c.Written(j))
    {
      if j != i {
        assert ProgressAgrees(c, j, w.progress[j], order);
        TargetsDiffer(c, j, i);
      }
    }
    forall l | 0 <= l < |c.base.records| && !Touched(c, w'.progress, l)
      ensures w'.store.records[l] == c.base.records[l]
    {
      TouchedStays(c, w.progress, w'.progress, l);
      assert w'.progress[i].Done?;
    }
  }

  lemma UpdateKeepsConsistent(c: Call, w: World, order: seq<nat>, i: nat)
    requires c.Admissible() && Consistent(c, w, order) && i < |c.requests|
    requires w.progress[i].Searched? && w.progress[i].found.Some?
    ensures Consistent(c, Step(c, w, i), order)
  {
    var w' := Step(c, w, i);
    UpdateStep(c, w, order, i);
    UpdateKeepsOldRecords(c, w, w', order, i);
    UpdateKeepsNewRecords(c, w, w', order, i);
    forall j | 0 <= j < |c.requests|
      ensures ProgressAgrees(c, j, w'.progress[j], order)
    {
      assert ProgressAgrees(c, j, w.progress[j], order);
    }
  }

  lemma UpdateKeepsNewRecords(c: Call, w: World, w': World, order: seq<nat>, i: nat)
    requires |w.progress| == |w'.progress| == |c.requests| && NewRecordsAgree(c, w, order)
    requires i < |c.requests| && i !in order
    requires forall j :: 0 <= j < |c.requests| && j != i ==> w'.progress[j] == w.progress[j]
    requires |w'.store.records| == |w.store.records| && w'.store.nextId == w.store.nextId
    requires forall k :: |c.base.records| <= k < |w.store.records| ==> w'.store.records[k] == w.store.records[k]
    ensures NewRecordsAgree(c, w', order)
  {
  }

  lemma TouchedStays(c: Call, p: seq<Progress>, p': seq<Progress>, k: nat)
    requires |p| == |p'| == |c.requests|
    requires forall j :: 0 <= j < |p| && p[j].Done? && c.Target(j).Some? ==> p'[j].Done?
    ensures Touched(c, p, k) ==> Touched(c, p', k)
  {
    if Touched(c, p, k) {
      var j :| 0 <= j < |c.requests| && p[j].Done? && c.Target(j) == Some(k);
      assert p'[j].Done?;
    }
  }

  lemma SearchKeepsConsistent(c: Call, w: World, order: seq<nat>, i: nat)
    requires c.Admissible() && Consistent(c, w, order) && i < |c.requests| && w.progress[i].Waiting?
    ensures Consistent(c, Step(c, w, i), order)
  {
    var w' := Step(c, w, i);
    if c.FilterOf(i).Some? {
      SearchUndisturbed(c, w, order, i);
    }
    assert i !in order;
    OldRecordsStay(c, w, w', i);
    forall j | 0 <= j < |c.requests|
      ensures ProgressAgrees(c, j, w'.progress[j], order)
    {
      assert ProgressAgrees(c, j, w.progress[j], order);
    }
  }

  /** Any request may take the next step; the closed form survives, at most one creator longer. */
  lemma StepKeepsConsistent(c: Call, w: World, order: seq<nat>, i: nat) returns (order': seq<nat>)
    requires c.Admissible() && Consistent(c, w, order) && i < |c.requests|
    ensures Consistent(c, Step(c, w, i), order')
  {
    order' := order;
    match w.progress[i] {
      case Waiting => SearchKeepsConsistent(c, w, order, i);
      case Searched(None) =>
        CreateKeepsConsistent(c, w, order, i);
        order' := order + [i];
      case Searched(Some(_)) => UpdateKeepsConsistent(c, w, order, i);
      case _ =>
    }
  }

  // ---------------------------------------------------------------- schedules

  /** The world after the given requests took one step each, in that order. */
  function Run(c: Call, schedule: seq<nat>): (w: World)
    requires forall k :: 0 <= k < |schedule| ==> schedule[k] < |c.requests|
    ensures |w.progress| == |c.requests|
  {
    if schedule == [] then Start(c)
    else
      var n := |schedule| - 1;
      Step(c, Run(c, schedule[..n]), schedule[n])
  }

  lemma {:induction false} EveryScheduleIsConsistent(c: Call, schedule: seq<nat>) returns (order: seq<nat>)
    requires c.Admissible() && forall k :: 0 <= k < |schedule| ==> schedule[k] < |c.requests|
    ensures Consistent(c, Run(c, schedule), order)
  {
    if schedule == [] {
      StartIsConsistent(c);
      order := [];
    } else {
      var n := |schedule| - 1;
      order := EveryScheduleIsConsistent(c, schedule[..n]);
      order := StepKeepsConsistent(c, Run(c, schedule[..n]), order, schedule[n]);
    }
  }

  // ---------------------------------------------------------------- the one-by-one form

  /** Upserts the first p requests in turn; rejected ones leave the table alone. */
  function OneByOne(c: Call, p: nat): (r: (Store, seq<Result<Upserted>>))
    requires p <= |c.requests|
    ensures |r.1| == p
  {
    if p == 0 then (c.base, [])
    else
      var before := OneByOne(c, p - 1);
      var Request(fields, own) := c.requests[p - 1];
      var one := Upsert(before.0, fields, if own.Some? then own.value else c.global, c.opts, Replies(true, true));
      (one.0, before.1 + [one.1])
  }

  predicate SameOutcome(p: Progress, r: Result<Upserted>) {
    match r
    case Success(u) => p == Done(u)
    case Failure(_) => p == Rejected
  }

  /** Search step and write step of one request, back to back, are one upsert. */
  lemma TwoStepsAreOneUpsert(c: Call, w: World, i: nat)
    requires |w.progress| == |c.requests| && i < |c.requests| && w.progress[i].Waiting?
    ensures var w2 := Step(c, Step(c, w, i), i);
            var one := Upsert(w.store, c.requests[i].fields, c.QueryOf(i), c.opts, Replies(true, true));
            && w2.store == one.0 && SameOutcome(w2.progress[i], one.1)
            && w2.progress == w.progress[i := w2.progress[i]]
  {
  }

  /** The first p requests have ended as the one-by-one form says, the others have not started. */
  ghost predicate DoneOneByOne(c: Call, w: World, p: nat)
    requires p <= |c.requests|
  {
    && |w.progress| == |c.requests| && w.store == OneByOne(c, p).0
    && (forall i :: 0 <= i < p ==> SameOutcome(w.progress[i], OneByOne(c, p).1[i]))
    && (forall i :: p <= i < |c.requests| ==> w.progress[i] == Waiting)
  }

  lemma NextOneByOne(c: Call, w: World, p: nat)
    requires 0 < p <= |c.requests| && DoneOneByOne(c, w, p - 1)
    ensures DoneOneByOne(c, Step(c, Step(c, w, p - 1), p - 1), p)
  {
    TwoStepsAreOneUpsert(c, w, p - 1);
    var w2 := Step(c, Step(c, w, p - 1), p - 1);
    forall i | 0 <= i < p
      ensures SameOutcome(w2.progress[i], OneByOne(c, p).1[i])
    {
      if i < p - 1 {
        assert OneByOne(c, p).1[i] == OneByOne(c, p - 1).1[i] && w2.progress[i] == w.progress[i];
      }
    }
  }

  /** One by one is a schedule like any other: every request steps twice before the next one starts. */
  lemma {:induction false} OneByOneIsConsistent(c: Call, p: nat) returns (w: World, order: seq<nat>)
    requires c.Admissible() && p <= |c.requests|
    ensures Consistent(c, w, order) && DoneOneByOne(c, w, p)
  {
    if p == 0 {
      StartIsConsistent(c);
      w, order := Start(c), [];
    } else {
      w, order := OneByOneIsConsistent(c, p - 1);
      NextOneByOne(c, w, p);
      order := TwoStepsKeepConsistent(c, w, order, p - 1);
      w := Step(c, Step(c, w, p - 1), p - 1);
    }
  }

  lemma TwoStepsKeepConsistent(c: Call, w: World, order: seq<nat>, i: nat) returns (order': seq<nat>)
    requires c.Admissible() && Consistent(c, w, order) && i < |c.requests|
    ensures Consistent(c, Step(c, Step(c, w, i), i), order')
  {
    order' := StepKeepsConsistent(c, w, order, i);
    order' := StepKeepsConsistent(c, Step(c, w, i), order', i);
  }

  // ---------------------------------------------------------------- agreement up to record ids

  /** b holds the records of a under other ids: the same number, each found again with the same fields. */
  ghost predicate SameUpToIds(a: seq<Record>, b: seq<Record>, rename: nat -> nat) {
    && |a| == |b|
    && (forall k :: 0 <= k < |a| ==> Record(rename(a[k].id), a[k].fields) in b)
    && (forall k, l :: 0 <= k < l < |a| ==> rename(a[k].id) != rename(a[l].id))
  }

  /** Where request i stands in the order of creation. */
  function PositionIn(order: seq<nat>, i: nat): (m: nat)
    requires i in order
    ensures m < |order| && order[m] == i
  {
    if order[0] == i then 0 else 1 + PositionIn(order[1..], i)
  }

  ghost predicate AllFinished(c: Call, w: World) {
    |w.progress| == |c.requests| && forall i :: 0 <= i < |c.requests| ==> Finished(w.progress[i])
  }

  lemma CreatorsDiffer(c: Call, w: World, order: seq<nat>)
    requires |w.progress| == |c.requests| && NewRecordsAgree(c, w, order)
    ensures NoDuplicates(order)
  {
    forall m, l | 0 <= m < l < |order|
      ensures order[m] != order[l]
    {
      assert w.progress[order[m]] == Done(Upserted(Created, c.base.nextId + m));
      assert w.progress[order[l]] == Done(Upserted(Created, c.base.nextId + l));
    }
  }

  /** Whoever created a record in one run created one in the other. */
  lemma CreatorsAreShared(c: Call, w1: World, order1: seq<nat>, w2: World, order2: seq<nat>)
    requires Consistent(c, w1, order1) && Consistent(c, w2, order2) && AllFinished(c, w2)
    ensures ToSet(order1) <= ToSet(order2)
  {
    forall m | 0 <= m < |order1|
      ensures order1[m] in order2
    {
      var i := order1[m];
      assert ProgressAgrees(c, i, w2.progress[i], order2);
      assert Finished(w2.progress[i]);
    }
  }

  /** A finished run leaves record k as the request about it has written it, or as it was. */
  lemma OldRecordAt(c: Call, w: World, order: seq<nat>, k: nat)
    requires Consistent(c, w, order) && AllFinished(c, w) && k < |c.base.records|
    ensures forall i :: 0 <= i < |c.requests| && c.Target(i) == Some(k) ==>
              w.store.records[k] == Record(c.base.records[k].id, c.Written(i))
    ensures (forall i :: 0 <= i < |c.requests| ==> c.Target(i) != Some(k)) ==> w.store.records[k] == c.base.records[k]
  {
    forall i | 0 <= i < |c.requests| && c.Target(i) == Some(k)
      ensures w.progress[i].Done?
    {
      assert Finished(w.progress[i]) && ProgressAgrees(c, i, w.progress[i], order);
    }
  }

  lemma OldRecordsEqual(c: Call, w1: World, order1: seq<nat>, w2: World, order2: seq<nat>, k: nat)
    requires Consistent(c, w1, order1) && Consistent(c, w2, order2) && AllFinished(c, w1) && AllFinished(c, w2)
    requires k < |c.base.records|
    ensures w1.store.records[k] == w2.store.records[k]
  {
    OldRecordAt(c, w1, order1, k);
    OldRecordAt(c, w2, order2, k);
  }

  /** Ids below base stay; ids given out during the call follow their creating request. */
  function NewId(base: nat, order1: seq<nat>, order2: seq<nat>, id: nat): nat {
    var m := id - base;
    if 0 <= m < |order1| && order1[m] in order2 then base + PositionIn(order2, order1[m]) else id
  }

  /** Old records first, then one per creating request, in order of creation and with consecutive ids. */
  ghost predicate Layout(records: seq<Record>, stayed: seq<Record>, base: nat, written: seq<Fields>, order: seq<nat>) {
    && |records| == |stayed| + |order| && records[..|stayed|] == stayed
    && NoDuplicates(order)
    && forall m :: 0 <= m < |order| ==> order[m] < |written| && records[|stayed| + m] == Record(base + m, written[order[m]])
  }

  lemma NewRecordMoves(a: seq<Record>, b: seq<Record>, stayed: seq<Record>, base: nat, written: seq<Fields>,
                       order1: seq<nat>, order2: seq<nat>, m: nat)
    requires Layout(a, stayed, base, written, order1) && Layout(b, stayed, base, written, order2)
    requires m < |order1| && order1[m] in order2
    ensures var r, l := a[|stayed| + m], PositionIn(order2, order1[m]);
            && NewId(base, order1, order2, r.id) == base + l
            && b[|stayed| + l] == Record(base + l, r.fields)
  {
  }

  lemma OldRecordStays(a: seq<Record>, b: seq<Record>, stayed: seq<Record>, base: nat, order1: seq<nat>, order2: seq<nat>, k: nat)
    requires k < |stayed| <= |a| && |stayed| <= |b| && a[..|stayed|] == stayed == b[..|stayed|] && stayed[k].id < base
    ensures a[k] == stayed[k] == b[k] && NewId(base, order1, order2, a[k].id) == a[k].id
  {
    assert a[k] == a[..|stayed|][k] && b[k] == b[..|stayed|][k];
  }

  /** Where the record at position k of one table is in the other. */
  function Counterpart(n: nat, order1: seq<nat>, order2: seq<nat>, k: nat): nat {
    if 0 <= k - n < |order1| && order1[k - n] in order2 then n + PositionIn(order2, order1[k - n]) else k
  }

  ghost predicate FoundAt(a: seq<Record>, b: seq<Record>, rename: nat -> nat, k: nat, l: nat)
    requires k < |a|
  {
    l < |b| && b[l] == Record(rename(a[k].id), a[k].fields)
  }

  lemma CounterpartIsFound(a: seq<Record>, b: seq<Record>, stayed: seq<Record>, base: nat, written: seq<Fields>,
                           order1: seq<nat>, order2: seq<nat>, k: nat)
    requires Layout(a, stayed, base, written, order1) && Layout(b, stayed, base, written, order2) && k < |a|
    requires k < |stayed| ==> stayed[k].id < base
    requires k >= |stayed| ==> order1[k - |stayed|] in order2
    ensures FoundAt(a, b, id => NewId(base, order1, order2, id), k, Counterpart(|stayed|, order1, order2, k))
  {
    if k < |stayed| {
      OldRecordStays(a, b, stayed, base, order1, order2, k);
    } else {
      NewRecordMoves(a, b, stayed, base, written, order1, order2, k - |stayed|);
    }
  }

  lemma CounterpartsDiffer(n: nat, order1: seq<nat>, order2: seq<nat>, k: nat, l: nat)
    requires NoDuplicates(order1) && k < l < n + |order1|
    requires forall m :: 0 <= m < |order1| ==> order1[m] in order2
    ensures Counterpart(n, order1, order2, k) != Counterpart(n, order1, order2, l)
  {
    assert l >= n ==> order1[l - n] in order2;
    if k >= n {
      assert order1[k - n] in order2 && order1[k - n] != order1[l - n];
    }
  }

  /** Two such tables with the same creators differ in the ids of the new records only. */
  lemma LayoutsAgree(a: seq<Record>, b: seq<Record>, stayed: seq<Record>, base: nat, written: seq<Fields>,
                     order1: seq<nat>, order2: seq<nat>)
    requires Layout(a, stayed, base, written, order1) && Layout(b, stayed, base, written, order2)
    requires forall k :: 0 <= k < |stayed| ==> stayed[k].id < base
    requires forall k, l :: 0 <= k < l < |b| ==> b[k].id != b[l].id
    requires ToSet(order1) == ToSet(order2)
    ensures SameUpToIds(a, b, id => NewId(base, order1, order2, id))
  {
    var rename := id => NewId(base, order1, order2, id);
    CountOfDistinct(order1);
    CountOfDistinct(order2);
    forall m | 0 <= m < |order1|
      ensures order1[m] in order2
    {
      assert order1[m] in ToSet(order1);
    }
    forall k | 0 <= k < |a|
      ensures FoundAt(a, b, rename, k, Counterpart(|stayed|, order1, order2, k))
      ensures Record(rename(a[k].id), a[k].fields) in b
    {
      CounterpartIsFound(a, b, stayed, base, written, order1, order2, k);
    }
    forall k, l | 0 <= k < l < |a|
      ensures rename(a[k].id) != rename(a[l].id)
    {
      CounterpartsDiffer(|stayed|, order1, order2, k, l);
    }
  }

  function AllWritten(c: Call): seq<Fields> {
    seq(|c.requests|, i requires 0 <= i < |c.requests| => c.Written(i))
  }

  lemma LayoutOf(c: Call, w: World, order: seq<nat>)
    requires |w.progress| == |c.requests| && NewRecordsAgree(c, w, order)
    ensures |c.base.records| <= |w.store.records|
    ensures Layout(w.store.records, w.store.records[..|c.base.records|], c.base.nextId, AllWritten(c), order)
  {
    CreatorsDiffer(c, w, order);
    forall m | 0 <= m < |order|
      ensures order[m] < |c.requests|
      ensures w.store.records[|c.base.records| + m] == Record(c.base.nextId + m, AllWritten(c)[order[m]])
    {
      NewRecordAt(c, w, order, m);
    }
  }

  /** Two finished runs hold the same records, up to the ids given out during the call. */
  lemma FinishedTablesAgree(c: Call, w1: World, order1: seq<nat>, w2: World, order2: seq<nat>)
    requires c.base.Valid() && Consistent(c, w1, order1) && Consistent(c, w2, order2)
    requires AllFinished(c, w1) && AllFinished(c, w2)
    ensures SameUpToIds(w1.store.records, w2.store.records, id => NewId(c.base.nextId, order1, order2, id))
  {
    var n := |c.base.records|;
    LayoutOf(c, w1, order1);
    LayoutOf(c, w2, order2);
    CreatorsAreShared(c, w1, order1, w2, order2);
    CreatorsAreShared(c, w2, order2, w1, order1);
    var stayed := w1.store.records[..n];
    forall k | 0 <= k < n
      ensures w2.store.records[k] == stayed[k] && stayed[k].id == c.base.records[k].id
    {
      OldRecordsEqual(c, w1, order1, w2, order2, k);
      OldIdAt(c, w1, k);
    }
    assert w2.store.records[..n] == stayed;
    ConsistentIsValid(c, w2, order2);
    LayoutsAgree(w1.store.records, w2.store.records, stayed, c.base.nextId, AllWritten(c), order1, order2);
  }

  lemma RepliesAgree(c: Call, w1: World, order1: seq<nat>, w2: World, order2: seq<nat>, i: nat)
    requires c.base.Valid() && Consistent(c, w1, order1) && Consistent(c, w2, order2)
    requires AllFinished(c, w1) && AllFinished(c, w2) && i < |c.requests|
    ensures match w1.progress[i]
            case Done(u) => w2.progress[i] == Done(Upserted(u.action, NewId(c.base.nextId, order1, order2, u.recordId)))
            case _ => w2.progress[i] == Rejected
  {
    assert Finished(w1.progress[i]) && Finished(w2.progress[i]);
    assert ProgressAgrees(c, i, w1.progress[i], order1) && ProgressAgrees(c, i, w2.progress[i], order2);
    if w1.progress[i].Done? && c.Target(i).None? {
      CreatorReplies(c, w1, order1, i);
      CreatorReplies(c, w2, order2, i);
    }
  }

  lemma CreatorReplies(c: Call, w: World, order: seq<nat>, i: nat)
    requires |w.progress| == |c.requests| && NewRecordsAgree(c, w, order) && i in order
    ensures i < |c.requests| && w.progress[i] == Done(Upserted(Created, c.base.nextId + PositionIn(order, i)))
    ensures forall m :: 0 <= m < |order| && order[m] == i ==> m == PositionIn(order, i)
  {
    CreatorsDiffer(c, w, order);
    assert order[PositionIn(order, i)] == i;
  }

  /** Two finished runs of the same call hold the same records and gave the same replies, up to the new ids. */
  lemma FinishedRunsAgree(c: Call, w1: World, order1: seq<nat>, w2: World, order2: seq<nat>) returns (rename: nat -> nat)
    requires c.base.Valid() && Consistent(c, w1, order1) && Consistent(c, w2, order2)
    requires AllFinished(c, w1) && AllFinished(c, w2)
    ensures SameUpToIds(w1.store.records, w2.store.records, rename)
    ensures forall id: nat :: id < c.base.nextId ==> rename(id) == id
    ensures forall i :: 0 <= i < |c.requests| ==>
              match w1.progress[i]
              case Done(u) => w2.progress[i] == Done(Upserted(u.action, rename(u.recordId)))
              case _ => w2.progress[i] == Rejected
  {
    FinishedTablesAgree(c, w1, order1, w2, order2);
    rename := id => NewId(c.base.nextId, order1, order2, id);
    forall i | 0 <= i < |c.requests|
      ensures match w1.progress[i]
              case Done(u) => w2.progress[i] == Done(Upserted(u.action, rename(u.recordId)))
              case _ => w2.progress[i] == Rejected
    {
      RepliesAgree(c, w1, order1, w2, order2, i);
    }
  }

  /**
   * Any interleaving that finishes the call agrees with upserting one by one: the same records up to
   * the ids given out during the call, and per request the same action on the same record.
   */
  lemma BatchAgreesWithOneByOne(c: Call, schedule: seq<nat>) returns (rename: nat -> nat)
    requires c.Admissible() && forall k :: 0 <= k < |schedule| ==> schedule[k] < |c.requests|
    requires AllFinished(c, Run(c, schedule))
    ensures SameUpToIds(Run(c, schedule).store.records, OneByOne(c, |c.requests|).0.records, rename)
    ensures forall id: nat :: id < c.base.nextId ==> rename(id) == id
    ensures forall i :: 0 <= i < |c.requests| ==>
              match Run(c, schedule).progress[i]
              case Done(u) => OneByOne(c, |c.requests|).1[i] == Success(Upserted(u.action, rename(u.recordId)))
              case _ => OneByOne(c, |c.requests|).1[i].Failure?
  {
    var w1 := Run(c, schedule);
    var order1 := EveryScheduleIsConsistent(c, schedule);
    var w2, order2 := OneByOneIsConsistent(c, |c.requests|);
    forall i | 0 <= i < |c.requests|
      ensures Finished(w2.progress[i]) && SameOutcome(w2.progress[i], OneByOne(c, |c.requests|).1[i])
    {
    }
    rename := FinishedRunsAgree(c, w1, order1, w2, order2);
  }

  // ---------------------------------------------------------------- keyed requests

  ghost predicate Finishes(c: Call, schedule: seq<nat>) {
    && (forall k :: 0 <= k < |schedule| ==> schedule[k] < |c.requests|)
    && AllFinished(c, Run(c, schedule))
  }

  lemma SearchMissesAbsentKey(records: seq<Record>, fields: Fields, q: Query)
    requires q.mode == Exact && Keyed(fields, q.matchFields)
    ensures FilterFor(fields, q).Some?
    ensures KeyOf(fields, q.matchFields) !in Keys(records, q.matchFields) <==>
            FirstMatch(records, FilterFor(fields, q).value).None?
  {
    ExactSearchFindsKey(fields, fields, q);
    var keys := Keys(records, q.matchFields);
    forall k | 0 <= k < |records|
      ensures Matches(records[k].fields, FilterFor(fields, q).value) <==> keys[k] == KeyOf(fields, q.matchFields)
    {
      ExactSearchFindsKey(records[k].fields, fields, q);
    }
  }

  lemma OneMoreStep(c: Call, schedule: seq<nat>, i: nat)
    requires i < |c.requests| && forall k :: 0 <= k < |schedule| ==> schedule[k] < |c.requests|
    ensures Run(c, schedule + [i]) == Step(c, Run(c, schedule), i)
  {
    assert (schedule + [i])[..|schedule|] == schedule;
  }

  lemma DifferentKeysTellApart(a: Fields, b: Fields, matchFields: seq<string>) returns (f: string)
    requires Keyed(a, matchFields) && Keyed(b, matchFields) && KeyOf(a, matchFields) != KeyOf(b, matchFields)
    ensures f in matchFields && LowerAll(Show(a[f])) != LowerAll(Show(b[f]))
  {
    var i :| 0 <= i < |matchFields| && KeyOf(a, matchFields)[i] != KeyOf(b, matchFields)[i];
    f := matchFields[i];
  }

  lemma PairIsApart(c: Call, i: nat, j: nat)
    requires i < |c.requests| && j < |c.requests| && c.QueryOf(i) == c.QueryOf(j)
    requires Keyed(c.requests[i].fields, c.QueryOf(i).matchFields) && Keyed(c.requests[j].fields, c.QueryOf(i).matchFields)
    requires KeyOf(c.requests[i].fields, c.QueryOf(i).matchFields) != KeyOf(c.requests[j].fields, c.QueryOf(i).matchFields)
    ensures c.Apart(i, j)
  {
    var f := DifferentKeysTellApart(c.requests[i].fields, c.requests[j].fields, c.QueryOf(i).matchFields);
    assert c.TellsApart(f, i, j);
  }

  /** Keyed requests under one exact query, no two of them with the same case-folded key, are a call of the kind covered. */
  lemma DistinctKeysAreAdmissible(c: Call)
    requires c.base.Valid() && c.global.mode == Exact
    requires forall i :: 0 <= i < |c.requests| ==>
               c.QueryOf(i) == c.global && Keyed(c.requests[i].fields, c.global.matchFields)
    requires forall i, j :: 0 <= i < |c.requests| && 0 <= j < |c.requests| && i != j ==>
               KeyOf(c.requests[i].fields, c.global.matchFields) != KeyOf(c.requests[j].fields, c.global.matchFields)
    ensures c.Admissible()
  {
    forall i, j | 0 <= i < |c.requests| && 0 <= j < |c.requests| && i != j
      ensures c.Apart(i, j)
    {
      PairIsApart(c, i, j);
    }
    ApartCallsAreAdmissible(c);
  }

  /** So is any call under exact matching whose requests differ pairwise, beyond case, in a field both match on. */
  lemma ApartCallsAreAdmissible(c: Call)
    requires c.base.Valid() && forall i :: 0 <= i < |c.requests| ==> c.QueryOf(i).mode == Exact
    requires forall i, j ::
               0 <= i < |c.requests| && 0 <= j < |c.requests| && i != j && c.FilterOf(i).Some? && c.FilterOf(j).Some? ==>
                 c.Apart(i, j)
    ensures c.Admissible()
  {
    forall i, j | 0 <= i < |c.requests| && 0 <= j < |c.requests| && i != j && c.FilterOf(i).Some? && c.FilterOf(j).Some?
      ensures c.Avoids(i, j)
    {
      ApartDoNotMeet(c, i, j);
    }
  }
}

/** Batches whose requests share keys across chunks: inside a chunk calls interleave, between chunks the order counts. */
module BitableSequels {
  import opened Common
  import opened Bitable
  import opened BitableBatch
  import opened BitableChunks
  import opened BitableRaces

  /** Requests of one chunk have different keys. */
  ghost predicate ChunkwiseDistinct(c: Call, q: Query, size: nat)
    requires size >= 1
  {
    forall i, j :: 0 <= i < j < |c.requests| && ChunkStart(i, size) == ChunkStart(j, size) ==> KeyAt(c, q, i) != KeyAt(c, q, j)
  }

  // ---------------------------------------------------------------- the first record with a key

  function FirstPos(records: seq<Record>, q: Query, key: Key): (k: nat)
    ensures k <= |records| && (k < |records| ==> KeyOf(records[k].fields, q.matchFields) == key)
    ensures forall j :: 0 <= j < k ==> KeyOf(records[j].fields, q.matchFields) != key
  {
    if records == [] then 0
    else
      var n := |records| - 1;
      var k := FirstPos(records[..n], q, key);
      if k < n || KeyOf(records[n].fields, q.matchFields) == key then k else n + 1
  }

  function First(s: Store, q: Query, key: Key): Option<Record> {
    var k := FirstPos(s.records, q, key);
    if k < |s.records| then Some(s.records[k]) else None
  }

  lemma FirstPosIs(records: seq<Record>, q: Query, key: Key, k: nat)
    requires k <= |records| && (k < |records| ==> KeyOf(records[k].fields, q.matchFields) == key)
    requires forall j :: 0 <= j < k ==> KeyOf(records[j].fields, q.matchFields) != key
    ensures FirstPos(records, q, key) == k
  {
  }

  /** The search of a keyed request stops at the first record with its key. */
  lemma SearchFindsFirst(s: Store, fields: Fields, q: Query)
    requires q.mode == Exact && Keyed(fields, q.matchFields)
    ensures FilterFor(fields, q).Some?
    ensures Snapshot(s.records, FilterFor(fields, q).value) == First(s, q, KeyOf(fields, q.matchFields))
  {
    var key := KeyOf(fields, q.matchFields);
    SearchMissesAbsentKey(s.records, fields, q);
    var filter := FilterFor(fields, q).value;
    forall j | 0 <= j < |s.records|
      ensures Matches(s.records[j].fields, filter) <==> KeyOf(s.records[j].fields, q.matchFields) == key
    {
      ExactSearchFindsKey(s.records[j].fields, fields, q);
    }
    match FirstMatch(s.records, filter)
    case None => FirstPosIs(s.records, q, key, |s.records|);
    case Some(k) => FirstPosIs(s.records, q, key, k);
  }

  // ---------------------------------------------------------------- what the first record with a key holds

  /** What one request makes of the record it finds, or creates. */
  function Applied(prior: Option<Fields>, fields: Fields, opts: Options): Fields {
    if prior.None? then FormatFields(fields) else Overlay(prior.value, UpdateBody(prior.value, fields, opts))
  }

  /** The finished ones of the first p requests with this key, applied in order to what the table held. */
  function Content(c: Call, q: Query, ps: seq<Progress>, p: nat, key: Key): Option<Fields>
    requires p <= |c.requests| == |ps|
  {
    if p == 0 then (match First(c.base, q, key) case None => None case Some(r) => Some(r.fields))
    else
      var prior := Content(c, q, ps, p - 1, key);
      if ps[p - 1].Done? && KeyAt(c, q, p - 1) == key then Some(Applied(prior, c.requests[p - 1].fields, c.opts)) else prior
  }

  function FieldsAt(s: Store, q: Query, key: Key): Option<Fields> {
    match First(s, q, key) case None => None case Some(r) => Some(r.fields)
  }

  /** All earlier requests with the same key are finished, the later ones have not started. */
  ghost predicate InTurn(c: Call, q: Query, ps: seq<Progress>, i: nat)
    requires i < |c.requests| == |ps|
  {
    forall j :: 0 <= j < |ps| && j != i && KeyAt(c, q, j) == KeyAt(c, q, i) ==>
      if j < i then ps[j].Done? else ps[j].Waiting?
  }

  lemma {:induction false} ContentSame(c: Call, q: Query, ps: seq<Progress>, ps': seq<Progress>, p: nat, key: Key)
    requires p <= |c.requests| == |ps| == |ps'|
    requires forall j :: 0 <= j < p && KeyAt(c, q, j) == key ==> (ps'[j].Done? <==> ps[j].Done?)
    ensures Content(c, q, ps', p, key) == Content(c, q, ps, p, key)
  {
    if p > 0 {
      ContentSame(c, q, ps, ps', p - 1, key);
    }
  }

  lemma {:induction false} ContentBeyond(c: Call, q: Query, ps: seq<Progress>, i: nat, p: nat, key: Key)
    requires i <= p <= |c.requests| == |ps|
    requires forall j :: i <= j < p && KeyAt(c, q, j) == key ==> !ps[j].Done?
    ensures Content(c, q, ps, p, key) == Content(c, q, ps, i, key)
    decreases p
  {
    if i < p {
      ContentBeyond(c, q, ps, i, p - 1, key);
    }
  }

  /** Finishing a request in turn applies it to what its key's record holds, and leaves other keys. */
  lemma ContentAfter(c: Call, q: Query, ps: seq<Progress>, i: nat, done: Progress, key: Key)
    requires i < |c.requests| == |ps| && InTurn(c, q, ps, i) && !ps[i].Done? && done.Done?
    ensures var n := |c.requests|;
            Content(c, q, ps[i := done], n, key)
              == if key == KeyAt(c, q, i) then Some(Applied(Content(c, q, ps, n, key), c.requests[i].fields, c.opts))
                 else Content(c, q, ps, n, key)
  {
    var n, ps' := |c.requests|, ps[i := done];
    if key == KeyAt(c, q, i) {
      ContentSame(c, q, ps, ps', i, key);
      ContentBeyond(c, q, ps', i + 1, n, key);
      ContentBeyond(c, q, ps, i, n, key);
    } else {
      ContentSame(c, q, ps, ps', n, key);
    }
  }

  /** Nothing is held exactly when the key is new and none of its requests has finished. */
  lemma {:induction false} ContentNone(c: Call, q: Query, ps: seq<Progress>, p: nat, key: Key)
    requires p <= |c.requests| == |ps|
    ensures Content(c, q, ps, p, key).None? <==>
              key !in KeysIn(c.base, q) && forall j :: 0 <= j < p && KeyAt(c, q, j) == key ==> !ps[j].Done?
  {
    if p > 0 {
      ContentNone(c, q, ps, p - 1, key);
    } else {
      var k := FirstPos(c.base.records, q, key);
      if k < |c.base.records| {
        assert KeysIn(c.base, q)[k] == key;
      } else {
        assert forall j :: 0 <= j < |c.base.records| ==> KeysIn(c.base, q)[j] != key;
      }
    }
  }

  // ---------------------------------------------------------------- the state of a running batch

  /** Old records keep their places, ids and keys; new ones follow with consecutive ids and keys that are new and differ. */
  ghost predicate Tidy(c: Call, q: Query, s: Store) {
    var n := |c.base.records|;
    && s.Valid() && n <= |s.records| && KeysIn(c.base, q) <= KeysIn(s, q)
    && s.nextId == c.base.nextId + (|s.records| - n)
    && (forall k :: 0 <= k < |s.records| ==>
          s.records[k].id == if k < n then c.base.records[k].id else c.base.nextId + (k - n))
    && (forall k :: n <= k < |s.records| ==> FirstPos(s.records, q, KeysIn(s, q)[k]) == k)
  }

  /** No earlier request has the key, and neither had the table. */
  predicate Pioneers(c: Call, q: Query, i: nat)
    requires i < |c.requests|
  {
    IsNew(c, q, i) && forall j :: 0 <= j < i ==> KeyAt(c, q, j) != KeyAt(c, q, i)
  }

  ghost predicate Stands(c: Call, q: Query, w: World, i: nat)
    requires i < |c.requests| == |w.progress|
  {
    var first := First(w.store, q, KeyAt(c, q, i));
    match w.progress[i]
    case Waiting => true
    case Rejected => false
    case Searched(found) => found == first
    case Done(u) => first.Some? && u.recordId == first.value.id && (u.action == Created <==> Pioneers(c, q, i))
  }

  ghost predicate Requested(c: Call, q: Query, key: Key) {
    exists i :: 0 <= i < |c.requests| && KeyAt(c, q, i) == key
  }

  /** Only the first record with a requested key is ever written. */
  ghost predicate OthersUntouched(c: Call, q: Query, s: Store)
    requires |c.base.records| <= |s.records|
  {
    forall k :: 0 <= k < |c.base.records| && !IsFirstOfRequested(c, q, k) ==> s.records[k] == c.base.records[k]
  }

  ghost predicate IsFirstOfRequested(c: Call, q: Query, k: nat)
    requires k < |c.base.records|
  {
    exists i :: 0 <= i < |c.requests| && FirstPos(c.base.records, q, KeyAt(c, q, i)) == k
  }

  /** Requests with one key start in their order, each after the one before has finished. */
  ghost predicate KeyByKey(c: Call, q: Query, ps: seq<Progress>)
    requires |ps| == |c.requests|
  {
    forall i, j :: 0 <= i < j < |ps| && KeyAt(c, q, i) == KeyAt(c, q, j) && !ps[j].Waiting? ==> ps[i].Done?
  }

  ghost predicate Contents(c: Call, q: Query, w: World)
    requires |w.progress| == |c.requests|
  {
    forall i :: 0 <= i < |c.requests| ==>
      FieldsAt(w.store, q, KeyAt(c, q, i)) == Content(c, q, w.progress, |c.requests|, KeyAt(c, q, i))
  }

  ghost predicate Orderly(c: Call, q: Query, w: World) {
    && |w.progress| == |c.requests| && Tidy(c, q, w.store)
    && OthersUntouched(c, q, w.store) && KeyByKey(c, q, w.progress) && Contents(c, q, w)
    && (forall k :: |c.base.records| <= k < |w.store.records| ==> Requested(c, q, KeysIn(w.store, q)[k]))
    && forall i :: 0 <= i < |c.requests| ==> Stands(c, q, w, i)
  }

  // ---------------------------------------------------------------- searching

  lemma SearchKeepsOrderly(c: Call, q: Query, w: World, i: nat)
    requires KeyedCall(c, q) && Orderly(c, q, w) && i < |c.requests| && w.progress[i].Waiting?
    requires InTurn(c, q, w.progress, i)
    ensures Orderly(c, q, Step(c, w, i))
  {
    SearchFindsFirst(w.store, c.requests[i].fields, q);
    var w' := Step(c, w, i);
    assert w' == World(w.store, w.progress[i := Searched(First(w.store, q, KeyAt(c, q, i)))]);
    forall j | 0 <= j < |c.requests|
      ensures Content(c, q, w'.progress, |c.requests|, KeyAt(c, q, j)) == Content(c, q, w.progress, |c.requests|, KeyAt(c, q, j))
    {
      ContentSame(c, q, w.progress, w'.progress, |c.requests|, KeyAt(c, q, j));
    }
    forall j | 0 <= j < |c.requests|
      ensures Stands(c, q, w', j)
    {
      assert Stands(c, q, w, j);
    }
  }

  // ---------------------------------------------------------------- writing

  /** Position k, the first with the key or the end of the table, now holds this record under the key. */
  ghost predicate WroteAt(q: Query, s: Store, s': Store, key: Key, fields: Fields, opts: Options, k: nat) {
    && k == FirstPos(s.records, q, key)
    && (if k < |s.records| then s'.nextId == s.nextId && |s'.records| == |s.records| && s'.records[k].id == s.records[k].id
        else s'.nextId == s.nextId + 1 && |s'.records| == k + 1 && s'.records[k].id == s.nextId)
    && s'.records[k].fields == Applied(FieldsAt(s, q, key), fields, opts)
    && KeyOf(s'.records[k].fields, q.matchFields) == key
    && forall j :: 0 <= j < |s.records| && j != k ==> s'.records[j] == s.records[j]
  }

  lemma WriteIsAtFirst(c: Call, q: Query, w: World, i: nat) returns (k: nat)
    requires KeyedCall(c, q) && w.store.Valid() && i < |c.requests| == |w.progress|
    requires w.progress[i] == Searched(First(w.store, q, KeyAt(c, q, i)))
    ensures WroteAt(q, w.store, Step(c, w, i).store, KeyAt(c, q, i), c.requests[i].fields, c.opts, k)
    ensures Step(c, w, i).progress == w.progress[i := Done(Upserted(if k < |w.store.records| then Changed else Created,
                                                                    Step(c, w, i).store.records[k].id))]
  {
    var fields := c.requests[i].fields;
    k := FirstPos(w.store.records, q, KeyAt(c, q, i));
    WriteKeepsKey(if k < |w.store.records| then w.store.records[k].fields else map[], fields, q.matchFields, c.opts);
    if k < |w.store.records| {
      UpdatedAt(w.store, k, UpdateBody(w.store.records[k].fields, fields, c.opts));
    }
  }

  /** Such a write changes the first record of its own key only. */
  lemma FirstAfterWrite(q: Query, s: Store, s': Store, key: Key, fields: Fields, opts: Options, k: nat, other: Key)
    requires WroteAt(q, s, s', key, fields, opts, k)
    ensures FirstPos(s'.records, q, other)
         == if other != key && FirstPos(s.records, q, other) == |s.records| then |s'.records| else FirstPos(s.records, q, other)
    ensures First(s', q, other) == if other == key then Some(s'.records[k]) else First(s, q, other)
  {
    var h := FirstPos(s.records, q, other);
    forall j | 0 <= j < |s.records|
      ensures KeyOf(s'.records[j].fields, q.matchFields) == KeyOf(s.records[j].fields, q.matchFields)
    {
    }
    if other == key {
      FirstPosIs(s'.records, q, key, k);
    } else if h < |s.records| {
      FirstPosIs(s'.records, q, other, h);
    } else {
      FirstPosIs(s'.records, q, other, |s'.records|);
    }
  }

  lemma KeysAfterWrite(q: Query, s: Store, s': Store, key: Key, fields: Fields, opts: Options, k: nat)
    requires WroteAt(q, s, s', key, fields, opts, k)
    ensures KeysIn(s', q) == if k < |s.records| then KeysIn(s, q) else KeysIn(s, q) + [key]
  {
  }

  lemma TidyAfterWrite(c: Call, q: Query, s: Store, s': Store, key: Key, fields: Fields, opts: Options, k: nat)
    requires Tidy(c, q, s) && WroteAt(q, s, s', key, fields, opts, k)
    ensures Tidy(c, q, s')
  {
    KeysAfterWrite(q, s, s', key, fields, opts, k);
    forall h | |c.base.records| <= h < |s'.records|
      ensures FirstPos(s'.records, q, KeysIn(s', q)[h]) == h
    {
      FirstAfterWrite(q, s, s', key, fields, opts, k, KeysIn(s', q)[h]);
    }
  }

  /** Among the old records the first with a key is where it was. */
  lemma SamePlaceAsBefore(c: Call, q: Query, s: Store, key: Key)
    requires Tidy(c, q, s)
    ensures var k, k0, n := FirstPos(s.records, q, key), FirstPos(c.base.records, q, key), |c.base.records|;
            (k < n <==> k0 < n) && (k < n ==> k == k0)
  {
    var k, k0 := FirstPos(s.records, q, key), FirstPos(c.base.records, q, key);
    forall j | 0 <= j < |c.base.records|
      ensures KeyOf(s.records[j].fields, q.matchFields) == KeyOf(c.base.records[j].fields, q.matchFields)
    {
      assert KeysIn(s, q)[j] == KeysIn(c.base, q)[j];
    }
  }

  lemma UntouchedAfterWrite(c: Call, q: Query, s: Store, s': Store, i: nat, fields: Fields, opts: Options, k: nat)
    requires i < |c.requests| && Tidy(c, q, s) && OthersUntouched(c, q, s)
    requires WroteAt(q, s, s', KeyAt(c, q, i), fields, opts, k)
    ensures |c.base.records| <= |s'.records| && OthersUntouched(c, q, s')
  {
    SamePlaceAsBefore(c, q, s, KeyAt(c, q, i));
    if k < |c.base.records| {
      assert IsFirstOfRequested(c, q, k);
    }
  }

  lemma ContentsAfterWrite(c: Call, q: Query, w: World, i: nat, w': World, k: nat, done: Progress)
    requires i < |c.requests| == |w.progress| && Contents(c, q, w) && InTurn(c, q, w.progress, i)
    requires !w.progress[i].Done? && done.Done? && w'.progress == w.progress[i := done]
    requires WroteAt(q, w.store, w'.store, KeyAt(c, q, i), c.requests[i].fields, c.opts, k)
    ensures Contents(c, q, w')
  {
    forall j | 0 <= j < |c.requests|
      ensures FieldsAt(w'.store, q, KeyAt(c, q, j)) == Content(c, q, w'.progress, |c.requests|, KeyAt(c, q, j))
    {
      ContentAfter(c, q, w.progress, i, done, KeyAt(c, q, j));
      FirstAfterWrite(q, w.store, w'.store, KeyAt(c, q, i), c.requests[i].fields, c.opts, k, KeyAt(c, q, j));
    }
  }

  /** In its turn a request finds no record exactly when it is the first with a new key. */
  lemma FindsNothingIffPioneers(c: Call, q: Query, w: World, i: nat)
    requires i < |c.requests| == |w.progress| && Contents(c, q, w) && InTurn(c, q, w.progress, i) && !w.progress[i].Done?
    ensures First(w.store, q, KeyAt(c, q, i)).None? <==> Pioneers(c, q, i)
  {
    ContentNone(c, q, w.progress, |c.requests|, KeyAt(c, q, i));
    assert FieldsAt(w.store, q, KeyAt(c, q, i)) == Content(c, q, w.progress, |c.requests|, KeyAt(c, q, i));
  }

  lemma StandsAfterWrite(c: Call, q: Query, w: World, i: nat, w': World, k: nat, done: Progress, j: nat)
    requires i < |c.requests| == |w.progress| && Contents(c, q, w) && InTurn(c, q, w.progress, i)
    requires !w.progress[i].Done? && w'.progress == w.progress[i := done]
    requires WroteAt(q, w.store, w'.store, KeyAt(c, q, i), c.requests[i].fields, c.opts, k)
    requires done == Done(Upserted(if k < |w.store.records| then Changed else Created, w'.store.records[k].id))
    requires j < |c.requests| && Stands(c, q, w, j)
    ensures Stands(c, q, w', j)
  {
    FirstAfterWrite(q, w.store, w'.store, KeyAt(c, q, i), c.requests[i].fields, c.opts, k, KeyAt(c, q, j));
    FindsNothingIffPioneers(c, q, w, i);
  }

  lemma WriteKeepsOrderly(c: Call, q: Query, w: World, i: nat)
    requires KeyedCall(c, q) && Orderly(c, q, w) && i < |c.requests| && w.progress[i].Searched?
    requires InTurn(c, q, w.progress, i)
    ensures Orderly(c, q, Step(c, w, i))
  {
    assert Stands(c, q, w, i);
    var w' := Step(c, w, i);
    var k := WriteIsAtFirst(c, q, w, i);
    var key, fields := KeyAt(c, q, i), c.requests[i].fields;
    var done := Done(Upserted(if k < |w.store.records| then Changed else Created, w'.store.records[k].id));
    TidyAfterWrite(c, q, w.store, w'.store, key, fields, c.opts, k);
    UntouchedAfterWrite(c, q, w.store, w'.store, i, fields, c.opts, k);
    ContentsAfterWrite(c, q, w, i, w', k, done);
    KeysAfterWrite(q, w.store, w'.store, key, fields, c.opts, k);
    assert Requested(c, q, key);
    forall j | 0 <= j < |c.requests|
      ensures Stands(c, q, w', j)
    {
      StandsAfterWrite(c, q, w, i, w', k, done, j);
    }
  }

  // ---------------------------------------------------------------- schedules that respect the chunks

  /** A request that takes a step finds those before it in its key finished and those after it not started. */
  lemma ItIsTheirTurn(c: Call, q: Query, w: World, i: nat, size: nat)
    requires size >= 1 && ChunkwiseDistinct(c, q, size) && Orderly(c, q, w) && i < |c.requests| && !w.progress[i].Done?
    requires forall j :: 0 <= j < ChunkStart(i, size) ==> Finished(w.progress[j])
    ensures InTurn(c, q, w.progress, i)
  {
    forall j | 0 <= j < |c.requests| && j != i && KeyAt(c, q, j) == KeyAt(c, q, i)
      ensures if j < i then w.progress[j].Done? else w.progress[j].Waiting?
    {
      if j < i {
        if j >= ChunkStart(i, size) {
          ChunkStartStarts(i, size);
          SameChunk(ChunkStart(i, size), j, size);
        }
        assert Stands(c, q, w, j);
      }
    }
  }

  lemma {:induction false} ChunkStartStarts(i: nat, size: nat)
    requires size >= 1
    ensures ChunkStart(ChunkStart(i, size), size) == ChunkStart(i, size)
  {
    if i >= size {
      ChunkStartStarts(i - size, size);
    }
  }

  lemma StartIsOrderly(c: Call, q: Query)
    requires KeyedCall(c, q)
    ensures Orderly(c, q, Start(c))
  {
    forall i | 0 <= i < |c.requests|
      ensures FieldsAt(c.base, q, KeyAt(c, q, i)) == Content(c, q, Start(c).progress, |c.requests|, KeyAt(c, q, i))
    {
      ContentBeyond(c, q, Start(c).progress, 0, |c.requests|, KeyAt(c, q, i));
    }
  }

  lemma {:induction false} EveryChunkedScheduleIsOrderly(c: Call, q: Query, schedule: seq<nat>, size: nat)
    requires size >= 1 && KeyedCall(c, q) && ChunkwiseDistinct(c, q, size) && InChunks(c, schedule, size)
    ensures Orderly(c, q, Run(c, schedule))
  {
    if schedule == [] {
      StartIsOrderly(c, q);
    } else {
      var n := |schedule| - 1;
      var front, i := schedule[..n], schedule[n];
      FrontInChunks(c, schedule, size);
      EveryChunkedScheduleIsOrderly(c, q, front, size);
      var w := Run(c, front);
      assert FinishedBelow(c, schedule, n, ChunkStart(i, size));
      if !w.progress[i].Done? {
        ItIsTheirTurn(c, q, w, i, size);
        assert Stands(c, q, w, i);
        if w.progress[i].Waiting? {
          SearchKeepsOrderly(c, q, w, i);
        } else {
          WriteKeepsOrderly(c, q, w, i);
        }
      }
    }
  }

  lemma FrontInChunks(c: Call, schedule: seq<nat>, size: nat)
    requires size >= 1 && schedule != [] && InChunks(c, schedule, size)
    ensures InChunks(c, schedule[..|schedule| - 1], size)
  {
    var front := schedule[..|schedule| - 1];
    forall k | 0 <= k < |front|
      ensures FinishedBelow(c, front, k, ChunkStart(front[k], size))
    {
      assert front[..k] == schedule[..k];
      assert FinishedBelow(c, schedule, k, ChunkStart(schedule[k], size));
    }
  }

  // ---------------------------------------------------------------- any two such runs end alike

  lemma SameContent(c: Call, q: Query, w1: World, w2: World, i: nat)
    requires Orderly(c, q, w1) && Orderly(c, q, w2) && AllFinished(c, w1) && AllFinished(c, w2) && i < |c.requests|
    ensures w1.progress[i].Done? && w2.progress[i].Done?
    ensures First(w1.store, q, KeyAt(c, q, i)).Some? && First(w2.store, q, KeyAt(c, q, i)).Some?
    ensures First(w2.store, q, KeyAt(c, q, i)).value.fields == First(w1.store, q, KeyAt(c, q, i)).value.fields
  {
    forall j | 0 <= j < |c.requests|
      ensures w1.progress[j].Done? && w2.progress[j].Done?
    {
      assert Stands(c, q, w1, j) && Stands(c, q, w2, j) && Finished(w1.progress[j]) && Finished(w2.progress[j]);
    }
    assert Stands(c, q, w1, i) && Stands(c, q, w2, i);
    ContentSame(c, q, w1.progress, w2.progress, |c.requests|, KeyAt(c, q, i));
    assert FieldsAt(w1.store, q, KeyAt(c, q, i)) == Content(c, q, w1.progress, |c.requests|, KeyAt(c, q, i));
    assert FieldsAt(w2.store, q, KeyAt(c, q, i)) == Content(c, q, w2.progress, |c.requests|, KeyAt(c, q, i));
  }

  ghost predicate BothEnd(c: Call, q: Query, w1: World, w2: World) {
    Orderly(c, q, w1) && Orderly(c, q, w2) && AllFinished(c, w1) && AllFinished(c, w2)
  }

  lemma OldRecordsAlike(c: Call, q: Query, w1: World, w2: World, k: nat)
    requires BothEnd(c, q, w1, w2) && k < |c.base.records|
    ensures w2.store.records[k] == w1.store.records[k]
  {
    if IsFirstOfRequested(c, q, k) {
      var i :| 0 <= i < |c.requests| && FirstPos(c.base.records, q, KeyAt(c, q, i)) == k;
      SamePlaceAsBefore(c, q, w1.store, KeyAt(c, q, i));
      SamePlaceAsBefore(c, q, w2.store, KeyAt(c, q, i));
      SameContent(c, q, w1, w2, i);
    }
  }

  /** Where the new record at position k of one table stands in the other. */
  lemma NewRecordElsewhere(c: Call, q: Query, w1: World, w2: World, k: nat) returns (h: nat)
    requires BothEnd(c, q, w1, w2) && |c.base.records| <= k < |w1.store.records|
    ensures h == FirstPos(w2.store.records, q, KeysIn(w1.store, q)[k]) && |c.base.records| <= h < |w2.store.records|
    ensures w2.store.records[h].fields == w1.store.records[k].fields && KeysIn(w2.store, q)[h] == KeysIn(w1.store, q)[k]
  {
    var key := KeysIn(w1.store, q)[k];
    assert Requested(c, q, key);
    var i :| 0 <= i < |c.requests| && KeyAt(c, q, i) == key;
    SameContent(c, q, w1, w2, i);
    SamePlaceAsBefore(c, q, w1.store, key);
    SamePlaceAsBefore(c, q, w2.store, key);
    h := FirstPos(w2.store.records, q, key);
  }

  function NewKeys(c: Call, q: Query, s: Store): seq<Key>
    requires |c.base.records| <= |s.records|
  {
    KeysIn(s, q)[|c.base.records|..]
  }

  lemma NewKeysDiffer(c: Call, q: Query, s: Store)
    requires Tidy(c, q, s)
    ensures NoDuplicates(NewKeys(c, q, s))
  {
    var n := |c.base.records|;
    forall i, j | 0 <= i < j < |NewKeys(c, q, s)|
      ensures NewKeys(c, q, s)[i] != NewKeys(c, q, s)[j]
    {
      assert FirstPos(s.records, q, KeysIn(s, q)[n + i]) == n + i && FirstPos(s.records, q, KeysIn(s, q)[n + j]) == n + j;
    }
  }

  lemma InSuffix<T>(s: seq<T>, n: nat, x: T)
    requires n <= |s|
    ensures x in s[n..] <==> exists k :: n <= k < |s| && s[k] == x
  {
    if k :| n <= k < |s| && s[k] == x {
      assert s[n..][k - n] == x;
    }
  }

  lemma NewKeysAreShared(c: Call, q: Query, w1: World, w2: World)
    requires BothEnd(c, q, w1, w2)
    ensures ToSet(NewKeys(c, q, w1.store)) <= ToSet(NewKeys(c, q, w2.store))
  {
    var n := |c.base.records|;
    forall key | key in NewKeys(c, q, w1.store)
      ensures key in NewKeys(c, q, w2.store)
    {
      InSuffix(KeysIn(w1.store, q), n, key);
      var k :| n <= k < |w1.store.records| && KeysIn(w1.store, q)[k] == key;
      var h := NewRecordElsewhere(c, q, w1, w2, k);
      InSuffix(KeysIn(w2.store, q), n, key);
    }
  }

  lemma SameLength(c: Call, q: Query, w1: World, w2: World)
    requires BothEnd(c, q, w1, w2)
    ensures |w1.store.records| == |w2.store.records|
  {
    NewKeysAreShared(c, q, w1, w2);
    NewKeysAreShared(c, q, w2, w1);
    NewKeysDiffer(c, q, w1.store);
    NewKeysDiffer(c, q, w2.store);
    SameSetSameLength(NewKeys(c, q, w1.store), NewKeys(c, q, w2.store));
  }

  lemma SameSetSameLength<T>(a: seq<T>, b: seq<T>)
    requires NoDuplicates(a) && NoDuplicates(b) && ToSet(a) <= ToSet(b) && ToSet(b) <= ToSet(a)
    ensures |a| == |b|
  {
    CountOfDistinct(a);
    CountOfDistinct(b);
    assert ToSet(a) == ToSet(b);
  }

  /** Old ids stay; a new record's id becomes that of the other table's record with the same key. */
  function IdElsewhere(c: Call, q: Query, s1: Store, s2: Store, id: nat): nat {
    var k := |c.base.records| + (id - c.base.nextId);
    if id < c.base.nextId || k >= |s1.records| then id
    else match First(s2, q, KeysIn(s1, q)[k]) case None => id case Some(r) => r.id
  }

  lemma OldIdElsewhere(c: Call, q: Query, w1: World, w2: World, k: nat)
    requires c.base.Valid() && BothEnd(c, q, w1, w2) && k < |c.base.records|
    ensures k < |w1.store.records| && w1.store.records[k].id < c.base.nextId
    ensures IdElsewhere(c, q, w1.store, w2.store, w1.store.records[k].id) == w1.store.records[k].id
  {
  }

  lemma NewIdElsewhere(c: Call, q: Query, w1: World, w2: World, k: nat, h: nat)
    requires c.base.Valid() && BothEnd(c, q, w1, w2) && |c.base.records| <= k < |w1.store.records|
    requires h == FirstPos(w2.store.records, q, KeysIn(w1.store, q)[k]) && |c.base.records| <= h < |w2.store.records|
    ensures IdElsewhere(c, q, w1.store, w2.store, w1.store.records[k].id) == w2.store.records[h].id
  {
  }

  lemma IdsElsewhere(c: Call, q: Query, w1: World, w2: World, k: nat) returns (h: nat)
    requires c.base.Valid() && BothEnd(c, q, w1, w2) && k < |w1.store.records|
    ensures h == (if k < |c.base.records| then k else FirstPos(w2.store.records, q, KeysIn(w1.store, q)[k]))
    ensures h < |w2.store.records|
    ensures w2.store.records[h]
         == Record(IdElsewhere(c, q, w1.store, w2.store, w1.store.records[k].id), w1.store.records[k].fields)
  {
    if k < |c.base.records| {
      h := k;
      OldRecordsAlike(c, q, w1, w2, k);
      OldIdElsewhere(c, q, w1, w2, k);
    } else {
      h := NewRecordElsewhere(c, q, w1, w2, k);
      NewIdElsewhere(c, q, w1, w2, k, h);
    }
  }

  lemma IdsElsewhereDiffer(c: Call, q: Query, w1: World, w2: World, k: nat, l: nat)
    requires c.base.Valid() && BothEnd(c, q, w1, w2) && k < l < |w1.store.records|
    ensures IdElsewhere(c, q, w1.store, w2.store, w1.store.records[k].id)
         != IdElsewhere(c, q, w1.store, w2.store, w1.store.records[l].id)
  {
    var hk := IdsElsewhere(c, q, w1, w2, k);
    var hl := IdsElsewhere(c, q, w1, w2, l);
    if l >= |c.base.records| {
      hl := NewRecordElsewhere(c, q, w1, w2, l);
    }
    if k >= |c.base.records| {
      hk := NewRecordElsewhere(c, q, w1, w2, k);
      assert FirstPos(w1.store.records, q, KeysIn(w1.store, q)[k]) == k;
      assert FirstPos(w1.store.records, q, KeysIn(w1.store, q)[l]) == l;
    }
    assert hk != hl;
  }

  lemma TablesAlike(c: Call, q: Query, w1: World, w2: World)
    requires c.base.Valid() && BothEnd(c, q, w1, w2)
    ensures SameUpToIds(w1.store.records, w2.store.records, id => IdElsewhere(c, q, w1.store, w2.store, id))
  {
    SameLength(c, q, w1, w2);
    forall k | 0 <= k < |w1.store.records|
      ensures Record(IdElsewhere(c, q, w1.store, w2.store, w1.store.records[k].id), w1.store.records[k].fields)
                in w2.store.records
    {
      var h := IdsElsewhere(c, q, w1, w2, k);
    }
    forall k, l | 0 <= k < l < |w1.store.records|
      ensures IdElsewhere(c, q, w1.store, w2.store, w1.store.records[k].id)
           != IdElsewhere(c, q, w1.store, w2.store, w1.store.records[l].id)
    {
      IdsElsewhereDiffer(c, q, w1, w2, k, l);
    }
  }

  lemma RepliesAlike(c: Call, q: Query, w1: World, w2: World, i: nat)
    requires c.base.Valid() && BothEnd(c, q, w1, w2) && i < |c.requests|
    ensures w1.progress[i].Done?
    ensures var u := w1.progress[i].result;
            w2.progress[i] == Done(Upserted(u.action, IdElsewhere(c, q, w1.store, w2.store, u.recordId)))
  {
    SameContent(c, q, w1, w2, i);
    assert Stands(c, q, w1, i) && Stands(c, q, w2, i);
    var k := FirstPos(w1.store.records, q, KeyAt(c, q, i));
    var h := IdsElsewhere(c, q, w1, w2, k);
    SamePlaceAsBefore(c, q, w1.store, KeyAt(c, q, i));
    SamePlaceAsBefore(c, q, w2.store, KeyAt(c, q, i));
  }

  // ---------------------------------------------------------------- one by one is such a run

  /** Every request twice, one after the other. */
  function Serial(p: nat): seq<nat> {
    if p == 0 then [] else Serial(p - 1) + [p - 1] + [p - 1]
  }

  lemma TwoMoreSteps(c: Call, schedule: seq<nat>, i: nat)
    requires i < |c.requests| && Scheduled(c, schedule)
    ensures Run(c, schedule + [i]) == Step(c, Run(c, schedule), i)
    ensures Run(c, schedule + [i] + [i]) == Step(c, Step(c, Run(c, schedule), i), i)
  {
    OneMoreStep(c, schedule, i);
    OneMoreStep(c, schedule + [i], i);
  }

  lemma DoneMeansFinished(c: Call, w: World, p: nat, j: nat)
    requires p <= |c.requests| && DoneOneByOne(c, w, p) && j < p
    ensures Finished(w.progress[j])
  {
    assert SameOutcome(w.progress[j], OneByOne(c, p).1[j]);
  }

  lemma StaysFinished(c: Call, w: World, i: nat, j: nat)
    requires |w.progress| == |c.requests| && i < |w.progress| && j < |w.progress| && Finished(w.progress[j])
    ensures Finished(Step(c, w, i).progress[j])
  {
  }

  lemma AllBelowAreFinished(c: Call, schedule: seq<nat>, i: nat)
    requires i < |c.requests| && Scheduled(c, schedule) && DoneOneByOne(c, Run(c, schedule), i)
    ensures FinishedBelow(c, schedule, |schedule|, i)
    ensures FinishedBelow(c, schedule + [i], |schedule| + 1, i)
  {
    OneMoreStep(c, schedule, i);
    assert schedule[..|schedule|] == schedule && (schedule + [i])[..|schedule| + 1] == schedule + [i];
    forall j | 0 <= j < i
      ensures Finished(Run(c, schedule).progress[j]) && Finished(Run(c, schedule + [i]).progress[j])
    {
      DoneMeansFinished(c, Run(c, schedule), i, j);
      StaysFinished(c, Run(c, schedule), i, j);
    }
  }

  ghost predicate RunsOneByOne(c: Call, schedule: seq<nat>, p: nat, size: nat)
    requires size >= 1 && p <= |c.requests|
  {
    InChunks(c, schedule, size) && DoneOneByOne(c, Run(c, schedule), p)
  }

  lemma RunsOneMore(c: Call, schedule: seq<nat>, p: nat, size: nat)
    requires size >= 1 && p < |c.requests| && RunsOneByOne(c, schedule, p, size)
    ensures RunsOneByOne(c, schedule + [p] + [p], p + 1, size)
  {
    NextOneByOne(c, Run(c, schedule), p + 1);
    TwoMoreSteps(c, schedule, p);
    AllBelowAreFinished(c, schedule, p);
    OneMoreInChunks(c, schedule, p, size);
    OneMoreInChunks(c, schedule + [p], p, size);
  }

  lemma {:induction false} SerialIsOneByOne(c: Call, p: nat, size: nat)
    requires size >= 1 && p <= |c.requests|
    ensures RunsOneByOne(c, Serial(p), p, size)
  {
    if p > 0 {
      SerialIsOneByOne(c, p - 1, size);
      RunsOneMore(c, Serial(p - 1), p - 1, size);
    }
  }

  /**
   * Keyed requests that may share keys across chunks but not inside one: whatever finishes the batch chunk after
   * chunk agrees with the one-by-one form, table and results, up to the ids given out.
   */
  lemma ChunkedBatchAgrees(c: Call, q: Query, schedule: seq<nat>, size: nat, results: seq<Indexed>) returns (rename: nat -> nat)
    requires size >= 1 && KeyedCall(c, q) && ChunkwiseDistinct(c, q, size)
    requires InChunks(c, schedule, size) && Finishes(c, schedule)
    requires Collected(Run(c, schedule).progress, results) && |results| == |c.requests|
    ensures AgreesWithOneByOne(c, Run(c, schedule).store, results, rename)
  {
    SerialIsOneByOne(c, |c.requests|, size);
    var w1, w2 := Run(c, schedule), Run(c, Serial(|c.requests|));
    EveryChunkedScheduleIsOrderly(c, q, schedule, size);
    EveryChunkedScheduleIsOrderly(c, q, Serial(|c.requests|), size);
    forall i | 0 <= i < |c.requests|
      ensures Finished(w2.progress[i])
    {
      assert SameOutcome(w2.progress[i], OneByOne(c, |c.requests|).1[i]);
    }
    TablesAlike(c, q, w1, w2);
    rename := id => IdElsewhere(c, q, w1.store, w2.store, id);
    forall k | 0 <= k < |results|
      ensures OneByOne(c, |c.requests|).1[k]
           == Success(Upserted(results[k].upserted.action, rename(results[k].upserted.recordId)))
    {
      RepliesAlike(c, q, w1, w2, k);
      assert SameOutcome(w2.progress[k], OneByOne(c, |c.requests|).1[k]);
      assert w1.progress[k] == Done(results[k].upserted);
    }
  }
}

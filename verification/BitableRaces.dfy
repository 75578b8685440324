/** What a chunk of keyed requests ends with when some of them share a key: how many records every interleaving leaves. */
module BitableRaces {
  import opened Common
  import opened Bitable
  import opened BitableBatch

  type Key = seq<Option<seq<string>>>

  /** Every request is keyed under one exact query. */
  ghost predicate KeyedCall(c: Call, q: Query) {
    && c.base.Valid() && q.mode == Exact
    && forall i :: 0 <= i < |c.requests| ==> c.QueryOf(i) == q && Keyed(c.requests[i].fields, q.matchFields)
  }

  function KeyAt(c: Call, q: Query, i: nat): Key
    requires i < |c.requests|
  {
    KeyOf(c.requests[i].fields, q.matchFields)
  }

  function KeysIn(s: Store, q: Query): seq<Key> {
    Keys(s.records, q.matchFields)
  }

  /** The key is not in the table when the call starts. */
  predicate IsNew(c: Call, q: Query, i: nat)
    requires i < |c.requests|
  {
    KeyAt(c, q, i) !in KeysIn(c.base, q)
  }

  /** Those of the first p requests whose key is new. */
  function NewOnes(c: Call, q: Query, p: nat): set<nat>
    requires p <= |c.requests|
  {
    set i: nat | i < p && IsNew(c, q, i)
  }

  /** Two of the first p requests share a key that is new. */
  ghost predicate SharesNewKey(c: Call, q: Query, p: nat)
    requires p <= |c.requests|
  {
    exists i, j :: 0 <= i < j < p && IsNew(c, q, i) && KeyAt(c, q, i) == KeyAt(c, q, j)
  }

  // ---------------------------------------------------------------- one by one

  lemma OneByOneStep(c: Call, q: Query, p: nat)
    requires KeyedCall(c, q) && 0 < p <= |c.requests| && OneByOne(c, p - 1).0.Valid()
    ensures OneByOne(c, p).0.Valid()
    ensures var before, key := KeysIn(OneByOne(c, p - 1).0, q), KeyAt(c, q, p - 1);
            KeysIn(OneByOne(c, p).0, q) == if key in before then before else before + [key]
  {
    UpsertKeys(OneByOne(c, p - 1).0, c.requests[p - 1].fields, q, c.opts, Replies(true, true));
  }

  ghost predicate KeySent(c: Call, q: Query, p: nat, key: Key)
    requires p <= |c.requests|
  {
    exists i :: 0 <= i < p && KeyAt(c, q, i) == key
  }

  lemma AddedMember<T>(s: seq<T>, t: seq<T>, x: T, y: T)
    requires t == if x in s then s else s + [x]
    ensures y in t <==> y in s || y == x
  {
  }

  /** One by one, the keys after the first p requests are those of the table and those sent. */
  ghost predicate HasKeysSent(c: Call, q: Query, p: nat, key: Key)
    requires p <= |c.requests|
  {
    var s := OneByOne(c, p).0;
    s.Valid() && (key in KeysIn(s, q) <==> key in KeysIn(c.base, q) || KeySent(c, q, p, key))
  }

  lemma KeysSentOneMore(c: Call, q: Query, p: nat, key: Key)
    requires KeyedCall(c, q) && 0 < p <= |c.requests| && HasKeysSent(c, q, p - 1, key)
    ensures HasKeysSent(c, q, p, key)
  {
    SentOneMore(c, q, p, key);
    OneByOneStep(c, q, p);
    AddedMember(KeysIn(OneByOne(c, p - 1).0, q), KeysIn(OneByOne(c, p).0, q), KeyAt(c, q, p - 1), key);
  }

  lemma NothingSent(c: Call, q: Query, key: Key)
    requires KeyedCall(c, q)
    ensures HasKeysSent(c, q, 0, key)
  {
  }

  lemma {:induction false} OneByOneKeys(c: Call, q: Query, p: nat, key: Key)
    requires KeyedCall(c, q) && p <= |c.requests|
    ensures HasKeysSent(c, q, p, key)
  {
    if p == 0 {
      NothingSent(c, q, key);
    } else {
      OneByOneKeys(c, q, p - 1, key);
      KeysSentOneMore(c, q, p, key);
    }
  }

  lemma SentOneMore(c: Call, q: Query, p: nat, key: Key)
    requires 0 < p <= |c.requests|
    ensures KeySent(c, q, p, key) <==> KeySent(c, q, p - 1, key) || KeyAt(c, q, p - 1) == key
  {
  }

  lemma OneMoreNew(c: Call, q: Query, p: nat)
    requires 0 < p <= |c.requests|
    ensures |NewOnes(c, q, p)| == |NewOnes(c, q, p - 1)| + if IsNew(c, q, p - 1) then 1 else 0
  {
    assert NewOnes(c, q, p) == NewOnes(c, q, p - 1) + if IsNew(c, q, p - 1) then {p - 1} else {};
  }

  /** One by one, the first p requests create a record for each new key among theirs. */
  ghost predicate CreatesNewKeysOnce(c: Call, q: Query, p: nat)
    requires p <= |c.requests|
  {
    var added := |OneByOne(c, p).0.records| - |c.base.records|;
    added <= |NewOnes(c, q, p)| && (added == |NewOnes(c, q, p)| <==> !SharesNewKey(c, q, p))
  }

  lemma OneByOneAdds(c: Call, q: Query, p: nat)
    requires KeyedCall(c, q) && 0 < p <= |c.requests|
    ensures |OneByOne(c, p).0.records| == |OneByOne(c, p - 1).0.records|
              + if IsNew(c, q, p - 1) && !KeySent(c, q, p - 1, KeyAt(c, q, p - 1)) then 1 else 0
  {
    OneByOneKeys(c, q, p - 1, KeyAt(c, q, p - 1));
    OneByOneStep(c, q, p);
  }

  lemma CreatesOneMore(c: Call, q: Query, p: nat)
    requires KeyedCall(c, q) && 0 < p <= |c.requests| && CreatesNewKeysOnce(c, q, p - 1)
    ensures CreatesNewKeysOnce(c, q, p)
  {
    OneByOneAdds(c, q, p);
    OneMoreNew(c, q, p);
    SharesOneMore(c, q, p);
  }

  lemma CreatesNothingFirst(c: Call, q: Query)
    ensures CreatesNewKeysOnce(c, q, 0)
  {
    assert NewOnes(c, q, 0) == {};
  }

  /** One by one a new key is created once; the requests that repeat it are the difference. */
  lemma OneByOneCount(c: Call, q: Query, p: nat)
    requires KeyedCall(c, q) && p <= |c.requests|
    ensures CreatesNewKeysOnce(c, q, p)
  {
    CreatesNothingFirst(c, q);
    forall k: nat | k < p && CreatesNewKeysOnce(c, q, k)
      ensures CreatesNewKeysOnce(c, q, k + 1)
    {
      CreatesOneMore(c, q, k + 1);
    }
    StepByStep((k: nat) => k <= |c.requests| && CreatesNewKeysOnce(c, q, k), p);
  }

  lemma {:induction false} StepByStep(holds: nat -> bool, p: nat)
    requires holds(0) && forall k: nat :: k < p && holds(k) ==> holds(k + 1)
    ensures holds(p)
  {
    if p > 0 {
      StepByStep(holds, p - 1);
    }
  }

  lemma SharesOneMore(c: Call, q: Query, p: nat)
    requires 0 < p <= |c.requests|
    ensures SharesNewKey(c, q, p) <==>
              SharesNewKey(c, q, p - 1)
              || (IsNew(c, q, p - 1) && KeySent(c, q, p - 1, KeyAt(c, q, p - 1)))
  {
    if i :| 0 <= i < p - 1 && KeyAt(c, q, i) == KeyAt(c, q, p - 1) && IsNew(c, q, p - 1) {
      assert IsNew(c, q, i);
    }
  }

  // ---------------------------------------------------------------- every interleaving

  /** The requests that have created a record. */
  function CreatedBy(w: World): set<nat> {
    set i: nat | i < |w.progress| && w.progress[i].Done? && w.progress[i].result.action == Created
  }

  ghost predicate HasRecord(s: Store, q: Query, id: nat, key: Key) {
    exists k :: 0 <= k < |s.records| && s.records[k].id == id && KeysIn(s, q)[k] == key
  }

  /** Some other request has created a record with this request's key. */
  ghost predicate Forestalled(c: Call, q: Query, w: World, i: nat)
    requires i < |c.requests| == |w.progress|
  {
    exists j :: j in CreatedBy(w) && j != i && KeyAt(c, q, j) == KeyAt(c, q, i)
  }

  ghost predicate Fits(c: Call, q: Query, w: World, i: nat)
    requires i < |c.requests| == |w.progress|
  {
    match w.progress[i]
    case Waiting => true
    case Rejected => false
    case Searched(None) => IsNew(c, q, i)
    case Searched(Some(r)) =>
      && KeyOf(r.fields, q.matchFields) == KeyAt(c, q, i) && HasRecord(w.store, q, r.id, KeyAt(c, q, i))
      && (!IsNew(c, q, i) || Forestalled(c, q, w, i))
    case Done(u) => if u.action == Created then IsNew(c, q, i) else !IsNew(c, q, i) || Forestalled(c, q, w, i)
  }

  /** Keys stay in place, and every key that was added is a creator's. */
  ghost predicate KeyedWorld(c: Call, q: Query, w: World) {
    && |w.progress| == |c.requests| && w.store.Valid()
    && KeysIn(c.base, q) <= KeysIn(w.store, q)
    && |w.store.records| == |c.base.records| + |CreatedBy(w)|
    && (forall k :: |c.base.records| <= k < |w.store.records| ==>
          exists j :: j in CreatedBy(w) && KeyAt(c, q, j) == KeysIn(w.store, q)[k])
    && forall i :: 0 <= i < |c.requests| ==> Fits(c, q, w, i)
  }

  /** Later worlds have the earlier records in place, under the same ids and keys, and the earlier creators. */
  ghost predicate Extends(q: Query, w: World, w': World) {
    && KeysIn(w.store, q) <= KeysIn(w'.store, q) && CreatedBy(w) <= CreatedBy(w')
    && forall k :: 0 <= k < |w.store.records| && k < |w'.store.records| ==> w'.store.records[k].id == w.store.records[k].id
  }

  lemma FitsStays(c: Call, q: Query, w: World, w': World, i: nat)
    requires i < |c.requests| == |w.progress| == |w'.progress|
    requires Extends(q, w, w') && Fits(c, q, w, i) && w'.progress[i] == w.progress[i]
    ensures Fits(c, q, w', i)
  {
    if Forestalled(c, q, w, i) {
      var j :| j in CreatedBy(w) && j != i && KeyAt(c, q, j) == KeyAt(c, q, i);
      assert j in CreatedBy(w');
    }
    match w.progress[i]
    case Searched(Some(r)) =>
      var k :| 0 <= k < |w.store.records| && w.store.records[k].id == r.id && KeysIn(w.store, q)[k] == KeyAt(c, q, i);
      assert KeysIn(w'.store, q)[k] == KeyAt(c, q, i);
    case _ =>
  }

  // ---------------------------------------------------------------- every step keeps it

  lemma SearchKeepsKeyed(c: Call, q: Query, w: World, i: nat)
    requires KeyedCall(c, q) && KeyedWorld(c, q, w) && i < |c.requests| && w.progress[i].Waiting?
    ensures KeyedWorld(c, q, Step(c, w, i))
  {
    var w' := Step(c, w, i);
    SearchFits(c, q, w, i);
    assert CreatedBy(w') == CreatedBy(w);
    forall j | 0 <= j < |c.requests| && j != i
      ensures Fits(c, q, w', j)
    {
      FitsStays(c, q, w, w', j);
    }
  }

  lemma SearchFits(c: Call, q: Query, w: World, i: nat)
    requires KeyedCall(c, q) && KeyedWorld(c, q, w) && i < |c.requests| && w.progress[i].Waiting?
    ensures Fits(c, q, Step(c, w, i), i) && Step(c, w, i).store == w.store
  {
    var w' := Step(c, w, i);
    var fields := c.requests[i].fields;
    var records := w.store.records;
    SearchMissesAbsentKey(records, fields, q);
    match FirstMatch(records, FilterFor(fields, q).value)
    case None =>
      assert forall k :: 0 <= k < |c.base.records| ==> KeysIn(w.store, q)[k] == KeysIn(c.base, q)[k];
      assert IsNew(c, q, i);
    case Some(k) =>
      ExactSearchFindsKey(records[k].fields, fields, q);
      assert KeysIn(w.store, q)[k] == KeyAt(c, q, i);
      assert k < |c.base.records| ==> KeysIn(c.base, q)[k] in KeysIn(c.base, q);
      if IsNew(c, q, i) {
        var j :| j in CreatedBy(w) && KeyAt(c, q, j) == KeysIn(w.store, q)[k];
        assert j in CreatedBy(w') && j != i;
      }
  }

  lemma CreateAdds(c: Call, q: Query, w: World, i: nat)
    requires KeyedCall(c, q) && KeyedWorld(c, q, w) && i < |c.requests| && w.progress[i] == Searched(None)
    ensures Step(c, w, i).store.Valid()
    ensures KeysIn(Step(c, w, i).store, q) == KeysIn(w.store, q) + [KeyAt(c, q, i)]
    ensures CreatedBy(Step(c, w, i)) == CreatedBy(w) + {i} && i !in CreatedBy(w)
  {
    WriteKeepsKey(map[], c.requests[i].fields, q.matchFields, c.opts);
  }

  lemma CreateKeepsKeyed(c: Call, q: Query, w: World, i: nat)
    requires KeyedCall(c, q) && KeyedWorld(c, q, w) && i < |c.requests| && w.progress[i] == Searched(None)
    ensures KeyedWorld(c, q, Step(c, w, i))
  {
    var w' := Step(c, w, i);
    assert Fits(c, q, w, i);
    CreateAdds(c, q, w, i);
    forall k | |c.base.records| <= k < |w'.store.records|
      ensures exists j :: j in CreatedBy(w') && KeyAt(c, q, j) == KeysIn(w'.store, q)[k]
    {
      if k < |w.store.records| {
        var j :| j in CreatedBy(w) && KeyAt(c, q, j) == KeysIn(w.store, q)[k];
        assert j in CreatedBy(w');
      } else {
        assert i in CreatedBy(w');
      }
    }
    forall j | 0 <= j < |c.requests| && j != i
      ensures Fits(c, q, w', j)
    {
      FitsStays(c, q, w, w', j);
    }
  }

  /** What is written over a record with the request's key, merged or not, leaves the key. */
  lemma OverwriteKeepsKey(stored: Fields, found: Fields, fields: Fields, matchFields: seq<string>, opts: Options)
    requires Keyed(fields, matchFields)
    requires KeyOf(stored, matchFields) == KeyOf(fields, matchFields) == KeyOf(found, matchFields)
    ensures KeyOf(Overlay(stored, UpdateBody(found, fields, opts)), matchFields) == KeyOf(fields, matchFields)
  {
    var written := Overlay(stored, UpdateBody(found, fields, opts));
    forall i | 0 <= i < |matchFields|
      ensures KeyOf(written, matchFields)[i] == KeyOf(fields, matchFields)[i]
    {
      assert KeyOf(stored, matchFields)[i] == KeyOf(fields, matchFields)[i];
      assert KeyOf(found, matchFields)[i] == KeyOf(fields, matchFields)[i];
    }
  }

  lemma UpdateKeepsKeys(c: Call, q: Query, w: World, i: nat)
    requires KeyedCall(c, q) && KeyedWorld(c, q, w) && i < |c.requests|
    requires w.progress[i].Searched? && w.progress[i].found.Some?
    ensures KeysIn(Step(c, w, i).store, q) == KeysIn(w.store, q) && Step(c, w, i).store.Valid()
    ensures forall k :: 0 <= k < |w.store.records| ==> Step(c, w, i).store.records[k].id == w.store.records[k].id
  {
    var r := w.progress[i].found.value;
    var sent := UpdateBody(r.fields, c.requests[i].fields, c.opts);
    assert Fits(c, q, w, i);
    var k :| 0 <= k < |w.store.records| && w.store.records[k].id == r.id && KeysIn(w.store, q)[k] == KeyAt(c, q, i);
    UpdatedAt(w.store, k, sent);
    OverwriteKeepsKey(w.store.records[k].fields, r.fields, c.requests[i].fields, q.matchFields, c.opts);
  }

  lemma UpdateKeepsKeyed(c: Call, q: Query, w: World, i: nat)
    requires KeyedCall(c, q) && KeyedWorld(c, q, w) && i < |c.requests|
    requires w.progress[i].Searched? && w.progress[i].found.Some?
    ensures KeyedWorld(c, q, Step(c, w, i))
  {
    var w' := Step(c, w, i);
    UpdateKeepsKeys(c, q, w, i);
    assert |KeysIn(w'.store, q)| == |KeysIn(w.store, q)|;
    assert CreatedBy(w') == CreatedBy(w);
    assert Fits(c, q, w, i);
    if Forestalled(c, q, w, i) {
      var j :| j in CreatedBy(w) && j != i && KeyAt(c, q, j) == KeyAt(c, q, i);
      assert j in CreatedBy(w');
    }
    forall j | 0 <= j < |c.requests| && j != i
      ensures Fits(c, q, w', j)
    {
      FitsStays(c, q, w, w', j);
    }
  }

  lemma StepKeepsKeyed(c: Call, q: Query, w: World, i: nat)
    requires KeyedCall(c, q) && KeyedWorld(c, q, w) && i < |c.requests|
    ensures KeyedWorld(c, q, Step(c, w, i))
  {
    match w.progress[i]
    case Waiting => SearchKeepsKeyed(c, q, w, i);
    case Searched(None) => CreateKeepsKeyed(c, q, w, i);
    case Searched(Some(_)) => UpdateKeepsKeyed(c, q, w, i);
    case _ =>
  }

  /** In every reachable world, whatever the interleaving: one record more per creator, and creators have new keys. */
  lemma {:induction false} EveryScheduleIsKeyed(c: Call, q: Query, schedule: seq<nat>)
    requires KeyedCall(c, q) && forall k :: 0 <= k < |schedule| ==> schedule[k] < |c.requests|
    ensures KeyedWorld(c, q, Run(c, schedule))
  {
    if schedule == [] {
      assert CreatedBy(Start(c)) == {};
    } else {
      var n := |schedule| - 1;
      EveryScheduleIsKeyed(c, q, schedule[..n]);
      StepKeepsKeyed(c, q, Run(c, schedule[..n]), schedule[n]);
    }
  }

  lemma ForestalledShares(c: Call, q: Query, w: World, i: nat)
    requires |w.progress| == |c.requests| && i < |c.requests| && IsNew(c, q, i) && Forestalled(c, q, w, i)
    ensures SharesNewKey(c, q, |c.requests|)
  {
    var j :| j in CreatedBy(w) && j != i && KeyAt(c, q, j) == KeyAt(c, q, i);
    assert IsNew(c, q, j);
    assert i < j || j < i;
  }

  /** When no new key is shared, whatever finishes the call has created exactly the new ones. */
  lemma UnsharedCount(c: Call, q: Query, schedule: seq<nat>)
    requires KeyedCall(c, q) && Finishes(c, schedule) && !SharesNewKey(c, q, |c.requests|)
    ensures |Run(c, schedule).store.records| == |c.base.records| + |NewOnes(c, q, |c.requests|)|
  {
    var w := Run(c, schedule);
    EveryScheduleIsKeyed(c, q, schedule);
    forall i | 0 <= i < |c.requests|
      ensures i in CreatedBy(w) <==> i in NewOnes(c, q, |c.requests|)
    {
      assert Fits(c, q, w, i) && Finished(w.progress[i]);
      if IsNew(c, q, i) && Forestalled(c, q, w, i) {
        ForestalledShares(c, q, w, i);
      }
    }
    assert CreatedBy(w) == NewOnes(c, q, |c.requests|);
  }

  // ---------------------------------------------------------------- all searches first

  function UpTo(p: nat): (s: seq<nat>)
    ensures |s| == p && forall k :: 0 <= k < p ==> s[k] == k
  {
    if p == 0 then [] else UpTo(p - 1) + [p - 1]
  }

  /** Requests below p have written, the others have searched; nobody has seen a new key. */
  ghost predicate Written(c: Call, q: Query, w: World, p: nat)
  {
    && |w.progress| == |c.requests|
    && forall i :: 0 <= i < |c.requests| ==>
         if i < p then w.progress[i].Done? && (w.progress[i].result.action == Created <==> IsNew(c, q, i))
         else w.progress[i].Searched? && (w.progress[i].found.None? <==> IsNew(c, q, i))
  }

  /** Requests below p have searched the table as it was, the others have not started. */
  ghost predicate SearchedOnly(c: Call, q: Query, w: World, p: nat) {
    && |w.progress| == |c.requests| && w.store == c.base
    && forall i :: 0 <= i < |c.requests| ==>
         if i < p then w.progress[i].Searched? && (w.progress[i].found.None? <==> IsNew(c, q, i))
         else w.progress[i].Waiting?
  }

  lemma SearchOne(c: Call, q: Query, w: World, p: nat)
    requires KeyedCall(c, q) && p < |c.requests| && SearchedOnly(c, q, w, p)
    ensures SearchedOnly(c, q, Step(c, w, p), p + 1)
  {
    SearchMissesAbsentKey(c.base.records, c.requests[p].fields, q);
  }

  lemma {:induction false} AllSearch(c: Call, q: Query, p: nat)
    requires KeyedCall(c, q) && p <= |c.requests|
    ensures SearchedOnly(c, q, Run(c, UpTo(p)), p)
  {
    if p > 0 {
      AllSearch(c, q, p - 1);
      SearchOne(c, q, Run(c, UpTo(p - 1)), p - 1);
      OneMoreStep(c, UpTo(p - 1), p - 1);
    }
  }

  lemma WriteOne(c: Call, q: Query, w: World, p: nat)
    requires p < |c.requests| && Written(c, q, w, p)
    ensures Written(c, q, Step(c, w, p), p + 1)
  {
  }

  lemma {:induction false} AllWrite(c: Call, q: Query, searched: seq<nat>, p: nat)
    requires p <= |c.requests| && forall k :: 0 <= k < |searched| ==> searched[k] < |c.requests|
    requires Written(c, q, Run(c, searched), 0)
    ensures Written(c, q, Run(c, searched + UpTo(p)), p)
  {
    if p == 0 {
      assert searched + UpTo(0) == searched;
    } else {
      AllWrite(c, q, searched, p - 1);
      WriteOne(c, q, Run(c, searched + UpTo(p - 1)), p - 1);
      OneMoreStep(c, searched + UpTo(p - 1), p - 1);
      assert searched + UpTo(p) == (searched + UpTo(p - 1)) + [p - 1];
    }
  }

  /** When all requests search before any writes, every request whose key is new creates a record. */
  lemma SearchingFirstCount(c: Call, q: Query)
    requires KeyedCall(c, q)
    ensures var s := UpTo(|c.requests|) + UpTo(|c.requests|);
            Finishes(c, s) && |Run(c, s).store.records| == |c.base.records| + |NewOnes(c, q, |c.requests|)|
  {
    var s := UpTo(|c.requests|) + UpTo(|c.requests|);
    AllSearch(c, q, |c.requests|);
    AllWrite(c, q, UpTo(|c.requests|), |c.requests|);
    EveryScheduleIsKeyed(c, q, s);
    assert CreatedBy(Run(c, s)) == NewOnes(c, q, |c.requests|);
  }

  /**
   * Every interleaving of a keyed chunk ends with the number of records of the one-by-one form
   * exactly when no two of its requests share a key that is not in the table yet.
   */
  lemma CountAgreesIffNewKeysDiffer(c: Call, q: Query)
    requires KeyedCall(c, q)
    ensures (forall s :: Finishes(c, s) ==> |Run(c, s).store.records| == |OneByOne(c, |c.requests|).0.records|)
       <==> !SharesNewKey(c, q, |c.requests|)
  {
    OneByOneCount(c, q, |c.requests|);
    SearchingFirstCount(c, q);
    if !SharesNewKey(c, q, |c.requests|) {
      forall s | Finishes(c, s)
        ensures |Run(c, s).store.records| == |OneByOne(c, |c.requests|).0.records|
      {
        UnsharedCount(c, q, s);
      }
    }
  }

  lemma CreatorsAreNew(c: Call, q: Query, w: World)
    requires KeyedWorld(c, q, w)
    ensures |CreatedBy(w)| <= |NewOnes(c, q, |c.requests|)|
  {
    forall i | i in CreatedBy(w)
      ensures i in NewOnes(c, q, |c.requests|)
    {
      assert Fits(c, q, w, i);
    }
    SubsetSize(CreatedBy(w), NewOnes(c, q, |c.requests|));
  }

  /** At worst one record too many per request that repeats a new key; some interleaving leaves all of them. */
  lemma AtMostOneRecordPerNewRequest(c: Call, q: Query, schedule: seq<nat>)
    requires KeyedCall(c, q) && forall k :: 0 <= k < |schedule| ==> schedule[k] < |c.requests|
    ensures |Run(c, schedule).store.records| <= |c.base.records| + |NewOnes(c, q, |c.requests|)|
    ensures exists worst :: Finishes(c, worst)
              && |Run(c, worst).store.records| == |c.base.records| + |NewOnes(c, q, |c.requests|)|
  {
    EveryScheduleIsKeyed(c, q, schedule);
    CreatorsAreNew(c, q, Run(c, schedule));
    SearchingFirstCount(c, q);
  }
}

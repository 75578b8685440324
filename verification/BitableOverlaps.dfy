/** Requests of one chunk that share a key already in the table: when every interleaving leaves the one-by-one contents. */
module BitableOverlaps {
  import opened Common
  import opened Bitable
  import opened BitableBatch
  import opened BitableRaces
  import opened BitableSequels

  /** Position of the old record request i is about, or the number of old records. */
  function PosOf(c: Call, q: Query, i: nat): nat
    requires i < |c.requests|
  {
    FirstPos(c.base.records, q, KeyAt(c, q, i))
  }

  /** The value request i writes under f, if it sends one. */
  function Puts(c: Call, i: nat, f: string): Option<Value>
    requires i < |c.requests|
  {
    if f in c.opts.excludeFields then None else Sent(c.requests[i].fields, f)
  }

  /** Merging, request i writes back under f what its search has seen there. */
  predicate WritesBack(c: Call, i: nat, f: string)
    requires i < |c.requests|
  {
    c.opts.mergeFields && (f in c.opts.excludeFields || f !in c.requests[i].fields)
  }

  /**
   * Request i sends nothing that j sends differently, and nothing new under a name that the record holds and j,
   * merging, writes back.
   */
  ghost predicate Bears(c: Call, q: Query, i: nat, j: nat)
    requires i < |c.requests| && j < |c.requests| && !IsNew(c, q, j)
  {
    NewIffNoPosition(c, q, j);
    var before := c.base.records[PosOf(c, q, j)].fields;
    forall f :: Puts(c, i, f).Some? ==>
      && (Puts(c, j, f).Some? ==> Puts(c, j, f) == Puts(c, i, f))
      && (WritesBack(c, j, f) && Sent(before, f).Some? ==> Sent(before, f) == Puts(c, i, f))
  }

  ghost predicate Compatible(c: Call, q: Query) {
    forall i, j ::
      0 <= i < |c.requests| && 0 <= j < |c.requests| && i != j && KeyAt(c, q, i) == KeyAt(c, q, j) && !IsNew(c, q, j) ==>
        Bears(c, q, i, j)
  }

  // ---------------------------------------------------------------- one write

  /** What one write leaves under a name, merged or not. */
  lemma WriteLeaves(c: Call, i: nat, stored: Fields, found: Fields, f: string)
    requires i < |c.requests|
    ensures ValueAt(Overlay(stored, UpdateBody(found, c.requests[i].fields, c.opts)), f)
         == if Puts(c, i, f).Some? then Puts(c, i, f)
            else if WritesBack(c, i, f) && Sent(found, f).Some? then Sent(found, f)
            else ValueAt(stored, f)
  {
  }

  /** The first old record with a request's key is what any search of it finds. */
  lemma FindsOldRecord(c: Call, q: Query, w: World, i: nat)
    requires KeyedCall(c, q) && KeyedWorld(c, q, w) && i < |c.requests| && PosOf(c, q, i) < |c.base.records|
    ensures |c.base.records| <= |w.store.records|
    ensures Snapshot(w.store.records, FilterFor(c.requests[i].fields, q).value) == Some(w.store.records[PosOf(c, q, i)])
  {
    SearchFindsFirst(w.store, c.requests[i].fields, q);
    var k := PosOf(c, q, i);
    assert |KeysIn(c.base, q)| <= |KeysIn(w.store, q)|;
    forall j | 0 <= j <= k
      ensures KeyOf(w.store.records[j].fields, q.matchFields) == KeyOf(c.base.records[j].fields, q.matchFields)
    {
      assert KeysIn(w.store, q)[j] == KeysIn(c.base, q)[j];
    }
    FirstPosIs(w.store.records, q, KeyAt(c, q, i), k);
  }

  lemma NewIffNoPosition(c: Call, q: Query, i: nat)
    requires i < |c.requests|
    ensures IsNew(c, q, i) <==> PosOf(c, q, i) == |c.base.records|
  {
    var k := PosOf(c, q, i);
    if k < |c.base.records| {
      assert KeysIn(c.base, q)[k] == KeyAt(c, q, i);
    } else {
      assert forall j :: 0 <= j < |c.base.records| ==> KeysIn(c.base, q)[j] != KeyAt(c, q, i);
    }
  }

  // ---------------------------------------------------------------- what old records hold on the way

  /** Some finished request about this record has sent a value under f. */
  ghost predicate PutBy(c: Call, q: Query, w: World, k: nat, f: string, i: nat) {
    i < |c.requests| == |w.progress| && w.progress[i].Done? && PosOf(c, q, i) == k && Puts(c, i, f).Some?
  }

  ghost predicate HoldsPuts(c: Call, q: Query, w: World, k: nat, f: string)
    requires k < |c.base.records| && k < |w.store.records|
  {
    && (forall i: nat :: PutBy(c, q, w, k, f, i) ==> ValueAt(w.store.records[k].fields, f) == Puts(c, i, f))
    && ((forall i: nat :: !PutBy(c, q, w, k, f, i)) ==>
          ValueAt(w.store.records[k].fields, f) == ValueAt(c.base.records[k].fields, f))
  }

  /** A search has seen under f what was there before the call, or what a request finished by now has sent. */
  ghost predicate SawPuts(c: Call, q: Query, w: World, k: nat, f: string, r: Record)
    requires k < |c.base.records|
  {
    || Sent(r.fields, f) == Sent(c.base.records[k].fields, f)
    || exists j: nat :: PutBy(c, q, w, k, f, j) && Sent(r.fields, f) == Puts(c, j, f)
  }

  ghost predicate SeesPuts(c: Call, q: Query, w: World, i: nat)
    requires i < |c.requests| == |w.progress|
  {
    w.progress[i].Searched? && PosOf(c, q, i) < |c.base.records| ==>
      var k := PosOf(c, q, i);
      && w.progress[i].found.Some? && w.progress[i].found.value.id == c.base.records[k].id
      && forall f :: SawPuts(c, q, w, k, f, w.progress[i].found.value)
  }

  ghost predicate OldOnes(c: Call, q: Query, w: World) {
    && KeyedWorld(c, q, w) && |c.base.records| <= |w.store.records|
    && (forall k :: 0 <= k < |c.base.records| ==> w.store.records[k].id == c.base.records[k].id)
    && (forall k, f :: 0 <= k < |c.base.records| ==> HoldsPuts(c, q, w, k, f))
    && forall i :: 0 <= i < |c.requests| ==> SeesPuts(c, q, w, i)
  }

  lemma SawStays(c: Call, q: Query, w: World, w': World, i: nat)
    requires i < |c.requests| == |w.progress| == |w'.progress| && SeesPuts(c, q, w, i) && w'.progress[i] == w.progress[i]
    requires forall j :: 0 <= j < |w.progress| && w.progress[j].Done? ==> w'.progress[j].Done?
    ensures SeesPuts(c, q, w', i)
  {
    if w.progress[i].Searched? && PosOf(c, q, i) < |c.base.records| {
      var k, r := PosOf(c, q, i), w.progress[i].found.value;
      forall f
        ensures SawPuts(c, q, w', k, f, r)
      {
        assert SawPuts(c, q, w, k, f, r);
        if j: nat :| PutBy(c, q, w, k, f, j) && Sent(r.fields, f) == Puts(c, j, f) {
          assert PutBy(c, q, w', k, f, j);
        }
      }
    }
  }

  lemma SearchSees(c: Call, q: Query, w: World, i: nat)
    requires KeyedCall(c, q) && OldOnes(c, q, w) && i < |c.requests| && w.progress[i].Waiting?
    ensures SeesPuts(c, q, Step(c, w, i), i)
  {
    var w', k := Step(c, w, i), PosOf(c, q, i);
    if k < |c.base.records| {
      FindsOldRecord(c, q, w, i);
      var r := w.store.records[k];
      forall f
        ensures SawPuts(c, q, w', k, f, r)
      {
        assert HoldsPuts(c, q, w, k, f);
        if j: nat :| PutBy(c, q, w, k, f, j) {
          assert PutBy(c, q, w', k, f, j);
        }
      }
    }
  }

  lemma SearchKeepsOldOnes(c: Call, q: Query, w: World, i: nat)
    requires KeyedCall(c, q) && OldOnes(c, q, w) && i < |c.requests| && w.progress[i].Waiting?
    ensures OldOnes(c, q, Step(c, w, i))
  {
    var w' := Step(c, w, i);
    StepKeepsKeyed(c, q, w, i);
    forall k, f | 0 <= k < |c.base.records|
      ensures HoldsPuts(c, q, w', k, f)
    {
      assert HoldsPuts(c, q, w, k, f);
      assert forall j: nat :: PutBy(c, q, w', k, f, j) <==> PutBy(c, q, w, k, f, j);
    }
    SearchSees(c, q, w, i);
    forall j | 0 <= j < |c.requests| && j != i
      ensures SeesPuts(c, q, w', j)
    {
      SawStays(c, q, w, w', j);
    }
  }

  /** A write of request i that reaches the old record at its position. */
  lemma WriteHolds(c: Call, q: Query, w: World, i: nat, f: string)
    requires KeyedCall(c, q) && OldOnes(c, q, w) && Compatible(c, q) && i < |c.requests| && w.progress[i].Searched?
    requires PosOf(c, q, i) < |c.base.records|
    ensures |w.store.records| == |Step(c, w, i).store.records| && HoldsPuts(c, q, Step(c, w, i), PosOf(c, q, i), f)
  {
    var w', k := Step(c, w, i), PosOf(c, q, i);
    assert SeesPuts(c, q, w, i);
    var r := w.progress[i].found.value;
    UpdatedAt(w.store, k, UpdateBody(r.fields, c.requests[i].fields, c.opts));
    WriteLeaves(c, i, w.store.records[k].fields, r.fields, f);
    PutByAfter(c, q, w, w', i, k, f);
    NewIffNoPosition(c, q, i);
    assert HoldsPuts(c, q, w, k, f) && SawPuts(c, q, w, k, f, r);
    forall j: nat | PutBy(c, q, w', k, f, j)
      ensures ValueAt(w'.store.records[k].fields, f) == Puts(c, j, f)
    {
      SamePosition(c, q, i, j);
      if j != i {
        assert Bears(c, q, j, i);
        if l: nat :| PutBy(c, q, w, k, f, l) && Sent(r.fields, f) == Puts(c, l, f) {
          SamePosition(c, q, l, j);
          assert l != j ==> Bears(c, q, l, j);
        }
      }
    }
  }

  lemma SamePosition(c: Call, q: Query, i: nat, j: nat)
    requires i < |c.requests| && j < |c.requests| && PosOf(c, q, i) == PosOf(c, q, j) < |c.base.records|
    ensures KeyAt(c, q, i) == KeyAt(c, q, j)
  {
  }

  lemma PutByAfter(c: Call, q: Query, w: World, w': World, i: nat, k: nat, f: string)
    requires i < |c.requests| == |w.progress| == |w'.progress| && w'.progress == w.progress[i := w'.progress[i]]
    requires !w.progress[i].Done? && w'.progress[i].Done?
    ensures forall j: nat :: PutBy(c, q, w', k, f, j)
                             <==> PutBy(c, q, w, k, f, j) || (j == i && PosOf(c, q, i) == k && Puts(c, i, f).Some?)
  {
  }

  /** Every other old record is left alone. */
  lemma OthersStay(c: Call, q: Query, w: World, i: nat, k: nat)
    requires KeyedCall(c, q) && OldOnes(c, q, w) && i < |c.requests| && w.progress[i].Searched?
    requires k < |c.base.records| && PosOf(c, q, i) != k
    ensures k < |Step(c, w, i).store.records| && Step(c, w, i).store.records[k] == w.store.records[k]
  {
    match w.progress[i].found
    case None =>
    case Some(r) =>
      assert Fits(c, q, w, i) && SeesPuts(c, q, w, i);
      var sent := UpdateBody(r.fields, c.requests[i].fields, c.opts);
      if PosOf(c, q, i) < |c.base.records| {
        UpdatedAt(w.store, PosOf(c, q, i), sent);
      } else {
        NewIffNoPosition(c, q, i);
        var h :| 0 <= h < |w.store.records| && w.store.records[h].id == r.id && KeysIn(w.store, q)[h] == KeyAt(c, q, i);
        assert forall l :: 0 <= l < |c.base.records| ==> KeysIn(w.store, q)[l] in KeysIn(c.base, q);
        UpdatedAt(w.store, h, sent);
      }
  }

  lemma WriteKeepsHolding(c: Call, q: Query, w: World, i: nat, k: nat, f: string)
    requires KeyedCall(c, q) && OldOnes(c, q, w) && Compatible(c, q) && i < |c.requests| && w.progress[i].Searched?
    requires k < |c.base.records|
    ensures k < |Step(c, w, i).store.records| && HoldsPuts(c, q, Step(c, w, i), k, f)
    ensures Step(c, w, i).store.records[k].id == w.store.records[k].id
  {
    if PosOf(c, q, i) == k {
      WriteHolds(c, q, w, i, f);
      assert SeesPuts(c, q, w, i);
      UpdatedAt(w.store, k, UpdateBody(w.progress[i].found.value.fields, c.requests[i].fields, c.opts));
    } else {
      OthersStay(c, q, w, i, k);
      PutByAfter(c, q, w, Step(c, w, i), i, k, f);
      assert HoldsPuts(c, q, w, k, f);
    }
  }

  lemma WriteKeepsOldOnes(c: Call, q: Query, w: World, i: nat)
    requires KeyedCall(c, q) && OldOnes(c, q, w) && Compatible(c, q) && i < |c.requests| && w.progress[i].Searched?
    ensures OldOnes(c, q, Step(c, w, i))
  {
    var w' := Step(c, w, i);
    StepKeepsKeyed(c, q, w, i);
    assert |KeysIn(c.base, q)| <= |KeysIn(w'.store, q)|;
    forall k, f | 0 <= k < |c.base.records|
      ensures HoldsPuts(c, q, w', k, f)
    {
      WriteKeepsHolding(c, q, w, i, k, f);
    }
    forall k | 0 <= k < |c.base.records|
      ensures w'.store.records[k].id == c.base.records[k].id
    {
      WriteKeepsHolding(c, q, w, i, k, "");
    }
    forall j | 0 <= j < |c.requests| && j != i
      ensures SeesPuts(c, q, w', j)
    {
      SawStays(c, q, w, w', j);
    }
  }

  lemma {:induction false} EveryScheduleHoldsPuts(c: Call, q: Query, schedule: seq<nat>)
    requires KeyedCall(c, q) && Compatible(c, q) && forall k :: 0 <= k < |schedule| ==> schedule[k] < |c.requests|
    ensures OldOnes(c, q, Run(c, schedule))
  {
    EveryScheduleIsKeyed(c, q, schedule);
    if schedule != [] {
      var n := |schedule| - 1;
      EveryScheduleHoldsPuts(c, q, schedule[..n]);
      var w, i := Run(c, schedule[..n]), schedule[n];
      match w.progress[i] {
        case Waiting => SearchKeepsOldOnes(c, q, w, i);
        case Searched(_) => WriteKeepsOldOnes(c, q, w, i);
        case _ =>
      }
    }
  }

  // ---------------------------------------------------------------- finished schedules agree

  lemma SameFields(a: Fields, b: Fields)
    requires forall f :: ValueAt(a, f) == ValueAt(b, f)
    ensures a == b
  {
    forall f
      ensures f in a <==> f in b
      ensures f in a ==> a[f] == b[f]
    {
      assert ValueAt(a, f) == ValueAt(b, f);
    }
  }

  lemma FinishedIsDone(c: Call, q: Query, w: World, i: nat)
    requires KeyedWorld(c, q, w) && AllFinished(c, w) && i < |c.requests|
    ensures w.progress[i].Done?
  {
    assert Fits(c, q, w, i);
  }

  /** The old records of two tables agree. */
  ghost predicate OldAlike(c: Call, a: Store, b: Store) {
    var n := |c.base.records|;
    n <= |a.records| && n <= |b.records| && forall k :: 0 <= k < n ==> a.records[k] == b.records[k]
  }

  lemma SameValue(c: Call, q: Query, w1: World, w2: World, k: nat, f: string)
    requires OldOnes(c, q, w1) && OldOnes(c, q, w2) && AllFinished(c, w1) && AllFinished(c, w2) && k < |c.base.records|
    ensures ValueAt(w1.store.records[k].fields, f) == ValueAt(w2.store.records[k].fields, f)
  {
    assert HoldsPuts(c, q, w1, k, f) && HoldsPuts(c, q, w2, k, f);
    forall i: nat
      ensures PutBy(c, q, w1, k, f, i) <==> PutBy(c, q, w2, k, f, i)
    {
      if i < |c.requests| {
        FinishedIsDone(c, q, w1, i);
        FinishedIsDone(c, q, w2, i);
      }
    }
    if i: nat :| PutBy(c, q, w1, k, f, i) {
      assert PutBy(c, q, w2, k, f, i);
    }
  }

  lemma FinishedAlike(c: Call, q: Query, s1: seq<nat>, s2: seq<nat>)
    requires KeyedCall(c, q) && Compatible(c, q) && Finishes(c, s1) && Finishes(c, s2)
    ensures OldAlike(c, Run(c, s1).store, Run(c, s2).store)
  {
    EveryScheduleHoldsPuts(c, q, s1);
    EveryScheduleHoldsPuts(c, q, s2);
    var w1, w2 := Run(c, s1), Run(c, s2);
    forall k | 0 <= k < |c.base.records|
      ensures w1.store.records[k] == w2.store.records[k]
    {
      forall f
        ensures ValueAt(w1.store.records[k].fields, f) == ValueAt(w2.store.records[k].fields, f)
      {
        SameValue(c, q, w1, w2, k, f);
      }
      SameFields(w1.store.records[k].fields, w2.store.records[k].fields);
    }
  }

  // ---------------------------------------------------------------- schedules in which one request writes last

  /** The schedule, and then every request below p but i, both steps, one after the other. */
  function Others(schedule: seq<nat>, i: nat, p: nat): seq<nat> {
    if p == 0 then schedule
    else if p - 1 == i then Others(schedule, i, p - 1)
    else Others(schedule, i, p - 1) + [p - 1] + [p - 1]
  }

  /** Searches first or last, writes last. */
  function LastToWrite(c: Call, i: nat, early: bool): seq<nat> {
    if early then Others([i], i, |c.requests|) + [i] else Others([], i, |c.requests|) + [i] + [i]
  }

  predicate InRange(c: Call, schedule: seq<nat>) {
    forall k :: 0 <= k < |schedule| ==> schedule[k] < |c.requests|
  }

  lemma OtherStays(c: Call, schedule: seq<nat>, j: nat, i: nat)
    requires InRange(c, schedule) && j < |c.requests| && i < |c.requests| && i != j
    ensures Run(c, schedule + [j]).progress[i] == Run(c, schedule).progress[i]
  {
    OneMoreStep(c, schedule, j);
  }

  /** Request i is where it was before the longer schedule. */
  ghost predicate Unmoved(c: Call, before: seq<nat>, longer: seq<nat>, i: nat)
    requires InRange(c, before) && i < |c.requests|
  {
    InRange(c, longer) && Run(c, longer).progress[i] == Run(c, before).progress[i]
  }

  lemma StaysUnmoved(c: Call, before: seq<nat>, longer: seq<nat>, i: nat, j: nat)
    requires InRange(c, before) && i < |c.requests| && j < |c.requests| && i != j && Unmoved(c, before, longer, i)
    ensures Unmoved(c, before, longer + [j] + [j], i)
  {
    OtherStays(c, longer, j, i);
    OtherStays(c, longer + [j], j, i);
  }

  lemma OneMoreUnmoved(c: Call, before: seq<nat>, i: nat, p: nat)
    requires InRange(c, before) && i < |c.requests| && p < |c.requests| && LeftAlone(c, before, i, p)
    ensures LeftAlone(c, before, i, p + 1)
  {
    if p != i {
      StaysUnmoved(c, before, Others(before, i, p), i, p);
    }
  }

  lemma NothingMoves(c: Call, before: seq<nat>, i: nat)
    requires InRange(c, before) && i < |c.requests|
    ensures LeftAlone(c, before, i, 0)
  {
  }

  /** Request i is where it was after all others below p have taken both steps. */
  ghost predicate LeftAlone(c: Call, before: seq<nat>, i: nat, p: nat)
    requires InRange(c, before) && i < |c.requests|
  {
    Unmoved(c, before, Others(before, i, p), i)
  }

  lemma {:induction false} OthersDoNotMove(c: Call, before: seq<nat>, i: nat, p: nat)
    requires InRange(c, before) && i < |c.requests| && p <= |c.requests|
    ensures LeftAlone(c, before, i, p)
  {
    if p == 0 {
      NothingMoves(c, before, i);
    } else {
      OthersDoNotMove(c, before, i, p - 1);
      OneMoreUnmoved(c, before, i, p - 1);
    }
  }

  lemma StepsAhead(c: Call, q: Query, schedule: seq<nat>, i: nat)
    requires KeyedCall(c, q) && InRange(c, schedule) && i < |c.requests|
    ensures var p, p' := Run(c, schedule).progress[i], Run(c, schedule + [i]).progress[i];
            (p.Waiting? ==> p'.Searched?) && (p.Searched? ==> p'.Done?) && (p.Done? ==> p' == p) && !p.Rejected?
  {
    OneMoreStep(c, schedule, i);
    EveryScheduleIsKeyed(c, q, schedule);
    assert Fits(c, q, Run(c, schedule), i);
    SearchFindsFirst(c.base, c.requests[i].fields, q);
  }

  lemma StaysDone(c: Call, schedule: seq<nat>, i: nat, j: nat)
    requires InRange(c, schedule) && i < |c.requests| && j < |c.requests| && Run(c, schedule).progress[j].Done?
    ensures Run(c, schedule + [i]).progress[j].Done?
  {
    OneMoreStep(c, schedule, i);
  }

  /** Of the first p requests all but i are done. */
  ghost predicate OthersDone(c: Call, schedule: seq<nat>, i: nat, p: nat)
    requires p <= |c.requests|
  {
    InRange(c, schedule) && forall j :: 0 <= j < p && j != i ==> Run(c, schedule).progress[j].Done?
  }

  lemma OneMoreDone(c: Call, q: Query, schedule: seq<nat>, i: nat, p: nat)
    requires KeyedCall(c, q) && p < |c.requests| && OthersDone(c, schedule, i, p)
    ensures OthersDone(c, schedule + [p] + [p], i, p + 1)
  {
    BothSteps(c, q, schedule, p);
    forall j: nat | j < p && j != i
      ensures Run(c, schedule + [p] + [p]).progress[j].Done?
    {
      StaysDone(c, schedule, p, j);
      StaysDone(c, schedule + [p], p, j);
    }
  }

  lemma RestOneMoreDone(c: Call, q: Query, before: seq<nat>, i: nat, p: nat)
    requires KeyedCall(c, q) && p < |c.requests| && OthersDone(c, Others(before, i, p), i, p)
    ensures OthersDone(c, Others(before, i, p + 1), i, p + 1)
  {
    if p != i {
      OneMoreDone(c, q, Others(before, i, p), i, p);
    }
  }

  lemma NobodyElseYet(c: Call, before: seq<nat>, i: nat)
    requires InRange(c, before)
    ensures OthersDone(c, Others(before, i, 0), i, 0)
  {
  }

  lemma RestIsDone(c: Call, q: Query, before: seq<nat>, i: nat, p: nat)
    requires KeyedCall(c, q) && InRange(c, before) && p <= |c.requests|
    ensures OthersDone(c, Others(before, i, p), i, p)
  {
    NobodyElseYet(c, before, i);
    for k := 0 to p
      invariant OthersDone(c, Others(before, i, k), i, k)
    {
      RestOneMoreDone(c, q, before, i, k);
    }
  }

  lemma BothSteps(c: Call, q: Query, schedule: seq<nat>, i: nat)
    requires KeyedCall(c, q) && InRange(c, schedule) && i < |c.requests|
    ensures Run(c, schedule + [i] + [i]).progress[i].Done?
  {
    StepsAhead(c, q, schedule, i);
    StepsAhead(c, q, schedule + [i], i);
  }

  lemma StepKeepsIds(c: Call, w: World, i: nat)
    requires |w.progress| == |c.requests| && i < |c.requests|
    ensures |w.store.records| <= |Step(c, w, i).store.records|
    ensures forall k :: 0 <= k < |w.store.records| ==> Step(c, w, i).store.records[k].id == w.store.records[k].id
  {
  }

  lemma {:induction false} IdsStay(c: Call, schedule: seq<nat>)
    requires InRange(c, schedule)
    ensures |c.base.records| <= |Run(c, schedule).store.records|
    ensures forall k :: 0 <= k < |c.base.records| ==> Run(c, schedule).store.records[k].id == c.base.records[k].id
  {
    if schedule != [] {
      var n := |schedule| - 1;
      IdsStay(c, schedule[..n]);
      StepKeepsIds(c, Run(c, schedule[..n]), schedule[n]);
    }
  }

  /** What the last write of a run leaves under a name. */
  lemma LastWriteLeaves(c: Call, q: Query, schedule: seq<nat>, i: nat, f: string)
    requires KeyedCall(c, q) && InRange(c, schedule) && i < |c.requests| && PosOf(c, q, i) < |c.base.records|
    requires Run(c, schedule).progress[i].Searched? && Run(c, schedule).progress[i].found.Some?
    requires Run(c, schedule).progress[i].found.value.id == c.base.records[PosOf(c, q, i)].id
    ensures var k, w, w' := PosOf(c, q, i), Run(c, schedule), Run(c, schedule + [i]);
            k < |w.store.records| && k < |w'.store.records| && ValueAt(w'.store.records[k].fields, f)
              == if Puts(c, i, f).Some? then Puts(c, i, f)
                 else if WritesBack(c, i, f) && Sent(w.progress[i].found.value.fields, f).Some?
                 then Sent(w.progress[i].found.value.fields, f)
                 else ValueAt(w.store.records[k].fields, f)
  {
    var k, w := PosOf(c, q, i), Run(c, schedule);
    IdsStay(c, schedule);
    EveryScheduleIsKeyed(c, q, schedule);
    OneMoreStep(c, schedule, i);
    var r := w.progress[i].found.value;
    UpdatedAt(w.store, k, UpdateBody(r.fields, c.requests[i].fields, c.opts));
    WriteLeaves(c, i, w.store.records[k].fields, r.fields, f);
  }

  lemma SearchAfter(c: Call, q: Query, schedule: seq<nat>, i: nat)
    requires KeyedCall(c, q) && InRange(c, schedule) && i < |c.requests| && PosOf(c, q, i) < |c.base.records|
    requires Run(c, schedule).progress[i].Waiting?
    ensures PosOf(c, q, i) < |Run(c, schedule).store.records|
    ensures Run(c, schedule + [i]).progress[i] == Searched(Some(Run(c, schedule).store.records[PosOf(c, q, i)]))
  {
    EveryScheduleIsKeyed(c, q, schedule);
    FindsOldRecord(c, q, Run(c, schedule), i);
    OneMoreStep(c, schedule, i);
    SearchFindsFirst(c.base, c.requests[i].fields, q);
  }

  /** Whoever searches and writes last has the values it sends in the record. */
  lemma LateWins(c: Call, q: Query, i: nat, f: string)
    requires KeyedCall(c, q) && i < |c.requests| && PosOf(c, q, i) < |c.base.records| && Puts(c, i, f).Some?
    ensures Finishes(c, LastToWrite(c, i, false))
    ensures var k, records := PosOf(c, q, i), Run(c, LastToWrite(c, i, false)).store.records;
            k < |records| && ValueAt(records[k].fields, f) == Puts(c, i, f)
  {
    var rest := Others([], i, |c.requests|);
    RestIsDone(c, q, [], i, |c.requests|);
    OthersDoNotMove(c, [], i, |c.requests|);
    SearchThenWrite(c, q, rest, i, f);
    SearchAfter(c, q, rest, i);
    OthersStayDone(c, rest, i);
    AllDone(c, q, rest + [i], i);
  }

  lemma SearchThenWrite(c: Call, q: Query, schedule: seq<nat>, i: nat, f: string)
    requires KeyedCall(c, q) && InRange(c, schedule) && i < |c.requests| && PosOf(c, q, i) < |c.base.records|
    requires Run(c, schedule).progress[i].Waiting? && Puts(c, i, f).Some?
    ensures var k, records := PosOf(c, q, i), Run(c, schedule + [i] + [i]).store.records;
            k < |records| && ValueAt(records[k].fields, f) == Puts(c, i, f)
  {
    SearchAfter(c, q, schedule, i);
    IdsStay(c, schedule);
    LastWriteLeaves(c, q, schedule + [i], i, f);
  }

  lemma AllDone(c: Call, q: Query, schedule: seq<nat>, i: nat)
    requires KeyedCall(c, q) && i < |c.requests| && OthersDone(c, schedule, i, |c.requests|)
    requires Run(c, schedule).progress[i].Searched?
    ensures Finishes(c, schedule + [i])
  {
    StepsAhead(c, q, schedule, i);
    forall j: nat | j < |c.requests| && j != i
      ensures Run(c, schedule + [i]).progress[j].Done?
    {
      StaysDone(c, schedule, i, j);
    }
  }

  lemma OthersStayDone(c: Call, schedule: seq<nat>, i: nat)
    requires i < |c.requests| && OthersDone(c, schedule, i, |c.requests|)
    ensures OthersDone(c, schedule + [i], i, |c.requests|)
  {
    forall j: nat | j < |c.requests| && j != i
      ensures Run(c, schedule + [i]).progress[j].Done?
    {
      StaysDone(c, schedule, i, j);
    }
  }

  /** Whoever searches first and writes last, merging, brings back what the record held before the call. */
  lemma EarlyBringsBack(c: Call, q: Query, i: nat, f: string)
    requires KeyedCall(c, q) && i < |c.requests| && PosOf(c, q, i) < |c.base.records|
    requires WritesBack(c, i, f) && Puts(c, i, f).None? && Sent(c.base.records[PosOf(c, q, i)].fields, f).Some?
    ensures Finishes(c, LastToWrite(c, i, true))
    ensures var k, records := PosOf(c, q, i), Run(c, LastToWrite(c, i, true)).store.records;
            k < |records| && ValueAt(records[k].fields, f) == Sent(c.base.records[k].fields, f)
  {
    var rest := Others([i], i, |c.requests|);
    assert [] + [i] == [i];
    SearchAfter(c, q, [], i);
    RestIsDone(c, q, [i], i, |c.requests|);
    OthersDoNotMove(c, [i], i, |c.requests|);
    LastWriteLeaves(c, q, rest, i, f);
    AllDone(c, q, rest, i);
  }

  // ---------------------------------------------------------------- the condition

  /** Two requests that do not bear each other leave different contents, depending on who writes last. */
  lemma ClashIsSeen(c: Call, q: Query, i: nat, j: nat) returns (s1: seq<nat>, s2: seq<nat>)
    requires KeyedCall(c, q) && i < |c.requests| && j < |c.requests| && KeyAt(c, q, i) == KeyAt(c, q, j)
    requires !IsNew(c, q, j) && !Bears(c, q, i, j)
    ensures Finishes(c, s1) && Finishes(c, s2) && !OldAlike(c, Run(c, s1).store, Run(c, s2).store)
  {
    NewIffNoPosition(c, q, j);
    var k := PosOf(c, q, j);
    var before := c.base.records[k].fields;
    var f :| Puts(c, i, f).Some?
             && !((Puts(c, j, f).Some? ==> Puts(c, j, f) == Puts(c, i, f))
                  && (WritesBack(c, j, f) && Sent(before, f).Some? ==> Sent(before, f) == Puts(c, i, f)));
    s1 := LastToWrite(c, i, false);
    LateWins(c, q, i, f);
    if Puts(c, j, f).Some? && Puts(c, j, f) != Puts(c, i, f) {
      s2 := LastToWrite(c, j, false);
      LateWins(c, q, j, f);
    } else {
      s2 := LastToWrite(c, j, true);
      EarlyBringsBack(c, q, j, f);
    }
    DifferAt(c, Run(c, s1).store, Run(c, s2).store, k, f);
  }

  lemma DifferAt(c: Call, a: Store, b: Store, k: nat, f: string)
    requires k < |c.base.records| && k < |a.records| && k < |b.records|
    requires ValueAt(a.records[k].fields, f) != ValueAt(b.records[k].fields, f)
    ensures !OldAlike(c, a, b)
  {
  }

  /**
   * Every interleaving of a keyed chunk leaves the old records as upserting one by one does exactly when requests for
   * the same old record send no different values and, with mergeFields, write back nothing another one changes.
   */
  lemma ContentsAgreeIffCompatible(c: Call, q: Query)
    requires KeyedCall(c, q)
    ensures (forall s :: Finishes(c, s) ==> OldAlike(c, Run(c, s).store, OneByOne(c, |c.requests|).0)) <==> Compatible(c, q)
  {
    var serial := Serial(|c.requests|);
    SerialFinishes(c, q);
    if Compatible(c, q) {
      forall s | Finishes(c, s)
        ensures OldAlike(c, Run(c, s).store, OneByOne(c, |c.requests|).0)
      {
        FinishedAlike(c, q, s, serial);
      }
    } else {
      var i, j :| 0 <= i < |c.requests| && 0 <= j < |c.requests| && i != j && KeyAt(c, q, i) == KeyAt(c, q, j)
                  && !IsNew(c, q, j) && !Bears(c, q, i, j);
      var s1, s2 := ClashIsSeen(c, q, i, j);
      AlikeIsTransitive(c, Run(c, s1).store, OneByOne(c, |c.requests|).0, Run(c, s2).store);
    }
  }

  lemma AlikeIsTransitive(c: Call, a: Store, b: Store, d: Store)
    ensures OldAlike(c, a, b) && OldAlike(c, d, b) ==> OldAlike(c, a, d)
  {
  }

  lemma SerialFinishes(c: Call, q: Query)
    requires KeyedCall(c, q)
    ensures var s := Serial(|c.requests|); Finishes(c, s) && Run(c, s).store == OneByOne(c, |c.requests|).0
  {
    SerialIsOneByOne(c, |c.requests|, 1);
    var w := Run(c, Serial(|c.requests|));
    forall i | 0 <= i < |c.requests|
      ensures Finished(w.progress[i])
    {
      DoneMeansFinished(c, w, |c.requests|, i);
    }
  }
}

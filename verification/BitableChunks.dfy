/** batchUpsertRecords of bitable.service.ts: chunk after chunk, the remote calls of a chunk interleaving. */
module BitableChunks {
  import opened Common
  import opened Bitable
  import opened BitableBatch

  datatype Indexed = Indexed(upserted: Upserted, index: nat)

  /** The results and the table are those of the one-by-one form, up to the ids given out during the call. */
  ghost predicate AgreesWithOneByOne(c: Call, store: Store, results: seq<Indexed>, rename: nat -> nat) {
    && |results| == |c.requests|
    && SameUpToIds(store.records, OneByOne(c, |c.requests|).0.records, rename)
    && (forall id: nat :: id < c.base.nextId ==> rename(id) == id)
    && forall k :: 0 <= k < |results| ==>
         results[k].index == k
         && OneByOne(c, |c.requests|).1[k]
              == Success(Upserted(results[k].upserted.action, rename(results[k].upserted.recordId)))
  }

  /** One remote call of one request, answered by the remote table. */
  method StepRequest(table: RemoteTable, request: Request, q: Query, opts: Options, p: Progress,
                     ghost c: Call, ghost w: World, ghost i: nat)
    returns (p': Progress)
    requires table.store.Valid() && |w.progress| == |c.requests| && i < |c.requests|
    requires w.store == table.store && w.progress[i] == p && !Finished(p)
    requires request == c.requests[i] && q == c.QueryOf(i) && opts == c.opts
    modifies table
    ensures Step(c, w, i) == World(table.store, w.progress[i := p'])
    ensures if p.Waiting? then !p'.Waiting? else Finished(p')
  {
    match p {
      case Waiting =>
        var filter := BuildSearchFilter(request.fields, q);
        if filter.Failure? {
          p' := Rejected;
        } else {
          var found := table.SearchFirst(filter.value);
          p' := Searched(found);
        }
      case Searched(None) =>
        var id := table.CreateRecord(request.fields, true);
        p' := Done(Upserted(Created, id.value));
      case Searched(Some(r)) =>
        var sent := DeleteExcluded(request.fields, opts.excludeFields);
        if opts.mergeFields {
          sent := r.fields + sent;
        }
        assert sent == UpdateBody(r.fields, request.fields, opts);
        var _ := table.UpdateRecord(r.id, sent, true);
        p' := Done(Upserted(Changed, r.id));
    }
  }

  function StepsLeft(progress: seq<Progress>): nat {
    if progress == [] then 0
    else
      var n := |progress| - 1;
      StepsLeft(progress[..n]) + match progress[n] case Waiting => 2 case Searched(_) => 1 case _ => 0
  }

  lemma {:induction false} StepsLeftDrop(progress: seq<Progress>, i: nat, p: Progress)
    requires i < |progress|
    requires if progress[i].Waiting? then !p.Waiting? else progress[i].Searched? && Finished(p)
    ensures StepsLeft(progress[i := p]) < StepsLeft(progress)
  {
    var n := |progress| - 1;
    if i < n {
      StepsLeftDrop(progress[..n], i, p);
      assert progress[i := p][..n] == progress[..n][i := p];
    } else {
      assert progress[i := p][..n] == progress[..n];
    }
  }

  // ---------------------------------------------------------------- schedules that respect the chunks

  /** First position of the chunk that position i belongs to, and the first one after it. */
  function ChunkStart(i: nat, size: nat): (lo: nat)
    requires size >= 1
    ensures lo <= i < lo + size
  {
    if i < size then 0 else size + ChunkStart(i - size, size)
  }

  function ChunkEnd(i: nat, size: nat, n: nat): (hi: nat)
    requires size >= 1 && i < n
    ensures i < hi <= n
  {
    if ChunkStart(i, size) + size <= n then ChunkStart(i, size) + size else n
  }

  ghost predicate Scheduled(c: Call, schedule: seq<nat>) {
    forall k :: 0 <= k < |schedule| ==> schedule[k] < |c.requests|
  }

  ghost predicate FinishedBelow(c: Call, schedule: seq<nat>, k: nat, lo: nat)
    requires k <= |schedule| && Scheduled(c, schedule) && lo <= |c.requests|
  {
    forall i :: 0 <= i < lo ==> Finished(Run(c, schedule[..k]).progress[i])
  }

  /** Whoever takes a step finds the earlier chunks finished. */
  ghost predicate InChunks(c: Call, schedule: seq<nat>, size: nat)
    requires size >= 1
  {
    && Scheduled(c, schedule)
    && forall k :: 0 <= k < |schedule| ==> FinishedBelow(c, schedule, k, ChunkStart(schedule[k], size))
  }

  /** A request is rejected or served according to whether it has a usable condition. */
  ghost predicate Sorted(c: Call, w: World) {
    && |w.progress| == |c.requests| && w.store.Valid()
    && forall i :: 0 <= i < |c.requests| ==>
         match w.progress[i]
         case Waiting => true
         case Rejected => c.FilterOf(i).None?
         case _ => c.FilterOf(i).Some?
  }

  lemma StepKeepsSorted(c: Call, w: World, i: nat)
    requires Sorted(c, w) && i < |c.requests|
    ensures Sorted(c, Step(c, w, i))
  {
  }

  lemma {:induction false} EveryScheduleIsSorted(c: Call, schedule: seq<nat>)
    requires c.base.Valid() && Scheduled(c, schedule)
    ensures Sorted(c, Run(c, schedule))
  {
    if schedule != [] {
      var n := |schedule| - 1;
      EveryScheduleIsSorted(c, schedule[..n]);
      StepKeepsSorted(c, Run(c, schedule[..n]), schedule[n]);
    }
  }

  lemma OneMoreInChunks(c: Call, schedule: seq<nat>, i: nat, size: nat)
    requires size >= 1 && InChunks(c, schedule, size) && i < |c.requests|
    requires FinishedBelow(c, schedule, |schedule|, ChunkStart(i, size))
    ensures InChunks(c, schedule + [i], size)
  {
    var longer := schedule + [i];
    forall k | 0 <= k < |longer|
      ensures FinishedBelow(c, longer, k, ChunkStart(longer[k], size))
    {
      assert longer[..k] == schedule[..k];
      assert k < |schedule| ==> FinishedBelow(c, schedule, k, ChunkStart(schedule[k], size));
    }
  }

  // ---------------------------------------------------------------- the operation

  /** Gives request i its next remote call. */
  method Advance(table: RemoteTable, requests: seq<Request>, global: Query, opts: Options, i: nat,
                 progress0: seq<Progress>, ghost c: Call, ghost schedule: seq<nat>)
    returns (progress: seq<Progress>)
    requires c.requests == requests && c.global == global && c.opts == opts && c.base.Valid()
    requires Scheduled(c, schedule) && World(table.store, progress0) == Run(c, schedule)
    requires i < |requests| && !Finished(progress0[i])
    modifies table
    ensures World(table.store, progress) == Run(c, schedule + [i])
    ensures forall j :: 0 <= j < |requests| && j != i ==> progress[j] == progress0[j]
    ensures StepsLeft(progress) < StepsLeft(progress0)
  {
    EveryScheduleIsSorted(c, schedule);
    OneMoreStep(c, schedule, i);
    var q := if requests[i].query.Some? then requests[i].query.value else global;
    var p := StepRequest(table, requests[i], q, opts, progress0[i], c, Run(c, schedule), i);
    StepsLeftDrop(progress0, i, p);
    progress := progress0[i := p];
  }

  /**
   * The remote calls of one chunk, interleaved in any way at all. It waits for all of them, except that it may
   * stop waiting at any moment once one request is rejected.
   */
  method RunChunk(table: RemoteTable, requests: seq<Request>, global: Query, opts: Options, lo: nat, hi: nat,
                  progress0: seq<Progress>, ghost c: Call, ghost schedule0: seq<nat>, size: nat)
    returns (progress: seq<Progress>, ghost schedule: seq<nat>)
    requires size >= 1 && lo < |requests| && ChunkStart(lo, size) == lo && hi == ChunkEnd(lo, size, |requests|)
    requires c.requests == requests && c.global == global && c.opts == opts && c.base.Valid()
    requires InChunks(c, schedule0, size) && World(table.store, progress0) == Run(c, schedule0)
    requires forall i :: 0 <= i < lo ==> Finished(progress0[i])
    modifies table
    ensures InChunks(c, schedule, size) && World(table.store, progress) == Run(c, schedule)
    ensures (forall i :: lo <= i < hi ==> Finished(progress[i])) || (exists i :: lo <= i < hi && progress[i].Rejected?)
    ensures forall i :: 0 <= i < |requests| && !(lo <= i < hi) ==> progress[i] == progress0[i]
  {
    progress, schedule := progress0, schedule0;
    while exists i :: lo <= i < hi && !Finished(progress[i])
      invariant InChunks(c, schedule, size) && World(table.store, progress) == Run(c, schedule)
      invariant forall i :: 0 <= i < |requests| && !(lo <= i < hi) ==> progress[i] == progress0[i]
      decreases StepsLeft(progress)
    {
      var giveUp: bool := *;
      if giveUp && exists i :: lo <= i < hi && progress[i].Rejected? {
        return;
      }
      var i :| lo <= i < hi && !Finished(progress[i]);
      assert schedule[..|schedule|] == schedule;
      SameChunk(lo, i, size);
      OneMoreInChunks(c, schedule, i, size);
      progress := Advance(table, requests, global, opts, i, progress, c, schedule);
      schedule := schedule + [i];
    }
  }

  lemma {:induction false} SameChunk(lo: nat, i: nat, size: nat)
    requires size >= 1 && ChunkStart(lo, size) == lo && lo <= i < lo + size
    ensures ChunkStart(i, size) == lo
  {
    if i >= size {
      SameChunk(lo - size, i - size, size);
    }
  }

  ghost predicate Collected(progress: seq<Progress>, results: seq<Indexed>) {
    && |results| <= |progress|
    && forall k :: 0 <= k < |results| ==> progress[k] == Done(results[k].upserted) && results[k].index == k
  }

  /** Pushes the results of one finished chunk, in the order of the requests. */
  method Collect(progress: seq<Progress>, results0: seq<Indexed>, lo: nat, hi: nat) returns (results: seq<Indexed>)
    requires lo == |results0| <= hi <= |progress| && Collected(progress, results0)
    requires forall k :: lo <= k < hi ==> progress[k].Done?
    ensures |results| == hi && Collected(progress, results)
  {
    results := results0;
    for k := lo to hi
      invariant |results| == k && Collected(progress, results)
    {
      results := results + [Indexed(progress[k].result, k)];
    }
  }

  ghost predicate Usable(c: Call) {
    forall i :: 0 <= i < |c.requests| ==> c.FilterOf(i).Some?
  }

  /** The first request without a usable condition. */
  ghost predicate FirstUnusable(c: Call, b: nat) {
    b < |c.requests| && c.FilterOf(b).None? && forall i :: 0 <= i < b ==> c.FilterOf(i).Some?
  }

  /** Chunks before that of request b are served, later ones have not started; b's own may be anywhere. */
  ghost predicate StoppedInChunkOf(progress: seq<Progress>, b: nat, size: nat)
    requires size >= 1 && b < |progress|
  {
    forall i :: 0 <= i < |progress| ==>
      (i < ChunkStart(b, size) ==> progress[i].Done?) && (i >= ChunkEnd(b, size, |progress|) ==> progress[i].Waiting?)
  }

  /** The state of the call between two chunks: the first i requests are served, the others have not started. */
  ghost predicate Underway(
      c: Call, schedule: seq<nat>, w: World, results: seq<Indexed>, i: nat, size: nat)
    requires size >= 1
  {
    && InChunks(c, schedule, size) && w == Run(c, schedule)
    && |results| == i <= |c.requests| && Collected(w.progress, results)
    && forall k :: i <= k < |c.requests| ==> w.progress[k] == Waiting
  }

  /** One chunk of the call, with its results pushed unless a request in it is rejected. */
  method UpsertChunk(table: RemoteTable, requests: seq<Request>, global: Query, opts: Options, lo: nat, hi: nat,
                     progress0: seq<Progress>, results0: seq<Indexed>, ghost c: Call, ghost schedule0: seq<nat>, size: nat)
    returns (failed: bool, progress: seq<Progress>, results: seq<Indexed>, ghost schedule: seq<nat>)
    requires size >= 1 && lo < |requests| && ChunkStart(lo, size) == lo && hi == ChunkEnd(lo, size, |requests|)
    requires c.requests == requests && c.global == global && c.opts == opts && c.base.Valid()
    requires Underway(c, schedule0, World(table.store, progress0), results0, lo, size)
    modifies table
    ensures table.store.Valid() && InChunks(c, schedule, size) && World(table.store, progress) == Run(c, schedule)
    ensures failed ==> !Usable(c) && exists b :: FirstUnusable(c, b) && StoppedInChunkOf(Run(c, schedule).progress, b, size)
    ensures !failed ==> Underway(c, schedule, World(table.store, progress), results, hi, size)
  {
    results := results0;
    progress, schedule := RunChunk(table, requests, global, opts, lo, hi, progress0, c, schedule0, size);
    EveryScheduleIsSorted(c, schedule);
    if j :| lo <= j < hi && progress[j].Rejected? {
      RejectedInChunk(c, Run(c, schedule), lo, j, size);
      failed := true;
    } else {
      failed := false;
      results := Collect(progress, results, lo, hi);
    }
  }

  method BatchUpsertRecords(table: RemoteTable, requests: seq<Request>, global: Query, opts: Options, batchSize: nat)
    returns (r: Result<seq<Indexed>>, ghost schedule: seq<nat>)
    requires batchSize >= 1 && table.store.Valid()
    modifies table
    ensures table.store.Valid()
    ensures var c := Call(requests, global, opts, old(table.store));
            && InChunks(c, schedule, batchSize) && table.store == Run(c, schedule).store
            && (r.Success? <==> Usable(c))
            && (r.Success? ==> Finishes(c, schedule) && |r.value| == |requests|
                               && Collected(Run(c, schedule).progress, r.value))
            && (r.Failure? ==> exists b :: FirstUnusable(c, b)
                                 && StoppedInChunkOf(Run(c, schedule).progress, b, batchSize))
  {
    ghost var c := Call(requests, global, opts, table.store);
    var progress := seq(|requests|, _ => Waiting);
    schedule := [];
    var results: seq<Indexed> := [];
    NothingStarted(c, progress, batchSize);
    var i := 0;
    while i < |requests|
      invariant table.store.Valid() && (ChunkStart(i, batchSize) == i || i == |requests|)
      invariant Underway(c, schedule, World(table.store, progress), results, i, batchSize)
    {
      var hi := if i + batchSize <= |requests| then i + batchSize else |requests|;
      SameChunk(i, i, batchSize);
      var failed;
      failed, progress, results, schedule :=
        UpsertChunk(table, requests, global, opts, i, hi, progress, results, c, schedule, batchSize);
      if failed {
        return Failure("a request has no valid query condition field"), schedule;
      }
      i := hi;
    }
    AllServed(c, schedule, World(table.store, progress), results, batchSize);
    r := Success(results);
  }

  lemma NothingStarted(c: Call, progress: seq<Progress>, size: nat)
    requires size >= 1 && progress == seq(|c.requests|, _ => Waiting)
    ensures Underway(c, [], World(c.base, progress), [], 0, size)
  {
  }

  lemma AllServed(c: Call, schedule: seq<nat>, w: World, results: seq<Indexed>, size: nat)
    requires size >= 1 && c.base.Valid() && Underway(c, schedule, w, results, |c.requests|, size)
    ensures Usable(c) && Finishes(c, schedule) && Collected(Run(c, schedule).progress, results)
  {
    EveryScheduleIsSorted(c, schedule);
  }

  /** A chunk that holds a rejected request holds the first unusable one. */
  lemma RejectedInChunk(c: Call, w: World, lo: nat, j: nat, size: nat)
    requires size >= 1 && ChunkStart(lo, size) == lo && Sorted(c, w)
    requires lo <= j < |c.requests| && j < lo + size && w.progress[j].Rejected?
    requires forall i :: 0 <= i < lo ==> w.progress[i].Done?
    requires forall i :: lo + size <= i < |c.requests| ==> w.progress[i].Waiting?
    ensures !Usable(c) && exists b :: FirstUnusable(c, b) && StoppedInChunkOf(w.progress, b, size)
  {
    var b := FindUnusable(c, j);
    SameChunk(lo, b, size);
    assert FirstUnusable(c, b) && StoppedInChunkOf(w.progress, b, size);
  }

  lemma {:induction false} FindUnusable(c: Call, j: nat) returns (b: nat)
    requires j < |c.requests| && c.FilterOf(j).None?
    ensures FirstUnusable(c, b) && b <= j
    decreases j
  {
    if i :| 0 <= i < j && c.FilterOf(i).None? {
      b := FindUnusable(c, i);
    } else {
      b := j;
    }
  }

  // ---------------------------------------------------------------- agreement for requests that do not meet

  /** Collected results of any finishing schedule agree with the one-by-one form when no two requests meet. */
  lemma BatchAgrees(c: Call, schedule: seq<nat>, results: seq<Indexed>) returns (rename: nat -> nat)
    requires c.Admissible() && Finishes(c, schedule) && Collected(Run(c, schedule).progress, results)
    requires |results| == |c.requests|
    ensures AgreesWithOneByOne(c, Run(c, schedule).store, results, rename)
  {
    rename := BatchAgreesWithOneByOne(c, schedule);
    forall k | 0 <= k < |results|
      ensures OneByOne(c, |c.requests|).1[k]
           == Success(Upserted(results[k].upserted.action, rename(results[k].upserted.recordId)))
    {
      assert Run(c, schedule).progress[k] == Done(results[k].upserted);
    }
  }
}

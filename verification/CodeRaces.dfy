/** Verifications of codes whose look-up and marking interleave: how often one code can be accepted. */
module CodeRaces {
  import opened Common
  import opened Verification
  import OneShot

  /** The code table, the row each running verification has found, and the rows accepted so far. */
  datatype State = State(rows: seq<CodeRow>, nextId: nat, calls: map<nat, nat>, accepted: seq<nat>)

  datatype Event =
    | Create(target: string, code: string, codeType: CodeType, ip: string, at: int)
    | Find(call: nat, forTarget: string, tried: string, ofType: CodeType, now: int)
    | Mark(marked: nat)
    | Clean(before: int)

  predicate HasRow(rows: seq<CodeRow>, id: nat) {
    exists i :: 0 <= i < |rows| && rows[i].id == id
  }

  /** Marking a row that a cleanup has removed is an error, and the verification fails. */
  function Next(s: State, e: Event): State {
    match e
    case Create(target, code, t, ip, at) =>
      s.(rows := s.rows + [CodeRow(s.nextId, target, code, t, at + CODE_LIFETIME, false, ip, at)], nextId := s.nextId + 1)
    case Find(c, target, code, t, now) =>
      var found := FindValid(s.rows, target, code, t, now);
      if c !in s.calls && found.Some? then s.(calls := s.calls[c := found.value.id]) else s
    case Mark(c) =>
      if c !in s.calls then s
      else if HasRow(s.rows, s.calls[c]) then
        s.(rows := MarkUsed(s.rows, s.calls[c]), calls := s.calls - {c}, accepted := s.accepted + [s.calls[c]])
      else s.(calls := s.calls - {c})
    case Clean(before) => s.(rows := Kept(s.rows, before))
  }

  function Run(es: seq<Event>): State {
    if es == [] then State([], 0, map[], []) else Next(Run(es[..|es| - 1]), es[|es| - 1])
  }

  /** Never more than n verifications of this row between look-up and marking. */
  ghost predicate AtMostInFlight(es: seq<Event>, id: nat, n: nat) {
    |OneShot.Pending(Run(es).calls, id)| <= n && (es != [] ==> AtMostInFlight(es[..|es| - 1], id, n))
  }

  ghost function ViewOf(s: State, id: nat): OneShot.View {
    OneShot.View(id < s.nextId && Spent(s.rows, id), |OneShot.Pending(s.calls, id)|, Occurrences(s.accepted, id))
  }

  lemma FoundIsUnspent(s: State, e: Event)
    requires e.Find? && FindValid(s.rows, e.forTarget, e.tried, e.ofType, e.now).Some?
    ensures !Spent(s.rows, FindValid(s.rows, e.forTarget, e.tried, e.ofType, e.now).value.id)
  {
    var r := FindValid(s.rows, e.forTarget, e.tried, e.ofType, e.now).value;
    var i :| 0 <= i < |s.rows| && s.rows[i] == r;
  }

  /** For each row, a step of the system is an allowed move. */
  lemma StepIsMove(s: State, e: Event, id: nat, n: nat) returns (m: OneShot.Move)
    requires |OneShot.Pending(Next(s, e).calls, id)| <= n
    requires forall c :: c in s.calls ==> s.calls[c] < s.nextId
    ensures OneShot.Allowed(n, ViewOf(s, id), m) && ViewOf(Next(s, e), id) == OneShot.After(ViewOf(s, id), m)
  {
    m := OneShot.Idle;
    match e {
      case Create(target, code, t, ip, at) =>
        CreateIsIdle(s, e, id);
      case Find(c, target, code, t, now) =>
        var found := FindValid(s.rows, target, code, t, now);
        if c !in s.calls && found.Some? {
          OneShot.PendingWith(s.calls, c, found.value.id, id);
          FoundIsUnspent(s, e);
          m := if found.value.id == id then OneShot.Pass else OneShot.Idle;
        }
      case Mark(c) =>
        if c in s.calls {
          m := MarkIsMove(s, c, id, n);
        }
      case Clean(before) =>
        if ViewOf(s, id).spent {
          KeptStaySpent(s.rows, before, id);
        }
        m := if ViewOf(Next(s, e), id).spent then OneShot.Spoil else OneShot.Idle;
    }
  }

  lemma CreateIsIdle(s: State, e: Event, id: nat)
    requires e.Create?
    ensures ViewOf(Next(s, e), id) == ViewOf(s, id)
  {
    var after := Next(s, e).rows;
    assert after[..|s.rows|] == s.rows;
    assert after[|s.rows|].id == s.nextId && !after[|s.rows|].used;
    assert forall i :: 0 <= i < |s.rows| ==> after[i] == s.rows[i];
  }

  lemma MarkIsMove(s: State, c: nat, id: nat, n: nat) returns (m: OneShot.Move)
    requires c in s.calls && s.calls[c] < s.nextId
    ensures OneShot.Allowed(n, ViewOf(s, id), m) && ViewOf(Next(s, Mark(c)), id) == OneShot.After(ViewOf(s, id), m)
  {
    OneShot.PendingWithout(s.calls, c, id);
    if HasRow(s.rows, s.calls[c]) {
      MarkedIsSpent(s.rows, s.calls[c], id);
      OneMoreOccurrence(s.accepted, s.calls[c], id);
      m := if s.calls[c] == id then OneShot.Accept else OneShot.Idle;
    } else {
      m := if s.calls[c] == id then OneShot.Abandon else OneShot.Idle;
    }
  }

  lemma {:induction false} RunIsOneShot(es: seq<Event>, id: nat, n: nat)
    requires AtMostInFlight(es, id, n)
    ensures OneShot.Inv(n, ViewOf(Run(es), id))
    ensures forall c :: c in Run(es).calls ==> Run(es).calls[c] < Run(es).nextId
    ensures forall i :: 0 <= i < |Run(es).rows| ==> Run(es).rows[i].id < Run(es).nextId
  {
    if es == [] {
      assert OneShot.Pending(map[], id) == {};
    } else {
      var front, e := es[..|es| - 1], es[|es| - 1];
      RunIsOneShot(front, id, n);
      var m := StepIsMove(Run(front), e, id, n);
      OneShot.StepKeepsInv(n, ViewOf(Run(front), id), m);
      IdsStayBelow(Run(front), e);
    }
  }

  lemma IdsStayBelow(s: State, e: Event)
    requires forall c :: c in s.calls ==> s.calls[c] < s.nextId
    requires forall i :: 0 <= i < |s.rows| ==> s.rows[i].id < s.nextId
    ensures var s' := Next(s, e);
            && (forall c :: c in s'.calls ==> s'.calls[c] < s'.nextId)
            && forall i :: 0 <= i < |s'.rows| ==> s'.rows[i].id < s'.nextId
  {
    match e
    case Find(c, target, code, t, now) =>
      var found := FindValid(s.rows, target, code, t, now);
      if found.Some? {
        var i :| 0 <= i < |s.rows| && s.rows[i] == found.value;
      }
    case Clean(before) => KeptBelow(s.rows, before, s.nextId);
    case _ =>
  }

  lemma {:induction false} KeptBelow(rows: seq<CodeRow>, before: int, n: nat)
    requires forall i :: 0 <= i < |rows| ==> rows[i].id < n
    ensures forall i :: 0 <= i < |Kept(rows, before)| ==> Kept(rows, before)[i].id < n
  {
    if rows != [] {
      var front, last := rows[..|rows| - 1], rows[|rows| - 1];
      KeptBelow(front, before, n);
      assert last.id < n;
    }
  }

  // ---------------------------------------------------------------- a run that reaches the bound

  const TARGET := "a@b.cn"
  const CODE := "123456"
  const ADDRESS := "10.0.0.1"

  function Sending(): Event {
    Create(TARGET, CODE, LOGIN, ADDRESS, 0)
  }

  function Looking(c: nat): Event {
    Find(c, TARGET, CODE, LOGIN, 0)
  }

  /** One code, then n look-ups of it, then k markings. */
  function Finds(n: nat): seq<Event> {
    if n == 0 then [Sending()] else Finds(n - 1) + [Looking(n - 1)]
  }

  function Marks(n: nat, k: nat): seq<Event> {
    if k == 0 then Finds(n) else Marks(n, k - 1) + [Mark(k - 1)]
  }

  function TheCode(used: bool): CodeRow {
    CodeRow(0, TARGET, CODE, LOGIN, CODE_LIFETIME, used, ADDRESS, 0)
  }

  lemma RunMore(es: seq<Event>, e: Event)
    ensures Run(es + [e]) == Next(Run(es), e)
  {
    assert (es + [e])[..|es|] == es;
  }

  lemma InFlightMore(es: seq<Event>, e: Event, id: nat, n: nat)
    requires AtMostInFlight(es, id, n) && |OneShot.Pending(Next(Run(es), e).calls, id)| <= n
    ensures AtMostInFlight(es + [e], id, n)
  {
    assert (es + [e])[..|es|] == es;
  }

  /** The one code, looked up by hi calls of which the first lo have marked it. */
  function Raced(lo: nat, hi: nat): State {
    State([TheCode(lo > 0)], 1, OneShot.CallsFrom<nat>(0, lo, hi), OneShot.Times<nat>(0, lo))
  }

  lemma FirstCode(n: nat)
    ensures Run(Finds(0)) == Raced(0, 0) && AtMostInFlight(Finds(0), 0, n)
  {
    var first := Sending();
    RunMore([], first);
    assert [] + [first] == Finds(0) && [TheCode(false)] == [] + [TheCode(false)];
    OneShot.CallsInFlight<nat>(0, 0, 0);
    InFlightMore([], first, 0, n);
  }

  lemma FindMore(k: nat)
    ensures Next(Raced(0, k), Looking(k)) == Raced(0, k + 1)
  {
    CodeIsFound();
  }

  lemma MarkMore(k: nat, n: nat)
    requires k < n
    ensures Next(Raced(k, n), Mark(k)) == Raced(k + 1, n)
  {
    var rows := [TheCode(k > 0)];
    assert rows[0].id == 0 && HasRow(rows, 0);
    assert MarkUsed(rows, 0) == [TheCode(true)];
    OneShot.FirstCallEnds<nat>(0, k, n);
  }

  lemma FindsRunOn(n: nat, k: nat)
    requires k < n && Run(Finds(k)) == Raced(0, k) && AtMostInFlight(Finds(k), 0, n)
    ensures Run(Finds(k + 1)) == Raced(0, k + 1) && AtMostInFlight(Finds(k + 1), 0, n)
  {
    RunMore(Finds(k), Looking(k));
    FindMore(k);
    OneShot.CallsInFlight<nat>(0, 0, k + 1);
    InFlightMore(Finds(k), Looking(k), 0, n);
  }

  lemma {:induction false} FindsRun(n: nat, k: nat)
    requires k <= n
    ensures Run(Finds(k)) == Raced(0, k) && AtMostInFlight(Finds(k), 0, n)
  {
    if k == 0 {
      FirstCode(n);
    } else {
      FindsRun(n, k - 1);
      FindsRunOn(n, k - 1);
    }
  }

  lemma CodeIsFound()
    ensures FindValid([TheCode(false)], TARGET, CODE, LOGIN, 0) == Some(TheCode(false))
  {
    assert [TheCode(false)][..0] == [];
  }

  lemma {:induction false} MarksRun(n: nat, k: nat)
    requires k <= n
    ensures Run(Marks(n, k)) == Raced(k, n) && AtMostInFlight(Marks(n, k), 0, n)
  {
    if k == 0 {
      FindsRun(n, n);
    } else {
      MarksRun(n, k - 1);
      RunMore(Marks(n, k - 1), Mark(k - 1));
      MarkMore(k - 1, n);
      OneShot.CallsInFlight<nat>(0, k, n);
      InFlightMore(Marks(n, k - 1), Mark(k - 1), 0, n);
    }
  }

  // ---------------------------------------------------------------- the bound

  /** With at most n verifications of a row in flight, no row is accepted more than b times. */
  ghost predicate AcceptedAtMost(n: nat, b: nat) {
    forall es, id :: AtMostInFlight(es, id, n) ==> Occurrences(Run(es).accepted, id) <= b
  }

  /** A code is accepted as often as verifications of it overlap, and no oftener: once exactly when they come one by one. */
  lemma AcceptedAtMostIff(n: nat, b: nat)
    ensures AcceptedAtMost(n, b) <==> n <= b
  {
    if n <= b {
      forall es, id | AtMostInFlight(es, id, n)
        ensures Occurrences(Run(es).accepted, id) <= b
      {
        RunIsOneShot(es, id, n);
      }
    } else {
      MarksRun(n, n);
      OneShot.TimesOccur<nat>(0, n);
      assert Occurrences(Run(Marks(n, n)).accepted, 0) == n;
    }
  }
}

/** Verifying codes over whole runs: cleanup is invisible, every code works once, for what it was sent for, in time. */
module OneTimeCodes {
  import opened Common
  import opened Verification

  datatype Event =
    | Create(target: string, code: string, codeType: CodeType, ip: string, now: int)
    | Verify(target: string, code: string, codeType: CodeType, now: int)
    | Clean(now: int)

  datatype State = State(rows: seq<CodeRow>, nextId: nat)

  /** cleaning: whether cleanup events delete or are left out. */
  function Next(s: State, e: Event, cleaning: bool): State {
    match e
    case Create(target, code, t, ip, now) =>
      State(s.rows + [CodeRow(s.nextId, target, code, t, now + CODE_LIFETIME, false, ip, now)], s.nextId + 1)
    case Verify(target, code, t, now) => s.(rows := VerifyOnce(s.rows, target, code, t, now).1)
    case Clean(now) => if cleaning then s.(rows := Kept(s.rows, now)) else s
  }

  function Run(es: seq<Event>, cleaning: bool): State {
    if es == [] then State([], 0) else Next(Run(es[..|es| - 1], cleaning), es[|es| - 1], cleaning)
  }

  /** The code row the k-th event accepts, if it is a verification that succeeds. */
  function Accepted(es: seq<Event>, k: nat, cleaning: bool): Option<CodeRow>
    requires k < |es|
  {
    match es[k]
    case Verify(target, code, t, now) => FindValid(Run(es[..k], cleaning).rows, target, code, t, now)
    case _ => None
  }

  ghost predicate InOrder(es: seq<Event>) {
    forall i, j :: 0 <= i < j < |es| ==> es[i].now <= es[j].now
  }

  // ---------------------------------------------------------------- cleanup is invisible

  lemma FindValidAppend(rows: seq<CodeRow>, r: CodeRow, target: string, code: string, t: CodeType, now: int)
    ensures var best := FindValid(rows, target, code, t, now);
            FindValid(rows + [r], target, code, t, now)
              == if Acceptable(r, target, code, t, now) && (best.None? || r.createdAt >= best.value.createdAt)
                 then Some(r) else best
  {
    assert (rows + [r])[..|rows|] == rows;
  }

  lemma FindOneMoreKept(front: seq<CodeRow>, last: CodeRow, before: int, target: string, code: string, t: CodeType, now: int)
    requires before <= now && FindValid(Kept(front, before), target, code, t, now) == FindValid(front, target, code, t, now)
    ensures FindValid(Kept(front + [last], before), target, code, t, now) == FindValid(front + [last], target, code, t, now)
  {
    FindValidAppend(front, last, target, code, t, now);
    FindValidAppend(Kept(front, before), last, target, code, t, now);
    KeptAppend(front, last, before);
    assert Kept(front, before) + [] == Kept(front, before);
  }

  lemma {:induction false} FindAmongKept(rows: seq<CodeRow>, before: int, target: string, code: string, t: CodeType, now: int)
    requires before <= now
    ensures FindValid(Kept(rows, before), target, code, t, now) == FindValid(rows, target, code, t, now)
  {
    if rows != [] {
      var front, last := rows[..|rows| - 1], rows[|rows| - 1];
      assert rows == front + [last];
      FindAmongKept(front, before, target, code, t, now);
      FindOneMoreKept(front, last, before, target, code, t, now);
    }
  }

  lemma {:induction false} MarkAmongKept(rows: seq<CodeRow>, before: int, id: nat)
    ensures Kept(MarkUsed(rows, id), before) == MarkUsed(Kept(rows, before), id)
  {
    if rows != [] {
      var n := |rows| - 1;
      MarkAmongKept(rows[..n], before, id);
      assert MarkUsed(rows, id)[..n] == MarkUsed(rows[..n], id);
      assert Kept(rows[..n], before) + [] == Kept(rows[..n], before);
      var marked := if rows[n].id == id then rows[n].(used := true) else rows[n];
      assert MarkUsed(Kept(rows[..n], before) + [rows[n]], id) == MarkUsed(Kept(rows[..n], before), id) + [marked];
      assert Kept(MarkUsed(rows[..n], id), before) + [] == Kept(MarkUsed(rows[..n], id), before);
    }
  }

  function CutAt(rows: seq<CodeRow>, cutoff: Option<int>): seq<CodeRow> {
    if cutoff.Some? then Kept(rows, cutoff.value) else rows
  }

  /** With cleanup the table is what the last cut-off leaves of the table without. */
  lemma {:induction false} CleanedRunIsCut(es: seq<Event>) returns (cutoff: Option<int>)
    requires InOrder(es)
    ensures cutoff.Some? ==> es != [] && cutoff.value <= es[|es| - 1].now
    ensures Run(es, true) == State(CutAt(Run(es, false).rows, cutoff), Run(es, false).nextId)
  {
    if es == [] {
      cutoff := None;
    } else {
      var n := |es| - 1;
      cutoff := CleanedRunIsCut(es[..n]);
      var s := Run(es[..n], false);
      match es[n] {
        case Create(target, code, t, ip, now) =>
          if cutoff.Some? {
            KeptAppend(s.rows, CodeRow(s.nextId, target, code, t, now + CODE_LIFETIME, false, ip, now), cutoff.value);
          }
        case Verify(target, code, t, now) =>
          if cutoff.Some? {
            FindAmongKept(s.rows, cutoff.value, target, code, t, now);
            var found := FindValid(s.rows, target, code, t, now);
            if found.Some? {
              MarkAmongKept(s.rows, cutoff.value, found.value.id);
            }
          }
        case Clean(now) =>
          if cutoff.Some? {
            KeptTwice(s.rows, cutoff.value, now);
          }
          cutoff := Some(now);
      }
    }
  }

  /** Deleting expired codes changes no answer, now or later. */
  lemma CleanupIsInvisible(es: seq<Event>, k: nat)
    requires InOrder(es) && k < |es|
    ensures Accepted(es, k, true) == Accepted(es, k, false)
  {
    assert InOrder(es[..k]);
    var cutoff := CleanedRunIsCut(es[..k]);
    if es[k].Verify? && cutoff.Some? {
      var Verify(target, code, t, now) := es[k];
      FindAmongKept(Run(es[..k], false).rows, cutoff.value, target, code, t, now);
    }
  }

  // ---------------------------------------------------------------- once, for its own target and type, in time

  /** A row carries what its creating event asked for. */
  ghost predicate CameFrom(es: seq<Event>, r: CodeRow, i: nat) {
    && i < |es| && es[i].Create?
    && r.target == es[i].target && r.code == es[i].code && r.codeType == es[i].codeType
    && r.createdAt == es[i].now && r.expiresAt == es[i].now + CODE_LIFETIME
  }

  ghost predicate HasOrigin(es: seq<Event>, r: CodeRow) {
    exists i :: CameFrom(es, r, i)
  }

  lemma {:induction false} KeptIsSubset(rows: seq<CodeRow>, before: int)
    ensures forall r :: r in Kept(rows, before) <==> r in rows && r.expiresAt >= before
  {
    if rows != [] {
      var n := |rows| - 1;
      KeptIsSubset(rows[..n], before);
      assert rows == rows[..n] + [rows[n]];
    }
  }

  lemma {:induction false} RowsHaveOrigins(es: seq<Event>, cleaning: bool)
    ensures forall r :: r in Run(es, cleaning).rows ==> HasOrigin(es, r) && r.id < Run(es, cleaning).nextId
  {
    if es != [] {
      var n := |es| - 1;
      var s := Run(es[..n], cleaning);
      RowsHaveOrigins(es[..n], cleaning);
      forall r | HasOrigin(es[..n], r)
        ensures HasOrigin(es, r)
      {
        var i :| CameFrom(es[..n], r, i);
        assert CameFrom(es, r, i);
      }
      forall r | r in Run(es, cleaning).rows
        ensures HasOrigin(es, r) && r.id < Run(es, cleaning).nextId
      {
        match es[n] {
          case Create(_, _, _, _, _) =>
            if r !in s.rows {
              assert CameFrom(es, r, n);
            }
          case Verify(target, code, t, now) =>
            var i :| 0 <= i < |Run(es, cleaning).rows| && Run(es, cleaning).rows[i] == r;
            assert s.rows[i] in s.rows && HasOrigin(es, s.rows[i]);
            var o :| CameFrom(es, s.rows[i], o);
            assert CameFrom(es, r, o);
          case Clean(now) => KeptIsSubset(s.rows, now);
        }
      }
    }
  }

  /** What is accepted was sent to that target, with that code and type, less than five minutes before. */
  lemma AcceptedWasSent(es: seq<Event>, k: nat, cleaning: bool) returns (i: nat)
    requires k < |es| && Accepted(es, k, cleaning).Some?
    ensures i < k && es[i].Create? && es[k].Verify?
    ensures es[i].target == es[k].target && es[i].code == es[k].code && es[i].codeType == es[k].codeType
    ensures es[k].now < es[i].now + CODE_LIFETIME
  {
    RowsHaveOrigins(es[..k], cleaning);
    var r := Accepted(es, k, cleaning).value;
    i :| CameFrom(es[..k], r, i);
  }

  lemma SpentStays(s: State, e: Event, cleaning: bool, id: nat)
    requires Spent(s.rows, id) && id < s.nextId
    ensures Spent(Next(s, e, cleaning).rows, id) && id < Next(s, e, cleaning).nextId
  {
    if e.Clean? && cleaning {
      KeptStaySpent(s.rows, e.now, id);
    }
  }

  lemma {:induction false} SpentForever(es: seq<Event>, i: nat, k: nat, cleaning: bool, id: nat)
    requires i <= k <= |es| && Spent(Run(es[..i], cleaning).rows, id) && id < Run(es[..i], cleaning).nextId
    ensures Spent(Run(es[..k], cleaning).rows, id)
    ensures id < Run(es[..k], cleaning).nextId
    decreases k
  {
    if i < k {
      SpentForever(es, i, k - 1, cleaning, id);
      assert es[..k][..k - 1] == es[..k - 1];
      SpentStays(Run(es[..k - 1], cleaning), es[k - 1], cleaning, id);
    }
  }

  /** No code is accepted twice. */
  lemma AcceptedOnce(es: seq<Event>, i: nat, k: nat, cleaning: bool)
    requires i < k < |es| && Accepted(es, i, cleaning).Some? && Accepted(es, k, cleaning).Some?
    ensures Accepted(es, i, cleaning).value.id != Accepted(es, k, cleaning).value.id
  {
    var id := Accepted(es, i, cleaning).value.id;
    assert es[..i + 1][..i] == es[..i];
    RowsHaveOrigins(es[..i], cleaning);
    assert Spent(Run(es[..i + 1], cleaning).rows, id);
    SpentForever(es, i + 1, k, cleaning, id);
  }

  // ---------------------------------------------------------------- when a verification succeeds

  /** The row number of the code that event i creates: the codes created before it. */
  function RowOf(es: seq<Event>, i: nat): nat
    requires i <= |es|
  {
    Run(es[..i], false).nextId
  }

  /** A verification after event i accepted that event's code. */
  ghost predicate UsedUp(es: seq<Event>, i: nat)
    requires i < |es|
  {
    exists j :: i < j < |es| && Accepted(es, j, false).Some? && Accepted(es, j, false).value.id == RowOf(es, i)
  }

  /** Row p is the code of event i: every column, and used exactly when it was accepted. */
  ghost predicate Stands(es: seq<Event>, p: nat, i: nat) {
    && p < |Run(es, false).rows| && i < |es| && es[i].Create? && RowOf(es, i) == p
    && var r := Run(es, false).rows[p];
       && r.id == p && r.target == es[i].target && r.code == es[i].code && r.codeType == es[i].codeType
       && r.ip == es[i].ip && r.createdAt == es[i].now && r.expiresAt == es[i].now + 300000
       && (r.used <==> UsedUp(es, i))
  }

  lemma UsedUpLater(es: seq<Event>, e: Event, i: nat)
    requires i < |es|
    ensures UsedUp(es + [e], i) <==>
              UsedUp(es, i)
              || (Accepted(es + [e], |es|, false).Some? && Accepted(es + [e], |es|, false).value.id == RowOf(es, i))
  {
    var more := es + [e];
    assert more[..i] == es[..i] && more[..|es|] == es;
    forall j | 0 <= j < |es|
      ensures Accepted(more, j, false) == Accepted(es, j, false)
    {
      assert more[..j] == es[..j];
    }
  }

  lemma StandsLater(es: seq<Event>, e: Event, p: nat, i: nat)
    requires Stands(es, p, i)
    ensures Stands(es + [e], p, i)
  {
    var more := es + [e];
    assert more[..i] == es[..i] && more[..|es|] == es;
    UsedUpLater(es, e, i);
  }

  lemma {:induction false} EveryRowStands(es: seq<Event>, p: nat) returns (i: nat)
    requires p < |Run(es, false).rows|
    ensures |Run(es, false).rows| == Run(es, false).nextId && Stands(es, p, i)
  {
    var n := |es| - 1;
    RowsAreNumbered(es[..n]);
    assert es[..n] + [es[n]] == es;
    if p < |Run(es[..n], false).rows| {
      i := EveryRowStands(es[..n], p);
      StandsLater(es[..n], es[n], p, i);
    } else {
      i := n;
    }
  }

  lemma {:induction false} RowsAreNumbered(es: seq<Event>)
    ensures |Run(es, false).rows| == Run(es, false).nextId
  {
    if es != [] {
      RowsAreNumbered(es[..|es| - 1]);
    }
  }

  lemma {:induction false} EveryCodeStands(es: seq<Event>, i: nat)
    requires i < |es| && es[i].Create?
    ensures Stands(es, RowOf(es, i), i)
  {
    var n := |es| - 1;
    assert es[..n] + [es[n]] == es;
    RowsAreNumbered(es[..n]);
    if i < n {
      EveryCodeStands(es[..n], i);
      assert es[..n][..i] == es[..i];
      StandsLater(es[..n], es[n], RowOf(es, i), i);
    }
  }

  /** The code of event i was sent for what event k asks, less than five minutes before, and not accepted in between. */
  ghost predicate Good(es: seq<Event>, i: nat, k: nat)
    requires k < |es|
  {
    && i < k && es[i].Create? && es[k].Verify?
    && es[i].target == es[k].target && es[i].code == es[k].code && es[i].codeType == es[k].codeType
    && es[k].now < es[i].now + 300000 && !UsedUp(es[..k], i)
  }

  lemma GoodIsAcceptable(es: seq<Event>, i: nat, k: nat)
    requires k < |es| && i < k && es[i].Create? && es[k].Verify?
    ensures var rows, p := Run(es[..k], false).rows, RowOf(es, i);
            p < |rows| && rows[p].id == p && rows[p].createdAt == es[i].now
            && (Good(es, i, k) <==> Acceptable(rows[p], es[k].target, es[k].code, es[k].codeType, es[k].now))
  {
    EveryCodeStands(es[..k], i);
    assert es[..k][..i] == es[..i];
  }

  /**
   * A verification succeeds exactly when such a code was sent, cleanup or not; it accepts the newest of them.
   */
  lemma AcceptedIffSent(es: seq<Event>, k: nat, cleaning: bool)
    requires InOrder(es) && k < |es|
    ensures Accepted(es, k, cleaning).Some? <==> exists i: nat :: Good(es, i, k)
    ensures forall i: nat :: Good(es, i, k) ==> es[i].now <= Accepted(es, k, cleaning).value.createdAt
    ensures Accepted(es, k, cleaning).Some? ==>
              exists i: nat :: Good(es, i, k) && Accepted(es, k, cleaning).value.id == RowOf(es, i)
                          && Accepted(es, k, cleaning).value.createdAt == es[i].now
  {
    if cleaning {
      CleanupIsInvisible(es, k);
    }
    var rows, found := Run(es[..k], false).rows, Accepted(es, k, false);
    forall i: nat | Good(es, i, k)
      ensures found.Some? && es[i].now <= found.value.createdAt
    {
      GoodIsAcceptable(es, i, k);
      assert rows[RowOf(es, i)] in rows;
    }
    if found.Some? {
      var p :| 0 <= p < |rows| && rows[p] == found.value;
      var i := EveryRowStands(es[..k], p);
      assert es[..k][..i] == es[..i];
      GoodIsAcceptable(es, i, k);
      assert Good(es, i, k);
    }
  }
}

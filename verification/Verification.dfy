/** One-time codes: verification.service.ts over the store of verification.repository.ts. */
module Verification {
  import opened Callers
  import opened Common
  import opened Validators

  datatype CodeType = REGISTER | LOGIN | RESET_PASSWORD

  datatype CodeRow = CodeRow(
    id: nat, target: string, code: string, codeType: CodeType, expiresAt: int, used: bool, ip: string, createdAt: int)

  const CODE_LIFETIME := 5 * 60 * 1000
  const ONE_HOUR := 60 * 60 * 1000
  const ONE_DAY := 24 * 60 * 60 * 1000
  const TARGET_LIMIT := 5
  const IP_LIMIT := 20

  // ---------------------------------------------------------------- the store

  predicate Acceptable(r: CodeRow, target: string, code: string, codeType: CodeType, now: int) {
    r.target == target && r.code == code && r.codeType == codeType && !r.used && r.expiresAt > now
  }

  /** The newest acceptable row; of two created at the same instant, the one inserted later. */
  function FindValid(rows: seq<CodeRow>, target: string, code: string, codeType: CodeType, now: int): (r: Option<CodeRow>)
    ensures r.Some? ==> r.value in rows && Acceptable(r.value, target, code, codeType, now)
    ensures r.None? ==> forall x :: x in rows ==> !Acceptable(x, target, code, codeType, now)
    ensures r.Some? ==> forall x :: x in rows && Acceptable(x, target, code, codeType, now) ==> x.createdAt <= r.value.createdAt
  {
    if rows == [] then None
    else
      var last := rows[|rows| - 1];
      var best := FindValid(rows[..|rows| - 1], target, code, codeType, now);
      if Acceptable(last, target, code, codeType, now) && (best.None? || last.createdAt >= best.value.createdAt)
      then Some(last) else best
  }

  function MarkUsed(rows: seq<CodeRow>, id: nat): seq<CodeRow> {
    seq(|rows|, i requires 0 <= i < |rows| => if rows[i].id == id then rows[i].(used := true) else rows[i])
  }

  /** The rows that a cleanup with this cut-off leaves. */
  function Kept(rows: seq<CodeRow>, before: int): seq<CodeRow> {
    if rows == [] then []
    else
      var n := |rows| - 1;
      Kept(rows[..n], before) + if rows[n].expiresAt < before then [] else [rows[n]]
  }

  function CountSince(rows: seq<CodeRow>, k: Key, since: int): nat {
    if rows == [] then 0
    else
      var n := |rows| - 1;
      CountSince(rows[..n], k, since) + if Concerns(k, rows[n].target, rows[n].ip) && rows[n].createdAt >= since then 1 else 0
  }

  /** The rows for a key that were created since. */
  function RowsSince(rows: seq<CodeRow>, k: Key, since: int): set<int> {
    set i | 0 <= i < |rows| && Concerns(k, rows[i].target, rows[i].ip) && rows[i].createdAt >= since
  }

  lemma {:induction false} CountsAreRows(rows: seq<CodeRow>, k: Key, since: int)
    ensures CountSince(rows, k, since) == |RowsSince(rows, k, since)|
  {
    if rows == [] {
      assert RowsSince(rows, k, since) == {};
    } else {
      var n := |rows| - 1;
      CountsAreRows(rows[..n], k, since);
      var added := if Concerns(k, rows[n].target, rows[n].ip) && rows[n].createdAt >= since then {n} else {};
      OneMoreRow(rows, k, since, added);
    }
  }

  lemma OneMoreRow(rows: seq<CodeRow>, k: Key, since: int, added: set<int>)
    requires rows != []
    requires var n := |rows| - 1;
             added == if Concerns(k, rows[n].target, rows[n].ip) && rows[n].createdAt >= since then {n} else {}
    ensures RowsSince(rows, k, since) == RowsSince(rows[..|rows| - 1], k, since) + added
  {
  }

  lemma CountOfTarget(rows: seq<CodeRow>, target: string, since: int)
    ensures CountSince(rows, OfTarget(target), since)
         == |set i | 0 <= i < |rows| && rows[i].target == target && rows[i].createdAt >= since|
  {
    CountsAreRows(rows, OfTarget(target), since);
    assert RowsSince(rows, OfTarget(target), since)
        == (set i | 0 <= i < |rows| && rows[i].target == target && rows[i].createdAt >= since);
  }

  lemma CountOfAddress(rows: seq<CodeRow>, ip: string, since: int)
    ensures CountSince(rows, OfIp(ip), since)
         == |set i | 0 <= i < |rows| && rows[i].ip == ip && rows[i].createdAt >= since|
  {
    CountsAreRows(rows, OfIp(ip), since);
    assert RowsSince(rows, OfIp(ip), since) == (set i | 0 <= i < |rows| && rows[i].ip == ip && rows[i].createdAt >= since);
  }

  datatype SendLimit = SendLimit(sendCount: nat, lastSentAt: int)

  type Limits = map<(string, string), SendLimit>

  function Bumped(limits: Limits, target: string, ip: string, at: int): Limits {
    limits[(target, ip) := SendLimit(1 + if (target, ip) in limits then limits[(target, ip)].sendCount else 0, at)]
  }

  class VerificationStore {
    var rows: seq<CodeRow>
    var nextId: nat
    var limits: Limits

    constructor ()
      ensures rows == [] && nextId == 0 && limits == map[]
    {
      rows, nextId, limits := [], 0, map[];
    }

    method CreateVerificationCode(target: string, code: string, codeType: CodeType, expiresAt: int, ip: string, now: int)
      modifies this
      ensures rows == old(rows) + [CodeRow(old(nextId), target, code, codeType, expiresAt, false, ip, now)]
      ensures nextId == old(nextId) + 1 && limits == old(limits)
    {
      rows := rows + [CodeRow(nextId, target, code, codeType, expiresAt, false, ip, now)];
      nextId := nextId + 1;
    }

    method FindValidVerificationCode(target: string, code: string, codeType: CodeType, now: int) returns (r: Option<CodeRow>)
      ensures r == FindValid(rows, target, code, codeType, now)
    {
      r := FindValid(rows, target, code, codeType, now);
    }

    method MarkVerificationCodeUsed(id: nat)
      modifies this`rows
      ensures rows == MarkUsed(old(rows), id)
    {
      rows := MarkUsed(rows, id);
    }

    method DeleteExpiredVerificationCodes(before: int) returns (count: nat)
      modifies this`rows
      ensures rows == Kept(old(rows), before) && count == |old(rows)| - |rows|
    {
      KeptIsShorter(rows, before);
      count := |rows| - |Kept(rows, before)|;
      rows := Kept(rows, before);
    }

    method UpsertSendLimit(target: string, ip: string, at: int)
      modifies this`limits
      ensures limits == Bumped(old(limits), target, ip, at)
      ensures forall p :: p in limits <==> p in old(limits) || p == (target, ip)
      ensures forall p :: p in old(limits) && p != (target, ip) ==> limits[p] == old(limits)[p]
      ensures limits[(target, ip)].lastSentAt == at
      ensures limits[(target, ip)].sendCount
           == 1 + if (target, ip) in old(limits) then old(limits)[(target, ip)].sendCount else 0
    {
      if (target, ip) in limits {
        limits := limits[(target, ip) := SendLimit(limits[(target, ip)].sendCount + 1, at)];
      } else {
        limits := limits[(target, ip) := SendLimit(1, at)];
      }
    }
  }

  lemma {:induction false} KeptIsShorter(rows: seq<CodeRow>, before: int)
    ensures |Kept(rows, before)| <= |rows|
  {
    if rows != [] {
      KeptIsShorter(rows[..|rows| - 1], before);
    }
  }

  lemma {:induction false} KeptAppend(rows: seq<CodeRow>, r: CodeRow, before: int)
    ensures Kept(rows + [r], before) == Kept(rows, before) + if r.expiresAt < before then [] else [r]
  {
    assert (rows + [r])[..|rows|] == rows;
  }

  /** Cleaning what was already cleaned with a smaller cut-off is cleaning once. */
  lemma {:induction false} KeptTwice(rows: seq<CodeRow>, a: int, b: int)
    requires a <= b
    ensures Kept(Kept(rows, a), b) == Kept(rows, b)
  {
    if rows != [] {
      var n := |rows| - 1;
      KeptTwice(rows[..n], a, b);
      if rows[n].expiresAt >= a {
        KeptAppend(Kept(rows[..n], a), rows[n], b);
      } else {
        assert Kept(rows, a) == Kept(rows[..n], a) && Kept(rows, b) == Kept(rows[..n], b);
      }
    }
  }

  // ---------------------------------------------------------------- used rows

  /** No row with the id can be found any more. */
  ghost predicate Spent(rows: seq<CodeRow>, id: nat) {
    forall i :: 0 <= i < |rows| && rows[i].id == id ==> rows[i].used
  }

  lemma MarkedIsSpent(rows: seq<CodeRow>, marked: nat, id: nat)
    ensures Spent(MarkUsed(rows, marked), id) <==> id == marked || Spent(rows, id)
  {
    var after := MarkUsed(rows, marked);
    assert forall i :: 0 <= i < |rows| ==> after[i].id == rows[i].id;
    if id != marked {
      assert forall i :: 0 <= i < |rows| && rows[i].id == id ==> after[i] == rows[i];
    }
  }

  lemma {:induction false} KeptStaySpent(rows: seq<CodeRow>, before: int, id: nat)
    requires Spent(rows, id)
    ensures Spent(Kept(rows, before), id)
  {
    if rows != [] {
      var front, last := rows[..|rows| - 1], rows[|rows| - 1];
      KeptStaySpent(front, before, id);
      assert last.id == id ==> last.used;
    }
  }

  // ---------------------------------------------------------------- the service

  datatype SendCheck = MaySend | TargetTooOften | IpTooOften

  function CheckSend(rows: seq<CodeRow>, target: string, ip: string, now: int): SendCheck {
    if CountSince(rows, OfTarget(target), now - ONE_HOUR) >= TARGET_LIMIT then TargetTooOften
    else if CountSince(rows, OfIp(ip), now - ONE_DAY) >= IP_LIMIT then IpTooOften
    else MaySend
  }

  /** Five codes for the target in an hour, or twenty from the address in a day, are the most; the target is judged first. */
  ghost predicate ChecksInWords(check: SendCheck, rows: seq<CodeRow>, target: string, ip: string, now: int) {
    var hour := |set i | 0 <= i < |rows| && rows[i].target == target && rows[i].createdAt >= now - 3600000|;
    var day := |set i | 0 <= i < |rows| && rows[i].ip == ip && rows[i].createdAt >= now - 86400000|;
    && (check == TargetTooOften <==> hour >= 5)
    && (check == IpTooOften <==> hour < 5 && day >= 20)
  }

  lemma CheckInWords(rows: seq<CodeRow>, target: string, ip: string, now: int)
    ensures ChecksInWords(CheckSend(rows, target, ip, now), rows, target, ip, now)
  {
    CountOfTarget(rows, target, now - 3600000);
    CountOfAddress(rows, ip, now - 86400000);
  }

  datatype SendResult = InvalidTarget | TooOften(check: SendCheck) | DeliveryFailed | Sent

  class VerificationService {
    const store: VerificationStore

    constructor (store: VerificationStore)
      ensures this.store == store
    {
      this.store := store;
    }

    /** code is the random six-digit code. */
    method SendCode(target: string, codeType: CodeType, ip: string, now: int, code: string, delivered: bool)
      returns (r: SendResult)
      modifies store
      ensures r == InvalidTarget <==> !ValidTarget(target)
      ensures ValidTarget(target) ==>
                (r == TooOften(CheckSend(old(store.rows), target, ip, now))
                 <==> CheckSend(old(store.rows), target, ip, now) != MaySend)
      ensures ValidTarget(target) ==>
                ChecksInWords(if r.TooOften? then r.check else MaySend, old(store.rows), target, ip, now)
      ensures r == Sent || r == DeliveryFailed ==>
                store.rows == old(store.rows)
                  + [CodeRow(old(store.nextId), target, code, codeType, now + CODE_LIFETIME, false, ip, now)]
      ensures r == Sent <==> ValidTarget(target) && CheckSend(old(store.rows), target, ip, now) == MaySend && delivered
      ensures r.InvalidTarget? || r.TooOften? ==> store.rows == old(store.rows)
      ensures store.nextId == old(store.nextId) + if r == Sent || r == DeliveryFailed then 1 else 0
      ensures store.limits == if r == Sent then Bumped(old(store.limits), target, ip, now) else old(store.limits)
    {
      if !ValidTarget(target) {
        return InvalidTarget;
      }
      var check := CheckSend(store.rows, target, ip, now);
      CheckInWords(store.rows, target, ip, now);
      if check != MaySend {
        return TooOften(check);
      }
      var expiresAt := now + CODE_LIFETIME;
      store.CreateVerificationCode(target, code, codeType, expiresAt, ip, now);
      if !delivered {
        return DeliveryFailed;
      }
      store.UpsertSendLimit(target, ip, now);
      return Sent;
    }

    method VerifyCode(target: string, code: string, codeType: CodeType, now: int) returns (valid: bool)
      modifies store`rows
      ensures (valid, store.rows) == VerifyOnce(old(store.rows), target, code, codeType, now)
    {
      var row := store.FindValidVerificationCode(target, code, codeType, now);
      if row.None? {
        return false;
      }
      store.MarkVerificationCodeUsed(row.value.id);
      return true;
    }

    method CleanExpiredCodes(now: int) returns (count: nat)
      modifies store`rows
      ensures store.rows == Kept(old(store.rows), now) && count == |old(store.rows)| - |store.rows|
    {
      count := store.DeleteExpiredVerificationCodes(now);
    }
  }

  /** Every send of a code that reached its target. */
  type Sends = seq<(string, string, int)>

  function LimitsAfter(sends: Sends): Limits {
    if sends == [] then map[]
    else
      var n := |sends| - 1;
      Bumped(LimitsAfter(sends[..n]), sends[n].0, sends[n].1, sends[n].2)
  }

  function SendsOf(sends: Sends, pair: (string, string)): set<int> {
    set i | 0 <= i < |sends| && (sends[i].0, sends[i].1) == pair
  }

  lemma OneMoreSend(sends: Sends, pair: (string, string))
    requires sends != []
    ensures var n := |sends| - 1;
            SendsOf(sends, pair) == SendsOf(sends[..n], pair) + if (sends[n].0, sends[n].1) == pair then {n} else {}
  {
  }

  /** Over a run the counter of a pair is the number of its sends. */
  lemma {:induction false} CounterIsSends(sends: Sends, pair: (string, string))
    ensures pair in LimitsAfter(sends) <==> SendsOf(sends, pair) != {}
    ensures pair in LimitsAfter(sends) ==> LimitsAfter(sends)[pair].sendCount == |SendsOf(sends, pair)|
  {
    if sends != [] {
      CounterIsSends(sends[..|sends| - 1], pair);
      OneMoreSend(sends, pair);
    }
  }

  /** Its instant is that of the last one. */
  lemma {:induction false} LastSentIsLast(sends: Sends, i: nat)
    requires i < |sends|
    requires forall j :: i < j < |sends| ==> (sends[j].0, sends[j].1) != (sends[i].0, sends[i].1)
    ensures var pair := (sends[i].0, sends[i].1);
            pair in LimitsAfter(sends) && LimitsAfter(sends)[pair].lastSentAt == sends[i].2
  {
    if i < |sends| - 1 {
      LastSentIsLast(sends[..|sends| - 1], i);
    }
  }

  function VerifyOnce(rows: seq<CodeRow>, target: string, code: string, codeType: CodeType, now: int): (bool, seq<CodeRow>) {
    match FindValid(rows, target, code, codeType, now)
    case None => (false, rows)
    case Some(r) => (true, MarkUsed(rows, r.id))
  }
}

/** Who a limited call is for, and the calls that have passed their check but not yet written. */
module Callers {
  import opened Validators
  import Decimal

  /** The two ways rows are counted. */
  datatype Key = OfTarget(target: string) | OfIp(ip: string)

  predicate Concerns(k: Key, target: string, ip: string) {
    match k case OfTarget(t) => t == target case OfIp(i) => i == ip
  }

  datatype Call = Call(target: string, ip: string)

  function Pending(calls: map<nat, Call>, k: Key): set<nat> {
    set id | id in calls && Concerns(k, calls[id].target, calls[id].ip)
  }

  lemma PendingWith(calls: map<nat, Call>, k: Key, id: nat, c: Call)
    requires id !in calls
    ensures |Pending(calls[id := c], k)| == |Pending(calls, k)| + if Concerns(k, c.target, c.ip) then 1 else 0
  {
    assert Pending(calls[id := c], k) == Pending(calls, k) + if Concerns(k, c.target, c.ip) then {id} else {};
  }

  lemma PendingWithout(calls: map<nat, Call>, k: Key, id: nat)
    requires id in calls
    ensures |Pending(calls, k)|
         == |Pending(calls - {id}, k)| + if Concerns(k, calls[id].target, calls[id].ip) then 1 else 0
  {
    assert Pending(calls, k)
        == Pending(calls - {id}, k) + if Concerns(k, calls[id].target, calls[id].ip) then {id} else {};
  }

  // ---------------------------------------------------------------- callers that meet in one key only

  /** The n-th of a family of calls that all concern k and differ pairwise in the other key. */
  function CallFor(k: Key, n: nat): Call {
    match k case OfTarget(t) => Call(t, Decimal.Natural(n)) case OfIp(ip) => Call(MailOf(n), ip)
  }

  function OtherKey(k: Key, n: nat): Key {
    if k.OfTarget? then OfIp(Decimal.Natural(n)) else OfTarget(MailOf(n))
  }

  /** Their targets are all given and, unless k itself names another kind, mail addresses. */
  lemma CallIsValid(k: Key, n: nat)
    ensures k != OfTarget("") ==> CallFor(k, n).target != ""
    ensures (k.OfTarget? ==> ValidTarget(k.target)) ==> ValidTarget(CallFor(k, n).target)
  {
    MailIsValid(n);
    assert MailOf(n)[|MailOf(n)| - 5..] == "@a.cn" && |"@a.cn"| == 5;
  }

  /** Made by one of the first n of them. */
  ghost predicate Known(k: Key, n: nat, target: string, ip: string) {
    exists i: nat :: i < n && Call(target, ip) == CallFor(k, i)
  }

  lemma KnownConcerns(k: Key, n: nat, target: string, ip: string)
    requires Known(k, n, target, ip)
    ensures Concerns(k, target, ip) && !Concerns(OtherKey(k, n), target, ip) && Known(k, n + 1, target, ip)
  {
    var i: nat :| i < n && Call(target, ip) == CallFor(k, i);
    if k.OfTarget? {
      Decimal.NaturalsDiffer(i, n);
    } else {
      MailsDiffer(i, n);
    }
  }

  lemma NextIsKnown(k: Key, n: nat)
    ensures Known(k, n + 1, CallFor(k, n).target, CallFor(k, n).ip)
  {
    var c := CallFor(k, n);
    assert n < n + 1 && Call(c.target, c.ip) == CallFor(k, n);
  }

  /** The calls are among the first n of the family and carry lower numbers. */
  ghost predicate CallsKnown(calls: map<nat, Call>, k: Key, n: nat) {
    forall id :: id in calls ==> id < n && Known(k, n, calls[id].target, calls[id].ip)
  }

  lemma CallsStayKnown(calls: map<nat, Call>, k: Key, n: nat)
    requires CallsKnown(calls, k, n)
    ensures CallsKnown(calls, k, n + 1)
  {
    forall id | id in calls
      ensures Known(k, n + 1, calls[id].target, calls[id].ip)
    {
      KnownConcerns(k, n, calls[id].target, calls[id].ip);
    }
  }

  /** The next of the family joins them. */
  lemma NextJoins(calls: map<nat, Call>, k: Key, n: nat)
    requires CallsKnown(calls, k, n)
    ensures n !in calls && CallsKnown(calls[n := CallFor(k, n)], k, n + 1)
    ensures |Pending(calls[n := CallFor(k, n)], k)| == |Pending(calls, k)| + 1
  {
    CallsStayKnown(calls, k, n);
    NextIsKnown(k, n);
    PendingWith(calls, k, n, CallFor(k, n));
  }

  lemma SomeoneIsPending(calls: map<nat, Call>, k: Key) returns (id: nat)
    requires |Pending(calls, k)| > 0
    ensures id in calls
  {
    id :| id in Pending(calls, k);
  }
}

/**
 * Things that may be used once: look whether it is unspent, accept it and mark it spent some time later.
 * Look and mark are separate steps, as in verifying a code and in exchanging a refresh token.
 */
module OneShot {
  import opened Common

  /** What concerns one thing: whether it is spent, the calls that have found it unspent, how often it was accepted. */
  datatype View = View(spent: bool, pending: nat, accepted: nat)

  datatype Move = Pass | Accept | Abandon | Spoil | Idle

  predicate Allowed(n: nat, v: View, m: Move) {
    match m
    case Pass => !v.spent && v.pending < n
    case Accept => v.pending > 0
    case Abandon => v.pending > 0
    case _ => true
  }

  function After(v: View, m: Move): View {
    match m
    case Pass => v.(pending := v.pending + 1)
    case Accept => View(true, if v.pending > 0 then v.pending - 1 else 0, v.accepted + 1)
    case Abandon => v.(pending := if v.pending > 0 then v.pending - 1 else 0)
    case Spoil => v.(spent := true)
    case Idle => v
  }

  /** Whatever is still pending has passed before the first acceptance. */
  predicate Inv(n: nat, v: View) {
    v.accepted + v.pending <= n && (v.accepted > 0 ==> v.spent)
  }

  lemma StepKeepsInv(n: nat, v: View, m: Move)
    requires Inv(n, v) && Allowed(n, v, m)
    ensures Inv(n, After(v, m))
  {
  }

  // ---------------------------------------------------------------- calls per thing

  function Pending<K(==)>(calls: map<nat, K>, k: K): set<nat> {
    set c | c in calls && calls[c] == k
  }

  lemma PendingWith<K>(calls: map<nat, K>, c: nat, k: K, x: K)
    requires c !in calls
    ensures |Pending(calls[c := k], x)| == |Pending(calls, x)| + if x == k then 1 else 0
  {
    assert Pending(calls[c := k], x) == Pending(calls, x) + if x == k then {c} else {};
  }

  lemma PendingWithout<K>(calls: map<nat, K>, c: nat, x: K)
    requires c in calls
    ensures |Pending(calls, x)| == |Pending(calls - {c}, x)| + if x == calls[c] then 1 else 0
  {
    assert Pending(calls, x) == Pending(calls - {c}, x) + if x == calls[c] then {c} else {};
  }

  /** Calls lo to hi - 1, all about k. */
  function CallsFrom<K>(k: K, lo: nat, hi: nat): (calls: map<nat, K>)
    ensures forall c :: c in calls <==> lo <= c < hi
    ensures forall c :: c in calls ==> calls[c] == k
  {
    if hi <= lo then map[] else CallsFrom(k, lo, hi - 1)[hi - 1 := k]
  }

  lemma {:induction false} CallsInFlight<K>(k: K, lo: nat, hi: nat)
    requires lo <= hi
    ensures |Pending(CallsFrom(k, lo, hi), k)| == hi - lo
  {
    if lo < hi {
      CallsInFlight(k, lo, hi - 1);
      PendingWith(CallsFrom(k, lo, hi - 1), hi - 1, k, k);
    } else {
      assert Pending(CallsFrom(k, lo, hi), k) == {};
    }
  }

  lemma FirstCallEnds<K>(k: K, lo: nat, hi: nat)
    requires lo < hi
    ensures CallsFrom(k, lo, hi) - {lo} == CallsFrom(k, lo + 1, hi)
  {
  }

  function Times<K>(k: K, n: nat): seq<K> {
    if n == 0 then [] else Times(k, n - 1) + [k]
  }

  lemma {:induction false} TimesOccur<K>(k: K, n: nat)
    ensures Occurrences(Times(k, n), k) == n
  {
    if n > 0 {
      TimesOccur(k, n - 1);
      OneMoreOccurrence(Times(k, n - 1), k, k);
    }
  }
}

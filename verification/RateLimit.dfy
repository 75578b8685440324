/**
 * The limiter shared by login lockout and code sending: count the rows of a sliding window, refuse when
 * there are too many, write a row some time later. Check and write are separate steps.
 */
module RateLimit {
  /** window: length of the counting window; limit: rows that make the check refuse; inFlight: calls between check and write. */
  datatype Policy = Policy(window: nat, limit: nat, inFlight: nat)

  /** What one key sees: when its rows were written, how many calls have passed the check, the clock. */
  datatype View = View(sent: seq<int>, pending: nat, now: int)

  datatype Move = Pass | Write | Abandon | Tick(to: int) | Idle

  /** Rows of the closed interval [lo, hi]. */
  function CountIn(sent: seq<int>, lo: int, hi: int): nat {
    if sent == [] then 0
    else
      var n := |sent| - 1;
      CountIn(sent[..n], lo, hi) + if lo <= sent[n] <= hi then 1 else 0
  }

  /** A call passes only if the window up to now holds fewer rows than the limit. */
  ghost predicate Allowed(p: Policy, v: View, m: Move) {
    match m
    case Pass => CountIn(v.sent, v.now - p.window, v.now) < p.limit && v.pending < p.inFlight
    case Write => v.pending > 0
    case Abandon => v.pending > 0
    case Tick(to) => to >= v.now
    case Idle => true
  }

  function After(v: View, m: Move): View {
    match m
    case Pass => v.(pending := v.pending + 1)
    case Write => View(v.sent + [v.now], if v.pending > 0 then v.pending - 1 else 0, v.now)
    case Abandon => v.(pending := if v.pending > 0 then v.pending - 1 else 0)
    case Tick(to) => v.(now := to)
    case Idle => v
  }

  /** Rows of the closed window that starts at s. */
  function InWindow(sent: seq<int>, s: int, window: nat): nat {
    CountIn(sent, s, s + window)
  }

  /** Rows a window can hold at most. */
  function Bound(p: Policy): int {
    p.limit - 1 + p.inFlight
  }

  /** The rows of a window that can still grow, together with the calls that may still write into it, fit the bound. */
  ghost predicate Inv(p: Policy, v: View) {
    && (forall i :: 0 <= i < |v.sent| ==> v.sent[i] <= v.now)
    && v.pending <= p.inFlight
    && (forall s :: s + p.window >= v.now ==> CountIn(v.sent, s, v.now) + v.pending <= Bound(p))
    && (forall s :: InWindow(v.sent, s, p.window) <= Bound(p))
  }

  lemma {:induction false} CountGrows(sent: seq<int>, lo: int, hi: int, lo': int, hi': int)
    requires lo' <= lo && hi <= hi'
    ensures CountIn(sent, lo, hi) <= CountIn(sent, lo', hi')
  {
    if sent != [] {
      CountGrows(sent[..|sent| - 1], lo, hi, lo', hi');
    }
  }

  /** Beyond the last row the upper end makes no difference. */
  lemma {:induction false} CountUpTo(sent: seq<int>, lo: int, now: int, hi: int)
    requires now <= hi && forall i :: 0 <= i < |sent| ==> sent[i] <= now
    ensures CountIn(sent, lo, now) == CountIn(sent, lo, hi)
  {
    if sent != [] {
      CountUpTo(sent[..|sent| - 1], lo, now, hi);
    }
  }

  lemma CountAppend(sent: seq<int>, t: int, lo: int, hi: int)
    ensures CountIn(sent + [t], lo, hi) == CountIn(sent, lo, hi) + if lo <= t <= hi then 1 else 0
  {
    assert (sent + [t])[..|sent|] == sent;
  }

  lemma StepKeepsInv(p: Policy, v: View, m: Move)
    requires p.limit >= 1 && Inv(p, v) && Allowed(p, v, m)
    ensures Inv(p, After(v, m))
  {
    var v' := After(v, m);
    forall s | s + p.window >= v'.now
      ensures CountIn(v'.sent, s, v'.now) + v'.pending <= Bound(p)
    {
      match m {
        case Pass => CountGrows(v.sent, s, v.now, v.now - p.window, v.now);
        case Write => CountAppend(v.sent, v.now, s, v.now);
        case Tick(to) => CountUpTo(v.sent, s, v.now, to);
        case _ =>
      }
    }
    forall s
      ensures InWindow(v'.sent, s, p.window) <= Bound(p)
    {
      assert InWindow(v.sent, s, p.window) <= Bound(p);
      if m == Write {
        CountAppend(v.sent, v.now, s, s + p.window);
        if s + p.window >= v.now {
          CountUpTo(v.sent, s, v.now, s + p.window);
        }
      }
    }
  }

  // ---------------------------------------------------------------- runs

  function Run(ms: seq<Move>, start: int): View {
    if ms == [] then View([], 0, start) else After(Run(ms[..|ms| - 1], start), ms[|ms| - 1])
  }

  ghost predicate AllowedRun(p: Policy, ms: seq<Move>, start: int) {
    ms != [] ==> AllowedRun(p, ms[..|ms| - 1], start) && Allowed(p, Run(ms[..|ms| - 1], start), ms[|ms| - 1])
  }

  lemma {:induction false} RunKeepsInv(p: Policy, ms: seq<Move>, start: int)
    requires p.limit >= 1 && AllowedRun(p, ms, start)
    ensures Inv(p, Run(ms, start))
  {
    if ms == [] {
    } else {
      RunKeepsInv(p, ms[..|ms| - 1], start);
      StepKeepsInv(p, Run(ms[..|ms| - 1], start), ms[|ms| - 1]);
    }
  }

  /** The same move n times after a run. */
  function Then(ms: seq<Move>, m: Move, n: nat): seq<Move> {
    if n == 0 then ms else Then(ms, m, n - 1) + [m]
  }

  lemma {:induction false} PendingFits(p: Policy, ms: seq<Move>, start: int)
    requires AllowedRun(p, ms, start)
    ensures Run(ms, start).pending <= p.inFlight
  {
    if ms != [] {
      PendingFits(p, ms[..|ms| - 1], start);
    }
  }

  function Zeros(n: nat): seq<int> {
    if n == 0 then [] else Zeros(n - 1) + [0]
  }

  function Alternate(n: nat): seq<Move> {
    if n == 0 then [] else Alternate(n - 1) + [Pass] + [Write]
  }

  lemma RunMore(p: Policy, ms: seq<Move>, m: Move, start: int)
    requires AllowedRun(p, ms, start) && Allowed(p, Run(ms, start), m)
    ensures AllowedRun(p, ms + [m], start) && Run(ms + [m], start) == After(Run(ms, start), m)
  {
    assert (ms + [m])[..|ms|] == ms;
  }

  lemma {:induction false} CountZeros(n: nat, lo: int, hi: int)
    requires lo <= 0 <= hi
    ensures CountIn(Zeros(n), lo, hi) == n
  {
    if n > 0 {
      CountZeros(n - 1, lo, hi);
      CountAppend(Zeros(n - 1), 0, lo, hi);
    }
  }

  lemma PassMore(p: Policy, ms: seq<Move>, n: nat, k: nat)
    requires AllowedRun(p, ms, 0) && Run(ms, 0) == View(Zeros(n), k, 0) && n < p.limit && k < p.inFlight
    ensures AllowedRun(p, ms + [Pass], 0) && Run(ms + [Pass], 0) == View(Zeros(n), k + 1, 0)
  {
    CountZeros(n, 0 - p.window, 0);
    RunMore(p, ms, Pass, 0);
  }

  lemma WriteMore(p: Policy, ms: seq<Move>, n: nat, k: nat)
    requires AllowedRun(p, ms, 0) && Run(ms, 0) == View(Zeros(n), k, 0) && k > 0
    ensures AllowedRun(p, ms + [Write], 0) && Run(ms + [Write], 0) == View(Zeros(n + 1), k - 1, 0)
  {
    RunMore(p, ms, Write, 0);
  }

  /** An allowed run that ends with n rows written and k calls pending, all at one instant. */
  ghost predicate EndsWith(p: Policy, ms: seq<Move>, n: nat, k: nat) {
    AllowedRun(p, ms, 0) && Run(ms, 0) == View(Zeros(n), k, 0)
  }

  lemma OneMoreRow(p: Policy, ms: seq<Move>, n: nat)
    requires EndsWith(p, ms, n, 0) && n < p.limit && p.inFlight >= 1
    ensures EndsWith(p, ms + [Pass] + [Write], n + 1, 0)
  {
    PassMore(p, ms, n, 0);
    WriteMore(p, ms + [Pass], n, 1);
  }

  lemma {:induction false} OneAtATime(p: Policy, n: nat)
    requires n <= p.limit && p.inFlight >= 1
    ensures EndsWith(p, Alternate(n), n, 0)
  {
    if n > 0 {
      OneAtATime(p, n - 1);
      OneMoreRow(p, Alternate(n - 1), n - 1);
    }
  }

  lemma {:induction false} ManyPass(p: Policy, ms: seq<Move>, sent: nat, n: nat)
    requires EndsWith(p, ms, sent, 0) && sent < p.limit && n <= p.inFlight
    ensures EndsWith(p, Then(ms, Pass, n), sent, n)
  {
    if n > 0 {
      ManyPass(p, ms, sent, n - 1);
      PassMore(p, Then(ms, Pass, n - 1), sent, n - 1);
    }
  }

  lemma WriteOnce(p: Policy, ms: seq<Move>, sent: nat, k: nat)
    requires EndsWith(p, ms, sent, k) && k > 0
    ensures EndsWith(p, ms + [Write], sent + 1, k - 1)
  {
    WriteMore(p, ms, sent, k);
  }

  lemma {:induction false} ManyWrite(p: Policy, ms: seq<Move>, sent: nat, k: nat, n: nat)
    requires EndsWith(p, ms, sent, k) && n <= k
    ensures EndsWith(p, Then(ms, Write, n), sent + n, k - n)
  {
    if n > 0 {
      ManyWrite(p, ms, sent, k, n - 1);
      WriteOnce(p, Then(ms, Write, n - 1), sent + n - 1, k - (n - 1));
    }
  }

  /** limit - 1 calls one after the other, then as many as may be in flight check together and write together. */
  function WorstRun(p: Policy): seq<Move>
    requires p.limit >= 1
  {
    Then(Then(Alternate(p.limit - 1), Pass, p.inFlight), Write, p.inFlight)
  }

  lemma PassThenWrite(p: Policy, ms: seq<Move>, sent: nat)
    requires EndsWith(p, ms, sent, 0) && sent < p.limit
    ensures EndsWith(p, Then(Then(ms, Pass, p.inFlight), Write, p.inFlight), sent + p.inFlight, 0)
  {
    ManyPass(p, ms, sent, p.inFlight);
    ManyWrite(p, Then(ms, Pass, p.inFlight), sent, p.inFlight, p.inFlight);
  }

  /** In every run every closed window of length w holds at most b rows. */
  ghost predicate Holds(p: Policy, w: nat, b: int) {
    forall ms, s :: AllowedRun(p, ms, 0) ==> InWindow(Run(ms, 0).sent, s, w) <= b
  }

  lemma WorstRunFills(p: Policy, w: nat)
    requires p.limit >= 1 && p.inFlight >= 1
    ensures EndsWith(p, WorstRun(p), p.limit - 1 + p.inFlight, 0)
    ensures InWindow(Run(WorstRun(p), 0).sent, 0, w) == Bound(p)
  {
    OneAtATime(p, p.limit - 1);
    PassThenWrite(p, Alternate(p.limit - 1), p.limit - 1);
    CountZeros(p.limit - 1 + p.inFlight, 0, w);
  }

  lemma NoRunOverfills(p: Policy, w: nat)
    requires p.limit >= 1 && w <= p.window
    ensures Holds(p, w, Bound(p))
  {
    forall ms, s | AllowedRun(p, ms, 0)
      ensures InWindow(Run(ms, 0).sent, s, w) <= Bound(p)
    {
      RunKeepsInv(p, ms, 0);
      CountGrows(Run(ms, 0).sent, s, s + w, s, s + p.window);
      assert InWindow(Run(ms, 0).sent, s, p.window) <= Bound(p);
    }
  }

  /** Just after the policy's window has passed one more call may write. */
  function OverflowRun(p: Policy): seq<Move>
    requires p.limit >= 1
  {
    WorstRun(p) + [Tick(p.window + 1)] + [Pass] + [Write]
  }

  lemma OverflowRunOverflows(p: Policy, w: nat)
    requires p.limit >= 1 && p.inFlight >= 1 && w > p.window
    ensures AllowedRun(p, OverflowRun(p), 0)
    ensures InWindow(Run(OverflowRun(p), 0).sent, 0, w) == Bound(p) + 1
  {
    WorstRunFills(p, w);
    var n, late := p.limit - 1 + p.inFlight, p.window + 1;
    RunMore(p, WorstRun(p), Tick(late), 0);
    NoZerosLater(n, 1, late);
    RunMore(p, WorstRun(p) + [Tick(late)], Pass, 0);
    RunMore(p, WorstRun(p) + [Tick(late)] + [Pass], Write, 0);
    CountAppend(Zeros(n), late, 0, w);
  }

  lemma {:induction false} NoZerosLater(n: nat, lo: int, hi: int)
    requires lo > 0
    ensures CountIn(Zeros(n), lo, hi) == 0
  {
    if n > 0 {
      NoZerosLater(n - 1, lo, hi);
      CountAppend(Zeros(n - 1), 0, lo, hi);
    }
  }

  /** Within the policy's window the bounds that hold are exactly those from limit - 1 plus the calls in flight. */
  lemma BoundIsExact(p: Policy, w: nat, b: int)
    requires p.limit >= 1 && p.inFlight >= 1 && w <= p.window
    ensures Holds(p, w, b) <==> b >= Bound(p)
  {
    NoRunOverfills(p, w);
    WorstRunFills(p, w);
    if b >= Bound(p) {
      forall ms, s | AllowedRun(p, ms, 0)
        ensures InWindow(Run(ms, 0).sent, s, w) <= b
      {
        assert InWindow(Run(ms, 0).sent, s, w) <= Bound(p);
      }
    } else {
      assert AllowedRun(p, WorstRun(p), 0) && InWindow(Run(WorstRun(p), 0).sent, 0, w) > b;
    }
  }

  /** That bound holds for windows of length w exactly when w is at most the policy's window. */
  lemma BoundHoldsIffWindowFits(p: Policy, w: nat)
    requires p.limit >= 1 && p.inFlight >= 1
    ensures Holds(p, w, Bound(p)) <==> w <= p.window
  {
    if w <= p.window {
      NoRunOverfills(p, w);
    } else {
      OverflowRunOverflows(p, w);
      assert InWindow(Run(OverflowRun(p), 0).sent, 0, w) > Bound(p);
    }
  }
}

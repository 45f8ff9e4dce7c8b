/**
  The lazily refilled token bucket (crates/fwknox-ratelimit/src/bucket.rs). Tokens and
  instants are exact reals: rounding of 64-bit floats is not modelled.
 */
module TokenBuckets {

  datatype BucketDecision = Pass | Drop

  datatype Bucket = Bucket(capacity: real, rate: real, tokens: real, lastRefill: real) {
    ghost predicate Valid() {
      0.0 <= rate && 0.0 <= tokens <= capacity
    }
  }

  function FullBucket(rate: nat, capacity: nat, now: real): (b: Bucket)
    ensures b.Valid()
  {
    Bucket(capacity as real, rate as real, capacity as real, now)
  }

  function Min(x: real, y: real): real {
    if x <= y then x else y
  }

  function Max(x: real, y: real): real {
    if x >= y then x else y
  }

  /** Tokens that accrue at `rate` over `elapsed` seconds. */
  function Earned(rate: real, elapsed: real): real {
    rate * elapsed
  }

  /** A clock reading before the last refill leaves the bucket alone. */
  function Refill(b: Bucket, now: real): (r: Bucket) {
    if now >= b.lastRefill then
      b.(tokens := Min(b.tokens + Earned(b.rate, now - b.lastRefill), b.capacity), lastRefill := now)
    else b
  }

  function Consume(b: Bucket, now: real): (r: (Bucket, BucketDecision)) {
    var full := Refill(b, now);
    if full.tokens >= 1.0 then (full.(tokens := full.tokens - 1.0), Pass) else (full, Drop)
  }

  class TokenBucket {
    const capacity: real
    const rate: real
    var tokens: real
    var lastRefill: real

    ghost function View(): (b: Bucket)
      reads this
    {
      Bucket(capacity, rate, tokens, lastRefill)
    }

    constructor (ratePerSec: nat, cap: nat, now: real)
      ensures View() == FullBucket(ratePerSec, cap, now)
    {
      capacity := cap as real;
      rate := ratePerSec as real;
      tokens := cap as real;
      lastRefill := now;
    }

    method RefillAt(now: real)
      modifies this
      ensures View() == Refill(old(View()), now)
    {
      if now >= lastRefill {
        var added := Earned(rate, now - lastRefill);
        tokens := Min(tokens + added, capacity);
        lastRefill := now;
      }
    }

    method ConsumeAt(now: real) returns (d: BucketDecision)
      modifies this
      ensures (View(), d) == Consume(old(View()), now)
    {
      RefillAt(now);
      if tokens >= 1.0 {
        tokens := tokens - 1.0;
        d := Pass;
      } else {
        d := Drop;
      }
    }
  }

  // ----- whole histories of one bucket -----

  /** The bucket and the decisions after calls at the instants `ts`, in order. */
  function Serve(b: Bucket, ts: seq<real>): (r: (Bucket, seq<BucketDecision>))
    ensures |r.1| == |ts|
  {
    if ts == [] then (b, [])
    else
      var before := Serve(b, ts[..|ts| - 1]);
      var (after, d) := Consume(before.0, ts[|ts| - 1]);
      (after, before.1 + [d])
  }

  /** The largest instant seen so far: creation at `t0`, then the calls `ts`. */
  function Latest(t0: real, ts: seq<real>): real {
    if ts == [] then t0 else Max(Latest(t0, ts[..|ts| - 1]), ts[|ts| - 1])
  }

  function Passes(ds: seq<BucketDecision>): nat {
    if ds == [] then 0
    else Passes(ds[..|ds| - 1]) + if ds[|ds| - 1].Pass? then 1 else 0
  }

  /** What the arrival curve of bucket `b` leaves for a call at `now`, counted from call `k` on. */
  ghost function Allowance(b: Bucket, ts: seq<real>, ds: seq<BucketDecision>, k: nat, now: real): real
    requires k < |ts| == |ds|
  {
    b.capacity + Earned(b.rate, now - Latest(b.lastRefill, ts[..k + 1])) - Passes(ds[k..]) as real
  }

  /** The same, counted from the creation of the bucket. */
  ghost function AllowanceSinceCreation(b: Bucket, ds: seq<BucketDecision>, now: real): real {
    b.capacity + Earned(b.rate, now - b.lastRefill) - Passes(ds) as real
  }

  /**
    The declarative specification: one more pass stays within
    `capacity + rate * elapsed` counted from creation, from every earlier call, and from now.
   */
  ghost predicate WithinCurve(b: Bucket, ts: seq<real>, ds: seq<BucketDecision>, now: real)
    requires |ts| == |ds|
  {
    && 1.0 <= b.capacity
    && 1.0 <= AllowanceSinceCreation(b, ds, now)
    && forall k | 0 <= k < |ts| :: 1.0 <= Allowance(b, ts, ds, k, now)
  }

  /** `level` is the minimum of all the allowances. */
  ghost predicate Tightest(b: Bucket, ts: seq<real>, ds: seq<BucketDecision>, now: real, level: real)
    requires |ts| == |ds|
  {
    && level <= b.capacity
    && level <= AllowanceSinceCreation(b, ds, now)
    && (forall k | 0 <= k < |ts| :: level <= Allowance(b, ts, ds, k, now))
    && (|| level == b.capacity
        || level == AllowanceSinceCreation(b, ds, now)
        || exists k | 0 <= k < |ts| :: level == Allowance(b, ts, ds, k, now))
  }

  lemma Earns(rate: real, elapsed: real)
    requires rate >= 0.0 && elapsed >= 0.0
    ensures Earned(rate, elapsed) >= 0.0
  {}

  lemma Distribute(rate: real, a: real, b: real, c: real)
    ensures Earned(rate, c - a) == Earned(rate, b - a) + Earned(rate, c - b)
  {}

  lemma {:induction false} LatestStep(t0: real, ts: seq<real>, now: real)
    ensures Latest(t0, ts + [now]) == Max(Latest(t0, ts), now)
  {
    assert (ts + [now])[..|ts|] == ts;
  }

  lemma {:induction false} PassesStep(ds: seq<BucketDecision>, d: BucketDecision)
    ensures Passes(ds + [d]) == Passes(ds) + if d.Pass? then 1 else 0
  {
    assert (ds + [d])[..|ds|] == ds;
  }

  lemma {:induction false} ServeStep(b: Bucket, ts: seq<real>, now: real)
    ensures var (after, d) := Consume(Serve(b, ts).0, now);
            Serve(b, ts + [now]) == (after, Serve(b, ts).1 + [d])
  {
    assert (ts + [now])[..|ts|] == ts;
  }

  lemma ConsumeKeeps(b: Bucket, now: real)
    requires b.Valid()
    ensures var r := Consume(b, now).0;
            r.Valid() && r.capacity == b.capacity && r.rate == b.rate && r.lastRefill == Max(b.lastRefill, now)
  {
    if now >= b.lastRefill { Earns(b.rate, now - b.lastRefill); }
  }

  /** Serving calls never changes the parameters, and the refill mark is the running maximum. */
  lemma {:induction false} ServeKeeps(b: Bucket, ts: seq<real>)
    requires b.Valid()
    ensures var r := Serve(b, ts).0;
            r.Valid() && r.capacity == b.capacity && r.rate == b.rate && r.lastRefill == Latest(b.lastRefill, ts)
  {
    if ts != [] {
      ServeKeeps(b, ts[..|ts| - 1]);
      ConsumeKeeps(Serve(b, ts[..|ts| - 1]).0, ts[|ts| - 1]);
    }
  }

  /** How each allowance moves over one more call and `now - was` more seconds. */
  lemma {:induction false} AllowanceStep(b: Bucket, ts: seq<real>, ds: seq<BucketDecision>, t: real, d: BucketDecision,
                                         was: real, now: real)
    requires |ts| == |ds| && was == Latest(b.lastRefill, ts + [t])
    ensures var gain := Earned(b.rate, now - was) - if d.Pass? then 1.0 else 0.0;
            && AllowanceSinceCreation(b, ds + [d], now) == AllowanceSinceCreation(b, ds, was) + gain
            && Allowance(b, ts + [t], ds + [d], |ts|, now) == b.capacity + gain
            && forall k | 0 <= k < |ts| ::
                 Allowance(b, ts + [t], ds + [d], k, now) == Allowance(b, ts, ds, k, was) + gain
  {
    hide Earned;
    var ts', ds' := ts + [t], ds + [d];
    PassesStep(ds, d);
    Distribute(b.rate, b.lastRefill, was, now);
    assert ts'[..|ts| + 1] == ts' && ds'[|ts|..] == [] + [d];
    PassesStep([], d);
    forall k | 0 <= k < |ts|
      ensures Allowance(b, ts', ds', k, now)
           == Allowance(b, ts, ds, k, was) + Earned(b.rate, now - was) - if d.Pass? then 1.0 else 0.0
    {
      assert ts'[..k + 1] == ts[..k + 1] && ds'[k..] == ds[k..] + [d];
      PassesStep(ds[k..], d);
      Distribute(b.rate, Latest(b.lastRefill, ts[..k + 1]), was, now);
    }
  }

  /** The token level a call finds after its refill is the tightest allowance of its history. */
  lemma {:induction false} LevelIsTightest(b: Bucket, ts: seq<real>, now: real)
    requires b.Valid() && b.tokens == b.capacity
    ensures var r := Serve(b, ts);
            Tightest(b, ts, r.1, Latest(b.lastRefill, ts + [now]), Refill(r.0, now).tokens)
    decreases |ts|
  {
    hide Earned;
    ServeKeeps(b, ts);
    LatestStep(b.lastRefill, ts, now);
    var r := Serve(b, ts);
    var now' := Latest(b.lastRefill, ts + [now]);
    if ts == [] {
      Earns(b.rate, now' - b.lastRefill);
    } else {
      var init, t := ts[..|ts| - 1], ts[|ts| - 1];
      assert ts == init + [t];
      var r0 := Serve(b, init);
      var was := Latest(b.lastRefill, ts);
      LevelIsTightest(b, init, t);
      ServeStep(b, init, t);
      ServeKeeps(b, init);
      var level := Refill(r0.0, t).tokens;
      var d := Consume(r0.0, t).1;
      AllowanceStep(b, init, r0.1, t, d, was, now');
      var gain := Earned(b.rate, now' - was) - if d.Pass? then 1.0 else 0.0;
      var level' := Refill(r.0, now).tokens;
      assert level' == Min(level + gain, b.capacity);
      if level' != b.capacity {
        TightestCarries(b, init, r0.1, t, d, was, now', level, gain);
      }
    }
  }

  /** The allowance that was tightest, moved by `gain`, is still an allowance. */
  lemma {:induction false} TightestCarries(b: Bucket, ts: seq<real>, ds: seq<BucketDecision>, t: real,
                                           d: BucketDecision,
                                           was: real, now: real, level: real, gain: real)
    requires |ts| == |ds| && was == Latest(b.lastRefill, ts + [t]) && Tightest(b, ts, ds, was, level)
    requires gain == Earned(b.rate, now - was) - if d.Pass? then 1.0 else 0.0
    ensures level + gain == AllowanceSinceCreation(b, ds + [d], now)
         || exists k | 0 <= k < |ts + [t]| :: level + gain == Allowance(b, ts + [t], ds + [d], k, now)
  {
    hide Earned;
    AllowanceStep(b, ts, ds, t, d, was, now);
    if level == b.capacity {
      assert level + gain == Allowance(b, ts + [t], ds + [d], |ts|, now);
    } else if level != AllowanceSinceCreation(b, ds, was) {
      var k :| 0 <= k < |ts| && level == Allowance(b, ts, ds, k, was);
      assert level + gain == Allowance(b, ts + [t], ds + [d], k, now);
    }
  }

  /**
    Bucket exactness. After any history of calls, a call passes if and only if the declarative
    arrival-curve specification admits it.
   */
  lemma ServeIsExact(b: Bucket, ts: seq<real>, now: real)
    requires b.Valid() && b.tokens == b.capacity
    ensures var r := Serve(b, ts);
            Consume(r.0, now).1.Pass? <==> WithinCurve(b, ts, r.1, Latest(b.lastRefill, ts + [now]))
  {
    LevelIsTightest(b, ts, now);
  }

  /** Decision `n` of `ds` is the one the declarative specification prescribes. */
  ghost predicate FollowsAt(b: Bucket, ts: seq<real>, ds: seq<BucketDecision>, n: nat)
    requires n < |ts| == |ds|
  {
    ds[n].Pass? <==> WithinCurve(b, ts[..n], ds[..n], Latest(b.lastRefill, ts[..n + 1]))
  }

  ghost predicate FollowsCurve(b: Bucket, ts: seq<real>, ds: seq<BucketDecision>)
    requires |ts| == |ds|
  {
    forall n | 0 <= n < |ts| :: FollowsAt(b, ts, ds, n)
  }

  lemma {:induction false} FollowsStep(b: Bucket, ts: seq<real>, ds: seq<BucketDecision>, t: real, d: BucketDecision)
    requires |ts| == |ds|
    ensures FollowsCurve(b, ts + [t], ds + [d]) <==>
              FollowsCurve(b, ts, ds) && FollowsAt(b, ts + [t], ds + [d], |ts|)
  {
    forall n | 0 <= n < |ts| ensures FollowsAt(b, ts + [t], ds + [d], n) <==> FollowsAt(b, ts, ds, n) {
      assert (ts + [t])[..n] == ts[..n] && (ds + [d])[..n] == ds[..n] && (ts + [t])[..n + 1] == ts[..n + 1];
    }
    if FollowsCurve(b, ts + [t], ds + [d]) {
      forall n | 0 <= n < |ts| ensures FollowsAt(b, ts, ds, n) {
        assert FollowsAt(b, ts + [t], ds + [d], n);
      }
    }
  }

  /** The specification and the bucket decide every sequence of calls the same way, and nothing else does. */
  lemma {:induction false} CurveDeterminesDecisions(b: Bucket, ts: seq<real>, ds: seq<BucketDecision>)
    requires b.Valid() && b.tokens == b.capacity && |ts| == |ds|
    ensures FollowsCurve(b, ts, ds) <==> ds == Serve(b, ts).1
    decreases |ts|
  {
    if ts != [] {
      var n := |ts| - 1;
      var init, now, ds0 := ts[..n], ts[n], ds[..n];
      assert ts == init + [now] && ds == ds0 + [ds[n]];
      assert ts[..n + 1] == ts;
      CurveDeterminesDecisions(b, init, ds0);
      ServeIsExact(b, init, now);
      ServeStep(b, init, now);
      FollowsStep(b, init, ds0, now, ds[n]);
    }
  }

  /** The usual corollary: in any window of calls, passes stay within burst plus rate times the window. */
  lemma {:induction false} WindowBound(b: Bucket, ts: seq<real>, lo: nat, hi: nat)
    requires b.Valid() && b.tokens == b.capacity && lo < hi <= |ts|
    ensures Passes(Serve(b, ts).1[lo..hi]) as real
         <= b.capacity + Earned(b.rate, Latest(b.lastRefill, ts[..hi]) - Latest(b.lastRefill, ts[..lo + 1]))
    decreases hi
  {
    hide Earned;
    var ds := Serve(b, ts).1;
    CurveDeterminesDecisions(b, ts, ds);
    var last := hi - 1;
    assert ds[lo..hi] == ds[lo..last] + [ds[last]];
    PassesStep(ds[lo..last], ds[last]);
    LatestStep(b.lastRefill, ts[..last], ts[last]);
    assert ts[..last] + [ts[last]] == ts[..hi];
    if lo == last {
      Earns(b.rate, Latest(b.lastRefill, ts[..hi]) - Latest(b.lastRefill, ts[..lo + 1]));
      assert FollowsAt(b, ts, ds, last);
    } else if ds[last].Pass? {
      assert FollowsAt(b, ts, ds, last);
      assert 1.0 <= Allowance(b, ts[..last], ds[..last], lo, Latest(b.lastRefill, ts[..hi]));
      assert ts[..last][..lo + 1] == ts[..lo + 1] && ds[..last][lo..] == ds[lo..last];
    } else {
      WindowBound(b, ts, lo, last);
      Earns(b.rate, Latest(b.lastRefill, ts[..hi]) - Latest(b.lastRefill, ts[..last]));
      Distribute(b.rate, Latest(b.lastRefill, ts[..lo + 1]), Latest(b.lastRefill, ts[..last]),
                 Latest(b.lastRefill, ts[..hi]));
    }
  }
}

/** The token bucket that limits a tenant's calls, with a clock in seconds and exact arithmetic. */
module TenantRate {

  datatype Bucket = Bucket(tokens: real, lastRefill: real)

  function Min(a: real, b: real): real { if a <= b then a else b }

  /** The bucket a tenant's first call finds. */
  function Fresh(limit: nat, now: real): Bucket { Bucket(limit as real, now) }

  function Elapsed(b: Bucket, now: real): real { if now >= b.lastRefill then now - b.lastRefill else 0.0 }

  /** The tokens a span of time is worth. */
  function Refill(limit: nat, span: real): real { span * limit as real }

  function Refilled(b: Bucket, limit: nat, now: real): real {
    Min(b.tokens + Refill(limit, Elapsed(b, now)), limit as real)
  }

  function Allows(b: Bucket, limit: nat, now: real): bool { Refilled(b, limit, now) >= 1.0 }

  function Taken(b: Bucket, limit: nat, now: real): Bucket {
    var tokens := Refilled(b, limit, now);
    Bucket(if tokens >= 1.0 then tokens - 1.0 else tokens, now)
  }

  predicate InRange(b: Bucket, limit: nat) { 0.0 <= b.tokens <= limit as real }

  predicate Monotone(from: real, times: seq<real>)
    decreases |times|
  {
    times == [] || (from <= times[0] && Monotone(times[0], times[1..]))
  }

  function After(b: Bucket, limit: nat, times: seq<real>): Bucket
    decreases |times|
  {
    if times == [] then b else After(Taken(b, limit, times[0]), limit, times[1..])
  }

  /** How many of the calls made from `lo` to `hi` are allowed. */
  function AllowedWithin(b: Bucket, limit: nat, times: seq<real>, lo: real, hi: real): nat
    decreases |times|
  {
    if times == [] then 0
    else
      (if lo <= times[0] <= hi && Allows(b, limit, times[0]) then 1 else 0)
      + AllowedWithin(Taken(b, limit, times[0]), limit, times[1..], lo, hi)
  }

  lemma TakenInRange(b: Bucket, limit: nat, now: real)
    requires InRange(b, limit)
    ensures InRange(Taken(b, limit, now), limit)
  {
    RefillGrows(limit, 0.0, Elapsed(b, now));
  }

  lemma RefillGrows(limit: nat, a: real, b: real)
    requires a <= b
    ensures Refill(limit, a) <= Refill(limit, b) && Refill(limit, 0.0) == 0.0
  {
    assert (b - a) * limit as real >= 0.0;
  }

  /** The bucket never leaves the range from empty to full. */
  lemma {:induction false} BucketStaysInRange(b: Bucket, limit: nat, times: seq<real>)
    requires InRange(b, limit)
    ensures InRange(After(b, limit, times), limit)
    decreases |times|
  {
    if times != [] {
      TakenInRange(b, limit, times[0]);
      BucketStaysInRange(Taken(b, limit, times[0]), limit, times[1..]);
    }
  }

  lemma RefillAdds(limit: nat, a: real, b: real)
    ensures Refill(limit, a) + Refill(limit, b) == Refill(limit, a + b)
  {
  }

  /** From inside the window: what is allowed later is paid by the tokens at hand and the refill until its end. */
  lemma {:induction false} InsideWindow(b: Bucket, limit: nat, times: seq<real>, lo: real, hi: real)
    requires InRange(b, limit) && Monotone(b.lastRefill, times) && lo <= b.lastRefill <= hi
    ensures AllowedWithin(b, limit, times, lo, hi) as real <= b.tokens + Refill(limit, hi - b.lastRefill)
    decreases |times|
  {
    hide Refill;
    RefillGrows(limit, 0.0, hi - b.lastRefill);
    if times != [] {
      var t := times[0];
      TakenInRange(b, limit, t);
      if t <= hi {
        InsideWindow(Taken(b, limit, t), limit, times[1..], lo, hi);
        RefillAdds(limit, t - b.lastRefill, hi - t);
        assert t - b.lastRefill + (hi - t) == hi - b.lastRefill;
      } else {
        NoneAfter(Taken(b, limit, t), limit, times[1..], lo, hi);
      }
    }
  }

  lemma {:induction false} NoneAfter(b: Bucket, limit: nat, times: seq<real>, lo: real, hi: real)
    requires Monotone(b.lastRefill, times) && hi < b.lastRefill
    ensures AllowedWithin(b, limit, times, lo, hi) == 0
    decreases |times|
  {
    if times != [] { NoneAfter(Taken(b, limit, times[0]), limit, times[1..], lo, hi); }
  }

  /** In any window at most the limit, plus the limit times the length of the window, is allowed. */
  lemma {:induction false} WindowBound(b: Bucket, limit: nat, times: seq<real>, lo: real, hi: real)
    requires InRange(b, limit) && Monotone(b.lastRefill, times) && lo <= hi
    ensures AllowedWithin(b, limit, times, lo, hi) as real <= limit as real + (hi - lo) * limit as real
    decreases |times|
  {
    assert Refill(limit, hi - lo) == (hi - lo) * limit as real;
    hide Refill;
    RefillGrows(limit, 0.0, hi - lo);
    if times != [] {
      var t := times[0];
      var next := Taken(b, limit, t);
      TakenInRange(b, limit, t);
      if t < lo {
        WindowBound(next, limit, times[1..], lo, hi);
      } else if t <= hi {
        InsideWindow(next, limit, times[1..], lo, hi);
        RefillGrows(limit, hi - t, hi - lo);
      } else {
        NoneAfter(next, limit, times[1..], lo, hi);
      }
    }
  }

  /** A call at least 1/limit seconds after the one before it is always allowed, and so is the first. */
  lemma SpacedCallsAreAllowed(b: Bucket, limit: nat, now: real)
    requires InRange(b, limit) && limit > 0
    ensures now - b.lastRefill >= 1.0 / limit as real ==> Allows(b, limit, now)
    ensures Allows(Fresh(limit, now), limit, now)
  {
    if now - b.lastRefill >= 1.0 / limit as real {
      assert Refill(limit, 1.0 / limit as real) == 1.0;
      RefillGrows(limit, 1.0 / limit as real, now - b.lastRefill);
    }
    RefillGrows(limit, 0.0, 0.0);
  }

  /** The bound is reached: a full bucket lets a burst of exactly the limit through at one instant. */
  lemma {:induction false} BurstOfTheLimit(b: Bucket, limit: nat, n: nat, now: real)
    requires b.lastRefill == now && b.tokens == n as real && n <= limit
    ensures AllowedWithin(b, limit, seq(n, i => now), now, now) == n
    ensures Monotone(now, seq(n, i => now))
    decreases n
  {
    if n > 0 {
      RefillGrows(limit, 0.0, 0.0);
      assert seq(n, i => now)[1..] == seq(n - 1, i => now);
      BurstOfTheLimit(Taken(b, limit, now), limit, n - 1, now);
    }
  }
}

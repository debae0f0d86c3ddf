/** The token bucket of the peer rate limiter, with reals for its floats and timestamps in any order. */
module RateLimit {
  import opened Wrappers

  datatype Bucket = Bucket(last: Option<real>, tokens: real)

  datatype Config = Config(rps: real, burst: nat)

  predicate Valid(c: Config) { c.rps > 0.0 && c.burst > 0 }

  function Full(c: Config): Bucket { Bucket(None, c.burst as real) }

  function Min(a: real, b: real): real { if a < b then a else b }

  /** The credit earned from one moment to another. */
  function Earned(from: real, to: real, c: Config): real { (to - from) * c.rps }

  lemma EarnedAdds(x: real, y: real, z: real, c: Config)
    ensures Earned(x, z, c) == Earned(x, y, c) + Earned(y, z, c) && Earned(x, x, c) == 0.0
    ensures Valid(c) && x <= y ==> Earned(x, y, c) >= 0.0
  {
  }

  /** Credit for the time passed; a stale timestamp neither mints credit nor turns the clock back. */
  function Refill(b: Bucket, now: real, c: Config): Bucket {
    if b.last.None? then b.(last := Some(now))
    else if now < b.last.value then b
    else Bucket(Some(now), Min(b.tokens + Earned(b.last.value, now, c), c.burst as real))
  }

  function Take(b: Bucket): (Bucket, bool) {
    if b.tokens < 1.0 then (b, false) else (b.(tokens := b.tokens - 1.0), true)
  }

  class PeerLimiter {
    const config: Config
    const buckets: array<Bucket>

    constructor (config: Config, size: nat)
      ensures this.config == config && fresh(buckets)
      ensures buckets[..] == seq(size, _ => Full(config))
    {
      this.config := config;
      this.buckets := new Bucket[size](_ => Full(config));
    }

    /** One call on the bucket a peer hashes to; no other bucket is touched. */
    method Allow(index: nat, now: real) returns (allowed: bool)
      requires index < buckets.Length
      modifies buckets
      ensures var (b, ok) := Take(Refill(old(buckets[index]), now, config));
              allowed == ok && buckets[..] == old(buckets[..])[index := b]
    {
      var bucket := buckets[index];
      if bucket.last.Some? {
        var last := bucket.last.value;
        if last <= now {
          bucket := bucket.(tokens := Min(bucket.tokens + (now - last) * config.rps, config.burst as real));
          bucket := bucket.(last := Some(now));
        }
      } else {
        bucket := bucket.(last := Some(now));
      }
      assert bucket == Refill(old(buckets[index]), now, config);
      buckets[index] := bucket;
      if bucket.tokens < 1.0 {
        return false;
      }
      buckets[index] := bucket.(tokens := bucket.tokens - 1.0);
      allowed := true;
    }
  }

  // One bucket over any sequence of calls.

  function After(times: seq<real>, c: Config): Bucket {
    if times == [] then Full(c) else Take(Refill(After(times[..|times| - 1], c), times[|times| - 1], c)).0
  }

  function Available(times: seq<real>, n: nat, c: Config): real
    requires n < |times|
  {
    Refill(After(times[..n], c), times[n], c).tokens
  }

  predicate Admitted(times: seq<real>, n: nat, c: Config)
    requires n < |times|
  {
    Take(Refill(After(times[..n], c), times[n], c)).1
  }

  /** Calls admitted among those from `k` up to but not including `n`. */
  function Count(times: seq<real>, k: nat, n: nat, c: Config): nat
    requires k <= n <= |times|
  {
    if k == n then 0 else Count(times, k, n - 1, c) + (if Admitted(times, n - 1, c) then 1 else 0)
  }

  /** The bucket's clock at call `n`: the latest timestamp seen so far. */
  function Latest(times: seq<real>, n: nat): real
    requires n < |times|
  {
    if n == 0 || Latest(times, n - 1) <= times[n] then times[n] else Latest(times, n - 1)
  }

  lemma {:induction false} ClockIsLatest(times: seq<real>, n: nat, c: Config)
    requires n < |times|
    ensures Refill(After(times[..n], c), times[n], c).last == Some(Latest(times, n))
  {
    if n > 0 {
      ClockIsLatest(times, n - 1, c);
      assert times[..n][..n - 1] == times[..n - 1];
    }
  }

  /** What a window that started at call `k` still leaves at call `n`. */
  function Room(times: seq<real>, k: nat, n: nat, c: Config): real
    requires k <= n < |times|
  {
    c.burst as real + Earned(Latest(times, k), Latest(times, n), c) - Count(times, k, n, c) as real
  }

  /** From one call to the next, credit is spent and earned, and capped by the burst. */
  lemma AvailableNext(times: seq<real>, n: nat, c: Config)
    requires 0 < n < |times| && Valid(c)
    ensures var spent := if Admitted(times, n - 1, c) then 1.0 else 0.0;
            var earned := Earned(Latest(times, n - 1), Latest(times, n), c);
            && Latest(times, n - 1) <= Latest(times, n)
            && (Available(times, n - 1, c) <= c.burst as real ==>
                Available(times, n, c) == Min(Available(times, n - 1, c) - spent + earned, c.burst as real))
  {
    hide Earned;
    ClockIsLatest(times, n - 1, c);
    EarnedAdds(Latest(times, n - 1), Latest(times, n - 1), Latest(times, n - 1), c);
    assert times[..n][..n - 1] == times[..n - 1];
  }

  lemma RoomNext(times: seq<real>, k: nat, n: nat, c: Config)
    requires k < n < |times|
    ensures var spent := if Admitted(times, n - 1, c) then 1.0 else 0.0;
            var earned := Earned(Latest(times, n - 1), Latest(times, n), c);
            Room(times, k, n, c) == Room(times, k, n - 1, c) - spent + earned
  {
    hide Admitted, Latest, Earned;
    EarnedAdds(Latest(times, k), Latest(times, n - 1), Latest(times, n), c);
  }

  /** The tokens available are the least room that any window ending here leaves. */
  lemma {:induction false} AvailableIsLeastRoom(times: seq<real>, n: nat, c: Config)
    requires n < |times| && Valid(c)
    ensures forall k :: 0 <= k <= n ==> Available(times, n, c) <= Room(times, k, n, c)
    ensures exists k :: 0 <= k <= n && Available(times, n, c) == Room(times, k, n, c)
  {
    hide Earned, Admitted;
    EarnedAdds(Latest(times, n), Latest(times, n), Latest(times, n), c);
    assert Room(times, n, n, c) == c.burst as real;
    if n > 0 {
      AvailableIsLeastRoom(times, n - 1, c);
      EarnedAdds(Latest(times, n - 1), Latest(times, n - 1), Latest(times, n - 1), c);
      assert Available(times, n - 1, c) <= Room(times, n - 1, n - 1, c) == c.burst as real;
      AvailableNext(times, n, c);
      var k :| 0 <= k <= n - 1 && Available(times, n - 1, c) == Room(times, k, n - 1, c);
      hide Available, Room;
      forall j | 0 <= j < n ensures Available(times, n, c) <= Room(times, j, n, c) {
        RoomNext(times, j, n, c);
      }
      RoomNext(times, k, n, c);
      assert Available(times, n, c) == Room(times, n, n, c) || Available(times, n, c) == Room(times, k, n, c);
    } else {
      assert times[..0] == [];
      assert Available(times, 0, c) == Room(times, 0, 0, c);
    }
  }

  /** A call is admitted exactly when it keeps every window ending with it within burst plus rate. */
  lemma AdmitsExactly(times: seq<real>, n: nat, c: Config)
    requires n < |times| && Valid(c)
    ensures Admitted(times, n, c) <==>
            forall k :: 0 <= k <= n ==>
              (Count(times, k, n, c) + 1) as real <= c.burst as real + Earned(Latest(times, k), Latest(times, n), c)
  {
    hide Earned, Latest, Count;
    AvailableIsLeastRoom(times, n, c);
    assert Admitted(times, n, c) <==> Available(times, n, c) >= 1.0;
    if !Admitted(times, n, c) {
      var k :| 0 <= k <= n && Available(times, n, c) == Room(times, k, n, c);
      assert (Count(times, k, n, c) + 1) as real > c.burst as real + Earned(Latest(times, k), Latest(times, n), c);
    } else {
      forall k | 0 <= k <= n
        ensures (Count(times, k, n, c) + 1) as real <= c.burst as real + Earned(Latest(times, k), Latest(times, n), c)
      {
        assert Available(times, n, c) <= Room(times, k, n, c);
      }
    }
  }

  /** Over any calls, however their timestamps are ordered, a window admits at most burst plus rate times clock advance. */
  lemma {:induction false} RateBound(times: seq<real>, k: nat, n: nat, c: Config)
    requires k <= n < |times| && Valid(c)
    ensures Count(times, k, n + 1, c) as real <= c.burst as real + Earned(Latest(times, k), Latest(times, n), c)
    decreases n
  {
    hide Earned, Admitted;
    EarnedAdds(Latest(times, k), Latest(times, k), Latest(times, k), c);
    if Admitted(times, n, c) {
      AdmitsExactly(times, n, c);
    } else if k < n {
      RateBound(times, k, n - 1, c);
      EarnedAdds(Latest(times, k), Latest(times, n - 1), Latest(times, n), c);
      EarnedAdds(Latest(times, n - 1), Latest(times, n), Latest(times, n), c);
    }
  }
}

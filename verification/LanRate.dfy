/** The per-node rate limiter of the LAN index: allowRate in internal/daemon/lan.go. */
module LanRate {
  import opened Chunks

  const SECOND: int := 1_000_000_000
  const RATE_LIMIT: nat := 10

  datatype Bucket = Bucket(count: nat, reset: int)

  type Limiter = map<string, Bucket>

  predicate Allows(limiter: Limiter, node: string, now: int) {
    node !in limiter || now > limiter[node].reset || limiter[node].count < RATE_LIMIT
  }

  function AfterCall(limiter: Limiter, node: string, now: int): Limiter {
    if node !in limiter || now > limiter[node].reset then limiter[node := Bucket(1, now + SECOND)]
    else if limiter[node].count >= RATE_LIMIT then limiter
    else limiter[node := Bucket(limiter[node].count + 1, limiter[node].reset)]
  }

  class RateLimiter {
    var buckets: Limiter

    constructor ()
      ensures buckets == map[]
    {
      buckets := map[];
    }

    method AllowRate(node: string, now: int) returns (ok: bool)
      modifies this
      ensures ok == Allows(old(buckets), node, now)
      ensures buckets == AfterCall(old(buckets), node, now)
    {
      if node !in buckets {
        buckets := buckets[node := Bucket(1, now + SECOND)];
        return true;
      }
      var b := buckets[node];
      if now > b.reset {
        buckets := buckets[node := Bucket(1, now + SECOND)];
        return true;
      }
      if b.count >= RATE_LIMIT {
        return false;
      }
      buckets := buckets[node := b.(count := b.count + 1)];
      return true;
    }
  }

  // ---------- whole traces ----------

  datatype Call = Call(node: string, time: int)

  ghost predicate Nondecreasing(calls: seq<Call>) {
    forall i, j :: 0 <= i < j < |calls| ==> calls[i].time <= calls[j].time
  }

  ghost predicate AllFrom(calls: seq<Call>, t: int) {
    forall c :: c in calls ==> t <= c.time
  }

  function After(limiter: Limiter, calls: seq<Call>): Limiter
    decreases |calls|
  {
    if calls == [] then limiter
    else After(AfterCall(limiter, calls[0].node, calls[0].time), calls[1..])
  }

  /** How many of the node's calls in the closed interval [from, to] are allowed. */
  function AllowedIn(limiter: Limiter, calls: seq<Call>, node: string, from: int, to: int): nat
    decreases |calls|
  {
    if calls == [] then 0
    else
      var c := calls[0];
      (if c.node == node && from <= c.time <= to && Allows(limiter, c.node, c.time) then 1 else 0)
      + AllowedIn(AfterCall(limiter, c.node, c.time), calls[1..], node, from, to)
  }

  /** The most windows that can open within a span of the given length. */
  function Windows(span: int): nat {
    if span < 0 then 0 else span / (SECOND + 1) + 1
  }

  /** What is left in the open window, and all the windows that can open after it. */
  function Left(b: Bucket, to: int): int {
    RATE_LIMIT - b.count + RATE_LIMIT * Windows(to - b.reset - 1)
  }

  ghost predicate BucketsFull(limiter: Limiter) {
    forall n :: n in limiter ==> 1 <= limiter[n].count <= RATE_LIMIT
  }

  lemma WindowOpens(t: int, reset: int, to: int)
    requires reset < t <= to
    ensures RATE_LIMIT * Windows(to - (t + SECOND) - 1) + RATE_LIMIT <= RATE_LIMIT * Windows(to - reset - 1)
  {}

  lemma {:induction false} AllowedAfterWindow(limiter: Limiter, calls: seq<Call>, node: string, from: int, to: int)
    requires BucketsFull(limiter) && Nondecreasing(calls)
    requires node in limiter
    ensures AllowedIn(limiter, calls, node, from, to) <= Left(limiter[node], to)
    decreases |calls|
  {
    if calls != [] {
      var c := calls[0];
      var next := AfterCall(limiter, c.node, c.time);
      AllowedAfterWindow(next, calls[1..], node, from, to);
      if c.node == node && c.time > limiter[node].reset {
        if c.time <= to {
          WindowOpens(c.time, limiter[node].reset, to);
        } else {
          NoneAllowedAfter(next, calls[1..], node, from, to);
        }
      }
    }
  }

  lemma {:induction false} NoneAllowedAfter(limiter: Limiter, calls: seq<Call>, node: string, from: int, to: int)
    requires AllFrom(calls, to + 1)
    ensures AllowedIn(limiter, calls, node, from, to) == 0
    decreases |calls|
  {
    if calls != [] {
      assert calls[0] in calls;
      NoneAllowedAfter(AfterCall(limiter, calls[0].node, calls[0].time), calls[1..], node, from, to);
    }
  }

  lemma AfterOpening(t: int, from: int, to: int)
    requires from <= t <= to
    ensures 1 + Left(Bucket(1, t + SECOND), to) <= RATE_LIMIT * Windows(to - from)
  {}

  lemma StillOpen(b: Bucket, from: int, to: int)
    requires b.count >= 1 && b.reset >= from
    ensures Left(b, to) <= RATE_LIMIT - 1 + RATE_LIMIT * Windows(to - from - 1)
  {}

  /** A window open when the interval begins has already let one call through before it. */
  lemma {:induction false} AllowedInInterval(limiter: Limiter, calls: seq<Call>, node: string, from: int, to: int)
    requires BucketsFull(limiter) && Nondecreasing(calls) && from <= to
    ensures AllowedIn(limiter, calls, node, from, to)
         <= Max(RATE_LIMIT * Windows(to - from), RATE_LIMIT - 1 + RATE_LIMIT * Windows(to - from - 1))
    decreases |calls|
  {
    hide Windows, Left;
    if calls != [] {
      var c := calls[0];
      var next := AfterCall(limiter, c.node, c.time);
      if c.node != node || c.time < from {
        AllowedInInterval(next, calls[1..], node, from, to);
      } else if c.time > to {
        NoneAllowedAfter(limiter, calls, node, from, to);
      } else if node !in limiter || c.time > limiter[node].reset {
        AllowedAfterWindow(next, calls[1..], node, from, to);
        AfterOpening(c.time, from, to);
      } else {
        AllowedAfterWindow(limiter, calls, node, from, to);
        StillOpen(limiter[node], from, to);
      }
    } else {
      WindowsNotNegative(to - from);
    }
  }

  lemma WindowsNotNegative(span: int)
    requires span >= 0
    ensures Windows(span) >= 1
  {}

  lemma WindowsInSeconds(seconds: nat)
    ensures seconds == 0 ==> Windows(seconds * SECOND) == 1 && Windows(seconds * SECOND - 1) == 0
    ensures seconds >= 1 ==> Windows(seconds * SECOND) <= seconds && Windows(seconds * SECOND - 1) <= seconds
  {}

  /** In any closed interval of T whole seconds of any trace, a node gets at most 10·T + 9 messages
      through, or 10 if T is 0; never more than 10·(T + 1). */
  lemma RateBound(calls: seq<Call>, node: string, from: int, seconds: nat)
    requires Nondecreasing(calls)
    ensures AllowedIn(map[], calls, node, from, from + seconds * 1_000_000_000)
         <= if seconds == 0 then 10 else 10 * seconds + 9
  {
    AllowedInInterval(map[], calls, node, from, from + seconds * SECOND);
    WindowsInSeconds(seconds);
  }

  // ---------- the bound is exact ----------

  function Burst(node: string, time: int, n: nat): (b: seq<Call>)
    ensures |b| == n
  {
    seq(n, _ => Call(node, time))
  }

  /** Calls that fit the open window are all allowed. */
  lemma {:induction false} BurstFits(b: Bucket, node: string, time: int, n: nat, rest: seq<Call>, from: int, to: int)
    requires time <= b.reset && b.count + n <= RATE_LIMIT && from <= time <= to
    ensures AllowedIn(map[node := b], Burst(node, time, n) + rest, node, from, to)
         == n + AllowedIn(map[node := b.(count := b.count + n)], rest, node, from, to)
    decreases n
  {
    var calls := Burst(node, time, n) + rest;
    if n == 0 {
      assert calls == rest;
    } else {
      assert calls[0] == Call(node, time) && calls[1..] == Burst(node, time, n - 1) + rest;
      var b' := b.(count := b.count + 1);
      assert map[node := b][node := b'] == map[node := b'];
      BurstFits(b', node, time, n - 1, rest, from, to);
    }
  }

  /** Ten calls that open a window. */
  lemma BurstOpens(b: Bucket, node: string, time: int, rest: seq<Call>, from: int, to: int)
    requires time > b.reset && from <= time <= to
    ensures AllowedIn(map[node := b], Burst(node, time, RATE_LIMIT) + rest, node, from, to)
         == RATE_LIMIT + AllowedIn(map[node := Bucket(RATE_LIMIT, time + SECOND)], rest, node, from, to)
  {
    var calls := Burst(node, time, RATE_LIMIT) + rest;
    assert calls[0] == Call(node, time) && calls[1..] == Burst(node, time, RATE_LIMIT - 1) + rest;
    assert map[node := b][node := Bucket(1, time + SECOND)] == map[node := Bucket(1, time + SECOND)];
    BurstFits(Bucket(1, time + SECOND), node, time, RATE_LIMIT - 1, rest, from, to);
  }

  /** `n` more windows, each opened as soon as the one before has ended. */
  function Bursts(node: string, ended: int, n: nat): seq<Call>
    decreases n
  {
    if n == 0 then [] else Burst(node, ended + 1, RATE_LIMIT) + Bursts(node, ended + 1 + SECOND, n - 1)
  }

  lemma {:induction false} BurstsAllowed(node: string, ended: int, n: nat, from: int, to: int)
    requires from <= ended && ended + n * (SECOND + 1) - SECOND <= to
    ensures AllowedIn(map[node := Bucket(RATE_LIMIT, ended)], Bursts(node, ended, n), node, from, to) == RATE_LIMIT * n
    decreases n
  {
    if n > 0 {
      BurstOpens(Bucket(RATE_LIMIT, ended), node, ended + 1, Bursts(node, ended + 1 + SECOND, n - 1), from, to);
      BurstsAllowed(node, ended + 1 + SECOND, n - 1, from, to);
    }
  }

  lemma {:induction false} BurstsOrdered(node: string, ended: int, n: nat)
    ensures Nondecreasing(Bursts(node, ended, n)) && AllFrom(Bursts(node, ended, n), ended + 1)
    decreases n
  {
    if n > 0 {
      BurstsOrdered(node, ended + 1 + SECOND, n - 1);
      var first, rest := Burst(node, ended + 1, RATE_LIMIT), Bursts(node, ended + 1 + SECOND, n - 1);
      var all: seq<Call> := first + rest;
      forall i, j | 0 <= i < j < |all| ensures all[i].time <= all[j].time {
        if i < |first| <= j { assert rest[j - |first|] in rest; }
      }
    }
  }

  /** Some trace reaches the bound, for every T up to a thousand million seconds. */
  lemma RateBoundIsReached(node: string, seconds: nat) returns (calls: seq<Call>)
    requires 1 <= seconds <= 1_000_000_000
    ensures Nondecreasing(calls)
    ensures AllowedIn(map[], calls, node, 1_000_000_000, (1 + seconds) * 1_000_000_000) == 10 * seconds + 9
  {
    var to := SECOND + seconds * SECOND;
    var early, late := Burst(node, SECOND, RATE_LIMIT - 1), Bursts(node, SECOND, seconds);
    calls := [Call(node, 0)] + (early + late);
    assert calls[0] == Call(node, 0) && calls[1..] == early + late;
    var none: Limiter := map[];
    assert none[node := Bucket(1, SECOND)] == map[node := Bucket(1, SECOND)];
    BurstFits(Bucket(1, SECOND), node, SECOND, RATE_LIMIT - 1, late, SECOND, to);
    BurstsAllowed(node, SECOND, seconds, SECOND, to);
    BurstsOrdered(node, SECOND, seconds);
    forall i, j | 0 <= i < j < |calls| ensures calls[i].time <= calls[j].time {
      if j > |early| { assert late[j - |early| - 1] in late; }
    }
  }
}

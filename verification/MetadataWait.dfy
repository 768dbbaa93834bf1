/** The wait for torrent metadata in a download goroutine of internal/torrent/engine.go.
    Times are nanoseconds. Peers, timers, the scheduler, cancel requests and shutdown are free
    choices; only lateness is bounded, by `lag`. */
module MetadataWait {
  import opened Chunks

  const SECOND: int := 1_000_000_000
  const DEFAULT_META_TIMEOUT: int := 60 * SECOND
  const POLL: int := 5 * SECOND

  datatype Outcome = GotInfo | TimedOut | Canceled | ShutDown

  function MetaTimeout(configured: int): int {
    if configured <= 0 then DEFAULT_META_TIMEOUT else configured
  }

  /** The last of the ticks that saw active peers, or the start. */
  function LastActive(start: int, ticks: seq<int>, peers: nat -> nat): int
    decreases |ticks|
  {
    if ticks == [] then start
    else if peers(|ticks| - 1) > 0 then ticks[|ticks| - 1]
    else LastActive(start, ticks[..|ticks| - 1], peers)
  }

  /** The deadline that tick, or the start, determines. */
  function DeadlineAfter(start: int, ticks: seq<int>, peers: nat -> nat, timeout: int, maxDeadline: int): int {
    Min(LastActive(start, ticks, peers) + timeout, maxDeadline)
  }

  /** The last tick, or the second clock reading. */
  function LastTick(start': int, ticks: seq<int>): int {
    if ticks == [] then start' else ticks[|ticks| - 1]
  }

  ghost predicate Nondecreasing(times: seq<int>) {
    forall i, j :: 0 <= i < j < |times| ==> times[i] <= times[j]
  }

  /** The deadline is always the one fixed by the last tick with active peers. */
  ghost predicate Extended(start: int, timeout: int, peers: nat -> nat, maxDeadline: int, ticks: seq<int>,
                           deadlines: seq<int>) {
    |deadlines| == |ticks| + 1 &&
    forall k :: 0 <= k <= |ticks| ==> deadlines[k] == DeadlineAfter(start, ticks[..k], peers, timeout, maxDeadline)
  }

  /** A tick is armed before the deadline, and comes at that deadline or after five seconds, whichever
      is first, or later. */
  ghost predicate Spaced(start': int, ticks: seq<int>, deadlines: seq<int>) {
    |deadlines| == |ticks| + 1 &&
    forall k :: 0 <= k < |ticks| ==> Armed(deadlines[k], LastTick(start', ticks[..k]), ticks[k])
  }

  predicate Armed(deadline: int, last: int, tick: int) {
    last < deadline && Min(deadline, last + POLL) <= tick
  }

  /** No tick comes later than five seconds after the one before, but for lateness. */
  ghost predicate Frequent(start': int, ticks: seq<int>, lag: nat) {
    forall k :: 0 <= k < |ticks| ==> ticks[k] <= LastTick(start', ticks[..k]) + 5_000_000_000 + 2 * lag
  }

  lemma FrequentTick(start': int, ticks: seq<int>, lag: nat, t: int)
    requires Frequent(start', ticks, lag) && t <= LastTick(start', ticks) + 5_000_000_000 + 2 * lag
    ensures Frequent(start', ticks + [t], lag)
  {
    hide LastTick;
    assert (ticks + [t])[..|ticks|] == ticks;
    assert forall k :: 0 <= k <= |ticks| ==> (ticks + [t])[..k] == ticks[..k];
  }

  /** `deadlines` holds the deadline before the first of the ticks and after each of them. */
  ghost predicate Followed(start: int, start': int, timeout: int, peers: nat -> nat, ticks: seq<int>,
                           deadlines: seq<int>) {
    && |deadlines| == |ticks| + 1
    && Extended(start, timeout, peers, start' + 3 * timeout, ticks, deadlines)
    && Spaced(start', ticks, deadlines) && Nondecreasing(deadlines)
  }

  lemma FollowedStart(start: int, start': int, timeout: int, peers: nat -> nat)
    requires start <= start' && timeout > 0
    ensures Followed(start, start', timeout, peers, [], [start + timeout])
    ensures LastActive(start, [], peers) == start
  {}

  lemma ExtendedTick(start: int, timeout: int, peers: nat -> nat, maxDeadline: int, ticks: seq<int>,
                     deadlines: seq<int>,
                     t: int, d: int)
    requires Extended(start, timeout, peers, maxDeadline, ticks, deadlines)
    requires d == DeadlineAfter(start, ticks + [t], peers, timeout, maxDeadline)
    ensures Extended(start, timeout, peers, maxDeadline, ticks + [t], deadlines + [d])
  {
    hide DeadlineAfter;
    var ticks' := ticks + [t];
    assert ticks'[..|ticks'|] == ticks';
    assert forall k :: 0 <= k <= |ticks| ==> ticks'[..k] == ticks[..k];
  }

  lemma SpacedTick(start': int, ticks: seq<int>, deadlines: seq<int>, t: int, d: int)
    requires Spaced(start', ticks, deadlines)
    requires Armed(deadlines[|ticks|], LastTick(start', ticks), t)
    ensures Spaced(start', ticks + [t], deadlines + [d])
  {
    hide LastTick, Armed;
    var ticks' := ticks + [t];
    assert ticks'[..|ticks|] == ticks;
    assert forall k :: 0 <= k <= |ticks| ==> ticks'[..k] == ticks[..k];
  }

  lemma FollowedTick(start: int, start': int, timeout: int, peers: nat -> nat, ticks: seq<int>, deadlines: seq<int>,
                     t: int, d: int)
    requires Followed(start, start', timeout, peers, ticks, deadlines)
    requires Armed(deadlines[|ticks|], LastTick(start', ticks), t)
    requires d == DeadlineAfter(start, ticks + [t], peers, timeout, start' + 3 * timeout) >= deadlines[|ticks|]
    ensures Followed(start, start', timeout, peers, ticks + [t], deadlines + [d])
  {
    hide Extended, Spaced, DeadlineAfter, LastTick, Armed;
    ExtendedTick(start, timeout, peers, start' + 3 * timeout, ticks, deadlines, t, d);
    SpacedTick(start', ticks, deadlines, t, d);
    NondecreasingTick(deadlines, d);
  }

  lemma NondecreasingTick(times: seq<int>, t: int)
    requires Nondecreasing(times) && times != [] && times[|times| - 1] <= t
    ensures Nondecreasing(times + [t])
  {}

  // ---------- how often it polls ----------

  /** The time that two ticks gain, whatever peers do. */
  function Gain(timeout: int): (g: nat)
    requires timeout > 0
    ensures g > 0
  {
    Min(POLL, timeout)
  }

  lemma TickStays(start': int, ticks: seq<int>, k: nat)
    requires k < |ticks|
    ensures LastTick(start', ticks[..k + 1]) == ticks[k]
  {}

  lemma NextDeadline(start: int, ticks: seq<int>, peers: nat -> nat, timeout: int, maxDeadline: int, k: nat)
    requires k < |ticks|
    ensures DeadlineAfter(start, ticks[..k + 1], peers, timeout, maxDeadline)
         == if peers(k) > 0 then Min(ticks[k] + timeout, maxDeadline)
            else DeadlineAfter(start, ticks[..k], peers, timeout, maxDeadline)
  {
    assert ticks[..k + 1] == ticks[..k] + [ticks[k]];
    TickAdded(start, ticks[..k], ticks[k], peers);
    hide LastActive;
  }

  lemma TwoTicksGain(start: int, start': int, timeout: int, peers: nat -> nat, ticks: seq<int>,
                     deadlines: seq<int>, k: nat)
    requires timeout > 0 && Followed(start, start', timeout, peers, ticks, deadlines) && k + 2 < |ticks|
    ensures ticks[k + 1] >= LastTick(start', ticks[..k]) + Gain(timeout)
  {
    var maxDeadline := start' + 3 * timeout;
    NextDeadline(start, ticks, peers, timeout, maxDeadline, k);
    TickStays(start', ticks, k);
    TickStays(start', ticks, k + 1);
    hide LastActive, LastTick, Nondecreasing;
    assert Armed(deadlines[k], LastTick(start', ticks[..k]), ticks[k]);
    assert Armed(deadlines[k + 1], LastTick(start', ticks[..k + 1]), ticks[k + 1]);
    assert Armed(deadlines[k + 2], LastTick(start', ticks[..k + 2]), ticks[k + 2]);
    assert deadlines[k + 2] <= maxDeadline;
  }

  lemma {:induction false} TicksGain(start: int, start': int, timeout: int, peers: nat -> nat,
                                     ticks: seq<int>, deadlines: seq<int>, i: nat)
    requires timeout > 0 && Followed(start, start', timeout, peers, ticks, deadlines) && 2 * i < |ticks|
    ensures LastTick(start', ticks[..2 * i]) >= start' + Times(Gain(timeout), i)
  {
    hide Followed, Gain;
    if i == 0 {
      assert ticks[..0] == [];
    } else {
      var k := 2 * i - 2;
      TicksGain(start, start', timeout, peers, ticks, deadlines, i - 1);
      TwoTicksGain(start, start', timeout, peers, ticks, deadlines, k);
      TickStays(start', ticks, k + 1);
      assert Times(Gain(timeout), i) == Gain(timeout) + Times(Gain(timeout), i - 1);
      hide LastTick, Times;
    }
  }

  lemma BeforeMaxDeadline(start: int, start': int, timeout: int, peers: nat -> nat,
                          ticks: seq<int>, deadlines: seq<int>, k: nat)
    requires Followed(start, start', timeout, peers, ticks, deadlines) && k < |ticks|
    ensures LastTick(start', ticks[..k]) < start' + 3 * timeout
  {
    hide LastActive, LastTick, Nondecreasing;
    assert Armed(deadlines[k], LastTick(start', ticks[..k]), ticks[k]);
  }

  lemma TimesBelow(width: nat, count: nat, limit: nat)
    requires width > 0 && Times(width, count) < limit
    ensures count < CeilDiv(limit, width)
  {
    TimesIsProduct(width, count);
    var q := CeilDiv(limit, width);
    assert limit <= q * width;
    MulMono(q, count, width);
  }

  /** The wait polls at most twice for every five seconds, or every timeout if that is shorter, of
      three timeouts: 72 times with the default. */
  lemma PollsBounded(start: int, start': int, timeout: int, peers: nat -> nat, ticks: seq<int>, deadlines: seq<int>)
    requires timeout > 0 && Followed(start, start', timeout, peers, ticks, deadlines)
    ensures |ticks| <= 2 * CeilDiv(3 * timeout, Gain(timeout))
    ensures timeout == 60_000_000_000 ==> |ticks| <= 72
  {
    if ticks != [] {
      var i := (|ticks| - 1) / 2;
      TicksGain(start, start', timeout, peers, ticks, deadlines, i);
      BeforeMaxDeadline(start, start', timeout, peers, ticks, deadlines, 2 * i);
      hide Followed, LastTick;
      TimesBelow(Gain(timeout), i, 3 * timeout);
    }
  }

  /** `start` and `start'` are the two clock readings the deadlines are computed from, and `peers(k)`
      is the number of active peers the k-th tick sees. The loop ends whatever the environment does.
      It times out exactly once the deadline has passed, and never waits beyond three timeouts, plus
      lateness. `now` is the last time the clock was read. */
  method WaitForMetadata(start: int, start': int, configured: int, lag: nat, peers: nat -> nat)
    returns (outcome: Outcome, now: int, ghost ticks: seq<int>, ghost deadlines: seq<int>)
    requires start <= start' <= start + lag
    ensures Followed(start, start', MetaTimeout(configured), peers, ticks, deadlines)
    ensures Frequent(start', ticks, lag)
    ensures outcome == TimedOut ==> now >= deadlines[|ticks|]
    ensures outcome in {GotInfo, ShutDown} ==> now < deadlines[|ticks|]
    ensures now <= start' + 3 * MetaTimeout(configured) + 2 * lag
  {
    var timeout := MetaTimeout(configured);
    now := start';
    var deadline := start + timeout;
    var maxDeadline := start' + 3 * timeout;
    ticks, deadlines := [], [deadline];
    var tick := 0;
    FollowedStart(start, start', timeout, peers);
    assert Frequent(start', [], lag);
    hide Followed, LastActive, Frequent;
    while true
      invariant now == LastTick(start', ticks) && start' <= now <= maxDeadline + lag
      invariant tick == |ticks| && |deadlines| == |ticks| + 1 && deadlines[|ticks|] == deadline
      invariant Followed(start, start', timeout, peers, ticks, deadlines)
      invariant Frequent(start', ticks, lag)
      invariant LastActive(start, ticks, peers) <= now && deadline <= maxDeadline
      invariant deadline == DeadlineAfter(start, ticks, peers, timeout, maxDeadline)
      decreases maxDeadline - now
    {
      var canceled: bool := *;
      if canceled {
        return Canceled, now, ticks, deadlines;
      }
      var step: nat :| step <= lag;
      var reading := now + step;
      var window := deadline - reading;
      if window <= 0 {
        canceled := *;
        return if canceled then Canceled else TimedOut, reading, ticks, deadlines;
      }
      if window > POLL {
        window := POLL;
      }
      var gotInfo: bool, shutdown: bool := *, *;
      if gotInfo {
        return GotInfo, reading, ticks, deadlines;
      }
      if shutdown {
        return ShutDown, reading, ticks, deadlines;
      }
      // The timer fires, no earlier than asked for.
      var late: nat :| late <= lag;
      now := reading + window + late;
      if peers(tick) > 0 {
        var extended := now + timeout;
        if extended > maxDeadline {
          extended := maxDeadline;
        }
        if extended > deadline {
          deadline := extended;
        }
      }
      TickAdded(start, ticks, now, peers);
      FollowedTick(start, start', timeout, peers, ticks, deadlines, now, deadline);
      FrequentTick(start', ticks, lag, now);
      tick := tick + 1;
      ticks := ticks + [now];
      deadlines := deadlines + [deadline];
    }
  }

  /** The first deadline is the configured time after the start, or a minute. Each tick that sees peers
      moves it to that time after the tick, but not beyond three times it; other ticks leave it. */
  lemma DeadlinesAre(start: int, start': int, configured: int, peers: nat -> nat, ticks: seq<int>,
                     deadlines: seq<int>, k: nat)
    requires Followed(start, start', MetaTimeout(configured), peers, ticks, deadlines) && start <= start'
    requires k < |ticks|
    ensures var timeout := if configured > 0 then configured else 60_000_000_000;
      && deadlines[0] == start + timeout
      && deadlines[k + 1] == (if peers(k) == 0 then deadlines[k]
                              else if ticks[k] + timeout <= start' + 3 * timeout then ticks[k] + timeout
                              else start' + 3 * timeout)
  {
    var timeout := MetaTimeout(configured);
    NextDeadline(start, ticks, peers, timeout, start' + 3 * timeout, k);
    assert ticks[..0] == [];
    assert LastActive(start, [], peers) == start;
    hide LastActive, Spaced, Nondecreasing;
  }

  lemma TickAdded(start: int, ticks: seq<int>, t: int, peers: nat -> nat)
    ensures LastActive(start, ticks + [t], peers) == if peers(|ticks|) > 0 then t else LastActive(start, ticks, peers)
  {
    assert (ticks + [t])[..|ticks|] == ticks;
  }
}

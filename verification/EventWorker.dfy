/** Delivery of queued events: retryDelay, sendWithRetry and drain of internal/events/worker.go,
    with the ingest client's reading of replies. Times are in seconds. */
module EventWorker {
  import opened Wrappers
  import opened Chunks
  import opened EventQueue

  const MAX_ATTEMPTS: nat := 8
  const MAX_SENDS: nat := 5

  // ---------- retry delay ----------

  function Pow2(n: nat): (r: nat)
    ensures r >= 1
  {
    if n == 0 then 1 else 2 * Pow2(n - 1)
  }

  lemma {:induction false} Pow2Monotone(a: nat, b: nat)
    requires a <= b
    ensures Pow2(a) <= Pow2(b)
    decreases b
  {
    if a < b {
      Pow2Monotone(a, b - 1);
    }
  }

  /** 30 seconds, doubled for every attempt after the first, at most 30 minutes. */
  function RetryDelay(attempt: int): int {
    if attempt <= 0 then 30 else Min(30 * Pow2(attempt - 1), 1800)
  }

  lemma RetryDelayMonotone(a: int, b: int)
    requires a <= b
    ensures 30 <= RetryDelay(a) <= RetryDelay(b) <= 1800
  {
    if 0 < a {
      Pow2Monotone(a - 1, b - 1);
    }
  }

  method ComputeRetryDelay(attempt: int) returns (delay: int)
    ensures delay == RetryDelay(attempt)
  {
    if attempt <= 0 {
      return 30;
    }
    delay := 30;
    var i := 1;
    while i < attempt
      invariant 1 <= i <= attempt
      invariant delay == 30 * Pow2(i - 1) < 1800
    {
      delay := delay * 2;
      if delay >= 1800 {
        Pow2Monotone(i, attempt - 1);
        return 1800;
      }
      i := i + 1;
    }
  }

  // ---------- one exchange with the ingest service ----------

  datatype Verdict = Delivered | Retryable | Permanent

  /** The status of the existence check and of the upload; None where no reply came. */
  datatype Exchange = Exchange(head: Option<nat>, post: Option<nat>)

  function OfStatus(status: nat): Verdict {
    if status == 429 || status >= 500 then Retryable else Permanent
  }

  function Send(x: Exchange): Verdict {
    match x.head
    case None => Retryable
    case Some(head) =>
      if head == 200 then Delivered
      else if head != 404 && head != 405 && head != 501 then OfStatus(head)
      else
        match x.post
        case None => Retryable
        case Some(post) => if 200 <= post < 300 then Delivered else OfStatus(post)
  }

  // What the ingest service promises for the numbers it sends. "No such model" is said by 404, 405 and
  // 501; then the upload decides.

  predicate Unknown(head: Option<nat>) {
    head == Some(404) || head == Some(405) || head == Some(501)
  }

  /** It has the event now, or had it. */
  predicate Delivers(x: Exchange) {
    x.head == Some(200) || (Unknown(x.head) && x.post.Some? && 200 <= x.post.value <= 299)
  }

  /** No reply, too many requests, or an error of the service. */
  predicate Defers(x: Exchange) {
    if Unknown(x.head) then x.post.None? || x.post.value == 429 || x.post.value >= 500
    else x.head.None? || x.head.value == 429 || x.head.value >= 500
  }

  /** Any other reply. */
  predicate Rejects(x: Exchange) {
    if Unknown(x.head)
    then x.post.Some? && x.post.value < 500 && x.post.value != 429 && !(200 <= x.post.value <= 299)
    else x.head.Some? && x.head.value < 500 && x.head.value != 429 && x.head.value != 200
  }

  lemma SendIs(x: Exchange)
    ensures Send(x) == Delivered <==> Delivers(x)
    ensures Send(x) == Retryable <==> Defers(x)
    ensures Send(x) == Permanent <==> Rejects(x)
  {}

  /** Up to five exchanges with growing pauses; `stops` says after which of them the worker is told
      to stop. The verdict is that of the last exchange made, every one before it was retryable, and
      fewer than five end without a verdict only when the worker is stopped. */
  method SendWithRetry(exchanges: seq<Exchange>, stops: seq<bool>)
    returns (verdict: Verdict, sends: nat, waited: nat)
    requires |exchanges| == MAX_SENDS && |stops| == MAX_SENDS
    ensures 1 <= sends <= 5 && verdict == Send(exchanges[sends - 1])
    ensures verdict == Delivered <==> Delivers(exchanges[sends - 1])
    ensures verdict == Retryable <==> Defers(exchanges[sends - 1])
    ensures verdict == Permanent <==> Rejects(exchanges[sends - 1])
    ensures forall i :: 0 <= i < sends - 1 ==> Send(exchanges[i]) == Retryable && Defers(exchanges[i]) && !stops[i]
    ensures verdict == Retryable && sends < 5 ==> stops[sends - 1]
    ensures waited == Pow2(sends - 1) - 1 <= 15
  {
    hide Send, Defers, Delivers, Rejects;
    var backoff := 1;
    sends, waited := 0, 0;
    verdict := Retryable;
    while sends < MAX_SENDS
      invariant 0 <= sends <= MAX_SENDS - 1
      invariant backoff == Pow2(sends) && waited == Pow2(sends) - 1
      invariant forall i :: 0 <= i < sends ==> Send(exchanges[i]) == Retryable && Defers(exchanges[i]) && !stops[i]
    {
      SendIs(exchanges[sends]);
      verdict := Send(exchanges[sends]);
      sends := sends + 1;
      SmallPowers();
      if verdict == Delivered || verdict == Permanent {
        return;
      }
      if sends == MAX_SENDS {
        return;
      }
      if stops[sends - 1] {
        return;
      }
      waited := waited + backoff;
      if backoff < 16 {
        backoff := backoff * 2;
      }
    }
  }

  lemma SmallPowers()
    ensures Pow2(0) == 1 && Pow2(1) == 2 && Pow2(2) == 4 && Pow2(3) == 8 && Pow2(4) == 16
  {}

  // ---------- what a drain does with one event ----------

  predicate Due(e: Event, now: int) {
    e.nextAttemptAfter.None? || e.nextAttemptAfter.value <= now
  }

  function Attributed(e: Event, pubKey: string, sig: string): Event {
    e.(publisherPubKey := pubKey, publisherSig := sig)
  }

  /** The event as it is kept after its attempts-th failure. */
  function Deferred(e: Event, now: int): Event {
    e.(deliveryAttempts := e.deliveryAttempts + 1,
       nextAttemptAfter := Some(now + RetryDelay(e.deliveryAttempts + 1)))
  }

  predicate Leaves(e: Event, verdict: Verdict) {
    verdict != Retryable || e.deliveryAttempts + 1 >= MAX_ATTEMPTS
  }

  /** The queue after the event, already attributed, was sent with that verdict. */
  function Settle(events: map<string, Event>, name: string, e: Event, verdict: Verdict, now: int): map<string, Event> {
    if Leaves(e, verdict) then events - {name} else events[name := Deferred(e, now)]
  }

  /** Everything a drain meets at one event. */
  datatype World = World(attribution: Option<(string, string)>, exchanges: seq<Exchange>, stops: seq<bool>,
                         ioFails: bool)

  predicate WorldOk(w: World) {
    |w.exchanges| == MAX_SENDS && |w.stops| == MAX_SENDS
  }

  /** How sendWithRetry ends, as a function of what it meets. */
  function Verdicts(exchanges: seq<Exchange>, stops: seq<bool>, i: nat): Verdict
    requires |exchanges| == MAX_SENDS && |stops| == MAX_SENDS && i < MAX_SENDS
    decreases MAX_SENDS - i
  {
    if Send(exchanges[i]) != Retryable || i == MAX_SENDS - 1 || stops[i] then Send(exchanges[i])
    else Verdicts(exchanges, stops, i + 1)
  }

  /** ... and how many exchanges it made. */
  function SendsMade(exchanges: seq<Exchange>, stops: seq<bool>, i: nat): (n: nat)
    requires |exchanges| == MAX_SENDS && |stops| == MAX_SENDS && i < MAX_SENDS
    ensures i < n <= MAX_SENDS
    decreases MAX_SENDS - i
  {
    if Send(exchanges[i]) != Retryable || i == MAX_SENDS - 1 || stops[i] then i + 1
    else SendsMade(exchanges, stops, i + 1)
  }

  lemma {:induction false} VerdictIs(exchanges: seq<Exchange>, stops: seq<bool>, i: nat, sends: nat)
    requires |exchanges| == MAX_SENDS && |stops| == MAX_SENDS && i < sends <= MAX_SENDS
    requires forall j :: i <= j < sends - 1 ==> Send(exchanges[j]) == Retryable && !stops[j]
    requires Send(exchanges[sends - 1]) == Retryable && sends < MAX_SENDS ==> stops[sends - 1]
    ensures Verdicts(exchanges, stops, i) == Send(exchanges[sends - 1]) && SendsMade(exchanges, stops, i) == sends
    decreases sends - i
  {
    if i < sends - 1 {
      VerdictIs(exchanges, stops, i + 1, sends);
    }
  }

  datatype After = After(events: map<string, Event>, go: bool)

  /** The committed events after one listed event, and whether the drain goes on. */
  function AfterOne(events: map<string, Event>, name: string, e: Event, now: int, w: World): After
    requires WorldOk(w)
  {
    if !Due(e, now) then After(events, true)
    else if w.attribution.None? || w.ioFails then After(events, false)
    else
      var sent := Attributed(e, w.attribution.value.0, w.attribution.value.1);
      After(Settle(events, name, sent, Verdicts(w.exchanges, w.stops, 0), now), true)
  }

  lemma AfterOneCases(events: map<string, Event>, name: string, e: Event, now: int, w: World)
    requires WorldOk(w)
    ensures var r := AfterOne(events, name, e, now, w);
      if !Due(e, now) then r == After(events, true)
      else if w.attribution.None? || w.ioFails then r == After(events, false)
      else
        var sent := Attributed(e, w.attribution.value.0, w.attribution.value.1);
        r == After(if Leaves(sent, Verdicts(w.exchanges, w.stops, 0)) then events - {name}
                   else events[name := Deferred(sent, now)], true)
  {}

  function Drained(events: map<string, Event>, todo: seq<(string, Event)>, now: int,
                   world: string -> World): map<string, Event>
    requires forall n :: WorldOk(world(n))
    decreases |todo|
  {
    if todo == [] then events
    else
      var r := AfterOne(events, todo[0].0, todo[0].1, now, world(todo[0].0));
      if r.go then Drained(r.events, todo[1..], now, world) else r.events
  }

  /** The listed events from the i-th on are still as they were listed. */
  ghost predicate Ahead(events: map<string, Event>, todo: seq<(string, Event)>, i: nat) {
    && (forall j :: i <= j < |todo| ==> todo[j].0 in events && events[todo[j].0] == todo[j].1)
    && (forall j, k :: 0 <= j < k < |todo| ==> todo[j].0 != todo[k].0)
    && (forall j :: 0 <= j < |todo| ==> IsJson(todo[j].0))
  }

  lemma ListedIsAhead(dir: Dir, todo: seq<(string, Event)>)
    requires IsListing(Events(dir), todo)
    ensures Ahead(Events(dir), todo, 0)
  {
    hide IsJson;
  }

  lemma OneStaysAhead(events: map<string, Event>, todo: seq<(string, Event)>, i: nat, now: int, w: World)
    requires Ahead(events, todo, i) && i < |todo| && WorldOk(w)
    ensures Ahead(AfterOne(events, todo[i].0, todo[i].1, now, w).events, todo, i + 1)
  {
    hide IsJson, Verdicts, Due;
  }

  /** All listed events, in name order, until one stops the drain. */
  ghost predicate DrainedInOrder(before: map<string, Event>, after: map<string, Event>, now: int,
                                 world: string -> World)
    requires forall n :: WorldOk(world(n))
  {
    exists todo :: IsListing(before, todo) && after == Drained(before, todo, now, world)
  }

  lemma DrainStep(events: map<string, Event>, todo: seq<(string, Event)>, i: nat, now: int, world: string -> World)
    requires i < |todo| && forall n :: WorldOk(world(n))
    ensures var r := AfterOne(events, todo[i].0, todo[i].1, now, world(todo[i].0));
      Drained(events, todo[i..], now, world)
        == if r.go then Drained(r.events, todo[i + 1..], now, world) else r.events
  {
    hide AfterOne;
    assert todo[i..][1..] == todo[i + 1..];
  }

  class Worker {
    const queue: Queue

    constructor (queue: Queue)
      ensures this.queue == queue
    {
      this.queue := queue;
    }

    /** The body of drain's loop; `false` where it returns. */
    method DrainOne(name: string, e: Event, now: int, w: World) returns (go: bool)
      requires Clean(queue.dir) && IsJson(name) && name in Events(queue.dir) && WorldOk(w)
      modifies queue
      ensures Clean(queue.dir)
      ensures After(Events(queue.dir), go) == AfterOne(Events(old(queue.dir)), name, e, now, w)
    {
      AfterOneCases(Events(queue.dir), name, e, now, w);
      hide AfterOne, Clean, Events, Verdicts, IsJson, Send, Settle, Delivers, Defers, Rejects, Pow2;
      if e.nextAttemptAfter.Some? && e.nextAttemptAfter.value > now {
        return true;
      }
      if w.attribution.None? {
        return false;
      }
      var event := Attributed(e, w.attribution.value.0, w.attribution.value.1);
      var verdict, sends, waited := SendWithRetry(w.exchanges, w.stops);
      VerdictIs(w.exchanges, w.stops, 0, sends);
      if verdict == Permanent {
        go := queue.Delete(name, w.ioFails);
        return go;
      }
      if verdict == Retryable {
        event := event.(deliveryAttempts := event.deliveryAttempts + 1);
        if event.deliveryAttempts >= MAX_ATTEMPTS {
          go := queue.Delete(name, w.ioFails);
          return go;
        }
        var delay := ComputeRetryDelay(event.deliveryAttempts);
        event := event.(nextAttemptAfter := Some(now + delay));
        ghost var states;
        go, states := queue.Commit(name, event, if w.ioFails then WriteFails else NoFault);
        return go;
      }
      go := queue.Delete(name, w.ioFails);
    }

    /** One drain; `dirFails` and `unreadable` are what listing meets, `cfgOk` and `enabled` what
        loading the configuration gives. */
    method Drain(now: int, dirFails: bool, unreadable: set<string>, cfgOk: bool, enabled: bool, world: string -> World)
      requires forall n :: WorldOk(world(n))
      modifies queue
      ensures Clean(old(queue.dir)) ==> Clean(queue.dir)
      ensures dirFails || !Clean(old(queue.dir)) || !(Visible(old(queue.dir)) !! unreadable) || !cfgOk || !enabled ==>
        queue.dir == old(queue.dir)
      ensures !dirFails && Clean(old(queue.dir)) && Visible(old(queue.dir)) !! unreadable && cfgOk && enabled ==>
        DrainedInOrder(Events(old(queue.dir)), Events(queue.dir), now, world)
    {
      var listed := queue.List(dirFails, unreadable);
      if listed.None? {
        return;
      }
      var todo := listed.value;
      ghost var start := Events(queue.dir);
      if |todo| == 0 {
        assert Drained(start, todo, now, world) == start;
        return;
      }
      if !cfgOk {
        return;
      }
      if !enabled {
        return;
      }
      ListedIsAhead(queue.dir, todo);
      hide Clean, Events, IsListing, AfterOne, Drained;
      assert todo[0..] == todo;
      var i := 0;
      while i < |todo|
        invariant 0 <= i <= |todo|
        invariant Clean(queue.dir) && Ahead(Events(queue.dir), todo, i)
        invariant Drained(start, todo, now, world) == Drained(Events(queue.dir), todo[i..], now, world)
      {
        DrainStep(Events(queue.dir), todo, i, now, world);
        OneStaysAhead(Events(queue.dir), todo, i, now, world(todo[i].0));
        var go := DrainOne(todo[i].0, todo[i].1, now, world(todo[i].0));
        if !go {
          return;
        }
        i := i + 1;
      }
      NothingLeft(Events(queue.dir), todo[i..], now, world);
    }
  }

  lemma NothingLeft(events: map<string, Event>, todo: seq<(string, Event)>, now: int, world: string -> World)
    requires todo == [] && forall n :: WorldOk(world(n))
    ensures Drained(events, todo, now, world) == events
  {}
}

/** What becomes of a queued event, by the numbers the ingest service replies with. */
module EventReplies {
  import opened Wrappers
  import opened EventQueue
  import opened EventWorker

  /** 30 seconds, doubled each time up to 30 minutes. */
  lemma Delays(attempt: int)
    ensures RetryDelay(1) == 30 && RetryDelay(2) == 60 && RetryDelay(3) == 120 && RetryDelay(4) == 240
    ensures RetryDelay(5) == 480 && RetryDelay(6) == 960
    ensures attempt <= 0 ==> RetryDelay(attempt) == 30
    ensures attempt >= 7 ==> RetryDelay(attempt) == 1800
  {
    assert Pow2(6) == 64;
    if attempt >= 7 {
      Pow2Monotone(6, attempt - 1);
    }
  }

  /** The drain sends an event that is due, where it can be signed and the queue can be written. */
  predicate IsSent(e: Event, now: int, w: World) {
    && (e.nextAttemptAfter.None? || e.nextAttemptAfter.value <= now)
    && w.attribution.Some? && !w.ioFails
  }

  /** The k-th exchange is made and is the last: every one before it deferred, with no stop. */
  predicate LastIs(w: World, k: nat) {
    && |w.exchanges| == |w.stops| == 5 && k < 5
    && (forall j :: 0 <= j < k ==> Defers(w.exchanges[j]) && !w.stops[j])
    && (Defers(w.exchanges[k]) ==> k == 4 || w.stops[k])
  }

  lemma LastVerdict(w: World, k: nat)
    requires LastIs(w, k)
    ensures Verdicts(w.exchanges, w.stops, 0) == Send(w.exchanges[k])
    ensures SendsMade(w.exchanges, w.stops, 0) == k + 1
  {
    forall j | 0 <= j <= k ensures Send(w.exchanges[j]) == Retryable <==> Defers(w.exchanges[j]) {
      SendIs(w.exchanges[j]);
    }
    hide Send, Defers;
    VerdictIs(w.exchanges, w.stops, 0, k + 1);
  }

  /** There is one last exchange. */
  lemma {:induction false} SomeLast(w: World, i: nat) returns (k: nat)
    requires |w.exchanges| == |w.stops| == 5 && i < 5
    requires forall j :: 0 <= j < i ==> Defers(w.exchanges[j]) && !w.stops[j]
    ensures LastIs(w, k)
    decreases 5 - i
  {
    hide Defers;
    if !Defers(w.exchanges[i]) || i == 4 || w.stops[i] {
      k := i;
    } else {
      k := SomeLast(w, i + 1);
    }
  }

  /** An event that the drain sends leaves the queue exactly if the last exchange delivers or rejects it
      or this was its eighth failure. Otherwise it stays, signed, with one attempt more and the delay of
      that attempt from now. */
  lemma SentEvent(events: map<string, Event>, name: string, e: Event, now: int, w: World, k: nat)
    requires name in events && events[name] == e && IsSent(e, now, w) && LastIs(w, k)
    ensures var r, x := AfterOne(events, name, e, now, w), w.exchanges[k];
      && r.go
      && (name !in r.events <==> Delivers(x) || Rejects(x) || e.deliveryAttempts >= 7)
      && (forall n :: n != name ==> (n in r.events <==> n in events) && (n in events ==> r.events[n] == events[n]))
      && (name in r.events ==>
            && Defers(x)
            && r.events[name].payload == e.payload
            && r.events[name].publisherPubKey == w.attribution.value.0
            && r.events[name].publisherSig == w.attribution.value.1
            && r.events[name].deliveryAttempts == e.deliveryAttempts + 1
            && r.events[name].nextAttemptAfter == Some(now + RetryDelay(e.deliveryAttempts + 1)))
  {
    LastVerdict(w, k);
    SendIs(w.exchanges[k]);
    hide Send, Defers, Delivers, Rejects, Verdicts, RetryDelay;
  }

  /** Any other event stays as it is; if it was due the drain ends there. */
  lemma OtherEvent(events: map<string, Event>, name: string, e: Event, now: int, w: World)
    requires WorldOk(w) && !IsSent(e, now, w)
    ensures var r := AfterOne(events, name, e, now, w);
      && r.events == events
      && (r.go <==> e.nextAttemptAfter.Some? && e.nextAttemptAfter.value > now)
  {
    hide Verdicts;
  }

  /** An outage loses nothing: if every exchange ends in no reply, 429 or 500 and above, an event with
      fewer than seven attempts stays, with one more. */
  lemma OutageKeepsEvent(events: map<string, Event>, name: string, e: Event, now: int, w: World)
    requires name in events && events[name] == e && IsSent(e, now, w) && WorldOk(w) && e.deliveryAttempts < 7
    requires forall x :: x in w.exchanges ==> Defers(x)
    ensures var r := AfterOne(events, name, e, now, w);
      && name in r.events && r.events[name].deliveryAttempts == e.deliveryAttempts + 1
      && r.events[name].payload == e.payload
  {
    hide Defers, AfterOne;
    var k := SomeLast(w, 0);
    SentEvent(events, name, e, now, w, k);
    assert w.exchanges[k] in w.exchanges;
    DefersOnly(w.exchanges[k]);
  }

  lemma DefersOnly(x: Exchange)
    requires Defers(x)
    ensures !Delivers(x) && !Rejects(x)
  {}

  /** An event leaves only after a reply that has it or refuses it, with every exchange before deferred,
      or at its eighth failure. */
  lemma LeavesOnly(events: map<string, Event>, name: string, e: Event, now: int, w: World) returns (k: nat)
    requires name in events && events[name] == e && WorldOk(w)
    requires name !in AfterOne(events, name, e, now, w).events
    ensures LastIs(w, k)
    ensures Delivers(w.exchanges[k]) || Rejects(w.exchanges[k]) || e.deliveryAttempts >= 7
  {
    k := SomeLast(w, 0);
    if IsSent(e, now, w) {
      SentEvent(events, name, e, now, w, k);
    } else {
      OtherEvent(events, name, e, now, w);
    }
  }
}

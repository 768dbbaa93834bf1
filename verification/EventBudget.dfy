/** The failures queued events have left: a measure that every settled try lowers. */
module EventBudget {
  import opened Chunks
  import opened EventQueue
  import opened EventWorker
  import opened EventProtocol

  /** One failure an event has left. */
  datatype Unit = Unit(name: string, i: int)

  /** An event enqueued with too many attempts already still has one try. */
  function Attempts(e: Event): int {
    Min(e.deliveryAttempts, MAX_ATTEMPTS - 1)
  }

  function Budget(events: map<string, Event>): (r: set<Unit>)
    ensures forall u :: u in r <==> u.name in events && Attempts(events[u.name]) <= u.i < MAX_ATTEMPTS
  {
    set name, i | name in events && Attempts(events[name]) <= i < MAX_ATTEMPTS :: Unit(name, i)
  }

  /** The sum, over the queued events, of 8 less their attempts. */
  function Remaining(events: map<string, Event>): nat {
    |Budget(events)|
  }

  /** The units of one event. */
  function Units(name: string, from: int): (r: set<Unit>)
    requires from <= MAX_ATTEMPTS
    ensures |r| == MAX_ATTEMPTS - from
    ensures forall u :: u in r <==> u.name == name && from <= u.i < MAX_ATTEMPTS
    decreases MAX_ATTEMPTS - from
  {
    if from == MAX_ATTEMPTS then {}
    else
      var rest := Units(name, from + 1);
      assert Unit(name, from) !in rest;
      rest + {Unit(name, from)}
  }

  /** That it is that sum: an event adds 8 less its attempts. */
  lemma RemainingWith(events: map<string, Event>, name: string, e: Event)
    requires name !in events
    ensures Remaining(events[name := e]) == Remaining(events) + (MAX_ATTEMPTS - Attempts(e))
  {
    hide Budget, Units, Attempts;
    AtMostSeven(e);
    assert Budget(events) !! Units(name, Attempts(e));
    assert Budget(events[name := e]) == Budget(events) + Units(name, Attempts(e));
  }

  lemma AtMostSeven(e: Event)
    ensures Attempts(e) < MAX_ATTEMPTS
  {}

  lemma RemainingWithout(events: map<string, Event>, name: string)
    requires name in events
    ensures Remaining(events) == Remaining(events - {name}) + (MAX_ATTEMPTS - Attempts(events[name]))
  {
    hide Remaining, Attempts;
    RemainingWith(events - {name}, name, events[name]);
    assert (events - {name})[name := events[name]] == events;
  }

  /** A settled try costs an event one failure, or all it had left when it leaves the queue. */
  lemma SettlingCosts(s: Sys)
    requires Inv(s) && s.worker.Sent?
    ensures s.worker.name in s.events && Step(s, Settled(true)).Some?
    ensures var left := Remaining(Step(s, Settled(true)).value.events);
      var e := s.events[s.worker.name];
      left == Remaining(s.events) - (if Leaves(s.worker.event, s.worker.verdict) then MAX_ATTEMPTS - Attempts(e) else 1)
    ensures Remaining(Step(s, Settled(true)).value.events) < Remaining(s.events)
  {
    var w, e := s.worker, s.events[s.worker.name];
    PastCovers(s);
    SettledEvents(s);
    hide Inv, Remaining, RetryDelay, Step;
    AtMostSeven(e);
    RemainingWithout(s.events, w.name);
    if !Leaves(w.event, w.verdict) {
      var d := Deferred(w.event, w.now);
      RemainingWith(s.events - {w.name}, w.name, d);
      assert (s.events - {w.name})[w.name := d] == s.events[w.name := d];
    }
  }

  lemma SettledEvents(s: Sys)
    requires Inv(s) && s.worker.Sent?
    ensures s.worker.name in s.events && Step(s, Settled(true)).Some?
    ensures Step(s, Settled(true)).value.events
         == Settle(s.events, s.worker.name, s.worker.event, s.worker.verdict, s.worker.now)
    ensures s.worker.event.deliveryAttempts == s.events[s.worker.name].deliveryAttempts
  {
    hide EventOk, Due, Pending, CallsOk, NoneUnheard, TimesOk, Settle;
  }

  /** Nothing else lowers or raises it but a commit, which adds what the new event has. */
  lemma OthersCostNothing(s: Sys, a: Action)
    requires Inv(s) && Step(s, a).Some? && a != Settled(true)
    ensures var left := Remaining(Step(s, a).value.events);
      if a.CommitEvent? then
        a.c in s.calls && s.calls[a.c].Writing?
        && left == Remaining(s.events) + (MAX_ATTEMPTS - Attempts(s.calls[a.c].event))
      else left == Remaining(s.events)
  {
    hide Remaining, Attempts;
    if a.CommitEvent? {
      RemainingWith(s.events, a.name, s.calls[a.c].event);
    } else {
      OthersKeepEvents(s, a);
    }
  }

  lemma OthersKeepEvents(s: Sys, a: Action)
    requires Step(s, a).Some? && a != Settled(true) && !a.CommitEvent?
    ensures Step(s, a).value.events == s.events
  {
    hide IsListing, Due, Lost;
  }

  function Settles(actions: seq<Action>): nat {
    if actions == [] then 0 else (if actions[0] == Settled(true) then 1 else 0) + Settles(actions[1..])
  }

  /** What the commits of a run add. */
  ghost function Added(s: Sys, actions: seq<Action>): nat
    requires Run(s, actions).Some?
    decreases |actions|
  {
    if actions == [] then 0
    else
      var a := actions[0];
      (if a.CommitEvent? && a.c in s.calls && s.calls[a.c].Writing?
       then MAX_ATTEMPTS - Attempts(s.calls[a.c].event) else 0)
      + Added(Step(s, a).value, actions[1..])
  }

  /** Over every run, tries are settled at most as often as the events queued at its start and those
      committed in it have failures left: without commits the queue comes to rest. */
  lemma {:induction false} SettlesAtMost(s: Sys, actions: seq<Action>)
    requires Inv(s) && Run(s, actions).Some?
    ensures Settles(actions) + Remaining(Run(s, actions).value.events) <= Remaining(s.events) + Added(s, actions)
    decreases |actions|
  {
    hide Inv, Step, Remaining, Attempts;
    if actions != [] {
      var a := actions[0];
      StepKeepsInv(s, a);
      if a == Settled(true) {
        SettlingStep(s);
        SettlingCosts(s);
      } else {
        OthersCostNothing(s, a);
      }
      SettlesAtMost(Step(s, a).value, actions[1..]);
    }
  }

  lemma SettlingStep(s: Sys)
    requires Step(s, Settled(true)).Some?
    ensures s.worker.Sent?
  {}
}

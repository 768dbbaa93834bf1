/** Every interleaving of Enqueue calls, the delivery worker, its restarts and crashes, over the
    committed events. A commit or a removal is one step, because it is one rename or one unlink.
    Times are in seconds. */
module EventProtocol {
  import opened Wrappers
  import opened EventQueue
  import opened EventWorker

  type CallId = nat

  /** An Enqueue call: writing, committed but not signaled yet, or returned. */
  datatype Call = Writing(event: Event) | Committed(name: string) | Returned(name: string)

  datatype WorkerPc =
    | Stopped
    | Waiting                                                  // in the select of Run
    | Starting                                                 // drain called, queue not listed yet
    | Draining(todo: seq<(string, Event)>, now: int)
    | Sent(name: string, event: Event, verdict: Verdict, rest: seq<(string, Event)>, now: int, started: int)

  datatype Fate = Queued | WasDelivered | WasRejected | GivenUp

  /** What has happened to a committed event. `missed` counts the listings that failed since its
      commit, `tries` the due drains that sent it, `unsettled` those of them whose outcome was lost to
      a crash or a failing file operation. Of its last failed try: the clock reading of the drain, its
      start and its end. */
  datatype History = History(initial: Event, fate: Fate, listed: bool, missed: nat, tries: nat, sends: nat,
                             failures: nat, unsettled: nat, lastDrain: int, lastStart: int, lastEnd: int)

  datatype Sys = Sys(events: map<string, Event>, wake: bool, worker: WorkerPc,
                     calls: map<CallId, Call>, past: map<string, History>, clock: int)

  function Init(): Sys {
    Sys(map[], false, Stopped, map[], map[], 0)
  }

  function NewHistory(e: Event): History {
    History(e, Queued, false, 0, 0, 0, 0, 0, 0, 0, 0)
  }

  datatype Action =
    | Begin(c: CallId, e: Event)
    | CommitEvent(c: CallId, name: string)
    | Signal(c: CallId)                       // the nonblocking send on the wake channel
    | StartWorker
    | StopWorker
    | TickFires
    | TakeWake
    | List(todo: seq<(string, Event)>, now: int) // ... and then the clock is read
    | ListFails
    | Skip                                    // the next event is not due
    | SendNext(pubKey: string, sig: string, verdict: Verdict, sends: nat, took: nat)
    | Settled(ok: bool)                       // the file operation after a send
    | LeaveDrain                              // its end, or an early return
    | Crash
    | Pass(d: nat)                            // time passes

  function Settling(w: WorkerPc): Option<string> {
    if w.Sent? then Some(w.name) else None
  }

  function Lost(s: Sys): map<string, History> {
    match Settling(s.worker)
    case None => s.past
    case Some(name) =>
      if name in s.past then s.past[name := s.past[name].(unsettled := s.past[name].unsettled + 1)] else s.past
  }

  function CommitOne(s: Sys, c: CallId, name: string): Option<Sys> {
    if c in s.calls && s.calls[c].Writing? && name !in s.past && name !in s.events then
      var e := s.calls[c].event;
      Some(s.(events := s.events[name := e], calls := s.calls[c := Committed(name)],
              past := s.past[name := NewHistory(e)]))
    else None
  }

  ghost function ListAll(s: Sys, todo: seq<(string, Event)>, now: int): Option<Sys> {
    if s.worker.Starting? && IsListing(s.events, todo) && s.clock <= now
    then Some(s.(worker := Draining(todo, now), clock := now,
                 past := map n | n in s.past :: s.past[n].(listed := s.past[n].listed || n in s.events)))
    else None
  }

  /** The listing fails: the drain returns, and what it was started for is forgotten. */
  function FailListing(s: Sys): Option<Sys> {
    if s.worker.Starting?
    then Some(s.(worker := Waiting,
                 past := map n | n in s.past ::
                   s.past[n].(missed := if n in s.events then s.past[n].missed + 1 else s.past[n].missed)))
    else None
  }

  /** A try of the next event, with all its sends and the pauses between them. */
  function SendOne(s: Sys, pubKey: string, sig: string, verdict: Verdict, sends: nat, took: nat): Option<Sys> {
    if s.worker.Draining? && s.worker.todo != [] && Due(s.worker.todo[0].1, s.worker.now)
       && 1 <= sends <= MAX_SENDS && Pow2(sends - 1) - 1 <= took && s.worker.todo[0].0 in s.past
    then
      var (name, e) := s.worker.todo[0];
      var h := s.past[name];
      Some(s.(worker := Sent(name, Attributed(e, pubKey, sig), verdict, s.worker.todo[1..], s.worker.now, s.clock),
              clock := s.clock + took,
              past := s.past[name := h.(tries := h.tries + 1, sends := h.sends + sends)]))
    else None
  }

  function FateAfter(e: Event, verdict: Verdict): Fate {
    if !Leaves(e, verdict) then Queued
    else if verdict == Delivered then WasDelivered
    else if verdict == Permanent then WasRejected
    else GivenUp
  }

  function SettleOne(s: Sys): Option<Sys> {
    if !s.worker.Sent? || s.worker.name !in s.past then None
    else
      var w, h := s.worker, s.past[s.worker.name];
      Some(s.(events := Settle(s.events, w.name, w.event, w.verdict, w.now),
              worker := Draining(w.rest, w.now),
              past := s.past[w.name := h.(
                fate := FateAfter(w.event, w.verdict),
                failures := if w.verdict == Retryable then h.failures + 1 else h.failures,
                lastDrain := if w.verdict == Retryable then w.now else h.lastDrain,
                lastStart := if w.verdict == Retryable then w.started else h.lastStart,
                lastEnd := if w.verdict == Retryable then s.clock else h.lastEnd)]))
  }

  function Lose(s: Sys, worker: WorkerPc): Sys {
    s.(worker := worker, past := Lost(s))
  }

  function MoveWorker(s: Sys, a: Action): Option<Sys> {
    match a
    case StartWorker => if s.worker.Stopped? then Some(s.(worker := Starting)) else None
    case StopWorker => if s.worker.Waiting? then Some(s.(worker := Stopped)) else None
    case TickFires => if s.worker.Waiting? then Some(s.(worker := Starting)) else None
    case TakeWake => if s.worker.Waiting? && s.wake then Some(s.(wake := false, worker := Starting)) else None
    case Skip =>
      if s.worker.Draining? && s.worker.todo != [] && !Due(s.worker.todo[0].1, s.worker.now)
      then Some(s.(worker := Draining(s.worker.todo[1..], s.worker.now))) else None
    case LeaveDrain => if s.worker.Draining? then Some(s.(worker := Waiting)) else None
    case _ => None
  }

  ghost function Step(s: Sys, a: Action): Option<Sys> {
    match a
    case Begin(c, e) =>
      if c !in s.calls then Some(s.(calls := s.calls[c := Writing(e)])) else None
    case CommitEvent(c, name) => CommitOne(s, c, name)
    case Signal(c) =>
      if c in s.calls && s.calls[c].Committed?
      then Some(s.(wake := true, calls := s.calls[c := Returned(s.calls[c].name)])) else None
    case List(todo, now) => ListAll(s, todo, now)
    case ListFails => FailListing(s)
    case SendNext(pubKey, sig, verdict, sends, took) => SendOne(s, pubKey, sig, verdict, sends, took)
    case Settled(ok) => if ok then SettleOne(s) else if s.worker.Sent? then Some(Lose(s, Waiting)) else None
    case Crash => Some(Lose(s, Stopped).(wake := false, calls := map[]))
    case Pass(d) => Some(s.(clock := s.clock + d))
    case _ => MoveWorker(s, a)
  }

  ghost function Run(s: Sys, actions: seq<Action>): Option<Sys>
    decreases |actions|
  {
    if actions == [] then Some(s)
    else
      var n := Step(s, actions[0]);
      if n.None? then None else Run(n.value, actions[1..])
  }

  // ---------- what every reachable state satisfies ----------

  /** A queued event is its initial one but for attribution, attempts and next attempt, which
      record its failures; a try is a failure, the end, in progress or lost. */
  ghost predicate EventOk(events: map<string, Event>, name: string, h: History, sending: bool) {
    var first := h.initial.deliveryAttempts;
    && (name in events <==> h.fate == Queued)
    && (name in events ==>
          && events[name].payload == h.initial.payload
          && events[name].deliveryAttempts == first + h.failures
          && (h.failures == 0 ==> events[name].nextAttemptAfter == h.initial.nextAttemptAfter)
          && (h.failures > 0 ==>
                && first + h.failures < MAX_ATTEMPTS
                && events[name].nextAttemptAfter == Some(h.lastDrain + RetryDelay(first + h.failures))))
    && h.sends <= MAX_SENDS * h.tries
    && h.tries == h.failures + h.unsettled
                + (if sending || h.fate == WasDelivered || h.fate == WasRejected then 1 else 0)
    && (sending ==> h.fate == Queued)
    && (h.fate == GivenUp ==>
          h.failures > 0 && first + h.failures >= MAX_ATTEMPTS
          && (h.failures == 1 || first + h.failures == MAX_ATTEMPTS))
    && (h.failures > 0 && h.fate != GivenUp ==> first + h.failures < MAX_ATTEMPTS)
  }

  ghost predicate Pending(events: map<string, Event>, todo: seq<(string, Event)>) {
    && (forall i :: 0 <= i < |todo| ==> todo[i].0 in events && events[todo[i].0] == todo[i].1)
    && (forall i, j :: 0 <= i < j < |todo| ==> todo[i].0 != todo[j].0)
  }

  ghost predicate WorkerOk(s: Sys) {
    match s.worker
    case Draining(todo, now) => Pending(s.events, todo)
    case Sent(name, event, verdict, rest, now, started) =>
      && Pending(s.events, rest) && (forall i :: 0 <= i < |rest| ==> rest[i].0 != name)
      && name in s.events && Due(s.events[name], now)
      && event == Attributed(s.events[name], event.publisherPubKey, event.publisherSig)
    case _ => true
  }

  /** The worker has been or will be told of the event, or failed to list it. */
  ghost predicate Heard(s: Sys, name: string) {
    || s.wake || s.worker.Starting? || s.worker.Stopped?
    || (name in s.past && s.past[name].missed > 0)
    || exists c :: c in s.calls && s.calls[c] == Committed(name)
  }

  ghost predicate PastOk(s: Sys) {
    && s.events.Keys <= s.past.Keys
    && forall name :: name in s.past ==> EventOk(s.events, name, s.past[name], Settling(s.worker) == Some(name))
  }

  ghost predicate CallsOk(s: Sys) {
    && (forall c :: c in s.calls && !s.calls[c].Writing? ==> s.calls[c].name in s.past)
    && (forall c, d :: c in s.calls && d in s.calls && c != d && !s.calls[c].Writing? && !s.calls[d].Writing? ==>
          s.calls[c].name != s.calls[d].name)
  }

  ghost predicate NoneUnheard(s: Sys) {
    forall name :: name in s.events && name in s.past && !s.past[name].listed ==> Heard(s, name)
  }

  ghost predicate Core(s: Sys) {
    PastOk(s) && WorkerOk(s) && CallsOk(s) && NoneUnheard(s)
  }

  /** A try starts no earlier than its drain reads the clock, and ends no earlier than it starts. */
  ghost predicate TimesOk(s: Sys) {
    && (forall name :: name in s.past && s.past[name].failures > 0 ==>
          s.past[name].lastDrain <= s.past[name].lastStart <= s.past[name].lastEnd <= s.clock)
    && (s.worker.Draining? ==> s.worker.now <= s.clock)
    && (s.worker.Sent? ==> s.worker.now <= s.worker.started <= s.clock)
  }

  ghost predicate Inv(s: Sys) {
    Core(s) && TimesOk(s)
  }

  // ---------- each step keeps it ----------

  lemma CallStep(s: Sys, a: Action)
    requires Core(s) && Step(s, a).Some? && (a.Begin? || a.Signal?)
    ensures Core(Step(s, a).value)
  {
    hide EventOk, Pending;
    var s' := Step(s, a).value;
    forall name | name in s'.events && name in s'.past && !s'.past[name].listed ensures Heard(s', name) {
      assert Heard(s, name);
      if a.Begin? && exists c :: c in s.calls && s.calls[c] == Committed(name) {
        var c :| c in s.calls && s.calls[c] == Committed(name);
        assert s'.calls[c] == Committed(name);
      }
    }
  }

  lemma PassStep(s: Sys, d: nat)
    requires Core(s)
    ensures Core(s.(clock := s.clock + d))
  {
    hide EventOk, Pending;
    var s' := s.(clock := s.clock + d);
    forall name | name in s'.events && name in s'.past && !s'.past[name].listed ensures Heard(s', name) {
      assert Heard(s, name);
    }
  }

  lemma MoveStep(s: Sys, a: Action)
    requires Core(s) && MoveWorker(s, a).Some?
    ensures Core(MoveWorker(s, a).value)
  {
    hide EventOk;
    var s' := MoveWorker(s, a).value;
    forall name | name in s'.events && name in s'.past && !s'.past[name].listed ensures Heard(s', name) {
      assert Heard(s, name);
    }
  }

  lemma CommitStep(s: Sys, c: CallId, name: string)
    requires Core(s) && CommitOne(s, c, name).Some?
    ensures Core(CommitOne(s, c, name).value)
  {
    hide PastOk, NoneUnheard, WorkerOk, CallsOk;
    CommitPast(s, c, name);
    CommitHeard(s, c, name);
    CommitOthers(s, c, name);
  }

  lemma CommitOthers(s: Sys, c: CallId, name: string)
    requires WorkerOk(s) && CallsOk(s) && CommitOne(s, c, name).Some?
    ensures WorkerOk(CommitOne(s, c, name).value) && CallsOk(CommitOne(s, c, name).value)
  {
    hide Due;
  }

  lemma CommitPast(s: Sys, c: CallId, name: string)
    requires PastOk(s) && WorkerOk(s) && CommitOne(s, c, name).Some?
    ensures PastOk(CommitOne(s, c, name).value)
  {
    NotSettling(s, name);
    hide Due, RetryDelay, Pending, WorkerOk;
    var s' := CommitOne(s, c, name).value;
    forall n | n in s'.past
      ensures EventOk(s'.events, n, s'.past[n], Settling(s'.worker) == Some(n))
    {
      if n != name {
        assert EventOk(s.events, n, s.past[n], Settling(s.worker) == Some(n));
      }
    }
  }

  lemma CommitHeard(s: Sys, c: CallId, name: string)
    requires NoneUnheard(s) && CommitOne(s, c, name).Some?
    ensures NoneUnheard(CommitOne(s, c, name).value)
  {
    var s' := CommitOne(s, c, name).value;
    forall n | n in s'.events && n in s'.past && !s'.past[n].listed ensures Heard(s', n) {
      if n == name {
        assert s'.calls[c] == Committed(name);
      } else {
        assert Heard(s, n);
        if exists d :: d in s.calls && s.calls[d] == Committed(n) {
          var d :| d in s.calls && s.calls[d] == Committed(n);
          assert s'.calls[d] == Committed(n);
        }
      }
    }
  }

  lemma NotSettling(s: Sys, name: string)
    requires WorkerOk(s) && name !in s.events
    ensures Settling(s.worker) != Some(name)
  {}

  lemma ListPast(s: Sys, todo: seq<(string, Event)>, now: int)
    requires PastOk(s) && ListAll(s, todo, now).Some?
    ensures var s' := ListAll(s, todo, now).value;
      PastOk(s') && s'.past.Keys == s.past.Keys && forall name :: name in s.events ==> s'.past[name].listed
  {
    hide RetryDelay, IsListing;
    var s' := ListAll(s, todo, now).value;
    assert s'.past.Keys == s.past.Keys;
    forall name | name in s'.past
      ensures EventOk(s'.events, name, s'.past[name], Settling(s'.worker) == Some(name))
    {
      assert EventOk(s.events, name, s.past[name], Settling(s.worker) == Some(name));
    }
  }

  lemma ListStep(s: Sys, todo: seq<(string, Event)>, now: int)
    requires Core(s) && ListAll(s, todo, now).Some?
    ensures var s' := ListAll(s, todo, now).value;
      Core(s') && forall name :: name in s.events ==> name in s'.past && s'.past[name].listed
  {
    PastCovers(s);
    ListPast(s, todo, now);
    hide PastOk, EventOk, Heard;
  }

  lemma FailPast(s: Sys)
    requires PastOk(s) && FailListing(s).Some?
    ensures PastOk(FailListing(s).value) && FailListing(s).value.past.Keys == s.past.Keys
  {
    hide RetryDelay;
    var s' := FailListing(s).value;
    assert s'.past.Keys == s.past.Keys;
    forall name | name in s'.past
      ensures EventOk(s'.events, name, s'.past[name], Settling(s'.worker) == Some(name))
    {
      assert EventOk(s.events, name, s.past[name], Settling(s.worker) == Some(name));
    }
  }

  lemma FailStep(s: Sys)
    requires Core(s) && FailListing(s).Some?
    ensures Core(FailListing(s).value)
  {
    FailPast(s);
    CallsSame(s, FailListing(s).value);
    hide PastOk, EventOk, CallsOk;
  }

  /** Nothing but one event and its past changes. */
  lemma OnePast(s: Sys, s': Sys, name: string)
    requires PastOk(s) && name in s.past && s'.past.Keys == s.past.Keys && s'.events.Keys <= s'.past.Keys
    requires forall n :: n != name ==>
      && (n in s.past ==> s'.past[n] == s.past[n])
      && (n in s.events <==> n in s'.events) && (n in s.events ==> s'.events[n] == s.events[n])
    requires Settling(s.worker) in {None, Some(name)} && Settling(s'.worker) in {None, Some(name)}
    requires EventOk(s'.events, name, s'.past[name], Settling(s'.worker) == Some(name))
    ensures PastOk(s')
  {
    forall n | n in s'.past ensures EventOk(s'.events, n, s'.past[n], Settling(s'.worker) == Some(n)) {
      if n != name {
        assert EventOk(s.events, n, s.past[n], false);
      }
    }
  }

  /** A busy worker does not lose the wake-up of an event it has not listed. */
  lemma BusyHears(s: Sys, s': Sys)
    requires NoneUnheard(s) && s'.past.Keys == s.past.Keys && s'.events.Keys <= s.events.Keys
    requires forall name :: name in s.past ==>
      s'.past[name].listed == s.past[name].listed && s'.past[name].missed == s.past[name].missed
    requires s'.worker.Stopped? || (s'.calls == s.calls && s'.wake == s.wake &&
                                   !s.worker.Starting? && !s.worker.Stopped?)
    ensures NoneUnheard(s')
  {
    forall name | name in s'.events && name in s'.past && !s'.past[name].listed ensures Heard(s', name) {
      assert name in s'.events.Keys && name in s.events;
      assert Heard(s, name);
    }
  }

  lemma SentEvent(s: Sys, pubKey: string, sig: string, verdict: Verdict, sends: nat, took: nat)
    requires PastOk(s) && WorkerOk(s) && SendOne(s, pubKey, sig, verdict, sends, took).Some?
    ensures var s', name := SendOne(s, pubKey, sig, verdict, sends, took).value, s.worker.todo[0].0;
      && name in s'.past && EventOk(s'.events, name, s'.past[name], true) && WorkerOk(s')
  {
    hide RetryDelay;
    assert EventOk(s.events, s.worker.todo[0].0, s.past[s.worker.todo[0].0], false);
  }

  lemma CallsSame(s: Sys, s': Sys)
    requires CallsOk(s) && s'.calls == s.calls && s'.past.Keys == s.past.Keys
    ensures CallsOk(s')
  {}

  lemma SendFrame(s: Sys, pubKey: string, sig: string, verdict: Verdict, sends: nat, took: nat)
    requires SendOne(s, pubKey, sig, verdict, sends, took).Some?
    ensures var s', name := SendOne(s, pubKey, sig, verdict, sends, took).value, s.worker.todo[0].0;
      && s'.past.Keys == s.past.Keys && s'.events == s.events && s'.calls == s.calls && s'.wake == s.wake
      && name in s.past && s'.worker.Sent? && s'.worker.name == name
      && (forall n :: n in s.past && n != name ==> s'.past[n] == s.past[n])
      && (forall n :: n in s.past ==> s'.past[n].listed == s.past[n].listed && s'.past[n].missed == s.past[n].missed)
  {
    hide Due, Attributed;
  }

  lemma SendStep(s: Sys, pubKey: string, sig: string, verdict: Verdict, sends: nat, took: nat)
    requires Core(s) && SendOne(s, pubKey, sig, verdict, sends, took).Some?
    ensures Core(SendOne(s, pubKey, sig, verdict, sends, took).value)
  {
    hide EventOk, WorkerOk, PastOk, NoneUnheard, CallsOk;
    SentEvent(s, pubKey, sig, verdict, sends, took);
    SendFrame(s, pubKey, sig, verdict, sends, took);
    var s' := SendOne(s, pubKey, sig, verdict, sends, took).value;
    PastCovers(s);
    OnePast(s, s', s.worker.todo[0].0);
    BusyHears(s, s');
    CallsSame(s, s');
  }

  lemma PastCovers(s: Sys)
    requires PastOk(s)
    ensures s.events.Keys <= s.past.Keys
  {}

  lemma SettledEvent(s: Sys)
    requires PastOk(s) && WorkerOk(s) && SettleOne(s).Some?
    ensures var s', name := SettleOne(s).value, s.worker.name;
      && name in s'.past && EventOk(s'.events, name, s'.past[name], false)
  {
    hide RetryDelay, Due, Pending;
    assert EventOk(s.events, s.worker.name, s.past[s.worker.name], true);
  }

  lemma SettledWorker(s: Sys)
    requires WorkerOk(s) && SettleOne(s).Some?
    ensures WorkerOk(SettleOne(s).value)
  {
    hide RetryDelay;
  }

  lemma SettledStep(s: Sys)
    requires Core(s) && SettleOne(s).Some?
    ensures Core(SettleOne(s).value)
  {
    hide EventOk, WorkerOk, PastOk, NoneUnheard, CallsOk, Settle;
    SettledEvent(s);
    SettledWorker(s);
    PastCovers(s);
    SettledFrame(s);
    var s' := SettleOne(s).value;
    OnePast(s, s', s.worker.name);
    BusyHears(s, s');
    CallsSame(s, s');
  }

  lemma SettledFrame(s: Sys)
    requires PastOk(s) && WorkerOk(s) && SettleOne(s).Some?
    ensures var s', name := SettleOne(s).value, s.worker.name;
      && s'.past.Keys == s.past.Keys && s'.events.Keys <= s.events.Keys
      && s'.calls == s.calls && s'.wake == s.wake && s'.worker.Draining?
      && (forall n :: n in s.past ==> s'.past[n].listed == s.past[n].listed && s'.past[n].missed == s.past[n].missed)
      && forall n :: n != name ==>
           && (n in s.past ==> s'.past[n] == s.past[n])
           && (n in s.events <==> n in s'.events) && (n in s.events ==> s'.events[n] == s.events[n])
  {
    hide EventOk, Pending, Due, RetryDelay, FateAfter, Leaves;
  }

  lemma LostEvent(s: Sys)
    requires PastOk(s) && WorkerOk(s) && s.worker.Sent?
    ensures s.worker.name in s.past && s.worker.name in Lost(s)
    ensures EventOk(s.events, s.worker.name, Lost(s)[s.worker.name], false)
  {
    hide RetryDelay, Due, Pending;
    assert EventOk(s.events, s.worker.name, s.past[s.worker.name], true);
  }

  lemma LoseFrame(s: Sys, worker: WorkerPc)
    ensures Lost(s).Keys == s.past.Keys
    ensures forall name :: name in s.past ==>
      Lost(s)[name].listed == s.past[name].listed && Lost(s)[name].missed == s.past[name].missed
    ensures forall n :: n in s.past && Settling(s.worker) != Some(n) ==> Lost(s)[n] == s.past[n]
  {}

  /** Whatever the worker was doing is forgotten. */
  lemma LosePast(s: Sys, worker: WorkerPc)
    requires PastOk(s) && WorkerOk(s) && (worker.Waiting? || worker.Stopped?)
    ensures PastOk(Lose(s, worker)) && Lose(s, worker).past.Keys == s.past.Keys
    ensures forall name :: name in s.past ==>
      && Lose(s, worker).past[name].listed == s.past[name].listed
      && Lose(s, worker).past[name].missed == s.past[name].missed
  {
    hide EventOk, PastOk, WorkerOk, Lost;
    PastCovers(s);
    LoseFrame(s, worker);
    if s.worker.Sent? {
      LostEvent(s);
      OnePast(s, Lose(s, worker), s.worker.name);
    } else {
      assert Lost(s) == s.past;
      IdlePast(s, worker);
    }
  }

  lemma IdlePast(s: Sys, worker: WorkerPc)
    requires PastOk(s) && !s.worker.Sent? && !worker.Sent?
    ensures PastOk(s.(worker := worker))
  {
    hide EventOk;
  }

  lemma LostStep(s: Sys, a: Action)
    requires Core(s) && Step(s, a).Some? && (a.Crash? || (a.Settled? && !a.ok))
    ensures Core(Step(s, a).value)
  {
    hide PastOk, NoneUnheard, Lost, CallsOk;
    var worker := if a.Crash? then Stopped else Waiting;
    var s' := Step(s, a).value;
    LosePast(s, worker);
    BusyHears(s, s');
    SamePastOk(Lose(s, worker), s');
    if a.Crash? {
      NoCalls(s');
    } else {
      CallsSame(s, s');
    }
  }

  lemma NoCalls(s: Sys)
    requires s.calls == map[]
    ensures CallsOk(s)
  {}

  lemma SamePastOk(s: Sys, s': Sys)
    requires PastOk(s) && s'.events == s.events && s'.past == s.past && s'.worker == s.worker
    ensures PastOk(s')
  {
    hide EventOk;
  }

  lemma StepKeepsCore(s: Sys, a: Action)
    requires Core(s) && Step(s, a).Some?
    ensures Core(Step(s, a).value)
  {
    hide Core, CommitOne, ListAll, FailListing, SendOne, SettleOne, MoveWorker, Lose;
    match a
    case Begin(_, _) => CallStep(s, a);
    case Signal(_) => CallStep(s, a);
    case CommitEvent(c, name) => CommitStep(s, c, name);
    case List(todo, now) => ListStep(s, todo, now);
    case ListFails => FailStep(s);
    case SendNext(pubKey, sig, verdict, sends, took) => SendStep(s, pubKey, sig, verdict, sends, took);
    case Settled(ok) => if ok { SettledStep(s); } else { LostStep(s, a); }
    case Crash => LostStep(s, a);
    case Pass(d) => PassStep(s, d);
    case _ => MoveStep(s, a);
  }

  lemma LoseKeepsTimes(s: Sys, worker: WorkerPc)
    requires TimesOk(s) && (worker.Waiting? || worker.Stopped?)
    ensures TimesOk(Lose(s, worker))
  {}

  lemma SettleKeepsTimes(s: Sys)
    requires TimesOk(s) && SettleOne(s).Some?
    ensures TimesOk(SettleOne(s).value)
  {
    hide Settle, FateAfter;
  }

  lemma SendKeepsTimes(s: Sys, a: Action)
    requires TimesOk(s) && a.SendNext? && Step(s, a).Some?
    ensures TimesOk(Step(s, a).value)
  {
    hide Due, Attributed, Pow2;
  }

  lemma StepKeepsTimes(s: Sys, a: Action)
    requires TimesOk(s) && Step(s, a).Some?
    ensures TimesOk(Step(s, a).value)
  {
    hide IsListing, Due, SettleOne, SendOne, Lose;
    if a.Crash? || (a.Settled? && !a.ok) {
      LoseKeepsTimes(s, if a.Crash? then Stopped else Waiting);
    } else if a.Settled? {
      SettleKeepsTimes(s);
    } else if a.SendNext? {
      SendKeepsTimes(s, a);
    }
  }

  lemma StepKeepsInv(s: Sys, a: Action)
    requires Inv(s) && Step(s, a).Some?
    ensures Inv(Step(s, a).value)
  {
    hide Core, TimesOk, Step;
    StepKeepsCore(s, a);
    StepKeepsTimes(s, a);
  }

  lemma {:induction false} RunKeepsInv(s: Sys, actions: seq<Action>)
    requires Inv(s) && Run(s, actions).Some?
    ensures Inv(Run(s, actions).value)
    decreases |actions|
  {
    hide Inv, Step;
    if actions != [] {
      StepKeepsInv(s, actions[0]);
      RunKeepsInv(Step(s, actions[0]).value, actions[1..]);
    }
  }

  lemma InitInv()
    ensures Inv(Init())
  {}

  // ---------- the theorems ----------

  /** An event leaves the queue only when it was delivered (or found delivered before), permanently
      rejected, or failed its last due drain. */
  lemma LeavesOnlyWhen(s: Sys, a: Action, name: string)
    requires Inv(s) && Step(s, a).Some?
    requires name in s.events && name !in Step(s, a).value.events
    ensures a == Settled(true) && s.worker.Sent? && s.worker.name == name && name in s.past
    ensures || s.worker.verdict == Delivered
            || s.worker.verdict == Permanent
            || s.past[name].initial.deliveryAttempts + s.past[name].failures + 1 >= MAX_ATTEMPTS
  {
    OnlySettlingRemoves(s, a, name);
    hide NoneUnheard, CallsOk, RetryDelay, Pending, Due;
    assert EventOk(s.events, name, s.past[name], true);
  }

  lemma OnlySettlingRemoves(s: Sys, a: Action, name: string)
    requires Step(s, a).Some? && name in s.events && name !in Step(s, a).value.events
    ensures a == Settled(true) && s.worker.Sent? && s.worker.name == name && name in s.past
    ensures Leaves(s.worker.event, s.worker.verdict)
  {
    hide MoveWorker, IsListing, Leaves, Deferred, Due, Lost;
    if !a.Begin? && !a.CommitEvent? && !a.Signal? && !a.List? && !a.ListFails? &&
       !a.SendNext? && !a.Crash? && !a.Pass? && !a.Settled? {
      MoveKeepsEvents(s, a);
    }
  }

  lemma MoveKeepsEvents(s: Sys, a: Action)
    requires MoveWorker(s, a).Some?
    ensures MoveWorker(s, a).value.events == s.events
  {}

  /** After any run: a queued event differs from the committed one in attribution, attempts and next
      attempt only; one enqueued with no attempts is given up after exactly 8 failed due drains,
      keeps fewer than 8 attempts while queued, and is sent at most 40 times, or 5 times more for
      every try whose outcome a crash or a failing file operation lost. */
  lemma ReachableEvents(actions: seq<Action>, name: string)
    requires Run(Init(), actions).Some? && name in Run(Init(), actions).value.past
    ensures var s := Run(Init(), actions).value;
      var h := s.past[name];
      && (name in s.events <==> h.fate == Queued)
      && (name in s.events ==> s.events[name].payload == h.initial.payload)
      && (h.initial.deliveryAttempts == 0 ==>
            // It leaves after at most 8 due drains whose outcome is known.
            && (name in s.events && Settling(s.worker) != Some(name) ==> h.tries < MAX_ATTEMPTS + h.unsettled)
            && (name in s.events ==> s.events[name].deliveryAttempts == h.failures < MAX_ATTEMPTS)
            && (h.fate == GivenUp ==> h.failures == MAX_ATTEMPTS)
            && h.tries <= MAX_ATTEMPTS + h.unsettled
            && h.sends <= MAX_SENDS * MAX_ATTEMPTS + MAX_SENDS * h.unsettled)
  {
    InitInv();
    RunKeepsInv(Init(), actions);
    var s := Run(Init(), actions).value;
    hide RetryDelay;
    assert EventOk(s.events, name, s.past[name], Settling(s.worker) == Some(name));
  }

  /** A due drain reads the clock at least the retry delay after the drain of the event's last failure
      did. So from start to start the tries are apart by at least the delay less the earlier try's lag
      in its drain, and never overlap. */
  lemma TriesAreSpaced(s: Sys, a: Action)
    requires Inv(s) && a.SendNext? && Step(s, a).Some?
    ensures var name := s.worker.todo[0].0;
      && name in s.events && name in s.past
      && var h, delay := s.past[name], RetryDelay(s.events[name].deliveryAttempts);
      h.failures > 0 ==>
        && s.worker.now >= h.lastDrain + delay
        && s.clock - h.lastStart >= delay - (h.lastStart - h.lastDrain)
        && h.lastDrain <= h.lastStart <= h.lastEnd <= s.clock
  {
    hide RetryDelay, NoneUnheard;
    assert EventOk(s.events, s.worker.todo[0].0, s.past[s.worker.todo[0].0], false);
  }

  /** No wake-up is lost: an event whose Enqueue has returned and that no drain has listed since is
      still announced to the worker, or the worker is about to list or not running, or a listing
      failed since its commit. */
  lemma WakeUpIsKept(actions: seq<Action>, c: CallId)
    requires Run(Init(), actions).Some?
    requires c in Run(Init(), actions).value.calls && Run(Init(), actions).value.calls[c].Returned?
    ensures var s := Run(Init(), actions).value;
      var name := s.calls[c].name;
      && name in s.past
      && (name in s.events && !s.past[name].listed ==>
            s.wake || s.worker.Starting? || s.worker.Stopped? || s.past[name].missed > 0)
  {
    InitInv();
    RunKeepsInv(Init(), actions);
    var s := Run(Init(), actions).value;
    hide PastOk, WorkerOk;
    var name := s.calls[c].name;
    if name in s.events && !s.past[name].listed {
      assert Heard(s, name);
    }
  }

  /** A waiting worker can always take the tick, and the wake-up if there is one; if it then lists
      the queue, it lists the event, whatever else the queue holds and whatever failed before. */
  lemma WakeUpLists(s: Sys, a: Action, name: string, todo: seq<(string, Event)>, now: int)
    requires Inv(s) && name in s.events && s.worker.Waiting? && IsListing(s.events, todo) && s.clock <= now
    requires a == TickFires || (a == TakeWake && s.wake)
    ensures Step(s, a).Some?
    ensures var s' := Step(Step(s, a).value, List(todo, now));
      && s'.Some? && name in s'.value.past && s'.value.past[name].listed
      && exists i :: 0 <= i < |todo| && todo[i] == (name, s.events[name])
  {
    PastCovers(s);
    hide PastOk, WorkerOk, CallsOk, NoneUnheard, TimesOk, IsListing;
    var i := InListing(s.events, name, todo);
    assert Step(s, a).value.events == s.events;
  }

  lemma InListing(events: map<string, Event>, name: string, todo: seq<(string, Event)>) returns (i: nat)
    requires IsListing(events, todo) && name in events
    ensures i < |todo| && todo[i] == (name, events[name])
  {
    i :| 0 <= i < |todo| && todo[i].0 == name;
  }

  /** Steps the worker takes until it lists again, at most. */
  function UntilListing(w: WorkerPc): nat {
    match w
    case Starting => 1
    case Stopped => 2
    case Waiting => 2
    case Draining(todo, _) => 2 * |todo| + 3
    case Sent(_, _, _, rest, _, _) => 2 * |rest| + 4
  }

  /** Every step of a running worker brings its next listing nearer, or is that listing, which lists
      all there is; a listing that fails, a stop or a crash leaves it two steps away, and nobody else
      holds it up. */
  lemma NearsListing(s: Sys, a: Action)
    requires Inv(s) && Step(s, a).Some?
    ensures var s' := Step(s, a).value;
      match a
      case List(_, _) => forall name :: name in s.events ==> name in s'.past && s'.past[name].listed
      case ListFails => UntilListing(s'.worker) == 2
      case StopWorker => UntilListing(s'.worker) == 2
      case Crash => UntilListing(s'.worker) == 2
      case Begin(_, _) => s'.worker == s.worker
      case CommitEvent(_, _) => s'.worker == s.worker
      case Signal(_) => s'.worker == s.worker
      case Pass(_) => s'.worker == s.worker
      case _ => UntilListing(s'.worker) < UntilListing(s.worker)
  {
    hide EventOk, IsListing, Due, Settle, NoneUnheard, CallsOk, WorkerOk;
    PastCovers(s);
  }

  // ---------- a drain is a run ----------

  lemma RunCons(s: Sys, a: Action, rest: seq<Action>)
    requires Step(s, a).Some?
    ensures Run(s, [a] + rest) == Run(Step(s, a).value, rest)
  {
    hide Step;
    assert ([a] + rest)[1..] == rest;
  }

  /** What the worker's loop does to one event, as protocol steps. */
  lemma OneIsSteps(s: Sys, todo: seq<(string, Event)>, now: int, w: World) returns (steps: seq<Action>)
    requires Inv(s) && s.worker == Draining(todo, now) && todo != [] && WorldOk(w)
    ensures Run(s, steps).Some?
    ensures var s', r := Run(s, steps).value, AfterOne(s.events, todo[0].0, todo[0].1, now, w);
      && s'.events == r.events
      && s'.worker == if r.go then Draining(todo[1..], now) else Waiting
  {
    hide Inv, Settle, Lost, Due, Verdicts, Pow2;
    var (name, e) := todo[0];
    PendingInPast(s);
    if !Due(e, now) {
      steps := [Skip];
      RunCons(s, Skip, []);
    } else if w.attribution.None? {
      steps := [LeaveDrain];
      RunCons(s, LeaveDrain, []);
    } else {
      var send := SendNext(w.attribution.value.0, w.attribution.value.1,
                           Verdicts(w.exchanges, w.stops, 0), SendsMade(w.exchanges, w.stops, 0),
                           Pow2(SendsMade(w.exchanges, w.stops, 0) - 1) - 1);
      var sent := Step(s, send).value;
      steps := [send] + [Settled(!w.ioFails)];
      RunCons(s, send, [Settled(!w.ioFails)]);
      RunCons(sent, Settled(!w.ioFails), []);
    }
  }

  lemma PendingInPast(s: Sys)
    requires Inv(s) && s.worker.Draining? && s.worker.todo != []
    ensures s.worker.todo[0].0 in s.past
  {
    PastCovers(s);
  }

  lemma {:induction false} DrainingIsRun(s: Sys, todo: seq<(string, Event)>, now: int, world: string -> World)
    returns (steps: seq<Action>)
    requires Inv(s) && s.worker == Draining(todo, now) && forall n :: WorldOk(world(n))
    ensures Run(s, steps).Some?
    ensures Run(s, steps).value.events == Drained(s.events, todo, now, world) && Run(s, steps).value.worker.Waiting?
    decreases |todo|
  {
    hide Inv, AfterOne;
    if todo == [] {
      steps := [LeaveDrain];
      RunCons(s, LeaveDrain, []);
    } else {
      steps := OneIsSteps(s, todo, now, world(todo[0].0));
      hide Run, Step;
      RunKeepsInv(s, steps);
      var s' := Run(s, steps).value;
      if s'.worker.Draining? {
        var more := DrainingIsRun(s', todo[1..], now, world);
        RunAppend(s, steps, more);
        steps := steps + more;
      }
    }
  }

  lemma {:induction false} RunAppend(s: Sys, a: seq<Action>, b: seq<Action>)
    requires Run(s, a).Some?
    ensures Run(s, a + b) == Run(Run(s, a).value, b)
    decreases |a|
  {
    hide Step;
    if a == [] {
      assert a + b == b;
    } else {
      assert (a + b)[0] == a[0] && (a + b)[1..] == a[1..] + b;
      RunAppend(Step(s, a[0]).value, a[1..], b);
    }
  }

  /** Whatever the worker's drain makes of the queue is what some steps of the protocol make of it:
      all that holds after every run holds after every drain. */
  lemma DrainIsRun(s: Sys, after: map<string, Event>, now: int, world: string -> World) returns (steps: seq<Action>)
    requires Inv(s) && s.worker.Starting? && forall n :: WorldOk(world(n))
    requires s.clock <= now && DrainedInOrder(s.events, after, now, world)
    ensures Run(s, steps).Some?
    ensures Run(s, steps).value.events == after && Run(s, steps).value.worker.Waiting?
  {
    hide Inv, IsListing, Drained;
    var todo :| IsListing(s.events, todo) && after == Drained(s.events, todo, now, world);
    StepKeepsInv(s, List(todo, now));
    var more := DrainingIsRun(Step(s, List(todo, now)).value, todo, now, world);
    steps := [List(todo, now)] + more;
    RunCons(s, List(todo, now), more);
  }
}

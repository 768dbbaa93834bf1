/** How far apart the tries of one event are: what drains promise, and what they do not, because a
    drain reads the clock once for all its events. */
module EventTiming {
  import opened Wrappers
  import opened Chunks
  import opened EventQueue
  import opened EventWorker
  import opened EventProtocol

  /** After this run the worker is about to try the event again; it has failed before, has `k`
      attempts, and its last failed try started `lag` seconds after its drain had read the clock. */
  ghost predicate Retrying(actions: seq<Action>, name: string, k: int, lag: int) {
    && Run(Init(), actions).Some?
    && var s := Run(Init(), actions).value;
    && s.worker.Draining? && s.worker.todo != [] && s.worker.todo[0].0 == name && Due(s.worker.todo[0].1, s.worker.now)
    && name in s.past && name in s.events && s.past[name].failures > 0
    && s.events[name].deliveryAttempts == k
    && s.past[name].lastStart - s.past[name].lastDrain == lag
  }

  /** From the start of the failed try to the start of the next. */
  ghost function Gap(actions: seq<Action>, name: string, k: int, lag: int): int
    requires Retrying(actions, name, k, lag)
  {
    var s := Run(Init(), actions).value;
    s.clock - s.past[name].lastStart
  }

  ghost function Took(actions: seq<Action>, name: string, k: int, lag: int): int
    requires Retrying(actions, name, k, lag)
  {
    var h := Run(Init(), actions).value.past[name];
    h.lastEnd - h.lastStart
  }

  /** After any run. */
  lemma GapBound(actions: seq<Action>, name: string, k: int, lag: int)
    requires Retrying(actions, name, k, lag)
    ensures lag >= 0
    ensures Gap(actions, name, k, lag) >= Max(RetryDelay(k) - lag, Took(actions, name, k, lag))
  {
    InitInv();
    RunKeepsInv(Init(), actions);
    var s := Run(Init(), actions).value;
    hide Run, Inv, RetryDelay;
    CanSend(s);
    TriesAreSpaced(s, SendNext("", "", Retryable, 1, 0));
  }

  lemma CanSend(s: Sys)
    requires Inv(s) && s.worker.Draining? && s.worker.todo != [] && Due(s.worker.todo[0].1, s.worker.now)
    ensures Step(s, SendNext("", "", Retryable, 1, 0)).Some?
    ensures s.worker.todo[0].0 in s.events && s.events[s.worker.todo[0].0] == s.worker.todo[0].1
  {
    PastCovers(s);
    hide Due;
  }

  // ---------- a try whose outcome is lost ----------

  /** A crash, or a file operation that fails after the send, leaves the event as it was: due at once
      for every later drain, with no delay between the two tries. */
  lemma LostTryIsDueAgain(s: Sys, a: Action, now: int)
    requires Inv(s) && s.worker.Sent? && (a == Crash || a == Settled(false)) && now >= s.worker.now
    ensures Step(s, a).Some? && s.worker.name in s.events && s.worker.name in s.past
    ensures var s', name := Step(s, a).value, s.worker.name;
      && name in s'.events && s'.events[name] == s.events[name] && Due(s'.events[name], now)
      && name in s'.past && s'.past[name] == s.past[name].(unsettled := s.past[name].unsettled + 1)
  {
    PastCovers(s);
    hide EventOk, Pending;
  }

  // ---------- the bound is reached ----------

  const B := "b.json"
  const NOTHING := Payload("", "", "", 0, "", "", "", "", 0)

  function Fresh(attempts: int): Event {
    Event(NOTHING, "", "", attempts, None)
  }

  /** Names that come before B, in their order. */
  function Name(i: nat): (r: string)
    ensures r != [] && r[0] == 'a'
  {
    if i == 0 then "a.json" else ['a'] + Name(i - 1)
  }

  lemma {:induction false} NameOrder(i: nat, j: nat)
    requires i < j
    ensures Order.Less(Name(i), Name(j)) && Name(i) != Name(j)
  {
    assert Name(j)[1..] == Name(j - 1);
    if i == 0 {
      assert Name(i)[1..][0] == '.';
      assert Order.Less(Name(i)[1..], Name(j)[1..]);
    } else {
      assert Name(i)[1..] == Name(i - 1);
      NameOrder(i - 1, j - 1);
    }
  }

  /** A send that ends within ten seconds for each exchange, as the worker's timeout has it. */
  predicate IsPrompt(a: Action) {
    a.SendNext? && a.sends >= 1 ==> a.took <= 10 * a.sends + Pow2(a.sends - 1) - 1
  }

  ghost predicate Prompt(actions: seq<Action>) {
    forall a :: a in actions ==> IsPrompt(a)
  }

  lemma Then(before: seq<Action>, a: Action) returns (actions: seq<Action>)
    requires Run(Init(), before).Some? && Step(Run(Init(), before).value, a).Some?
    ensures actions == before + [a]
    ensures Run(Init(), actions) == Step(Run(Init(), before).value, a)
    ensures Prompt(before) && IsPrompt(a) ==> Prompt(actions)
  {
    hide IsPrompt;
    actions := before + [a];
    RunAppend(Init(), before, [a]);
    RunCons(Run(Init(), before).value, a, []);
    assert [a] + [] == [a];
  }

  // First `n` events and B are queued.

  function Queued(k: int, n: nat): map<string, Event> {
    if n == 0 then map[B := Fresh(k - 1)] else Queued(k, n - 1)[Name(n - 1) := Fresh(0)]
  }

  function Todo(k: int, n: nat): (r: seq<(string, Event)>)
    ensures |r| == n + 1
  {
    seq(n, i requires 0 <= i < n => (Name(i), Fresh(0))) + [(B, Fresh(k - 1))]
  }

  lemma {:induction false} QueuedHas(k: int, n: nat, i: nat)
    requires i < n
    ensures Name(i) in Queued(k, n) && Queued(k, n)[Name(i)] == Fresh(0)
  {
    hide Fresh, Name;
    if i < n - 1 {
      QueuedHas(k, n - 1, i);
      NameOrder(i, n - 1);
    }
  }

  lemma {:induction false} QueuedHasB(k: int, n: nat)
    ensures B in Queued(k, n) && Queued(k, n)[B] == Fresh(k - 1)
  {
    hide Fresh;
    if n > 0 {
      QueuedHasB(k, n - 1);
      BeforeB(n - 1);
    }
  }

  lemma {:induction false} QueuedHasOnly(k: int, n: nat, name: string) returns (i: nat)
    requires name in Queued(k, n) && name != B
    ensures i < n && name == Name(i)
  {
    hide Fresh, Name;
    if name == Name(n - 1) {
      i := n - 1;
    } else {
      i := QueuedHasOnly(k, n - 1, name);
    }
  }

  lemma NameIsNew(k: int, n: nat)
    ensures Name(n) !in Queued(k, n)
  {
    BeforeB(n);
    hide Queued;
    if Name(n) in Queued(k, n) {
      var i := QueuedHasOnly(k, n, Name(n));
      NameOrder(i, n);
    }
  }

  lemma TodoIsListing(k: int, n: nat)
    ensures IsListing(Queued(k, n), Todo(k, n))
  {
    hide Queued, Fresh, Name, Order.Less;
    var r := Todo(k, n);
    forall i, j | 0 <= i < j < |r| ensures r[i].0 != r[j].0 && Order.AtMost(r[i].0, r[j].0) {
      if j < n {
        NameOrder(i, j);
      } else {
        BeforeB(i);
      }
    }
    forall i | 0 <= i < |r| ensures r[i].0 in Queued(k, n) && Queued(k, n)[r[i].0] == r[i].1 {
      if i < n {
        QueuedHas(k, n, i);
      } else {
        QueuedHasB(k, n);
      }
    }
    forall name | name in Queued(k, n) ensures exists i :: 0 <= i < |r| && r[i].0 == name {
      if name == B {
        assert r[n].0 == B;
      } else {
        var i := QueuedHasOnly(k, n, name);
        assert r[i].0 == name;
      }
    }
  }

  lemma BeforeB(i: nat)
    ensures Order.Less(Name(i), B) && Name(i) != B
  {}

  /** Nothing has happened yet to any of them. */
  ghost predicate Untouched(s: Sys, k: int, n: nat) {
    && s.worker.Stopped? && s.clock == 0 && s.events == Queued(k, n) && s.past.Keys == s.events.Keys
    && B in s.past && s.past[B] == NewHistory(Fresh(k - 1))
    && forall c :: c in s.calls ==> c <= n
  }

  lemma Commits(s: Sys, c: CallId, name: string, e: Event)
    requires c !in s.calls && name !in s.past && name !in s.events
    ensures Step(s, Begin(c, e)) == Some(s.(calls := s.calls[c := Writing(e)]))
    ensures Step(s.(calls := s.calls[c := Writing(e)]), CommitEvent(c, name))
         == Some(s.(events := s.events[name := e], calls := s.calls[c := Committed(name)],
                    past := s.past[name := NewHistory(e)]))
  {
    hide NewHistory;
    assert s.calls[c := Writing(e)][c := Committed(name)] == s.calls[c := Committed(name)];
  }

  lemma {:induction false} CommitAll(k: int, n: nat) returns (actions: seq<Action>, s: Sys)
    ensures Run(Init(), actions) == Some(s) && Untouched(s, k, n) && Prompt(actions)
  {
    hide Step, NewHistory, Fresh, Name, Prompt;
    var name, e, c := B, Fresh(k - 1), n;
    if n == 0 {
      actions, s := [], Init();
      NothingYet();
    } else {
      actions, s := CommitAll(k, n - 1);
      name, e := Name(n - 1), Fresh(0);
      NameIsNew(k, n - 1);
      BeforeB(n - 1);
    }
    hide Run;
    Commits(s, c, name, e);
    actions := Then(actions, Begin(c, e));
    actions := Then(actions, CommitEvent(c, name));
    s := s.(events := s.events[name := e], calls := s.calls[c := Committed(name)],
            past := s.past[name := NewHistory(e)]);
  }

  lemma NothingYet()
    ensures Run(Init(), []) == Some(Init()) && Prompt([])
  {}

  /** The drain that reads the clock at 0 has these events to go; B is the last. */
  ghost predicate Going(s: Sys, todo: seq<(string, Event)>, k: int) {
    Inv(s) && EndsInB(todo, k) && Holds(s, todo, k)
  }

  ghost predicate EndsInB(todo: seq<(string, Event)>, k: int) {
    && todo != [] && todo[|todo| - 1] == (B, Fresh(k - 1))
    && (forall i :: 0 <= i < |todo| ==> todo[i].1.nextAttemptAfter == None)
  }

  ghost predicate Holds(s: Sys, todo: seq<(string, Event)>, k: int) {
    && s.worker == Draining(todo, 0)
    && s.events.Keys == (set i | 0 <= i < |todo| :: todo[i].0)
    && B in s.past && s.past[B] == NewHistory(Fresh(k - 1)).(listed := true)
    && (forall name :: name in s.past ==> s.past[name].listed)
  }

  lemma StartAndList(k: int, n: nat, s: Sys, before: seq<Action>) returns (actions: seq<Action>, s': Sys)
    requires Run(Init(), before) == Some(s) && Untouched(s, k, n) && Prompt(before)
    ensures Run(Init(), actions) == Some(s') && Going(s', Todo(k, n), k) && s'.clock == 0 && Prompt(actions)
  {
    var todo := Todo(k, n);
    var started := s.(worker := Starting);
    assert Step(s, StartWorker) == Some(started);
    TodoIsListing(k, n);
    ListsAll(started, todo);
    s' := Step(started, List(todo, 0)).value;
    hide Step, Run, NewHistory, Inv, Queued, Prompt, Todo, Fresh, IsListing, Going;
    actions := Then(before, StartWorker);
    actions := Then(actions, List(todo, 0));
    InitInv();
    RunKeepsInv(Init(), actions);
    GoingStart(k, n, s');
  }

  lemma GoingStart(k: int, n: nat, s: Sys)
    requires Inv(s) && s.worker == Draining(Todo(k, n), 0) && s.events == Queued(k, n)
    requires B in s.past && s.past[B] == NewHistory(Fresh(k - 1)).(listed := true)
    requires forall name :: name in s.past ==> s.past[name].listed
    ensures Going(s, Todo(k, n), k)
  {
    hide Inv, Queued, IsListing;
    TodoIsListing(k, n);
    KeysOfListing(s.events, Todo(k, n));
    TodoAllDue(k, n);
    hide Todo, NewHistory, Fresh;
  }

  lemma TodoAllDue(k: int, n: nat)
    ensures var todo := Todo(k, n);
      todo[|todo| - 1] == (B, Fresh(k - 1)) && forall i :: 0 <= i < |todo| ==> todo[i].1.nextAttemptAfter == None
  {}

  lemma ListsAll(s: Sys, todo: seq<(string, Event)>)
    requires s.worker.Starting? && s.clock == 0 && IsListing(s.events, todo) && s.past.Keys == s.events.Keys
    ensures Step(s, List(todo, 0)).Some?
    ensures var s' := Step(s, List(todo, 0)).value;
      && s'.worker == Draining(todo, 0) && s'.clock == 0 && s'.events == s.events && s'.past.Keys == s.past.Keys
      && forall name :: name in s.past ==> s'.past[name] == s.past[name].(listed := true)
  {
    hide IsListing;
  }

  lemma KeysOfListing(events: map<string, Event>, todo: seq<(string, Event)>)
    requires IsListing(events, todo)
    ensures events.Keys == (set i | 0 <= i < |todo| :: todo[i].0)
  {
    hide Order.AtMost;
  }

  /** One event before B is found delivered after a second. */
  lemma DeliverOne(k: int, todo: seq<(string, Event)>, s: Sys, before: seq<Action>)
    returns (actions: seq<Action>, s': Sys)
    requires Run(Init(), before) == Some(s) && Going(s, todo, k) && |todo| > 1 && Prompt(before)
    ensures Run(Init(), actions) == Some(s') && Going(s', todo[1..], k) && s'.clock == s.clock + 1 && Prompt(actions)
  {
    var send := SendNext("", "", Delivered, 1, 1);
    assert Pow2(0) == 1;
    assert IsPrompt(send);
    SettledIsPrompt();
    var sent := StillGoing(k, todo, s);
    s' := Step(sent, Settled(true)).value;
    hide Step, Run, IsPrompt, Prompt, Going;
    actions := Then(before, send);
    actions := Then(actions, Settled(true));
  }

  lemma StillGoing(k: int, todo: seq<(string, Event)>, s: Sys) returns (sent: Sys)
    requires Going(s, todo, k) && |todo| > 1
    ensures Step(s, SendNext("", "", Delivered, 1, 1)) == Some(sent) && Step(sent, Settled(true)).Some?
    ensures Going(Step(sent, Settled(true)).value, todo[1..], k)
    ensures Step(sent, Settled(true)).value.clock == s.clock + 1
  {
    hide Step, Inv, Holds, EndsInB;
    GoingDistinct(s, todo, k);
    sent := DeliverSteps(s, todo);
    StepKeepsInv(s, SendNext("", "", Delivered, 1, 1));
    StepKeepsInv(sent, Settled(true));
    StillHolds(k, todo, s, sent);
    StillEndsInB(k, todo);
  }

  lemma StillEndsInB(k: int, todo: seq<(string, Event)>)
    requires EndsInB(todo, k) && |todo| > 1
    ensures EndsInB(todo[1..], k)
  {
    hide Fresh;
  }

  lemma StillHolds(k: int, todo: seq<(string, Event)>, s: Sys, sent: Sys)
    requires EndsInB(todo, k) && Holds(s, todo, k) && |todo| > 1
    requires forall i, j :: 0 <= i < j < |todo| ==> todo[i].0 != todo[j].0
    requires todo[0].0 in s.past && todo[0].0 in s.events
    requires Step(s, SendNext("", "", Delivered, 1, 1)) == Some(sent) && Step(sent, Settled(true)).Some?
    ensures Holds(Step(sent, Settled(true)).value, todo[1..], k)
  {
    var again := DeliverSteps(s, todo);
    hide Step, NewHistory, Fresh;
    var s' := Step(sent, Settled(true)).value;
    KeysWithout(todo);
    assert s'.events.Keys == s.events.Keys - {todo[0].0};
    assert todo[0].0 != todo[|todo| - 1].0;
  }

  lemma GoingDistinct(s: Sys, todo: seq<(string, Event)>, k: int)
    requires Going(s, todo, k)
    ensures forall i, j :: 0 <= i < j < |todo| ==> todo[i].0 != todo[j].0
    ensures todo != [] && todo[0].0 in s.past && todo[0].0 in s.events
    ensures s.worker == Draining(todo, 0) && todo[0].1.nextAttemptAfter == None
  {
    PastCovers(s);
  }

  lemma DeliverSteps(s: Sys, todo: seq<(string, Event)>) returns (sent: Sys)
    requires s.worker == Draining(todo, 0) && todo != [] && todo[0].1.nextAttemptAfter == None
    requires todo[0].0 in s.past && todo[0].0 in s.events
    ensures Step(s, SendNext("", "", Delivered, 1, 1)) == Some(sent) && Step(sent, Settled(true)).Some?
    ensures var s', name := Step(sent, Settled(true)).value, todo[0].0;
      && s'.worker == Draining(todo[1..], 0) && s'.clock == s.clock + 1 && s'.events == s.events - {name}
      && s'.past.Keys == s.past.Keys && s'.past[name].listed == s.past[name].listed
      && forall n :: n in s.past && n != name ==> s'.past[n] == s.past[n]
  {
    assert Pow2(0) == 1;
    hide Pow2, RetryDelay;
    sent := Step(s, SendNext("", "", Delivered, 1, 1)).value;
  }

  lemma KeysWithout(todo: seq<(string, Event)>)
    requires todo != [] && forall i, j :: 0 <= i < j < |todo| ==> todo[i].0 != todo[j].0
    ensures (set i | 0 <= i < |todo| :: todo[i].0) - {todo[0].0} == (set i | 0 <= i < |todo[1..]| :: todo[1..][i].0)
  {
    var all, rest := set i | 0 <= i < |todo| :: todo[i].0, set i | 0 <= i < |todo[1..]| :: todo[1..][i].0;
    forall x | x in all && x != todo[0].0 ensures x in rest {
      var i :| 0 <= i < |todo| && todo[i].0 == x;
      assert todo[1..][i - 1].0 == x;
    }
    forall x | x in rest ensures x in all && x != todo[0].0 {
      var i :| 0 <= i < |todo[1..]| && todo[1..][i].0 == x;
      assert todo[i + 1].0 == x;
    }
  }

  lemma {:induction false} DeliverAll(k: int, todo: seq<(string, Event)>, s: Sys, before: seq<Action>)
    returns (actions: seq<Action>, s': Sys)
    requires Run(Init(), before) == Some(s) && Going(s, todo, k) && Prompt(before)
    ensures Run(Init(), actions) == Some(s') && Going(s', [(B, Fresh(k - 1))], k) && Prompt(actions)
    ensures s'.clock == s.clock + |todo| - 1
    decreases |todo|
  {
    hide Run, Going, Prompt, Fresh;
    if |todo| == 1 {
      actions, s' := before, s;
      OneLeft(s, todo, k);
    } else {
      NotEmpty(s, todo, k);
      actions, s' := DeliverOne(k, todo, s, before);
      actions, s' := DeliverAll(k, todo[1..], s', actions);
    }
  }

  lemma NotEmpty(s: Sys, todo: seq<(string, Event)>, k: int)
    requires Going(s, todo, k)
    ensures todo != []
  {}

  lemma OneLeft(s: Sys, todo: seq<(string, Event)>, k: int)
    requires Going(s, todo, k) && |todo| == 1
    ensures todo == [(B, Fresh(k - 1))]
  {}

  /** B has failed: it started `lag` seconds after the clock was read, and took `took`. */
  ghost predicate HasFailed(s: Sys, k: int, lag: nat, took: nat) {
    && s.worker.Draining? && s.clock == lag + took && s.events == map[B := Deferred(Fresh(k - 1), 0)]
    && B in s.past && s.past[B].failures > 0
    && s.past[B].lastDrain == 0 && s.past[B].lastStart == lag && s.past[B].lastEnd == lag + took
    && forall n :: n in s.past ==> s.past[n].listed
  }

  lemma FailB(k: int, lag: nat, took: nat, s: Sys, before: seq<Action>) returns (actions: seq<Action>, s': Sys)
    requires k < MAX_ATTEMPTS && took >= 15
    requires Run(Init(), before) == Some(s) && Going(s, [(B, Fresh(k - 1))], k) && s.clock == lag && Prompt(before)
    ensures Run(Init(), actions) == Some(s') && HasFailed(s', k, lag, took) && (took <= 65 ==> Prompt(actions))
  {
    SmallPowers();
    var send := SendNext("", "", Retryable, 5, took);
    assert took <= 65 ==> IsPrompt(send);
    var sent := FailSteps(k, lag, took, s);
    hide Step, Run, HasFailed, Going, Prompt, IsPrompt, Fresh;
    actions := Then(before, send);
    actions := Then(actions, Settled(true));
    assert IsPrompt(Settled(true)) by { SettledIsPrompt(); }
    s' := Step(sent, Settled(true)).value;
  }

  lemma SettledIsPrompt()
    ensures IsPrompt(Settled(true))
  {}

  lemma FailSteps(k: int, lag: nat, took: nat, s: Sys) returns (sent: Sys)
    requires k < MAX_ATTEMPTS && took >= 15 && Going(s, [(B, Fresh(k - 1))], k) && s.clock == lag
    ensures Step(s, SendNext("", "", Retryable, 5, took)) == Some(sent) && Step(sent, Settled(true)).Some?
    ensures HasFailed(Step(sent, Settled(true)).value, k, lag, took)
  {
    SmallPowers();
    hide Pow2, RetryDelay, Inv;
    var b := Fresh(k - 1);
    assert Attributed(b, "", "") == b;
    assert s.events.Keys == {B} by { assert [(B, b)][0].0 == B; }
    sent := Step(s, SendNext("", "", Retryable, 5, took)).value;
    assert sent.events[B := Deferred(b, 0)] == map[B := Deferred(b, 0)];
  }

  /** The worker waits, and a tick fires after `wait` seconds. */
  function Ticked(f: Sys, wait: nat): Sys {
    f.(worker := Starting, clock := f.clock + wait)
  }

  lemma WaitAndTick(f: Sys, wait: nat, before: seq<Action>) returns (actions: seq<Action>)
    requires Run(Init(), before) == Some(f) && f.worker.Draining?
    ensures Run(Init(), actions) == Some(Ticked(f, wait)) && (Prompt(before) ==> Prompt(actions))
  {
    var s1 := f.(worker := Waiting);
    var s2 := s1.(clock := f.clock + wait);
    assert Step(f, LeaveDrain) == Some(s1) && Step(s1, Pass(wait)) == Some(s2);
    assert Step(s2, TickFires) == Some(Ticked(f, wait));
    hide Step, Run, Prompt;
    actions := Then(before, LeaveDrain);
    actions := Then(actions, Pass(wait));
    actions := Then(actions, TickFires);
  }

  lemma ListAgain(s: Sys, e: Event)
    requires s.worker.Starting? && s.events == map[B := e] && B in s.past && s.past[B].listed
    requires forall n :: n in s.past ==> s.past[n].listed
    ensures Step(s, List([(B, e)], s.clock)) == Some(s.(worker := Draining([(B, e)], s.clock)))
  {
    OneListed(e);
    hide IsListing;
    assert (map n | n in s.past :: s.past[n].(listed := s.past[n].listed || n in s.events)) == s.past;
  }

  lemma OneListed(e: Event)
    ensures IsListing(map[B := e], [(B, e)])
  {
    assert [(B, e)][0].0 == B;
  }

  /** For every number of attempts, lag and duration some run has tries that close: `lag` events before
      it take a second each, and a tick fires as soon as the event is due. All its sends end within the
      worker's timeout, if the failed try, with its five exchanges and fifteen seconds of pauses, can. */
  lemma GapIsReached(k: int, lag: nat, took: nat) returns (actions: seq<Action>)
    requires k < MAX_ATTEMPTS && took >= 15
    ensures Retrying(actions, B, k, lag)
    ensures Took(actions, B, k, lag) == took
    ensures Gap(actions, B, k, lag) == Max(RetryDelay(k) - lag, took)
    ensures took <= 65 ==> Prompt(actions)
  {
    hide Run, Step, RetryDelay, IsListing, Going, Untouched, Prompt, Inv;
    var s: Sys;
    actions, s := CommitAll(k, lag);
    actions, s := StartAndList(k, lag, s, actions);
    actions, s := DeliverAll(k, Todo(k, lag), s, actions);
    actions, s := FailB(k, lag, took, s, actions);
    var e := Deferred(Fresh(k - 1), 0);
    var wait: nat := Max(RetryDelay(k) - lag, took) - took;
    actions := WaitAndTick(s, wait, actions);
    ListAgain(Ticked(s, wait), e);
    actions := Then(actions, List([(B, e)], s.clock + wait));
  }

  /** An event with `k` attempts, the failed try of which started `lag` seconds into its drain: from
      start to start the retry delay is guaranteed if and only if that lag is none. */
  lemma FullDelayIff(k: int, lag: nat)
    requires k < MAX_ATTEMPTS
    ensures (forall actions, name :: Retrying(actions, name, k, lag) ==> Gap(actions, name, k, lag) >= RetryDelay(k))
        <==> lag == 0
  {
    RetryDelayMonotone(k, k);
    hide Retrying, Gap, Took, RetryDelay;
    if lag == 0 {
      forall actions, name | Retrying(actions, name, k, lag) ensures Gap(actions, name, k, lag) >= RetryDelay(k) {
        GapBound(actions, name, k, lag);
      }
    } else {
      var actions := GapIsReached(k, lag, 15);
    }
  }
}

/** When a wake-up is lost: exactly when a listing of the queue fails. */
module EventWakeUp {
  import opened Wrappers
  import opened EventProtocol
  import opened EventTiming

  /** After this run the call has returned and its event is queued, no drain has listed it, and `m`
      listings have failed since its commit. */
  ghost predicate Unlisted(actions: seq<Action>, c: CallId, m: nat) {
    && Run(Init(), actions).Some?
    && var s := Run(Init(), actions).value;
    && c in s.calls && s.calls[c].Returned?
    && var name := s.calls[c].name;
    && name in s.events && name in s.past && !s.past[name].listed && s.past[name].missed == m
  }

  /** The worker is told of something to list, is about to list, or will list when it is started. */
  ghost predicate WillList(actions: seq<Action>)
    requires Run(Init(), actions).Some?
  {
    var s := Run(Init(), actions).value;
    s.wake || s.worker.Starting? || s.worker.Stopped?
  }

  // ---------- a run that loses it ----------

  /** The event is queued, the worker waits, and nothing tells it. */
  function Forgotten(m: nat): Sys {
    Sys(map[B := Fresh(0)], false, Waiting, map[0 := Returned(B)], map[B := NewHistory(Fresh(0)).(missed := m)], 0)
  }

  /** The same, with the listing still to come. */
  function AboutToList(m: nat): Sys {
    Forgotten(m).(worker := Starting)
  }

  lemma ListingFails(m: nat)
    ensures Step(AboutToList(m), ListFails) == Some(Forgotten(m + 1))
  {
    var s := AboutToList(m);
    assert (map n | n in s.past ::
              s.past[n].(missed := if n in s.events then s.past[n].missed + 1 else s.past[n].missed))
        == Forgotten(m + 1).past;
  }

  /** Enqueue returns while the worker, whose first listing has failed, waits; it takes the wake-up. */
  lemma TakesWake() returns (actions: seq<Action>)
    ensures Run(Init(), actions) == Some(AboutToList(0))
  {
    var e := Fresh(0);
    var s0 := Init();
    var s1 := s0.(worker := Starting);
    var s2 := s0.(worker := Waiting);
    var s4 := s2.(events := map[B := e], calls := map[0 := Committed(B)], past := map[B := NewHistory(e)]);
    var s5 := s4.(wake := true, calls := map[0 := Returned(B)]);
    assert Step(s0, StartWorker) == Some(s1);
    assert FailListing(s1).value.past == s1.past;
    assert Step(s1, ListFails) == Some(s2);
    Commits(s2, 0, B, e);
    assert s2.events[B := e] == s4.events && s2.calls[0 := Committed(B)] == s4.calls;
    assert s2.past[B := NewHistory(e)] == s4.past;
    assert s4.calls[0 := Returned(B)] == s5.calls;
    assert Step(s4, Signal(0)) == Some(s5);
    assert Step(s5, TakeWake) == Some(AboutToList(0));
    NothingYet();
    hide Step, Run, Fresh, NewHistory;
    actions := Then([], StartWorker);
    actions := Then(actions, ListFails);
    actions := Then(actions, Begin(0, e));
    actions := Then(actions, CommitEvent(0, B));
    actions := Then(actions, Signal(0));
    actions := Then(actions, TakeWake);
  }

  /** Any number of failing listings, each at the next tick. */
  lemma {:induction false} LosesWake(m: nat) returns (actions: seq<Action>)
    requires m > 0
    ensures Run(Init(), actions) == Some(Forgotten(m))
  {
    if m == 1 {
      actions := TakesWake();
    } else {
      actions := LosesWake(m - 1);
      assert Step(Forgotten(m - 1), TickFires) == Some(AboutToList(m - 1));
      hide Step, Run, Forgotten, AboutToList;
      actions := Then(actions, TickFires);
    }
    ListingFails(m - 1);
    hide Step, Run, Forgotten, AboutToList;
    actions := Then(actions, ListFails);
  }

  lemma ForgottenIsUnlisted(m: nat, actions: seq<Action>)
    requires Run(Init(), actions) == Some(Forgotten(m))
    ensures Unlisted(actions, 0, m) && !WillList(actions)
  {}

  /** An event whose Enqueue has returned and that no drain has listed is certain to be announced still
      if and only if no listing has failed since its commit. */
  lemma StillAnnouncedIff(m: nat)
    ensures (forall actions, c :: Unlisted(actions, c, m) ==> WillList(actions)) <==> m == 0
  {
    if m == 0 {
      forall actions, c | Unlisted(actions, c, m) ensures WillList(actions) {
        WakeUpIsKept(actions, c);
      }
    } else {
      var actions := LosesWake(m);
      ForgottenIsUnlisted(m, actions);
    }
  }
}

/** How many downloads can be unfinished at once, and how shutdown ends them. */
module DownloadLimits {
  import opened Wrappers
  import opened DownloadEngine
  import opened DownloadProtocol

  /** Handlers that passed the room test and have not inserted their job yet. */
  function Admitted(callers: map<CallId, bool>): set<CallId> {
    set c | c in callers && callers[c]
  }

  ghost predicate WithinLimit(s: Sys, slots: nat) {
    && |s.callers| <= slots
    && (s.tables.maxDLJobs > 0 ==>
          |Unfinished(s.tables.jobs)| + |Admitted(s.callers)| <= s.tables.maxDLJobs - 1 + slots)
  }

  lemma SubsetSize<T>(a: set<T>, b: set<T>)
    requires a <= b
    ensures |a| <= |b|
  {
    assert b == a + (b - a);
  }

  /** Steps of goroutines and cancel requests only ever finish jobs. */
  lemma FewerUnfinished(s: Sys, s': Sys, slots: nat)
    requires Inv(s) && Inv(s') && Evolves(s, s') && WithinLimit(s, slots)
    requires s'.callers == s.callers && s'.pcs.Keys == s.pcs.Keys
    requires s'.tables.maxDLJobs == s.tables.maxDLJobs
    ensures WithinLimit(s', slots)
  {
    forall id | id in s.pcs && s.tables.jobs[id].done ensures s'.tables.jobs[id].done {
      assert JobEvolves(s.pcs[id], s.tables.jobs[id], s'.pcs[id], s'.tables.jobs[id]);
    }
    SubsetSize(Unfinished(s'.tables.jobs), Unfinished(s.tables.jobs));
  }

  lemma CallerStepKeepsLimit(s: Sys, a: Action, slots: nat)
    requires WithinLimit(s, slots) && Step(s, a, slots).Some?
    requires a.Accept? || a.Check? || a.Abandon? || a.Release?
    ensures WithinLimit(Step(s, a, slots).value, slots)
  {
    var s' := Step(s, a, slots).value;
    var was, now := Admitted(s.callers), Admitted(s'.callers);
    SubsetSize(now, s'.callers.Keys);
    if a.Accept? || a.Release? {
      assert now == was;
      assert a.Release? ==> s'.callers.Keys == s.callers.Keys - {a.c};
      assert |s'.callers| == |s'.callers.Keys| && |s.callers| == |s.callers.Keys|;
    } else {
      assert s'.callers.Keys == s.callers.Keys;
      if a.Abandon? {
        SubsetSize(now, was);
      }
    }
  }

  lemma InsertKeepsLimit(s: Sys, a: Action, slots: nat)
    requires WithinLimit(s, slots) && Step(s, a, slots).Some? && a.InsertJob?
    ensures WithinLimit(Step(s, a, slots).value, slots)
  {
    var s' := Step(s, a, slots).value;
    assert s'.callers.Keys == s.callers.Keys;
    assert |s'.callers| == |s'.callers.Keys| && |s.callers| == |s.callers.Keys|;
    assert Admitted(s'.callers) == Admitted(s.callers) - {a.c};
    assert Unfinished(s'.tables.jobs) == Unfinished(s.tables.jobs) + {a.id};
  }

  lemma StepKeepsLimit(s: Sys, a: Action, slots: nat)
    requires Inv(s) && WithinLimit(s, slots) && Step(s, a, slots).Some?
    ensures WithinLimit(Step(s, a, slots).value, slots)
  {
    hide WithinLimit, Evolves, Inv;
    StepKeepsInv(s, a, slots);
    var s' := Step(s, a, slots).value;
    if a.Accept? || a.Check? || a.Abandon? || a.Release? {
      CallerStepKeepsLimit(s, a, slots);
    } else if a.InsertJob? {
      InsertKeepsLimit(s, a, slots);
    } else {
      QuietFields(s, a, slots);
      FewerUnfinished(s, s', slots);
    }
  }

  lemma QuietFields(s: Sys, a: Action, slots: nat)
    requires Inv(s) && Step(s, a, slots).Some?
    requires a.Launch? || a.Go? || a.CancelJob? || a.Close? || a.Signal?
    ensures var s' := Step(s, a, slots).value;
      && s'.callers == s.callers && s'.pcs.Keys == s.pcs.Keys
      && s'.tables.maxDLJobs == s.tables.maxDLJobs
  {
    hide GoStep, OnJob;
    if a.Go? {
      GoStepLocal(s, a.id, a.e);
    }
  }

  lemma {:induction false} RunKeepsLimit(s: Sys, actions: seq<Action>, slots: nat)
    requires Inv(s) && WithinLimit(s, slots) && Run(s, actions, slots).Some?
    ensures WithinLimit(Run(s, actions, slots).value, slots)
    decreases |actions|
  {
    hide Step, WithinLimit, Inv, Evolves;
    if actions != [] {
      StepKeepsInv(s, actions[0], slots);
      StepKeepsLimit(s, actions[0], slots);
      RunKeepsLimit(Step(s, actions[0], slots).value, actions[1..], slots);
    }
  }

  lemma {:induction false} LimitUnchanged(s: Sys, actions: seq<Action>, slots: nat)
    requires Inv(s) && Run(s, actions, slots).Some?
    ensures Run(s, actions, slots).value.tables.maxDLJobs == s.tables.maxDLJobs
    decreases |actions|
  {
    if actions != [] {
      var a := actions[0];
      if a.Launch? || a.Go? || a.CancelJob? || a.Close? || a.Signal? {
        QuietFields(s, a, slots);
      }
      StepKeepsInv(s, a, slots);
      hide GoStep, Evolves, Inv;
      LimitUnchanged(Step(s, a, slots).value, actions[1..], slots);
    }
  }

  /** Under a positive limit, `slots` concurrent handlers keep at most limit - 1 + slots downloads
      unfinished: the limit itself when requests are handled one at a time. */
  lemma UnfinishedBound(limit: int, actions: seq<Action>, slots: nat)
    requires limit > 0 && Run(Init(limit), actions, slots).Some?
    ensures |Unfinished(Run(Init(limit), actions, slots).value.tables.jobs)| <= limit - 1 + slots
  {
    var s := Init(limit);
    assert Unfinished(s.tables.jobs) == {} && Admitted(s.callers) == {};
    RunKeepsLimit(s, actions, slots);
    LimitUnchanged(s, actions, slots);
  }

  // ---------- the bound is reached ----------

  function Below(n: nat): (r: set<nat>)
    ensures |r| == n
    ensures forall i: nat :: i in r <==> i < n
  {
    if n == 0 then {}
    else
      var rest := Below(n - 1);
      assert n - 1 !in rest;
      rest + {n - 1}
  }

  const SOME_JOB := NewJob("m", Identity("", ""))

  /** k fresh jobs, and the given handlers. */
  function Loaded(limit: int, k: nat, callers: map<CallId, bool>): Sys {
    Sys(Tables(map id | id in Below(k) :: SOME_JOB, map[], limit),
        map id | id in Below(k) :: NotStarted, callers, false, false, [])
  }

  /** n handlers, of which those from j on are admitted. */
  function Handlers(n: nat, j: nat): map<CallId, bool> {
    map c | c in Below(n) :: c >= j
  }

  lemma LoadedUnfinished(limit: int, k: nat, callers: map<CallId, bool>)
    ensures |Unfinished(Loaded(limit, k, callers).tables.jobs)| == k
  {
    assert Unfinished(Loaded(limit, k, callers).tables.jobs) == Below(k);
  }

  lemma AcceptOne(limit: int, k: nat, callers: map<CallId, bool>, c: CallId, slots: nat)
    requires c !in callers && |callers| < slots
    ensures Step(Loaded(limit, k, callers), Accept(c), slots) == Some(Loaded(limit, k, callers[c := false]))
  {}

  lemma AdmitOne(limit: int, k: nat, callers: map<CallId, bool>, c: CallId, slots: nat)
    requires k < limit && c in callers && !callers[c]
    ensures Step(Loaded(limit, k, callers), Check(c), slots) == Some(Loaded(limit, k, callers[c := true]))
  {
    LoadedUnfinished(limit, k, callers);
  }

  lemma LoadOne(limit: int, k: nat, callers: map<CallId, bool>, c: CallId, slots: nat)
    requires c in callers && callers[c]
    ensures Step(Loaded(limit, k, callers), InsertJob(c, k, "m", Identity("", "")), slots)
         == Some(Loaded(limit, k + 1, callers[c := false]))
  {
    var s, s' := Loaded(limit, k, callers), Loaded(limit, k + 1, callers[c := false]);
    assert s.tables.jobs[k := SOME_JOB] == s'.tables.jobs;
    assert s.pcs[k := NotStarted] == s'.pcs;
  }

  lemma ReleaseOne(limit: int, k: nat, callers: map<CallId, bool>, c: CallId, slots: nat)
    requires c in callers && !callers[c]
    ensures Step(Loaded(limit, k, callers), Release(c), slots) == Some(Loaded(limit, k, callers - {c}))
  {}

  lemma RunAppend(s: Sys, a: seq<Action>, b: seq<Action>, slots: nat)
    requires Run(s, a, slots).Some?
    ensures Run(s, a + b, slots) == Run(Run(s, a, slots).value, b, slots)
    decreases |a|
  {
    if a == [] {
      assert a + b == b;
    } else {
      assert (a + b)[0] == a[0] && (a + b)[1..] == a[1..] + b;
      RunAppend(Step(s, a[0], slots).value, a[1..], b, slots);
    }
  }

  lemma RunSnoc(s: Sys, a: seq<Action>, last: Action, slots: nat)
    requires Run(s, a, slots).Some? && Step(Run(s, a, slots).value, last, slots).Some?
    ensures Run(s, a + [last], slots) == Step(Run(s, a, slots).value, last, slots)
  {
    RunAppend(s, a, [last], slots);
    assert [last][1..] == [];
  }

  /** Fill up to k jobs through one handler. */
  lemma {:induction false} Fill(limit: int, k: nat, slots: nat) returns (actions: seq<Action>)
    requires 0 <= k < limit && slots >= 1
    ensures Run(Init(limit), actions, slots) == Some(Loaded(limit, k, map[]))
    decreases k
  {
    hide Step, Run, Loaded, Init;
    if k == 0 {
      actions := [];
      NothingLoaded(limit, slots);
    } else {
      actions := Fill(limit, k - 1, slots);
      actions := FillOne(limit, k - 1, slots, actions);
    }
  }

  lemma NothingLoaded(limit: int, slots: nat)
    ensures Run(Init(limit), [], slots) == Some(Loaded(limit, 0, map[]))
  {}

  lemma FillOne(limit: int, k: nat, slots: nat, before: seq<Action>) returns (actions: seq<Action>)
    requires k < limit && slots >= 1
    requires Run(Init(limit), before, slots) == Some(Loaded(limit, k, map[]))
    ensures Run(Init(limit), actions, slots) == Some(Loaded(limit, k + 1, map[]))
  {
    hide Step, Run, Loaded;
    var idle, admitted := map[0 := false], map[0 := true];
    OneHandler();
    AcceptOne(limit, k, map[], 0, slots);
    AdmitOne(limit, k, idle, 0, slots);
    LoadOne(limit, k, admitted, 0, slots);
    ReleaseOne(limit, k + 1, idle, 0, slots);
    actions := Then(limit, before, Accept(0), slots);
    actions := Then(limit, actions, Check(0), slots);
    actions := Then(limit, actions, InsertJob(0, k, "m", Identity("", "")), slots);
    actions := Then(limit, actions, Release(0), slots);
  }

  lemma OneHandler()
    ensures map[][0 := false] == map[0 := false]
    ensures map[0 := false][0 := true] == map[0 := true]
    ensures map[0 := true][0 := false] == map[0 := false]
    ensures map[0 := false] - {0} == map[]
  {}

  lemma Then(limit: int, before: seq<Action>, a: Action, slots: nat) returns (actions: seq<Action>)
    requires Run(Init(limit), before, slots).Some?
    requires Step(Run(Init(limit), before, slots).value, a, slots).Some?
    ensures actions == before + [a]
    ensures Run(Init(limit), actions, slots) == Step(Run(Init(limit), before, slots).value, a, slots)
  {
    actions := before + [a];
    RunSnoc(Init(limit), before, a, slots);
  }

  /** n handlers all pass the room test before any of them inserts. */
  lemma {:induction false} AdmitAll(limit: int, k: nat, n: nat, slots: nat, fill: seq<Action>)
    returns (actions: seq<Action>)
    requires k < limit && n <= slots
    requires Run(Init(limit), fill, slots) == Some(Loaded(limit, k, map[]))
    ensures Run(Init(limit), actions, slots) == Some(Loaded(limit, k, Handlers(n, 0)))
    decreases n
  {
    hide Step, Run, Loaded;
    if n == 0 {
      actions := fill;
      assert Handlers(0, 0) == map[];
    } else {
      hide Handlers;
      var c := n - 1;
      var callers := Handlers(c, 0);
      actions := AdmitAll(limit, k, c, slots, fill);
      OneMoreHandler(c);
      AcceptOne(limit, k, callers, c, slots);
      AdmitOne(limit, k, callers[c := false], c, slots);
      actions := Then(limit, actions, Accept(c), slots);
      actions := Then(limit, actions, Check(c), slots);
    }
  }

  lemma OneMoreHandler(c: nat)
    ensures c !in Handlers(c, 0) && |Handlers(c, 0)| == c
    ensures Handlers(c, 0)[c := false][c := true] == Handlers(c + 1, 0)
  {
    HandlerCount(c);
    hide Below;
  }

  lemma HandlerCount(c: nat)
    ensures c !in Handlers(c, 0) && |Handlers(c, 0)| == c
  {
    hide Below;
    assert Handlers(c, 0).Keys == Below(c);
  }

  lemma {:induction false} InsertAll(limit: int, k: nat, n: nat, j: nat, slots: nat, admit: seq<Action>)
    returns (actions: seq<Action>)
    requires j <= n
    requires Run(Init(limit), admit, slots) == Some(Loaded(limit, k, Handlers(n, 0)))
    ensures Run(Init(limit), actions, slots) == Some(Loaded(limit, k + j, Handlers(n, j)))
    decreases j
  {
    hide Step, Run, Loaded;
    if j == 0 {
      actions := admit;
    } else {
      actions := InsertAll(limit, k, n, j - 1, slots, admit);
      LoadOne(limit, k + j - 1, Handlers(n, j - 1), j - 1, slots);
      assert Handlers(n, j - 1)[j - 1 := false] == Handlers(n, j);
      actions := Then(limit, actions, InsertJob(j - 1, k + j - 1, "m", Identity("", "")), slots);
    }
  }

  /** For every positive limit and every number of handlers some run reaches the bound, because the
      room test and the insertion are separate critical sections. */
  lemma BoundIsReached(limit: int, slots: nat) returns (actions: seq<Action>)
    requires limit > 0 && slots >= 1
    ensures Run(Init(limit), actions, slots).Some?
    ensures |Unfinished(Run(Init(limit), actions, slots).value.tables.jobs)| == limit - 1 + slots
  {
    hide Step, Run, Loaded;
    actions := Fill(limit, limit - 1, slots);
    actions := AdmitAll(limit, limit - 1, slots, slots, actions);
    actions := InsertAll(limit, limit - 1, slots, slots, slots, actions);
    LoadedUnfinished(limit, limit - 1 + slots, Handlers(slots, slots));
  }

  // ---------- shutdown ----------

  /** Own steps a launched goroutine still takes once the engine is closed, polls not counted. */
  function StepsLeft(pc: Pc): nat {
    match pc
    case Exited => 0
    case MetaFail(_) => 1
    case TransferFail(_) => 1
    case MetaExpired => 2
    case TransferOpen(_) => 2
    case TransferTop(_) => 3
    case Recording(_, _) => 4
    case TransferTick(_, _) => 4
    case GotInfo(_, _, _) => 5
    case TransferSelect(_) => 5
    case MetaSelect => 6
    case MetaTop => 7
    case NotStarted => 8
  }

  predicate PastWait(pc: Pc) {
    !pc.NotStarted? && !pc.MetaTop? && !pc.MetaSelect? && !pc.MetaExpired?
  }

  /** A poll of the metadata wait: its timer fires and it looks again. The deadline bounds how often. */
  predicate Polls(pc: Pc, e: Event) {
    pc.MetaSelect? && e.TimerFires?
  }

  lemma OwnMetaStep(s: Sys, id: JobId, e: Event)
    requires s.closed && id in s.pcs && id in s.tables.jobs && MetaStep(s, id, e).Some?
    ensures var s' := MetaStep(s, id, e).value;
      && id in s'.pcs && (PastWait(s.pcs[id]) ==> PastWait(s'.pcs[id]))
      && if Polls(s.pcs[id], e) then s'.pcs[id] == MetaTop else StepsLeft(s'.pcs[id]) < StepsLeft(s.pcs[id])
  {}

  lemma OwnTransferStep(s: Sys, id: JobId, e: Event)
    requires s.closed && id in s.pcs && id in s.tables.jobs && TransferStep(s, id, e).Some?
    ensures var s' := TransferStep(s, id, e).value;
      id in s'.pcs && PastWait(s'.pcs[id]) && StepsLeft(s'.pcs[id]) < StepsLeft(s.pcs[id])
  {
    hide Tick, FailUnlessDone, IsCancelled;
  }

  lemma OwnShutdownStep(s: Sys, id: JobId, e: Event)
    requires s.closed && id in s.pcs && id in s.tables.jobs && GoStep(s, id, e).Some?
    ensures var s' := GoStep(s, id, e).value;
      && id in s'.pcs && (PastWait(s.pcs[id]) ==> PastWait(s'.pcs[id]))
      && if Polls(s.pcs[id], e) then s'.pcs[id] == MetaTop else StepsLeft(s'.pcs[id]) < StepsLeft(s.pcs[id])
  {
    hide MetaStep, TransferStep, PastWait, StepsLeft;
    if Phase(s.pcs[id]) == 0 {
      OwnMetaStep(s, id, e);
    } else {
      OwnTransferStep(s, id, e);
    }
  }

  /** After Shutdown has set its flag, a launched goroutine comes closer to its exit with every step
      it takes, whatever peers do, except a poll of the metadata wait; past that wait, timers do not
      hold it up either. Other steps never do. */
  lemma ShutdownProgress(s: Sys, a: Action, slots: nat, id: JobId)
    requires Inv(s) && s.closed && id in s.pcs && s.pcs[id] != NotStarted
    requires Step(s, a, slots).Some?
    ensures var s' := Step(s, a, slots).value;
      && s'.closed && id in s'.pcs && (PastWait(s.pcs[id]) ==> PastWait(s'.pcs[id]))
      && if !a.Go? || a.id != id then s'.pcs[id] == s.pcs[id]
         else if Polls(s.pcs[id], a.e) then s'.pcs[id] == MetaTop
         else StepsLeft(s'.pcs[id]) < StepsLeft(s.pcs[id])
  {
    hide MetaStep, TransferStep;
    if a.Go? {
      GoStepLocal(s, a.id, a.e);
      if a.id == id {
        OwnShutdownStep(s, id, a.e);
      }
    }
  }

  /** The own steps of a goroutine in a run, and those of them that are polls. */
  function OwnSteps(actions: seq<Action>, id: JobId): nat {
    if actions == [] then 0
    else (if actions[0].Go? && actions[0].id == id then 1 else 0) + OwnSteps(actions[1..], id)
  }

  function PollsIn(s: Sys, actions: seq<Action>, slots: nat, id: JobId): nat
    requires Run(s, actions, slots).Some?
    decreases |actions|
  {
    if actions == [] then 0
    else
      var a := actions[0];
      (if a.Go? && a.id == id && id in s.pcs && Polls(s.pcs[id], a.e) then 1 else 0)
      + PollsIn(Step(s, a, slots).value, actions[1..], slots, id)
  }

  /** Over any run of a closed engine a launched goroutine takes at most 7 own steps and 2 for every
      poll of the metadata wait; and as it can always take one, it exits after that many. */
  lemma {:induction false} ShutdownSteps(s: Sys, actions: seq<Action>, slots: nat, id: JobId)
    requires Inv(s) && s.closed && id in s.pcs && s.pcs[id] != NotStarted && Run(s, actions, slots).Some?
    ensures var s' := Run(s, actions, slots).value;
      && id in s'.pcs && s'.pcs[id] != NotStarted
      && OwnSteps(actions, id) + StepsLeft(s'.pcs[id]) <= StepsLeft(s.pcs[id]) + 2 * PollsIn(s, actions, slots, id)
    decreases |actions|
  {
    if actions != [] {
      var a := actions[0];
      var n := Step(s, a, slots).value;
      StepKeepsInv(s, a, slots);
      ShutdownProgress(s, a, slots, id);
      StaysLaunched(s.pcs[id], n.pcs[id]);
      hide Inv, Step, Evolves;
      ShutdownSteps(n, actions[1..], slots, id);
    }
  }

  lemma StaysLaunched(pc: Pc, pc': Pc)
    requires pc != NotStarted && (pc' == pc || pc' == MetaTop || StepsLeft(pc') < StepsLeft(pc))
    ensures pc' != NotStarted && StepsLeft(pc) <= 7
    ensures pc.MetaSelect? && pc' == MetaTop ==> StepsLeft(pc') == StepsLeft(pc) + 1
  {}

  /** While it has not exited, a closed engine always lets it step. */
  lemma ShutdownNeverBlocks(s: Sys, slots: nat, id: JobId)
    requires Inv(s) && s.signaled && id in s.pcs && s.pcs[id] != Exited && s.pcs[id] != NotStarted
    ensures Step(s, Go(id, ShutdownSeen), slots).Some?
  {
    assert PcAgrees(s.pcs[id], s.tables.jobs[id]);
  }

  /** dlWG.Wait returns: every launched goroutine has exited. */
  ghost predicate WaitReturns(s: Sys) {
    forall id :: id in s.pcs ==> s.pcs[id] == Exited || s.pcs[id] == NotStarted
  }

  /** Shutdown returns: through that wait, or because its context has expired. */
  ghost predicate ShutdownReturns(s: Sys, expired: bool) {
    s.closed && (expired || WaitReturns(s))
  }

  /** In every reachable state a job is not done if and only if its goroutine has not exited and it was
      not canceled. */
  lemma UnfinishedJobs(limit: int, actions: seq<Action>, slots: nat)
    requires Run(Init(limit), actions, slots).Some?
    ensures var s := Run(Init(limit), actions, slots).value;
      && s.pcs.Keys == s.tables.jobs.Keys
      && forall id :: id in s.tables.jobs ==>
           (!s.tables.jobs[id].done <==> s.pcs[id] != Exited && s.tables.jobs[id].error != Canceled)
  {
    RunKeepsInv(Init(limit), actions, slots);
    var s := Run(Init(limit), actions, slots).value;
    forall id | id in s.tables.jobs
      ensures !s.tables.jobs[id].done <==> s.pcs[id] != Exited && s.tables.jobs[id].error != Canceled
    {
      assert PcAgrees(s.pcs[id], s.tables.jobs[id]);
    }
  }

  /** When Shutdown returns, the jobs not done are exactly those not canceled whose goroutine has not
      exited, if the context has expired; and whose goroutine was not even launched, if it has not. */
  lemma AfterShutdown(limit: int, actions: seq<Action>, slots: nat, expired: bool)
    requires Run(Init(limit), actions, slots).Some?
    requires ShutdownReturns(Run(Init(limit), actions, slots).value, expired)
    ensures var s := Run(Init(limit), actions, slots).value;
      && s.pcs.Keys == s.tables.jobs.Keys
      && forall id :: id in s.tables.jobs ==>
           (!s.tables.jobs[id].done <==>
              && s.tables.jobs[id].error != Canceled
              && if expired then s.pcs[id] != Exited else s.pcs[id] == NotStarted)
  {
    hide Run;
    UnfinishedJobs(limit, actions, slots);
  }

  /** The same for any return of the wait itself. */
  lemma AfterWait(limit: int, actions: seq<Action>, slots: nat)
    requires Run(Init(limit), actions, slots).Some? && WaitReturns(Run(Init(limit), actions, slots).value)
    ensures var s := Run(Init(limit), actions, slots).value;
      && s.pcs.Keys == s.tables.jobs.Keys
      && forall id :: id in s.tables.jobs ==>
           (!s.tables.jobs[id].done <==> s.pcs[id] == NotStarted && s.tables.jobs[id].error != Canceled)
  {
    hide Run;
    UnfinishedJobs(limit, actions, slots);
  }

  /** There are such jobs: a run in which Shutdown returns through the wait and leaves one. */
  lemma WaitLeavesJob() returns (actions: seq<Action>)
    ensures Run(Init(2), actions, 1).Some?
    ensures var s := Run(Init(2), actions, 1).value;
      && s.signaled && ShutdownReturns(s, false)
      && 0 in s.tables.jobs && !s.tables.jobs[0].done
  {
    hide Loaded, Run, Step;
    actions := Fill(2, 1, 1);
    OneLoaded();
    Closes(Loaded(2, 1, map[]));
    actions := Then(2, actions, Close, 1);
    actions := Then(2, actions, Signal, 1);
  }

  /** When it returns because its context has expired, a launched goroutine's job can be left too. */
  lemma ExpiryLeavesRunningJob() returns (actions: seq<Action>)
    ensures Run(Init(2), actions, 1).Some?
    ensures var s := Run(Init(2), actions, 1).value;
      && s.signaled && ShutdownReturns(s, true)
      && 0 in s.tables.jobs && !s.tables.jobs[0].done && 0 in s.pcs && s.pcs[0] == MetaTop
  {
    hide Loaded, Run, Step;
    actions := Fill(2, 1, 1);
    OneLoaded();
    WaitsAndIsCanceled(Loaded(2, 1, map[]), 0);
    Closes(At(Loaded(2, 1, map[]), 0, MetaTop));
    actions := Then(2, actions, Launch(0), 1);
    actions := Then(2, actions, Close, 1);
    actions := Then(2, actions, Signal, 1);
  }

  /** A canceled job whose goroutine waits for metadata. */
  function CanceledWaiting(s: Sys, id: JobId): Sys {
    At(s, id, MetaSelect).(tables := Cancel(s.tables, id))
  }

  function Closed(s: Sys): Sys {
    s.(closed := true, signaled := true)
  }

  function ShutDownJob(s: Sys, id: JobId): Sys
    requires id in s.tables.jobs
  {
    At(s.(tables := Fail(s.tables, id, EngineShutdown)), id, Exited)
  }

  lemma WaitsAndIsCanceled(s: Sys, id: JobId)
    requires id in s.pcs && id in s.tables.jobs && s.pcs[id] == NotStarted && !s.tables.jobs[id].done
    ensures Step(s, Launch(id), 1) == Some(At(s, id, MetaTop))
    ensures Step(At(s, id, MetaTop), Go(id, Proceed), 1) == Some(At(s, id, MetaSelect))
    ensures Step(At(s, id, MetaSelect), CancelJob(id), 1) == Some(CanceledWaiting(s, id))
    ensures var c := CanceledWaiting(s, id);
      && id in c.tables.jobs && c.tables.jobs[id].done && c.tables.jobs[id].error == Canceled
      && id in c.pcs && c.pcs[id] == MetaSelect
  {
    hide TransferStep, Unfinished;
    assert At(At(s, id, MetaTop), id, MetaSelect) == At(s, id, MetaSelect);
  }

  lemma Closes(s: Sys)
    ensures Step(s, Close, 1) == Some(s.(closed := true))
    ensures Step(s.(closed := true), Signal, 1) == Some(Closed(s))
  {}

  lemma ShutsDown(s: Sys, id: JobId)
    requires s.signaled && id in s.pcs && id in s.tables.jobs && s.pcs[id] == MetaSelect
    ensures Step(s, Go(id, ShutdownSeen), 1) == Some(At(s, id, MetaFail(EngineShutdown)))
    ensures Step(At(s, id, MetaFail(EngineShutdown)), Go(id, Proceed), 1) == Some(ShutDownJob(s, id))
    ensures var f := ShutDownJob(s, id);
      id in f.tables.jobs && f.tables.jobs[id].done && f.tables.jobs[id].error == EngineShutdown
  {
    hide TransferStep, Unfinished;
    var f := At(s, id, MetaFail(EngineShutdown));
    assert f.pcs[id := Exited] == s.pcs[id := Exited];
  }

  lemma OneLoaded()
    ensures var s := Loaded(2, 1, map[]);
      && 0 in s.pcs && 0 in s.tables.jobs && s.pcs[0] == NotStarted && !s.tables.jobs[0].done
      && WaitReturns(s)
  {
    assert 0 in Below(1);
  }

  /** Why the first failure is kept only from the transfer phase on: a cancel during the metadata wait
      can be replaced by the error of a shutdown. */
  lemma CancelCanBeReplaced() returns (before: seq<Action>, after: seq<Action>)
    ensures Run(Init(2), before, 1).Some?
    ensures Run(Init(2), before + after, 1).Some?
    ensures var s, s' := Run(Init(2), before, 1).value, Run(Init(2), before + after, 1).value;
      && 0 in s.tables.jobs && s.tables.jobs[0].done && s.tables.jobs[0].error == Canceled
      && 0 in s'.tables.jobs && s'.tables.jobs[0].done && s'.tables.jobs[0].error == EngineShutdown
  {
    hide Loaded, CanceledWaiting, Run, Step, ShutDownJob;
    before := Fill(2, 1, 1);
    OneLoaded();
    WaitsAndIsCanceled(Loaded(2, 1, map[]), 0);
    var c := CanceledWaiting(Loaded(2, 1, map[]), 0);
    Closes(c);
    ShutsDown(Closed(c), 0);
    before := Then(2, before, Launch(0), 1);
    before := Then(2, before, Go(0, Proceed), 1);
    before := Then(2, before, CancelJob(0), 1);
    var all := Then(2, before, Close, 1);
    all := Then(2, all, Signal, 1);
    all := Then(2, all, Go(0, ShutdownSeen), 1);
    all := Then(2, all, Go(0, Proceed), 1);
    after := [Close, Signal, Go(0, ShutdownSeen), Go(0, Proceed)];
    assert all == before + after;
  }
}

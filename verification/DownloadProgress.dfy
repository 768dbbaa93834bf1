/** What a job reports while its transfer runs, and that a download can succeed. */
module DownloadProgress {
  import opened Wrappers
  import opened DownloadEngine
  import opened DownloadProtocol

  /** A tick of an unfinished job: what it has written and what was missing make the total; it is done
      exactly if nothing was missing. */
  lemma TickReports(s: Sys, id: JobId, e: Event, slots: nat)
    requires Inv(s) && id in s.pcs && s.pcs[id].TransferTick? && !s.tables.jobs[id].done
    ensures Step(s, Go(id, e), slots).Some?
    ensures var s', missing := Step(s, Go(id, e), slots).value, s.pcs[id].missing;
      && id in s'.tables.jobs
      && s'.tables.jobs[id].written + missing == s'.tables.jobs[id].total == s.tables.jobs[id].total
      && (s'.tables.jobs[id].done <==> missing == 0)
  {
    hide MetaStep;
    assert PcAgrees(s.pcs[id], s.tables.jobs[id]);
  }

  // ---------- over runs ----------

  /** The goroutine, waiting for a tick, is given one, and asks the torrent what is missing. */
  predicate Asks(s: Sys, a: Action, id: JobId) {
    a.Go? && a.id == id && a.e.TransferTimer? && id in s.pcs && s.pcs[id].TransferSelect?
  }

  function Answer(s: Sys, a: Action, id: JobId, missing: nat): nat {
    if Asks(s, a, id) then a.e.missing else missing
  }

  /** What is missing when it asks never rises over the run, from `missing` on. */
  ghost predicate Shrinks(s: Sys, actions: seq<Action>, slots: nat, id: JobId, missing: nat)
    requires Run(s, actions, slots).Some?
    decreases |actions|
  {
    actions == [] ||
    (Answer(s, actions[0], id, missing) <= missing
     && Shrinks(Step(s, actions[0], slots).value, actions[1..], slots, id, Answer(s, actions[0], id, missing)))
  }

  /** The job is transferring or has ended; `missing` is the last answer. */
  ghost predicate Reported(s: Sys, id: JobId, missing: nat) {
    && id in s.pcs && id in s.tables.jobs && Phase(s.pcs[id]) >= 1
    && (s.pcs[id].TransferTick? ==> s.pcs[id].missing == missing)
    && (Phase(s.pcs[id]) == 1 && !s.tables.jobs[id].done ==>
          s.tables.jobs[id].written + missing <= s.tables.jobs[id].total)
  }

  function Written(s: Sys, id: JobId): nat
    requires id in s.tables.jobs
  {
    s.tables.jobs[id].written
  }

  /** When the transfer begins nothing is written. */
  lemma TransferBegins(s: Sys, id: JobId, e: Event, slots: nat)
    requires Inv(s) && id in s.pcs && s.pcs[id].Recording?
    ensures Step(s, Go(id, e), slots).Some?
    ensures var s' := Step(s, Go(id, e), slots).value;
      Reported(s', id, s.pcs[id].total) && Written(s', id) == 0
      && s'.tables.jobs[id].total == s.pcs[id].total && s'.tables.jobs[id].filename == s.pcs[id].name
  {
    hide TransferStep;
    assert PcAgrees(s.pcs[id], s.tables.jobs[id]);
  }

  lemma OwnStep(s: Sys, id: JobId, e: Event, missing: nat)
    requires Reported(s, id, missing) && PcAgrees(s.pcs[id], s.tables.jobs[id]) && TransferStep(s, id, e).Some?
    requires Answer(s, Go(id, e), id, missing) <= missing
    ensures var s' := TransferStep(s, id, e).value;
      Reported(s', id, Answer(s, Go(id, e), id, missing)) && Written(s', id) >= Written(s, id)
  {
    hide IsCancelled;
    if s.pcs[id].TransferTick? {
      hide FailUnlessDone;
    } else {
      hide Tick;
    }
  }

  lemma OneStep(s: Sys, a: Action, slots: nat, id: JobId, missing: nat)
    requires Inv(s) && Reported(s, id, missing) && Step(s, a, slots).Some?
    requires Answer(s, a, id, missing) <= missing
    ensures var s' := Step(s, a, slots).value;
      Reported(s', id, Answer(s, a, id, missing)) && Written(s', id) >= Written(s, id)
  {
    hide MetaStep, TransferStep, JobEvolves, Unfinished;
    assert PcAgrees(s.pcs[id], s.tables.jobs[id]);
    hide PcAgrees;
    if a.Go? {
      if a.id == id {
        OwnStep(s, id, a.e, missing);
      } else {
        GoStepLocal(s, a.id, a.e);
      }
    }
  }

  /** Over every run in which what is missing never rises, what a transferring job reports as written
      never falls. */
  lemma {:induction false} WrittenNeverFalls(s: Sys, actions: seq<Action>, slots: nat, id: JobId, missing: nat)
    requires Inv(s) && Reported(s, id, missing) && Run(s, actions, slots).Some?
    requires Shrinks(s, actions, slots, id, missing)
    ensures id in Run(s, actions, slots).value.tables.jobs
    ensures Written(Run(s, actions, slots).value, id) >= Written(s, id)
    decreases |actions|
  {
    if actions != [] {
      hide Inv, Step, Reported, Answer, Evolves;
      var n := Step(s, actions[0], slots).value;
      StepKeepsInv(s, actions[0], slots);
      OneStep(s, actions[0], slots, id, missing);
      WrittenNeverFalls(n, actions[1..], slots, id, Answer(s, actions[0], id, missing));
      ReportedJob(s, id, missing);
      ReportedJob(n, id, Answer(s, actions[0], id, missing));
    } else {
      ReportedJob(s, id, missing);
    }
  }

  lemma ReportedJob(s: Sys, id: JobId, missing: nat)
    requires Reported(s, id, missing)
    ensures id in s.tables.jobs
  {}

  // ---------- a download that succeeds, and one that is shut down ----------

  lemma RunCons(s: Sys, a: Action, rest: seq<Action>, slots: nat)
    requires Step(s, a, slots).Some?
    ensures Run(s, [a] + rest, slots) == Run(Step(s, a, slots).value, rest, slots)
  {
    hide Step;
    assert ([a] + rest)[1..] == rest;
  }

  lemma RunNil(s: Sys, slots: nat)
    ensures Run(s, [], slots) == Some(s)
  {}

  /** Its metadata arrives with a safe name, and is recorded. */
  lemma GetsMetadata(s: Sys, slots: nat, id: JobId, total: nat, name: string)
    requires id in s.pcs && id in s.tables.jobs && s.pcs[id] == NotStarted && !s.tables.jobs[id].done && !s.closed
    ensures Step(s, Launch(id), slots) == Some(At(s, id, MetaTop))
    ensures Step(At(s, id, MetaTop), Go(id, Proceed), slots) == Some(At(s, id, MetaSelect))
    ensures Step(At(s, id, MetaSelect), Go(id, InfoArrives(total, name, true)), slots)
         == Some(At(s, id, GotInfo(total, name, true)))
    ensures Step(At(s, id, GotInfo(total, name, true)), Go(id, Proceed), slots)
         == Some(At(s, id, Recording(total, name)))
  {
    hide TransferStep, Unfinished;
    SamePc(s, id, MetaTop, MetaSelect);
    SamePc(s, id, MetaSelect, GotInfo(total, name, true));
    SamePc(s, id, GotInfo(total, name, true), Recording(total, name));
  }

  lemma SamePc(s: Sys, id: JobId, pc: Pc, pc': Pc)
    ensures At(At(s, id, pc), id, pc') == At(s, id, pc')
  {
    assert s.pcs[id := pc][id := pc'] == s.pcs[id := pc'];
  }

  /** A job whose metadata is recorded transfers everything at its first tick. */
  lemma Transfers(s: Sys, slots: nat, id: JobId, total: nat)
    requires id in s.pcs && id in s.tables.jobs && s.pcs[id] == TransferTop(total)
    requires !s.tables.jobs[id].done && !s.closed
    ensures Step(s, Go(id, Proceed), slots) == Some(At(s, id, TransferOpen(total)))
    ensures Step(At(s, id, TransferOpen(total)), Go(id, Proceed), slots) == Some(At(s, id, TransferSelect(total)))
    ensures Step(At(s, id, TransferSelect(total)), Go(id, TransferTimer(0)), slots)
         == Some(At(s, id, TransferTick(total, 0)))
    ensures var n := Step(At(s, id, TransferTick(total, 0)), Go(id, Proceed), slots);
      && n.Some? && id in n.value.tables.jobs && n.value.published == s.published + [id]
      && var job, was := n.value.tables.jobs[id], s.tables.jobs[id];
      && job == was.(written := total, done := true)
      && n.value.tables.entries == s.tables.entries[was.modelID := Entry(was.modelID, was.identity)]
  {
    hide MetaStep, Unfinished;
    SamePc(s, id, TransferOpen(total), TransferSelect(total));
    SamePc(s, id, TransferSelect(total), TransferTick(total, 0));
  }

  /** Its metadata is recorded. */
  lemma Records(s: Sys, slots: nat, id: JobId, total: nat, name: string) returns (s': Sys)
    requires id in s.pcs && id in s.tables.jobs && !s.tables.jobs[id].done
    ensures Step(At(s, id, Recording(total, name)), Go(id, Proceed), slots) == Some(s')
    ensures id in s'.pcs && id in s'.tables.jobs && s'.pcs[id] == TransferTop(total)
    ensures s'.tables.jobs[id] == s.tables.jobs[id].(total := total, filename := name)
    ensures s'.tables.entries == s.tables.entries && s'.published == s.published && s'.closed == s.closed
  {
    hide TransferStep, Unfinished;
    s' := Step(At(s, id, Recording(total, name)), Go(id, Proceed), slots).value;
  }

  /** The four steps until everything is transferred. */
  lemma TransferRun(s: Sys, slots: nat, id: JobId, total: nat)
    requires id in s.pcs && id in s.tables.jobs && s.pcs[id] == TransferTop(total)
    requires !s.tables.jobs[id].done && !s.closed
    ensures var go := Go(id, Proceed); var actions := [go] + ([go] + ([Go(id, TransferTimer(0))] + ([go] + [])));
      Run(s, actions, slots) == Step(At(s, id, TransferTick(total, 0)), go, slots)
  {
    var go := Go(id, Proceed);
    Transfers(s, slots, id, total);
    var end := Step(At(s, id, TransferTick(total, 0)), go, slots).value;
    hide Step, Run, At;
    var last := [go] + [];
    RunCons(At(s, id, TransferTick(total, 0)), go, [], slots);
    RunNil(end, slots);
    RunCons(At(s, id, TransferSelect(total)), Go(id, TransferTimer(0)), last, slots);
    RunCons(At(s, id, TransferOpen(total)), go, [Go(id, TransferTimer(0))] + last, slots);
    RunCons(s, go, [go] + ([Go(id, TransferTimer(0))] + last), slots);
  }

  /** A job just inserted into an open engine can succeed, with any size and name: it then holds them,
      every byte is written, and the entry of its model is published. */
  lemma CanSucceed(s: Sys, slots: nat, id: JobId, total: nat, name: string) returns (actions: seq<Action>)
    requires id in s.pcs && id in s.tables.jobs && s.pcs[id] == NotStarted && !s.tables.jobs[id].done && !s.closed
    ensures Run(s, actions, slots).Some?
    ensures var s', was := Run(s, actions, slots).value, s.tables.jobs[id];
      && id in s'.tables.jobs && s'.published == s.published + [id]
      && s'.tables.jobs[id] == was.(total := total, filename := name, written := total, done := true)
      && s'.tables.entries == s.tables.entries[was.modelID := Entry(was.modelID, was.identity)]
  {
    var go, info := Go(id, Proceed), Go(id, InfoArrives(total, name, true));
    GetsMetadata(s, slots, id, total, name);
    var recorded := Records(s, slots, id, total, name);
    Transfers(recorded, slots, id, total);
    TransferRun(recorded, slots, id, total);
    hide Step, Run, At;
    var rest := [go] + ([go] + ([Go(id, TransferTimer(0))] + ([go] + [])));
    RunCons(At(s, id, Recording(total, name)), go, rest, slots);
    RunCons(At(s, id, GotInfo(total, name, true)), go, [go] + rest, slots);
    RunCons(At(s, id, MetaSelect), info, [go] + ([go] + rest), slots);
    RunCons(At(s, id, MetaTop), go, [info] + ([go] + ([go] + rest)), slots);
    RunCons(s, Launch(id), [go] + ([info] + ([go] + ([go] + rest))), slots);
    actions := [Launch(id)] + ([go] + ([info] + ([go] + ([go] + rest))));
  }

  /** A transferring job whose engine has been closed ends with the shutdown error instead. */
  lemma TransferShutsDown(s: Sys, slots: nat, id: JobId, total: nat)
    requires id in s.pcs && id in s.tables.jobs && s.pcs[id] == TransferOpen(total)
    requires s.closed && !s.tables.jobs[id].done
    ensures Run(s, [Go(id, Proceed), Go(id, Proceed)], slots).Some?
    ensures var s' := Run(s, [Go(id, Proceed), Go(id, Proceed)], slots).value;
      && id in s'.tables.jobs && s'.tables.jobs[id] == s.tables.jobs[id].(done := true, error := EngineShutdown)
      && s'.tables.entries == s.tables.entries && s'.published == s.published
  {
    hide MetaStep, Unfinished;
    var go := Go(id, Proceed);
    var n := At(s, id, TransferFail(total));
    assert Step(s, go, slots) == Some(n);
    assert Step(n, go, slots).Some?;
    var end := Step(n, go, slots).value;
    hide Step, At;
    TwoSteps(s, go, n, end, slots);
  }

  /** Where its metadata has come but it cannot go on, it fails: with the shutdown error if the engine is
      closed, else because of its name. */
  lemma MetadataRefused(s: Sys, slots: nat, id: JobId, total: nat, name: string, safe: bool)
    requires id in s.pcs && id in s.tables.jobs && s.pcs[id] == GotInfo(total, name, safe) && (s.closed || !safe)
    ensures Run(s, [Go(id, Proceed), Go(id, Proceed)], slots).Some?
    ensures var s' := Run(s, [Go(id, Proceed), Go(id, Proceed)], slots).value;
      && id in s'.tables.jobs
      && s'.tables.jobs[id]
           == s.tables.jobs[id].(done := true, error := if s.closed then EngineShutdown else UnsafeFilename(name))
      && s'.tables.entries == s.tables.entries && s'.published == s.published
  {
    hide TransferStep, Unfinished;
    var go := Go(id, Proceed);
    var n := At(s, id, MetaFail(if s.closed then EngineShutdown else UnsafeFilename(name)));
    assert Step(s, go, slots) == Some(n);
    assert Step(n, go, slots).Some?;
    var end := Step(n, go, slots).value;
    hide Step, At;
    TwoSteps(s, go, n, end, slots);
  }

  /** Where the wait has run out it fails with the timeout error, unless it was canceled before. */
  lemma WaitRunsOut(s: Sys, slots: nat, id: JobId)
    requires id in s.pcs && id in s.tables.jobs && s.pcs[id] == MetaExpired
    requires !(s.tables.jobs[id].done && s.tables.jobs[id].error == Canceled)
    ensures Run(s, [Go(id, Proceed), Go(id, Proceed)], slots).Some?
    ensures var s' := Run(s, [Go(id, Proceed), Go(id, Proceed)], slots).value;
      && id in s'.tables.jobs
      && s'.tables.jobs[id] == s.tables.jobs[id].(done := true, error := MetadataTimeout)
      && s'.tables.entries == s.tables.entries && s'.published == s.published
  {
    hide TransferStep, Unfinished;
    var go := Go(id, Proceed);
    var n := At(s, id, MetaFail(MetadataTimeout));
    assert Step(s, go, slots) == Some(n);
    assert Step(n, go, slots).Some?;
    var end := Step(n, go, slots).value;
    hide Step, At;
    TwoSteps(s, go, n, end, slots);
  }

  lemma TwoSteps(s: Sys, a: Action, n: Sys, end: Sys, slots: nat)
    requires Step(s, a, slots) == Some(n) && Step(n, a, slots) == Some(end)
    ensures Run(s, [a, a], slots) == Some(end)
  {
    hide Step;
    RunCons(n, a, [], slots);
    RunNil(end, slots);
    RunCons(s, a, [a], slots);
    assert [a] + [] == [a] && [a] + [a] == [a, a];
  }

  /** A canceled job's goroutine ends at its next test, and changes nothing. */
  lemma CancelEndsIt(s: Sys, slots: nat, id: JobId, e: Event)
    requires id in s.pcs && id in s.tables.jobs && s.tables.jobs[id].done && s.tables.jobs[id].error == Canceled
    requires s.pcs[id] in {MetaTop, MetaExpired} || s.pcs[id].TransferTop?
    ensures Step(s, Go(id, e), slots) == Some(s.(pcs := s.pcs[id := Exited]))
  {
    hide Unfinished;
  }
}

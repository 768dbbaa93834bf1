/** When the first failure of a download stays: the exact points at which it can still be replaced. */
module DownloadOutcomes {
  import opened Wrappers
  import opened DownloadEngine
  import opened DownloadProtocol

  /** The goroutine waits for metadata, has just got it, or is about to fail its job: from here it can
      set an error without looking at the one that is there. */
  predicate MayReplace(pc: Pc) {
    pc.MetaSelect? || pc.GotInfo? || pc.MetaFail?
  }

  ghost predicate HasFailed(s: Sys, id: JobId, err: JobError) {
    id in s.pcs && id in s.tables.jobs && s.tables.jobs[id].done && s.tables.jobs[id].error == err
  }

  // ---------- elsewhere it stays ----------

  lemma OwnMetaStepKeeps(s: Sys, id: JobId, e: Event, err: JobError)
    requires HasFailed(s, id, err) && PcAgrees(s.pcs[id], s.tables.jobs[id])
    requires !MayReplace(s.pcs[id]) && MetaStep(s, id, e).Some?
    ensures HasFailed(MetaStep(s, id, e).value, id, err) && !MayReplace(MetaStep(s, id, e).value.pcs[id])
  {}

  lemma OwnTransferStepKeeps(s: Sys, id: JobId, e: Event, err: JobError)
    requires HasFailed(s, id, err) && TransferStep(s, id, e).Some?
    ensures HasFailed(TransferStep(s, id, e).value, id, err) && !MayReplace(TransferStep(s, id, e).value.pcs[id])
  {}

  lemma OwnStepKeeps(s: Sys, id: JobId, e: Event, err: JobError)
    requires HasFailed(s, id, err) && PcAgrees(s.pcs[id], s.tables.jobs[id])
    requires !MayReplace(s.pcs[id]) && GoStep(s, id, e).Some?
    ensures HasFailed(GoStep(s, id, e).value, id, err) && !MayReplace(GoStep(s, id, e).value.pcs[id])
  {
    hide MetaStep, TransferStep, PcAgrees, MayReplace;
    if Phase(s.pcs[id]) == 0 {
      OwnMetaStepKeeps(s, id, e, err);
    } else {
      OwnTransferStepKeeps(s, id, e, err);
    }
  }

  lemma StepKeeps(s: Sys, a: Action, slots: nat, id: JobId, err: JobError)
    requires Inv(s) && HasFailed(s, id, err) && !MayReplace(s.pcs[id]) && Step(s, a, slots).Some?
    ensures HasFailed(Step(s, a, slots).value, id, err) && !MayReplace(Step(s, a, slots).value.pcs[id])
  {
    hide GoStep, JobEvolves, Unfinished;
    assert PcAgrees(s.pcs[id], s.tables.jobs[id]);
    hide PcAgrees;
    if a.Go? {
      if a.id == id {
        OwnStepKeeps(s, id, a.e, err);
      } else {
        GoStepLocal(s, a.id, a.e);
      }
    }
  }

  lemma {:induction false} RunKeeps(s: Sys, actions: seq<Action>, slots: nat, id: JobId, err: JobError)
    requires Inv(s) && HasFailed(s, id, err) && !MayReplace(s.pcs[id]) && Run(s, actions, slots).Some?
    ensures HasFailed(Run(s, actions, slots).value, id, err)
    decreases |actions|
  {
    hide Inv, Step, HasFailed, Evolves;
    if actions != [] {
      StepKeepsInv(s, actions[0], slots);
      StepKeeps(s, actions[0], slots, id, err);
      RunKeeps(Step(s, actions[0], slots).value, actions[1..], slots, id, err);
    }
  }

  // ---------- there it can be replaced ----------

  lemma RunCons(s: Sys, a: Action, rest: seq<Action>, slots: nat)
    requires Step(s, a, slots).Some?
    ensures Run(s, [a] + rest, slots) == Run(Step(s, a, slots).value, rest, slots)
  {
    hide Step;
    assert ([a] + rest)[1..] == rest;
  }

  /** The error about to be set is never the cancel error. */
  lemma FromMetaFail(s: Sys, slots: nat, id: JobId) returns (after: seq<Action>)
    requires id in s.pcs && id in s.tables.jobs && s.pcs[id].MetaFail?
    ensures Run(s, after, slots).Some? && HasFailed(Run(s, after, slots).value, id, s.pcs[id].err)
  {
    hide TransferStep, Unfinished;
    after := [Go(id, Proceed)];
    RunCons(s, Go(id, Proceed), [], slots);
  }

  lemma GotInfoFails(s: Sys, slots: nat, id: JobId)
    requires id in s.pcs && id in s.tables.jobs && s.pcs[id].GotInfo?
    ensures var c := s.(closed := true);
      && Step(s, Close, slots) == Some(c)
      && Step(c, Go(id, Proceed), slots) == Some(At(c, id, MetaFail(EngineShutdown)))
  {
    hide TransferStep, Unfinished;
  }

  lemma FromGotInfo(s: Sys, slots: nat, id: JobId) returns (after: seq<Action>)
    requires id in s.pcs && id in s.tables.jobs && s.pcs[id].GotInfo?
    ensures Run(s, after, slots).Some? && HasFailed(Run(s, after, slots).value, id, EngineShutdown)
  {
    GotInfoFails(s, slots, id);
    var c := s.(closed := true);
    var rest := FromMetaFail(At(c, id, MetaFail(EngineShutdown)), slots, id);
    hide Run, Step, HasFailed;
    after := [Close] + ([Go(id, Proceed)] + rest);
    RunCons(s, Close, [Go(id, Proceed)] + rest, slots);
    RunCons(c, Go(id, Proceed), rest, slots);
  }

  lemma SelectGetsInfo(s: Sys, slots: nat, id: JobId)
    requires id in s.pcs && id in s.tables.jobs && s.pcs[id].MetaSelect?
    ensures Step(s, Go(id, InfoArrives(0, "", true)), slots) == Some(At(s, id, GotInfo(0, "", true)))
  {
    hide TransferStep, Unfinished;
  }

  lemma FromMetaSelect(s: Sys, slots: nat, id: JobId) returns (after: seq<Action>)
    requires id in s.pcs && id in s.tables.jobs && s.pcs[id].MetaSelect?
    ensures Run(s, after, slots).Some? && HasFailed(Run(s, after, slots).value, id, EngineShutdown)
  {
    var info := Go(id, InfoArrives(0, "", true));
    SelectGetsInfo(s, slots, id);
    var rest := FromGotInfo(At(s, id, GotInfo(0, "", true)), slots, id);
    hide Run, Step, HasFailed;
    after := [info] + rest;
    RunCons(s, info, rest, slots);
  }

  lemma CanBeReplaced(s: Sys, slots: nat, id: JobId, err: JobError) returns (after: seq<Action>)
    requires Inv(s) && HasFailed(s, id, err) && MayReplace(s.pcs[id])
    ensures Run(s, after, slots).Some? && !HasFailed(Run(s, after, slots).value, id, err)
  {
    assert PcAgrees(s.pcs[id], s.tables.jobs[id]);
    assert err == Canceled;
    hide Run, Inv;
    if s.pcs[id].MetaFail? {
      after := FromMetaFail(s, slots, id);
    } else if s.pcs[id].GotInfo? {
      after := FromGotInfo(s, slots, id);
    } else {
      after := FromMetaSelect(s, slots, id);
    }
  }

  /** In every reachable state, a failed job keeps its error in every continuation if and only if its
      goroutine is at none of these three points. Shutdown, an unsafe file name and the metadata
      timeout are what replaces it, and what they replace is always a cancel. */
  lemma FirstErrorIsKeptIff(limit: int, before: seq<Action>, slots: nat, id: JobId, err: JobError)
    requires Run(Init(limit), before, slots).Some? && err != NoError
    requires HasFailed(Run(Init(limit), before, slots).value, id, err)
    ensures var s := Run(Init(limit), before, slots).value;
      && (MayReplace(s.pcs[id]) ==> err == Canceled)
      && ((forall after :: Run(s, after, slots).Some? ==> HasFailed(Run(s, after, slots).value, id, err))
          <==> !MayReplace(s.pcs[id]))
  {
    RunKeepsInv(Init(limit), before, slots);
    var s := Run(Init(limit), before, slots).value;
    assert PcAgrees(s.pcs[id], s.tables.jobs[id]);
    hide Run, Inv, HasFailed, PcAgrees;
    if MayReplace(s.pcs[id]) {
      var after := CanBeReplaced(s, slots, id, err);
    } else {
      forall after | Run(s, after, slots).Some? ensures HasFailed(Run(s, after, slots).value, id, err) {
        RunKeeps(s, after, slots, id, err);
      }
    }
  }

  // ---------- by each of the other errors ----------

  lemma FailNow(s: Sys, slots: nat, id: JobId)
    requires id in s.pcs && id in s.tables.jobs && s.pcs[id].MetaFail?
    ensures Step(s, Go(id, Proceed), slots).Some?
    ensures HasFailed(Step(s, Go(id, Proceed), slots).value, id, s.pcs[id].err)
  {
    hide TransferStep, Unfinished;
  }

  lemma CancelNow(s: Sys, slots: nat, id: JobId)
    requires id in s.pcs && id in s.tables.jobs && !s.tables.jobs[id].done
    ensures var c := s.(tables := Cancel(s.tables, id));
      Step(s, CancelJob(id), slots) == Some(c) && HasFailed(c, id, Canceled)
  {}

  lemma NameRejected(s: Sys, slots: nat, id: JobId, name: string)
    requires id in s.pcs && id in s.tables.jobs && s.pcs[id].MetaSelect? && !s.closed
    ensures var got := At(s, id, GotInfo(0, name, false));
      && Step(s, Go(id, InfoArrives(0, name, false)), slots) == Some(got)
      && Step(got, Go(id, Proceed), slots) == Some(At(s, id, MetaFail(UnsafeFilename(name))))
  {
    hide TransferStep, Unfinished;
    assert s.pcs[id := GotInfo(0, name, false)][id := MetaFail(UnsafeFilename(name))]
        == s.pcs[id := MetaFail(UnsafeFilename(name))];
  }

  lemma DeadlineMissed(s: Sys, slots: nat, id: JobId)
    requires id in s.pcs && id in s.tables.jobs && s.pcs[id].MetaSelect? && !s.tables.jobs[id].done
    ensures var late := At(s, id, MetaExpired);
      && Step(s, Go(id, DeadlinePasses), slots) == Some(late)
      && Step(late, Go(id, Proceed), slots) == Some(At(s, id, MetaFail(MetadataTimeout)))
  {
    hide TransferStep, Unfinished;
    assert s.pcs[id := MetaExpired][id := MetaFail(MetadataTimeout)] == s.pcs[id := MetaFail(MetadataTimeout)];
  }

  /** A cancel that comes while the goroutine waits is replaced when an unsafe file name arrives ... */
  lemma NameReplaces(s: Sys, slots: nat, id: JobId, name: string) returns (after: seq<Action>)
    requires id in s.pcs && id in s.tables.jobs && s.pcs[id].MetaSelect? && !s.tables.jobs[id].done && !s.closed
    ensures Step(s, CancelJob(id), slots).Some? && HasFailed(Step(s, CancelJob(id), slots).value, id, Canceled)
    ensures var c := Step(s, CancelJob(id), slots).value;
      Run(c, after, slots).Some? && HasFailed(Run(c, after, slots).value, id, UnsafeFilename(name))
  {
    CancelNow(s, slots, id);
    var c := s.(tables := Cancel(s.tables, id));
    NameRejected(c, slots, id, name);
    var rest := FromMetaFail(At(c, id, MetaFail(UnsafeFilename(name))), slots, id);
    hide Run, Step, HasFailed;
    after := [Go(id, InfoArrives(0, name, false))] + ([Go(id, Proceed)] + rest);
    RunCons(c, Go(id, InfoArrives(0, name, false)), [Go(id, Proceed)] + rest, slots);
    RunCons(At(c, id, GotInfo(0, name, false)), Go(id, Proceed), rest, slots);
  }

  /** ... and one that comes between the test at the deadline and the failure, by the timeout. */
  lemma TimeoutReplaces(s: Sys, slots: nat, id: JobId) returns (before: seq<Action>)
    requires id in s.pcs && id in s.tables.jobs && s.pcs[id].MetaSelect? && !s.tables.jobs[id].done
    ensures Run(s, before, slots).Some?
    ensures var late := Run(s, before, slots).value;
      && Step(late, CancelJob(id), slots).Some?
      && var c := Step(late, CancelJob(id), slots).value;
      && HasFailed(c, id, Canceled)
      && Step(c, Go(id, Proceed), slots).Some?
      && HasFailed(Step(c, Go(id, Proceed), slots).value, id, MetadataTimeout)
  {
    DeadlineMissed(s, slots, id);
    var late := At(s, id, MetaFail(MetadataTimeout));
    CancelNow(late, slots, id);
    FailNow(late.(tables := Cancel(late.tables, id)), slots, id);
    NoRun(late, slots);
    hide Run, Step, HasFailed;
    before := [Go(id, DeadlinePasses)] + ([Go(id, Proceed)] + []);
    RunCons(s, Go(id, DeadlinePasses), [Go(id, Proceed)] + [], slots);
    RunCons(At(s, id, MetaExpired), Go(id, Proceed), [], slots);
  }

  lemma NoRun(s: Sys, slots: nat)
    ensures Run(s, [], slots) == Some(s)
  {}
}

/** Every interleaving of download goroutines, cancel requests, shutdown and request handlers over
    the tables of DownloadEngine. One step is one critical section, one atomic load or one local
    decision of a goroutine; time and peers are free choices. */
module DownloadProtocol {
  import opened Wrappers
  import opened DownloadEngine
  import Order

  type CallId = nat

  /** Where the goroutine of a job is. */
  datatype Pc =
    | NotStarted                            // inserted, goroutine not launched yet
    | MetaTop                               // about to test for cancellation
    | MetaSelect                            // waiting for metadata, a timer or shutdown
    | MetaExpired                           // deadline passed, about to test for cancellation again
    | GotInfo(total: nat, name: string, safe: bool) // metadata there, about to load `closed`
    | MetaFail(err: JobError)               // about to fail the job unconditionally
    | Recording(total: nat, name: string)   // about to store total and name
    | TransferTop(total: nat)               // about to test for cancellation
    | TransferOpen(total: nat)              // about to load `closed`
    | TransferSelect(total: nat)            // waiting for a tick or shutdown
    | TransferFail(total: nat)              // about to fail the job unless it is done
    | TransferTick(total: nat, missing: nat)
    | Exited

  function Phase(pc: Pc): nat {
    match pc
    case Exited => 2
    case TransferTop(_) => 1
    case TransferOpen(_) => 1
    case TransferSelect(_) => 1
    case TransferFail(_) => 1
    case TransferTick(_, _) => 1
    case _ => 0
  }

  /** What the environment does for a goroutine that waits. */
  datatype Event = Proceed | TimerFires | DeadlinePasses | InfoArrives(total: nat, name: string, safe: bool)
                 | ShutdownSeen | TransferTimer(missing: nat)

  datatype Action =
    | Accept(c: CallId)                     // a handler takes a connection slot
    | Check(c: CallId)                      // StartDownload: the room test
    | InsertJob(c: CallId, id: JobId, modelID: string, identity: Identity)
    | Abandon(c: CallId)                    // StartDownload fails between the two sections
    | Release(c: CallId)
    | Launch(id: JobId)
    | Go(id: JobId, e: Event)
    | CancelJob(id: JobId)
    | Close                                 // Shutdown sets the flag ...
    | Signal                                // ... and then closes the channel

  datatype Sys = Sys(tables: Tables, pcs: map<JobId, Pc>, callers: map<CallId, bool>,
                     closed: bool, signaled: bool, published: seq<JobId>)

  function Init(limit: int): Sys {
    Sys(Tables(map[], map[], limit), map[], map[], false, false, [])
  }

  function At(s: Sys, id: JobId, pc: Pc): Sys {
    s.(pcs := s.pcs[id := pc])
  }

  /** The goroutine's next step while it waits for metadata, if the event can occur there. */
  function MetaStep(s: Sys, id: JobId, e: Event): Option<Sys>
    requires id in s.pcs && id in s.tables.jobs
  {
    match s.pcs[id]
    case MetaTop =>
      Some(At(s, id, if IsCancelled(s.tables, id) then Exited else MetaSelect))
    case MetaSelect => (
      match e
      case TimerFires => Some(At(s, id, MetaTop))
      case DeadlinePasses => Some(At(s, id, MetaExpired))
      case InfoArrives(total, name, safe) => Some(At(s, id, GotInfo(total, name, safe)))
      case ShutdownSeen => if s.signaled then Some(At(s, id, MetaFail(EngineShutdown))) else None
      case _ => None)
    case MetaExpired =>
      Some(At(s, id, if IsCancelled(s.tables, id) then Exited else MetaFail(MetadataTimeout)))
    case GotInfo(total, name, safe) =>
      Some(At(s, id, if s.closed then MetaFail(EngineShutdown)
                     else if !safe then MetaFail(UnsafeFilename(name))
                     else Recording(total, name)))
    case MetaFail(err) =>
      Some(At(s.(tables := Fail(s.tables, id, err)), id, Exited))
    case Recording(total, name) =>
      Some(At(s.(tables := RecordMetadata(s.tables, id, total, name)), id, TransferTop(total)))
    case _ => None
  }

  /** ... and while it transfers. */
  function TransferStep(s: Sys, id: JobId, e: Event): Option<Sys>
    requires id in s.pcs && id in s.tables.jobs
  {
    match s.pcs[id]
    case TransferTop(total) =>
      Some(At(s, id, if IsCancelled(s.tables, id) then Exited else TransferOpen(total)))
    case TransferOpen(total) =>
      Some(At(s, id, if s.closed then TransferFail(total) else TransferSelect(total)))
    case TransferSelect(total) => (
      match e
      case ShutdownSeen => if s.signaled then Some(At(s, id, TransferFail(total))) else None
      case TransferTimer(missing) =>
        if missing <= total then Some(At(s, id, TransferTick(total, missing))) else None
      case _ => None)
    case TransferFail(total) =>
      Some(At(s.(tables := FailUnlessDone(s.tables, id, EngineShutdown)), id, Exited))
    case TransferTick(total, missing) =>
      if missing > total then None
      else
        var was := s.tables.jobs[id];
        var t := Tick(s.tables, id, total, missing);
        Some(At(s.(tables := t, published := if !was.done && missing == 0 then s.published + [id] else s.published),
                id, if t.jobs[id].done then Exited else TransferTop(total)))
    case _ => None
  }

  function GoStep(s: Sys, id: JobId, e: Event): Option<Sys>
    requires id in s.pcs && id in s.tables.jobs
  {
    if Phase(s.pcs[id]) == 0 then MetaStep(s, id, e) else TransferStep(s, id, e)
  }

  /** One step of the system; None when the action cannot happen. `slots` is the number of
      connections the IPC server handles at once. */
  function Step(s: Sys, a: Action, slots: nat): Option<Sys> {
    match a
    case Accept(c) =>
      if c !in s.callers && |s.callers| < slots then Some(s.(callers := s.callers[c := false])) else None
    case Check(c) =>
      if c in s.callers && !s.callers[c] && HasRoom(s.tables)
      then Some(s.(callers := s.callers[c := true])) else None
    case InsertJob(c, id, modelID, identity) =>
      if c in s.callers && s.callers[c] && id !in s.tables.jobs && id !in s.pcs
      then Some(At(s.(tables := Insert(s.tables, id, NewJob(modelID, identity)),
                      callers := s.callers[c := false]), id, NotStarted))
      else None
    case Abandon(c) =>
      if c in s.callers && s.callers[c] then Some(s.(callers := s.callers[c := false])) else None
    case Release(c) =>
      if c in s.callers && !s.callers[c] then Some(s.(callers := s.callers - {c})) else None
    case Launch(id) =>
      if id in s.pcs && s.pcs[id] == NotStarted then Some(At(s, id, MetaTop)) else None
    case Go(id, e) =>
      if id in s.pcs && id in s.tables.jobs then GoStep(s, id, e) else None
    case CancelJob(id) => Some(s.(tables := Cancel(s.tables, id)))
    case Close => Some(s.(closed := true))
    case Signal => if s.closed then Some(s.(signaled := true)) else None
  }

  function Run(s: Sys, actions: seq<Action>, slots: nat): Option<Sys>
    decreases |actions|
  {
    if actions == [] then Some(s)
    else
      var n := Step(s, actions[0], slots);
      if n.None? then None else Run(n.value, actions[1..], slots)
  }

  // ---------- what every reachable state satisfies ----------

  predicate PcAgrees(pc: Pc, job: Job) {
    && (pc == Exited ==> job.done)
    && (job.done && pc != Exited ==> job.error == Canceled)
    && (Phase(pc) == 0 ==> job.written == 0)
    && (!job.done ==> job.error == NoError)
    && (job.Succeeded() ==> pc == Exited && job.written == job.total)
    && (match pc
        case TransferTop(total) => job.total == total
        case TransferOpen(total) => job.total == total
        case TransferSelect(total) => job.total == total
        case TransferFail(total) => job.total == total
        case TransferTick(total, missing) => job.total == total && missing <= total
        case MetaFail(err) => err != NoError && err != Canceled
        case _ => true)
  }

  ghost predicate Inv(s: Sys) {
    && s.pcs.Keys == s.tables.jobs.Keys
    && (s.signaled ==> s.closed)
    && (forall id :: id in s.pcs ==> PcAgrees(s.pcs[id], s.tables.jobs[id]))
    && Order.AllDistinct(s.published)
    && (forall id :: id in s.published <==> id in s.tables.jobs && s.tables.jobs[id].Succeeded())
  }

  /** How a job may change between two states of a run, however far apart. */
  predicate JobEvolves(pc: Pc, job: Job, pc': Pc, job': Job) {
    && Phase(pc) <= Phase(pc')
    && job'.modelID == job.modelID && job'.identity == job.identity
    && (job.done ==> job'.done)
    && (job.Succeeded() ==> job' == job)
    && (job.done && job.error != NoError ==> job'.error != NoError)
    && (job.done && Phase(pc) >= 1 ==> job'.error == job.error)
  }

  ghost predicate Evolves(s: Sys, s': Sys)
    requires Inv(s) && Inv(s')
  {
    && s.published <= s'.published
    && (s.closed ==> s'.closed)
    && forall id :: id in s.pcs ==>
         id in s'.pcs && JobEvolves(s.pcs[id], s.tables.jobs[id], s'.pcs[id], s'.tables.jobs[id])
  }

  /** A goroutine's step touches only its own job and counter, and the entries if it publishes. */
  ghost predicate Local(s: Sys, id: JobId, s': Sys) {
    && id in s.pcs && id in s.tables.jobs && id in s'.pcs && id in s'.tables.jobs
    && s'.pcs == s.pcs[id := s'.pcs[id]]
    && s'.tables.jobs == s.tables.jobs[id := s'.tables.jobs[id]]
    && s'.tables.maxDLJobs == s.tables.maxDLJobs
    && s'.callers == s.callers && s'.closed == s.closed && s'.signaled == s.signaled
    && ((s'.published == s.published && s'.tables.entries == s.tables.entries)
        || s'.published == s.published + [id])
  }

  /** What it does to the job. */
  ghost predicate OnJob(s: Sys, id: JobId, s': Sys)
    requires Local(s, id, s')
  {
    && PcAgrees(s'.pcs[id], s'.tables.jobs[id])
    && JobEvolves(s.pcs[id], s.tables.jobs[id], s'.pcs[id], s'.tables.jobs[id])
    && (s'.published != s.published <==> !s.tables.jobs[id].Succeeded() && s'.tables.jobs[id].Succeeded())
    && (s'.published != s.published ==>
          && s.pcs[id].TransferTick? && !s.tables.jobs[id].done
          && s'.tables.entries == s.tables.entries[s.tables.jobs[id].modelID :=
               Entry(s.tables.jobs[id].modelID, s.tables.jobs[id].identity)])
  }

  /** A step that publishes nothing. */
  lemma WriteLocal(s: Sys, id: JobId, job: Job, pc: Pc)
    requires id in s.pcs && id in s.tables.jobs
    requires PcAgrees(pc, job) && JobEvolves(s.pcs[id], s.tables.jobs[id], pc, job)
    requires job.Succeeded() ==> s.tables.jobs[id].Succeeded()
    ensures var s' := At(s.(tables := Insert(s.tables, id, job)), id, pc); Local(s, id, s') && OnJob(s, id, s')
  {
    hide PcAgrees, JobEvolves;
  }

  lemma MoveLocal(s: Sys, id: JobId, pc: Pc)
    requires id in s.pcs && id in s.tables.jobs && PcAgrees(pc, s.tables.jobs[id]) && Phase(s.pcs[id]) <= Phase(pc)
    ensures Local(s, id, At(s, id, pc)) && OnJob(s, id, At(s, id, pc))
  {
    assert s.tables.jobs[id := s.tables.jobs[id]] == s.tables.jobs;
    WriteLocal(s, id, s.tables.jobs[id], pc);
  }

  lemma MetaMoveLocal(s: Sys, id: JobId, e: Event)
    requires id in s.pcs && id in s.tables.jobs && PcAgrees(s.pcs[id], s.tables.jobs[id])
    requires MetaStep(s, id, e).Some? && !s.pcs[id].MetaFail? && !s.pcs[id].Recording?
    ensures Local(s, id, MetaStep(s, id, e).value) && OnJob(s, id, MetaStep(s, id, e).value)
  {
    hide Local, OnJob, JobEvolves;
    MoveLocal(s, id, MetaStep(s, id, e).value.pcs[id]);
  }

  lemma MetaStepLocal(s: Sys, id: JobId, e: Event)
    requires id in s.pcs && id in s.tables.jobs && PcAgrees(s.pcs[id], s.tables.jobs[id])
    requires MetaStep(s, id, e).Some?
    ensures Local(s, id, MetaStep(s, id, e).value) && OnJob(s, id, MetaStep(s, id, e).value)
  {
    hide Local, OnJob, IsCancelled;
    var pc, job := s.pcs[id], s.tables.jobs[id];
    if pc.MetaFail? {
      WriteLocal(s, id, job.(done := true, error := pc.err), Exited);
    } else if pc.Recording? {
      WriteLocal(s, id, job.(total := pc.total, filename := pc.name), TransferTop(pc.total));
    } else {
      hide MetaStep, PcAgrees, JobEvolves;
      MetaMoveLocal(s, id, e);
    }
  }

  /** A job that is done already is left as it is. */
  lemma DoneMoveLocal(s: Sys, id: JobId, e: Event)
    requires id in s.pcs && id in s.tables.jobs && PcAgrees(s.pcs[id], s.tables.jobs[id])
    requires TransferStep(s, id, e).Some? && s.tables.jobs[id].done
    requires s.pcs[id].TransferFail? || s.pcs[id].TransferTick?
    ensures Local(s, id, TransferStep(s, id, e).value) && OnJob(s, id, TransferStep(s, id, e).value)
  {
    hide Local, OnJob, JobEvolves, IsCancelled;
    MoveLocal(s, id, Exited);
  }

  lemma TransferMoveLocal(s: Sys, id: JobId, e: Event)
    requires id in s.pcs && id in s.tables.jobs && PcAgrees(s.pcs[id], s.tables.jobs[id])
    requires TransferStep(s, id, e).Some? && !s.pcs[id].TransferFail? && !s.pcs[id].TransferTick?
    ensures Local(s, id, TransferStep(s, id, e).value) && OnJob(s, id, TransferStep(s, id, e).value)
  {
    hide Local, OnJob, JobEvolves, Tick, FailUnlessDone;
    MoveLocal(s, id, TransferStep(s, id, e).value.pcs[id]);
  }

  lemma TransferStepLocal(s: Sys, id: JobId, e: Event)
    requires id in s.pcs && id in s.tables.jobs && PcAgrees(s.pcs[id], s.tables.jobs[id])
    requires TransferStep(s, id, e).Some?
    ensures Local(s, id, TransferStep(s, id, e).value) && OnJob(s, id, TransferStep(s, id, e).value)
  {
    var pc, job := s.pcs[id], s.tables.jobs[id];
    if pc.TransferTick? && !job.done && pc.missing == 0 {
      FinishLocal(s, id, e);
    } else {
      hide Local, OnJob;
      if pc.TransferFail? && !job.done {
        WriteLocal(s, id, job.(done := true, error := EngineShutdown), Exited);
      } else if pc.TransferTick? && !job.done {
        WriteLocal(s, id, job.(written := pc.total - pc.missing), TransferTop(pc.total));
      } else {
        hide TransferStep, PcAgrees, JobEvolves;
        if pc.TransferFail? || pc.TransferTick? {
          DoneMoveLocal(s, id, e);
        } else {
          TransferMoveLocal(s, id, e);
        }
      }
    }
  }

  lemma FinishLocal(s: Sys, id: JobId, e: Event)
    requires id in s.pcs && id in s.tables.jobs && PcAgrees(s.pcs[id], s.tables.jobs[id])
    requires s.pcs[id].TransferTick? && s.pcs[id].missing == 0 && !s.tables.jobs[id].done
    ensures TransferStep(s, id, e).Some?
    ensures Local(s, id, TransferStep(s, id, e).value) && OnJob(s, id, TransferStep(s, id, e).value)
  {}

  lemma GoStepLocal(s: Sys, id: JobId, e: Event)
    requires Inv(s) && id in s.pcs && GoStep(s, id, e).Some?
    ensures Local(s, id, GoStep(s, id, e).value) && OnJob(s, id, GoStep(s, id, e).value)
  {
    hide MetaStep, TransferStep, Local, OnJob;
    if Phase(s.pcs[id]) == 0 {
      MetaStepLocal(s, id, e);
    } else {
      TransferStepLocal(s, id, e);
    }
  }

  /** The jobs that published are still exactly the successful ones. */
  lemma LocalStepPublishes(s: Sys, id: JobId, s': Sys)
    requires Inv(s) && Local(s, id, s') && OnJob(s, id, s')
    ensures s'.pcs.Keys == s'.tables.jobs.Keys && s.published <= s'.published && Order.AllDistinct(s'.published)
    ensures forall x :: x in s'.published <==> x in s'.tables.jobs && s'.tables.jobs[x].Succeeded()
  {
    assert s.tables.jobs[id].Succeeded() ==> s'.tables.jobs[id].Succeeded();
    hide PcAgrees, JobEvolves;
  }

  lemma LocalStepEvolves(s: Sys, id: JobId, s': Sys)
    requires Inv(s) && Local(s, id, s') && OnJob(s, id, s')
    ensures forall x :: x in s.pcs ==> x in s'.pcs && x in s'.tables.jobs
    ensures forall x :: x in s'.pcs && x in s'.tables.jobs ==> PcAgrees(s'.pcs[x], s'.tables.jobs[x])
    ensures forall x :: x in s.pcs ==> JobEvolves(s.pcs[x], s.tables.jobs[x], s'.pcs[x], s'.tables.jobs[x])
  {
    hide PcAgrees, JobEvolves, Order.AllDistinct;
    forall x | x in s.pcs && x != id
      ensures JobEvolves(s.pcs[x], s.tables.jobs[x], s'.pcs[x], s'.tables.jobs[x])
    {
      JobEvolvesRefl(s.pcs[x], s.tables.jobs[x]);
    }
  }

  lemma LocalStepKeepsInv(s: Sys, id: JobId, s': Sys)
    requires Inv(s) && Local(s, id, s') && OnJob(s, id, s')
    ensures Inv(s') && Evolves(s, s')
  {
    LocalStepPublishes(s, id, s');
    LocalStepEvolves(s, id, s');
    hide PcAgrees, JobEvolves, Order.AllDistinct;
  }

  lemma JobEvolvesRefl(pc: Pc, job: Job)
    ensures JobEvolves(pc, job, pc, job)
  {}

  lemma JobEvolvesTrans(pc: Pc, job: Job, pc': Pc, job': Job, pc'': Pc, job'': Job)
    requires JobEvolves(pc, job, pc', job') && JobEvolves(pc', job', pc'', job'')
    ensures JobEvolves(pc, job, pc'', job'')
  {}

  /** A cancel request is the only thing besides its goroutine that changes a job. */
  lemma CancelKeepsInv(s: Sys, id: JobId, s': Sys)
    requires Inv(s) && s' == s.(tables := Cancel(s.tables, id))
    ensures Inv(s') && Evolves(s, s')
  {
    forall x | x in s.pcs
      ensures PcAgrees(s'.pcs[x], s'.tables.jobs[x])
      ensures JobEvolves(s.pcs[x], s.tables.jobs[x], s'.pcs[x], s'.tables.jobs[x])
    {
      assert PcAgrees(s.pcs[x], s.tables.jobs[x]);
    }
  }

  /** Steps that leave every job alone, and at most add one. */
  lemma QuietStepKeepsInv(s: Sys, s': Sys)
    requires Inv(s) && s'.published == s.published && (s.closed ==> s'.closed) && (s'.signaled ==> s'.closed)
    requires s'.pcs.Keys == s'.tables.jobs.Keys && s.pcs.Keys <= s'.pcs.Keys
    requires forall id :: id in s.pcs ==>
      s'.tables.jobs[id] == s.tables.jobs[id] && Phase(s'.pcs[id]) == Phase(s.pcs[id])
    requires forall id :: id in s'.pcs ==>
      if id in s.pcs then PcAgrees(s'.pcs[id], s'.tables.jobs[id])
      else s'.pcs[id] == NotStarted && s'.tables.jobs[id].error == NoError && !s'.tables.jobs[id].done
           && s'.tables.jobs[id].written == 0
    ensures Inv(s') && Evolves(s, s')
  {}

  lemma OtherStepsKeepInv(s: Sys, a: Action, slots: nat)
    requires Inv(s) && Step(s, a, slots).Some? && !a.Go? && !a.CancelJob?
    ensures Inv(Step(s, a, slots).value)
    ensures Evolves(s, Step(s, a, slots).value)
  {
    hide Evolves, GoStep;
    if a.InsertJob? || a.Launch? {
      NewThreadKeepsInv(s, a, slots);
    } else {
      var s' := Step(s, a, slots).value;
      assert s'.pcs == s.pcs && s'.tables == s.tables;
      QuietStepKeepsInv(s, s');
    }
  }

  lemma NewThreadKeepsInv(s: Sys, a: Action, slots: nat)
    requires Inv(s) && Step(s, a, slots).Some? && (a.InsertJob? || a.Launch?)
    ensures Inv(Step(s, a, slots).value)
    ensures Evolves(s, Step(s, a, slots).value)
  {
    hide Evolves, GoStep;
    QuietStepKeepsInv(s, Step(s, a, slots).value);
  }

  lemma StepKeepsInv(s: Sys, a: Action, slots: nat)
    requires Inv(s) && Step(s, a, slots).Some?
    ensures Inv(Step(s, a, slots).value)
    ensures Evolves(s, Step(s, a, slots).value)
  {
    hide GoStep, Evolves, Local, OnJob;
    if a.Go? {
      GoStepLocal(s, a.id, a.e);
      LocalStepKeepsInv(s, a.id, Step(s, a, slots).value);
    } else if a.CancelJob? {
      CancelKeepsInv(s, a.id, Step(s, a, slots).value);
    } else {
      OtherStepsKeepInv(s, a, slots);
    }
  }

  lemma AtJob(s: Sys, id: JobId)
    requires Inv(s)
    ensures id in s.pcs <==> id in s.tables.jobs
  {}

  lemma SuccessIsWhole(s: Sys, id: JobId)
    requires id in s.pcs && id in s.tables.jobs && PcAgrees(s.pcs[id], s.tables.jobs[id])
    ensures s.tables.jobs[id].Succeeded() ==> s.tables.jobs[id].written == s.tables.jobs[id].total
  {}

  /** Only the tick that finishes a job, until then not done, publishes an entry: that job's. */
  lemma OnlySuccessPublishes(s: Sys, a: Action, slots: nat)
    requires Inv(s) && Step(s, a, slots).Some?
    ensures var s' := Step(s, a, slots).value;
      s'.published != s.published || s'.tables.entries != s.tables.entries ==>
        && a.Go? && a.id in s.pcs && s.pcs[a.id].TransferTick? && a.id in s'.tables.jobs
        && !s.tables.jobs[a.id].done && s'.tables.jobs[a.id].Succeeded()
        && s'.tables.jobs[a.id].written == s'.tables.jobs[a.id].total
        && s'.published == s.published + [a.id]
        && s'.tables.entries == s.tables.entries[s.tables.jobs[a.id].modelID :=
             Entry(s.tables.jobs[a.id].modelID, s.tables.jobs[a.id].identity)]
  {
    hide GoStep, JobEvolves, Inv;
    if a.Go? {
      AtJob(s, a.id);
      GoStepLocal(s, a.id, a.e);
      SuccessIsWhole(GoStep(s, a.id, a.e).value, a.id);
    }
  }

  lemma EvolvesTrans(s: Sys, s': Sys, s'': Sys)
    requires Inv(s) && Inv(s') && Inv(s'') && Evolves(s, s') && Evolves(s', s'')
    ensures Evolves(s, s'')
  {
    hide JobEvolves, PcAgrees;
    forall id | id in s.pcs
      ensures id in s''.pcs && JobEvolves(s.pcs[id], s.tables.jobs[id], s''.pcs[id], s''.tables.jobs[id])
    {
      JobEvolvesTrans(s.pcs[id], s.tables.jobs[id], s'.pcs[id], s'.tables.jobs[id],
                      s''.pcs[id], s''.tables.jobs[id]);
    }
  }

  /** Over every run from a reachable state: the invariant holds at its end, no job's progress,
      success or first transfer outcome is undone, and nothing published is taken back. */
  lemma {:induction false} RunKeepsInv(s: Sys, actions: seq<Action>, slots: nat)
    requires Inv(s) && Run(s, actions, slots).Some?
    ensures Inv(Run(s, actions, slots).value)
    ensures Evolves(s, Run(s, actions, slots).value)
    decreases |actions|
  {
    hide Step, Evolves, Inv;
    if actions != [] {
      StepKeepsInv(s, actions[0], slots);
      var n := Step(s, actions[0], slots).value;
      RunKeepsInv(n, actions[1..], slots);
      EvolvesTrans(s, n, Run(s, actions, slots).value);
    } else {
      EvolvesRefl(s);
    }
  }

  lemma EvolvesRefl(s: Sys)
    requires Inv(s)
    ensures Evolves(s, s)
  {
    forall id | id in s.pcs ensures JobEvolves(s.pcs[id], s.tables.jobs[id], s.pcs[id], s.tables.jobs[id]) {
      JobEvolvesRefl(s.pcs[id], s.tables.jobs[id]);
    }
  }

  /** In every reachable state: a goroutine that has exited left its job done; the jobs that
      published an entry are exactly the successful ones, each once, with every byte written; so a
      canceled or failed job has published nothing. */
  lemma ReachableJobs(limit: int, actions: seq<Action>, slots: nat)
    requires Run(Init(limit), actions, slots).Some?
    ensures var s := Run(Init(limit), actions, slots).value;
      && s.pcs.Keys == s.tables.jobs.Keys
      && Order.AllDistinct(s.published)
      && forall id :: id in s.pcs ==>
           && (s.pcs[id] == Exited ==> s.tables.jobs[id].done)
           && (id in s.published <==> s.tables.jobs[id].done && s.tables.jobs[id].error == NoError)
           && (id in s.published ==> s.tables.jobs[id].written == s.tables.jobs[id].total)
  {
    RunKeepsInv(Init(limit), actions, slots);
    var s := Run(Init(limit), actions, slots).value;
    forall id | id in s.pcs ensures PcAgrees(s.pcs[id], s.tables.jobs[id]) {}
  }

  /** Between any two points of a run. */
  lemma OutcomesAreKept(limit: int, before: seq<Action>, after: seq<Action>, slots: nat, id: JobId)
    requires Run(Init(limit), before, slots).Some?
    requires Run(Run(Init(limit), before, slots).value, after, slots).Some?
    requires id in Run(Init(limit), before, slots).value.pcs
    ensures var s := Run(Init(limit), before, slots).value;
      var s' := Run(s, after, slots).value;
      && id in s.tables.jobs && id in s'.tables.jobs
      && var job, job' := s.tables.jobs[id], s'.tables.jobs[id];
      // Done never reverts.
      && (job.done ==> job'.done)
      // Success is final.
      && (job.done && job.error == NoError ==> job' == job)
      // A failure never turns into a success ...
      && (job.done && job.error != NoError ==> job'.done && job'.error != NoError)
      // ... and from the transfer phase on it stays the same failure.
      && (job.done && Phase(s.pcs[id]) >= 1 ==> job'.error == job.error)
  {
    RunKeepsInv(Init(limit), before, slots);
    var s := Run(Init(limit), before, slots).value;
    RunKeepsInv(s, after, slots);
    var s' := Run(s, after, slots).value;
    assert JobEvolves(s.pcs[id], s.tables.jobs[id], s'.pcs[id], s'.tables.jobs[id]);
  }
}

/** The job and entry tables of internal/torrent/engine.go: one method for each critical section
    that a download, a cancel request or a status poll runs under the engine's mutex. */
module DownloadEngine {
  import opened Wrappers

  type JobId = nat

  datatype JobError = NoError | Canceled | MetadataTimeout | EngineShutdown | UnsafeFilename(name: string)

  datatype Identity = Identity(infohashV1: string, infohashV2: string)

  datatype Job = Job(modelID: string, identity: Identity, filename: string,
                     total: nat, written: nat, done: bool, error: JobError)
  {
    predicate Succeeded() { done && error == NoError }
  }

  datatype Entry = Entry(modelID: string, identity: Identity)

  datatype Tables = Tables(jobs: map<JobId, Job>, entries: map<string, Entry>, maxDLJobs: int)

  function NewJob(modelID: string, identity: Identity): Job {
    Job(modelID, identity, "", 0, 0, false, NoError)
  }

  // ---------- what each critical section does to the tables ----------

  function UnfinishedIn(jobs: map<JobId, Job>, ids: set<JobId>): set<JobId> {
    set id | id in ids && id in jobs && !jobs[id].done
  }

  function Unfinished(jobs: map<JobId, Job>): set<JobId> {
    UnfinishedIn(jobs, jobs.Keys)
  }

  lemma RemoveOne(jobs: map<JobId, Job>, ids: set<JobId>, id: JobId)
    requires id in ids && id in jobs
    ensures |UnfinishedIn(jobs, ids - {id})|
         == |UnfinishedIn(jobs, ids)| - (if jobs[id].done then 0 else 1)
  {
    var all, rest := UnfinishedIn(jobs, ids), UnfinishedIn(jobs, ids - {id});
    if jobs[id].done {
      assert rest == all;
    } else {
      assert rest == all - {id};
    }
  }

  predicate HasRoom(t: Tables) {
    t.maxDLJobs <= 0 || |Unfinished(t.jobs)| < t.maxDLJobs
  }

  predicate IsCancelled(t: Tables, id: JobId) {
    id in t.jobs && t.jobs[id].done && t.jobs[id].error == Canceled
  }

  function Insert(t: Tables, id: JobId, job: Job): Tables {
    t.(jobs := t.jobs[id := job])
  }

  /** Set error and done, whatever the job was. */
  function Fail(t: Tables, id: JobId, err: JobError): Tables
    requires id in t.jobs
  {
    t.(jobs := t.jobs[id := t.jobs[id].(done := true, error := err)])
  }

  function FailUnlessDone(t: Tables, id: JobId, err: JobError): Tables
    requires id in t.jobs
  {
    if t.jobs[id].done then t else Fail(t, id, err)
  }

  function Cancel(t: Tables, id: JobId): Tables {
    if id in t.jobs then FailUnlessDone(t, id, Canceled) else t
  }

  function RecordMetadata(t: Tables, id: JobId, total: nat, name: string): Tables
    requires id in t.jobs
  {
    t.(jobs := t.jobs[id := t.jobs[id].(total := total, filename := name)])
  }

  /** One transfer tick; the only step that stores a seeding entry. */
  function Tick(t: Tables, id: JobId, total: nat, missing: nat): Tables
    requires id in t.jobs && missing <= total
  {
    var job := t.jobs[id];
    if job.done then t
    else if missing > 0 then t.(jobs := t.jobs[id := job.(written := total - missing)])
    else t.(jobs := t.jobs[id := job.(written := total, done := true)],
            entries := t.entries[job.modelID := Entry(job.modelID, job.identity)])
  }

  // ---------- the methods ----------

  class Engine {
    var jobs: map<JobId, Job>
    var entries: map<string, Entry>
    var maxDLJobs: int

    function Now(): Tables
      reads this
    {
      Tables(jobs, entries, maxDLJobs)
    }

    /** No other job has changed. */
    predicate OnlyJob(was: map<JobId, Job>, id: JobId)
      reads this
    {
      && (forall x :: x in was && x != id ==> x in jobs && jobs[x] == was[x])
      && (forall x :: x in jobs && x != id ==> x in was)
    }

    constructor (limit: int)
      ensures Now() == Tables(map[], map[], limit)
    {
      jobs, entries, maxDLJobs := map[], map[], limit;
    }

    method ActiveDownloadJobsLocked() returns (active: nat)
      ensures active == |Unfinished(jobs)|
    {
      active := 0;
      var left := jobs.Keys;
      while left != {}
        invariant left <= jobs.Keys
        invariant active + |UnfinishedIn(jobs, left)| == |Unfinished(jobs)|
        decreases |left|
      {
        var id :| id in left;
        RemoveOne(jobs, left, id);
        if !jobs[id].done {
          active := active + 1;
        }
        left := left - {id};
      }
    }

    /** The first critical section of StartDownload. */
    method Admit() returns (ok: bool)
      ensures ok == HasRoom(Now())
    {
      if maxDLJobs > 0 {
        var active := ActiveDownloadJobsLocked();
        ok := active < maxDLJobs;
      } else {
        ok := true;
      }
    }

    /** The second one. */
    method AddJob(id: JobId, modelID: string, identity: Identity)
      modifies this
      ensures Now() == Insert(old(Now()), id, NewJob(modelID, identity))
      ensures id in jobs && jobs[id].modelID == modelID && jobs[id].identity == identity
      ensures !jobs[id].done && jobs[id].error == NoError && jobs[id].written == 0
      ensures OnlyJob(old(jobs), id) && entries == old(entries)
    {
      jobs := jobs[id := Job(modelID, identity, "", 0, 0, false, NoError)];
    }

    method CancelDownload(id: JobId) returns (known: bool)
      modifies this
      ensures known == (id in old(jobs)) && Now() == Cancel(old(Now()), id)
      ensures known ==> id in jobs && jobs[id].done
      ensures known ==> jobs[id].error == (if old(jobs)[id].done then old(jobs)[id].error else Canceled)
      ensures OnlyJob(old(jobs), id) && entries == old(entries)
    {
      if id !in jobs {
        return false;
      }
      var job := jobs[id];
      if !job.done {
        jobs := jobs[id := job.(done := true, error := Canceled)];
      }
      return true;
    }

    method IsDownloadCancelled(id: JobId) returns (b: bool)
      ensures b == IsCancelled(Now(), id)
    {
      if id !in jobs {
        return false;
      }
      return jobs[id].done && jobs[id].error == Canceled;
    }

    method JobStatus(id: JobId) returns (r: Option<Job>)
      ensures r == if id in jobs then Some(jobs[id]) else None
    {
      if id !in jobs {
        return None;
      }
      return Some(jobs[id]);
    }

    /** A failure in the metadata phase. */
    method FailJob(id: JobId, err: JobError)
      requires id in jobs
      modifies this
      ensures Now() == Fail(old(Now()), id, err)
      ensures id in jobs && jobs[id].done && jobs[id].error == err
      ensures OnlyJob(old(jobs), id) && entries == old(entries)
    {
      jobs := jobs[id := jobs[id].(done := true, error := err)];
    }

    /** A failure in the transfer phase. */
    method FailTransfer(id: JobId, err: JobError)
      requires id in jobs
      modifies this
      ensures Now() == FailUnlessDone(old(Now()), id, err)
      ensures id in jobs && jobs[id].done
      ensures jobs[id].error == if old(jobs)[id].done then old(jobs)[id].error else err
      ensures OnlyJob(old(jobs), id) && entries == old(entries)
    {
      if !jobs[id].done {
        jobs := jobs[id := jobs[id].(done := true, error := err)];
      }
    }

    method StoreMetadata(id: JobId, total: nat, name: string)
      requires id in jobs
      modifies this
      ensures Now() == RecordMetadata(old(Now()), id, total, name)
      ensures id in jobs && jobs[id].total == total && jobs[id].filename == name
      ensures jobs[id].written == old(jobs)[id].written && jobs[id].done == old(jobs)[id].done
      ensures jobs[id].error == old(jobs)[id].error && OnlyJob(old(jobs), id) && entries == old(entries)
    {
      jobs := jobs[id := jobs[id].(total := total, filename := name)];
    }

    method TransferTick(id: JobId, total: nat, missing: nat) returns (stop: bool)
      requires id in jobs && missing <= total
      modifies this
      ensures Now() == Tick(old(Now()), id, total, missing)
      ensures id in jobs && stop == jobs[id].done && OnlyJob(old(jobs), id)
      // A job that is done is left alone; otherwise what is written and what is missing make the total.
      ensures old(jobs)[id].done ==> jobs == old(jobs) && entries == old(entries)
      ensures !old(jobs)[id].done ==> jobs[id].written + missing == total && (stop <==> missing == 0)
      ensures !old(jobs)[id].done ==> jobs[id].error == old(jobs)[id].error && jobs[id].total == old(jobs)[id].total
      ensures !old(jobs)[id].done && missing > 0 ==> entries == old(entries)
      ensures !old(jobs)[id].done && missing == 0 ==>
        entries == old(entries)[jobs[id].modelID := Entry(jobs[id].modelID, jobs[id].identity)]
    {
      var job := jobs[id];
      if job.done {
        return true;
      }
      job := job.(written := total - missing);
      if missing == 0 {
        job := job.(done := true);
        entries := entries[job.modelID := Entry(job.modelID, job.identity)];
      }
      jobs := jobs[id := job];
      return missing == 0;
    }
  }
}

/** The run-once database Job: what one reconcile decides, and the status it leaves. */
module DatabaseJob {
  import opened Wrappers

  datatype Condition = Condition(holds: bool, reason: string, message: string)

  /** status.completionTime, status.lastCompletedHash and the conditions by type. */
  datatype Status = Status(completionTime: Option<nat>, lastCompletedHash: string, conditions: map<string, Condition>)

  datatype JobState = Running | Completed(time: nat) | Failed(message: string)

  /** The Job with its two annotations; `deleting` is a set deletion timestamp. */
  datatype Job = Job(hash: string, connHash: string, state: JobState, deleting: bool)

  /** Two statuses that remember the same completed run, whatever their conditions say. */
  predicate SameMemory(a: Status, b: Status) {
    a.completionTime == b.completionTime && a.lastCompletedHash == b.lastCompletedHash
  }

  function With(st: Status, kind: string, holds: bool, reason: string, message: string): (r: Status)
    ensures SameMemory(r, st)
  {
    st.(conditions := st.conditions[kind := Condition(holds, reason, message)])
  }

  /** clearPriorOutcome: the completion time goes, lastCompletedHash stays. */
  function Cleared(st: Status): Status {
    st.(completionTime := None, conditions := st.conditions - {"Complete", "Failed"})
  }

  /** applyJobStatus. */
  function Reflected(st: Status, job: Job): (r: Status)
    ensures job.state.Completed? ==> r.completionTime == Some(job.state.time) && r.lastCompletedHash == job.hash
    ensures !job.state.Completed? ==> SameMemory(r, st)
  {
    match job.state
    case Completed(time) =>
      var done := "database schema initialized successfully";
      With(With(With(With(st.(completionTime := Some(time), lastCompletedHash := job.hash),
        "Complete", true, "JobComplete", done), "Ready", true, "JobComplete", done),
        "Progressing", false, "JobComplete", "Job complete"), "Failed", false, "JobComplete", "Job complete")
    case Failed(message) =>
      With(With(With(st, "Failed", true, "JobFailed", message), "Ready", false, "JobFailed", message),
        "Progressing", false, "JobFailed", "Job failed")
    case Running =>
      With(With(st, "Progressing", true, "JobRunning", "database-init Job is running"),
        "Ready", false, "JobRunning", "database-init Job has not completed")
  }

  /** surfacePodStartFailure: a stuck pod's cause on top of the running status. */
  function Surfaced(st: Status, cause: string): (r: Status)
    ensures SameMemory(r, st)
  {
    if cause == "" then st
    else With(With(st, "Ready", false, "JobPodNotStarting", cause), "Progressing", true, "JobPodNotStarting", cause)
  }

  function Recreating(st: Status, why: string): (r: Status)
    ensures r.completionTime.None? && r.lastCompletedHash == st.lastCompletedHash
  {
    With(With(Cleared(st), "Progressing", true, "JobCreated", why), "Ready", false, "JobCreated", why)
  }

  function Created(st: Status): (r: Status)
    ensures r.completionTime.None? && r.lastCompletedHash == st.lastCompletedHash
  {
    With(With(Cleared(st), "Progressing", true, "JobCreated", "database-init Job created"),
      "Ready", false, "JobRunning", "database-init Job created and not yet complete")
  }

  function Refused(st: Status, why: string): (r: Status)
    ensures r.completionTime.None? && r.lastCompletedHash == st.lastCompletedHash
  {
    With(With(Cleared(st), "Progressing", true, "JobPodNotStarting", why), "Ready", false, "JobPodNotStarting", why)
  }

  /** What a reconcile does once it has read the Job. */
  datatype Decision =
    | Persist(st: Status)
    | Delete(st: Status, recovery: bool)
    | Create

  function Decide(st: Status, job: Option<Job>, hash: string, connHash: string, cause: string): Decision {
    match job
    case None =>
      if st.completionTime.Some? && st.lastCompletedHash == hash then Persist(st) else Create
    case Some(j) =>
      if j.deleting then
        Persist(With(st, "Progressing", true, "JobCreated", "waiting for the previous Job to be deleted before recreating"))
      else if j.hash != hash then Delete(Recreating(st, "image or spec changed; recreating Job"), false)
      else if j.state.Failed? && j.connHash != connHash then
        Delete(Recreating(st, "connection Secret changed; recreating Job"), true)
      else if j.state.Running? then Persist(Surfaced(Reflected(st, j), cause))
      else Persist(Reflected(st, j))
  }

  /** What each decision means for the completion memory, and when it is taken. */
  lemma DecisionMeaning(st: Status, job: Option<Job>, hash: string, connHash: string, cause: string)
    ensures match Decide(st, job, hash, connHash, cause)
      case Persist(r) =>
        && (job.None? ==> r == st && st.completionTime.Some? && st.lastCompletedHash == hash)
        && (job.Some? && !job.value.deleting ==> job.value.hash == hash)
        && (if job.Some? && !job.value.deleting && job.value.state.Completed?
            then r.completionTime == Some(job.value.state.time) && r.lastCompletedHash == hash
            else SameMemory(r, st))
      case Delete(r, recovery) =>
        && r.completionTime.None? && job.Some? && !job.value.deleting
        && (recovery ==> job.value.hash == hash && job.value.state.Failed? && job.value.connHash != connHash)
        && (!recovery ==> job.value.hash != hash)
      case Create => job.None? && !(st.completionTime.Some? && st.lastCompletedHash == hash)
  {
    hide With, Cleared, Reflected, Surfaced, Recreating;
  }

  datatype Admission = Admitted | Denied(message: string) | Inconclusive

  /** The database object in memory, and the Job behind the API server. */
  class Database {
    var status: Status
    var persisted: Status
    var job: Option<Job>
    ghost var creations: seq<string>

    constructor (st: Status, j: Option<Job>)
      ensures status == st && persisted == st && job == j && creations == []
    {
      status, persisted, job, creations := st, st, j, [];
    }

    method ClearPriorOutcome()
      modifies this`status
      ensures status == Cleared(old(status))
    {
      status := status.(completionTime := None);
      status := status.(conditions := status.conditions - {"Complete", "Failed"});
    }

    method SetCondition(kind: string, holds: bool, reason: string, message: string)
      modifies this`status
      ensures status == With(old(status), kind, holds, reason, message)
    {
      status := status.(conditions := status.conditions[kind := Condition(holds, reason, message)]);
    }

    method ApplyJobStatus(j: Job) returns (running: bool)
      modifies this`status
      ensures status == Reflected(old(status), j) && running == j.state.Running?
    {
      match j.state {
        case Completed(time) =>
          status := status.(completionTime := Some(time), lastCompletedHash := j.hash);
          SetCondition("Complete", true, "JobComplete", "database schema initialized successfully");
          SetCondition("Ready", true, "JobComplete", "database schema initialized successfully");
          SetCondition("Progressing", false, "JobComplete", "Job complete");
          SetCondition("Failed", false, "JobComplete", "Job complete");
          return false;
        case Failed(message) =>
          SetCondition("Failed", true, "JobFailed", message);
          SetCondition("Ready", false, "JobFailed", message);
          SetCondition("Progressing", false, "JobFailed", "Job failed");
          return false;
        case Running =>
          SetCondition("Progressing", true, "JobRunning", "database-init Job is running");
          SetCondition("Ready", false, "JobRunning", "database-init Job has not completed");
          return true;
      }
    }

    /** updateStatus: a conflict is swallowed, and the write is lost. */
    method UpdateStatus(conflict: bool)
      modifies this`persisted
      ensures persisted == if conflict then old(persisted) else status
    {
      if !conflict {
        persisted := status;
      }
    }

    method CreateJob(hash: string, connHash: string, admission: Admission, conflict: bool)
      requires job.None?
      modifies this
      ensures admission.Admitted? ==>
        job == Some(Job(hash, connHash, Running, false)) && status == Created(old(status)) && creations == old(creations) + [hash]
      ensures admission.Denied? ==> job.None? && status == Refused(old(status), admission.message) && creations == old(creations)
      ensures admission.Inconclusive? ==> job.None? && status == old(status) && creations == old(creations)
      ensures persisted == if admission.Inconclusive? || conflict then old(persisted) else status
    {
      match admission {
        case Inconclusive =>
          return;
        case Denied(message) =>
          ClearPriorOutcome();
          SetCondition("Progressing", true, "JobPodNotStarting", message);
          SetCondition("Ready", false, "JobPodNotStarting", message);
          UpdateStatus(conflict);
        case Admitted =>
          job := Some(Job(hash, connHash, Running, false));
          creations := creations + [hash];
          ClearPriorOutcome();
          SetCondition("Progressing", true, "JobCreated", "database-init Job created");
          SetCondition("Ready", false, "JobRunning", "database-init Job created and not yet complete");
          UpdateStatus(conflict);
      }
    }

    /** Reconcile, from the point where cluster, sources and hashes have been resolved. It follows the
        decision, and keeps the persisted status when the write conflicts. */
    method Reconcile(hash: string, connHash: string, cause: string, admission: Admission, conflict: bool)
      requires status == persisted
      modifies this
      ensures match Decide(old(status), old(job), hash, connHash, cause)
        case Persist(st) => status == st && job == old(job) && creations == old(creations)
        case Delete(st, _) => status == st && job.None? && creations == old(creations)
        case Create =>
          && (admission.Admitted? ==> job == Some(Job(hash, connHash, Running, false)) && status == Created(old(status)))
          && (admission.Denied? ==> job.None? && status == Refused(old(status), admission.message))
          && (admission.Inconclusive? ==> job.None? && status == old(status))
          && creations == if admission.Admitted? then old(creations) + [hash] else old(creations)
      ensures persisted == if conflict then old(persisted) else status
    {
      if job.None? {
        if status.completionTime.Some? && status.lastCompletedHash == hash {
          UpdateStatus(conflict);
          return;
        }
        CreateJob(hash, connHash, admission, conflict);
        return;
      }
      var j := job.value;
      if j.deleting {
        SetCondition("Progressing", true, "JobCreated", "waiting for the previous Job to be deleted before recreating");
        UpdateStatus(conflict);
        return;
      }
      if j.hash != hash {
        job := None;
        ClearPriorOutcome();
        SetCondition("Progressing", true, "JobCreated", "image or spec changed; recreating Job");
        SetCondition("Ready", false, "JobCreated", "image or spec changed; recreating Job");
        UpdateStatus(conflict);
        return;
      }
      if j.state.Failed? && j.connHash != connHash {
        job := None;
        ClearPriorOutcome();
        SetCondition("Progressing", true, "JobCreated", "connection Secret changed; recreating Job");
        SetCondition("Ready", false, "JobCreated", "connection Secret changed; recreating Job");
        UpdateStatus(conflict);
        return;
      }
      var running := ApplyJobStatus(j);
      if running && cause != "" {
        SetCondition("Ready", false, "JobPodNotStarting", cause);
        SetCondition("Progressing", true, "JobPodNotStarting", cause);
      }
      UpdateStatus(conflict);
    }
  }
}

/** What one undisturbed reconcile of the database does, from every state in which it begins: by the Job it finds and
    the hashes it computes, not by the decision it takes. */
module DatabaseOutcomes {
  import opened Wrappers
  import opened DatabaseJob
  import opened DatabaseProtocol
  import Runs

  /** A reconcile with nothing in between, its status write landing. Of the calls only those it decides on are enabled. */
  function Undisturbed(cause: string, admission: Admission): seq<Event> {
    [Begin(true), ReadJob(cause), CallDelete(false), CallCreate(admission), WriteStatus(false)]
  }

  function Reconciled(s: System, cause: string, admission: Admission): System {
    Execute(s, Undisturbed(cause, admission))
  }

  /** The condition of this type, with status and reason. */
  predicate Shows(st: Status, kind: string, holds: bool, reason: string) {
    kind in st.conditions && st.conditions[kind].holds == holds && st.conditions[kind].reason == reason
  }

  predicate Says(st: Status, kind: string, message: string) {
    kind in st.conditions && st.conditions[kind].message == message
  }

  /** No outcome of an earlier Job is left, and lastCompletedHash is. */
  predicate OutcomeCleared(before: Status, after: Status) {
    && after.completionTime.None? && after.lastCompletedHash == before.lastCompletedHash
    && "Complete" !in after.conditions && "Failed" !in after.conditions
  }

  /** Conditions of other types are never touched. */
  ghost predicate OthersKept(before: Status, after: Status) {
    forall kind :: kind !in {"Ready", "Progressing", "Complete", "Failed"} ==>
      (kind in before.conditions <==> kind in after.conditions)
      && (kind in before.conditions ==> before.conditions[kind] == after.conditions[kind])
  }

  lemma Unrolled(s: System, cause: string, admission: Admission)
    ensures Reconciled(s, cause, admission) ==
      Apply(Apply(Apply(Apply(Apply(s, Begin(true)), ReadJob(cause)), CallDelete(false)), CallCreate(admission)), WriteStatus(false))
  {
    hide Apply;
    var es, t := Start(s);
    es, t := Then(s, es, t, Begin(true));
    es, t := Then(s, es, t, ReadJob(cause));
    es, t := Then(s, es, t, CallDelete(false));
    es, t := Then(s, es, t, CallCreate(admission));
    es, t := Then(s, es, t, WriteStatus(false));
    assert es == Undisturbed(cause, admission);
  }

  /** The same, call by call. */
  lemma ByDecision(s: System, cause: string, admission: Admission)
    requires s.phase.Idle?
    ensures Reconciled(s, cause, admission) == match Decide(s.status, s.job, s.hash, s.connHash, cause)
      case Persist(st) => s.(status := st)
      case Delete(st, recovery) => s.(job := None, status := st, recoveries := s.recoveries + if recovery then 1 else 0)
      case Create =>
        if admission.Inconclusive? then s
        else if admission.Denied? then s.(status := Refused(s.status, admission.message))
        else if s.job.Some? then s
        else s.(job := Some(Job(s.hash, s.connHash, Running, false)), creations := s.creations + [s.hash], status := Created(s.status))
  {
    hide Decide, Refused, Created;
    Unrolled(s, cause, admission);
  }

  lemma WithKeeps(before: Status, st: Status, kind: string, holds: bool, reason: string, message: string)
    requires OthersKept(before, st) && kind in {"Ready", "Progressing", "Complete", "Failed"}
    ensures OthersKept(before, With(st, kind, holds, reason, message))
  {}

  lemma PairKeeps(before: Status, st: Status, reason: string, message: string, reason': string, message': string)
    requires OthersKept(before, st)
    ensures OthersKept(before, With(With(st, "Progressing", true, reason, message), "Ready", false, reason', message'))
    ensures OthersKept(before, With(With(st, "Ready", false, reason, message), "Progressing", true, reason', message'))
  {
    hide With, OthersKept;
    WithKeeps(before, st, "Progressing", true, reason, message);
    WithKeeps(before, With(st, "Progressing", true, reason, message), "Ready", false, reason', message');
    WithKeeps(before, st, "Ready", false, reason, message);
    WithKeeps(before, With(st, "Ready", false, reason, message), "Progressing", true, reason', message');
  }

  lemma ReflectedKeeps(st: Status, j: Job)
    ensures OthersKept(st, Reflected(st, j))
  {}

  lemma StatusesKeep(st: Status, why: string, cause: string, j: Job)
    ensures OthersKept(st, Recreating(st, why)) && OthersKept(st, Refused(st, why)) && OthersKept(st, Created(st))
    ensures OthersKept(st, Reflected(st, j)) && OthersKept(st, Surfaced(Reflected(st, j), cause))
  {
    assert OthersKept(st, Cleared(st));
    ReflectedKeeps(st, j);
    hide With, OthersKept, Cleared, Reflected;
    PairKeeps(st, Cleared(st), "JobCreated", why, "JobCreated", why);
    PairKeeps(st, Cleared(st), "JobPodNotStarting", why, "JobPodNotStarting", why);
    PairKeeps(st, Cleared(st), "JobCreated", "database-init Job created", "JobRunning", "database-init Job created and not yet complete");
    PairKeeps(st, Reflected(st, j), "JobPodNotStarting", cause, "JobPodNotStarting", cause);
  }

  lemma DecisionKeeps(st: Status, job: Option<Job>, hash: string, connHash: string, cause: string)
    ensures match Decide(st, job, hash, connHash, cause)
      case Persist(next) => OthersKept(st, next)
      case Delete(next, recovery) => OthersKept(st, next)
      case Create => true
  {
    var j := if job.Some? then job.value else Job("", "", Running, false);
    assert OthersKept(st, st);
    WithKeeps(st, st, "Progressing", true, "JobCreated", "waiting for the previous Job to be deleted before recreating");
    StatusesKeep(st, "image or spec changed; recreating Job", cause, j);
    StatusesKeep(st, "connection Secret changed; recreating Job", cause, j);
    hide With, OthersKept, Recreating, Refused, Created, Reflected, Surfaced;
  }

  /** Every reconcile leaves the hashes and the Secrets alone, touches no condition of another type, and is over. */
  lemma EveryReconcile(s: System, cause: string, admission: Admission)
    requires s.phase.Idle?
    ensures var t := Reconciled(s, cause, admission);
      && t.phase.Idle? && t.hash == s.hash && t.connHash == s.connHash && t.secretChanges == s.secretChanges
      && OthersKept(s.status, t.status)
  {
    ByDecision(s, cause, admission);
    DecisionKeeps(s.status, s.job, s.hash, s.connHash, cause);
    StatusesKeep(s.status, if admission.Denied? then admission.message else "", cause, Job("", "", Running, false));
    assert OthersKept(s.status, s.status);
    hide Decide, OthersKept, Refused, Created, Reconciled;
  }

  /** No Job, and this hash is remembered as completed: nothing happens. */
  lemma RememberedIsLeftAlone(s: System, cause: string, admission: Admission)
    requires s.phase.Idle? && s.job.None? && s.status.completionTime.Some? && s.status.lastCompletedHash == s.hash
    ensures Reconciled(s, cause, admission) == s
  {
    hide Reconciled;
    ByDecision(s, cause, admission);
  }

  /** No Job, and the hash is not remembered: a Job of the present hashes is created unless admission denies its pod;
      then the cause is shown and no Job exists. An inconclusive answer changes nothing. */
  lemma MissingJobIsCreated(s: System, cause: string, admission: Admission)
    requires s.phase.Idle? && s.job.None? && !(s.status.completionTime.Some? && s.status.lastCompletedHash == s.hash)
    ensures var t := Reconciled(s, cause, admission);
      && t.recoveries == s.recoveries
      && (admission.Admitted? ==>
            && t.job == Some(Job(s.hash, s.connHash, Running, false)) && t.creations == s.creations + [s.hash]
            && OutcomeCleared(s.status, t.status)
            && Shows(t.status, "Progressing", true, "JobCreated") && Says(t.status, "Progressing", "database-init Job created")
            && Shows(t.status, "Ready", false, "JobRunning")
            && Says(t.status, "Ready", "database-init Job created and not yet complete"))
      && (admission.Denied? ==>
            && t.job.None? && t.creations == s.creations && OutcomeCleared(s.status, t.status)
            && Shows(t.status, "Progressing", true, "JobPodNotStarting") && Says(t.status, "Progressing", admission.message)
            && Shows(t.status, "Ready", false, "JobPodNotStarting") && Says(t.status, "Ready", admission.message))
      && (admission.Inconclusive? ==> t == s)
  {
    hide Reconciled;
    ByDecision(s, cause, admission);
  }

  /** A Job that is being deleted is waited for. */
  lemma LingeringJobIsAwaited(s: System, cause: string, admission: Admission)
    requires s.phase.Idle? && s.job.Some? && s.job.value.deleting
    ensures var t := Reconciled(s, cause, admission);
      && t == s.(status := t.status) && SameMemory(t.status, s.status) && Shows(t.status, "Progressing", true, "JobCreated")
      && Says(t.status, "Progressing", "waiting for the previous Job to be deleted before recreating")
      && forall kind :: kind != "Progressing" ==>
           (kind in t.status.conditions <==> kind in s.status.conditions)
           && (kind in s.status.conditions ==> t.status.conditions[kind] == s.status.conditions[kind])
  {
    hide Recreating, Refused, Created, Reflected, Surfaced, Reconciled;
    ByDecision(s, cause, admission);
  }

  /** A live Job of another hash goes, whatever became of it, and no recovery is counted. */
  lemma OutdatedJobGoes(s: System, cause: string, admission: Admission)
    requires s.phase.Idle? && s.job.Some? && !s.job.value.deleting && s.job.value.hash != s.hash
    ensures var t := Reconciled(s, cause, admission);
      && t == s.(job := None, status := t.status) && OutcomeCleared(s.status, t.status)
      && Shows(t.status, "Progressing", true, "JobCreated") && Shows(t.status, "Ready", false, "JobCreated")
      && Says(t.status, "Progressing", "image or spec changed; recreating Job")
      && Says(t.status, "Ready", "image or spec changed; recreating Job")
  {
    hide Reconciled;
    ByDecision(s, cause, admission);
  }

  /** Secret-change recovery: a live, failed Job of the computed hash that was stamped with other Secret content is
      deleted and its outcome forgotten, one recovery is counted, and the next reconcile creates a Job of the same hash
      stamped with the present content. */
  lemma FailedJobIsRecovered(s: System, cause: string, admission: Admission, later: string)
    requires s.phase.Idle? && s.job.Some? && !s.job.value.deleting && s.job.value.state.Failed?
    requires s.job.value.hash == s.hash && s.job.value.connHash != s.connHash
    ensures var t := Reconciled(s, cause, admission);
      var u := Reconciled(t, later, Admitted);
      && t == s.(job := None, status := t.status, recoveries := s.recoveries + 1)
      && OutcomeCleared(s.status, t.status)
      && Shows(t.status, "Progressing", true, "JobCreated") && Shows(t.status, "Ready", false, "JobCreated")
      && Says(t.status, "Progressing", "connection Secret changed; recreating Job")
      && Says(t.status, "Ready", "connection Secret changed; recreating Job")
      && u.job == Some(Job(s.hash, s.connHash, Running, false)) && u.creations == s.creations + [s.hash]
      && u.recoveries == s.recoveries + 1
  {
    hide With, Recreating, Created, Refused, Reflected, Reconciled;
    ByDecision(s, cause, admission);
    RecoveryClears(s.status);
    MissingJobIsCreated(Reconciled(s, cause, admission), later, Admitted);
  }

  lemma RecoveryClears(st: Status)
    ensures var r := Recreating(st, "connection Secret changed; recreating Job");
      && OutcomeCleared(st, r) && Shows(r, "Progressing", true, "JobCreated") && Shows(r, "Ready", false, "JobCreated")
      && Says(r, "Progressing", "connection Secret changed; recreating Job")
      && Says(r, "Ready", "connection Secret changed; recreating Job")
  {}

  /** A failed Job of the computed hash and the present Secrets stays, for any number of reconciles, and is reported. */
  lemma FailedJobStays(s: System, cause: string, admission: Admission)
    requires s.phase.Idle? && s.job.Some? && !s.job.value.deleting && s.job.value.state.Failed?
    requires s.job.value.hash == s.hash && s.job.value.connHash == s.connHash
    ensures var t := Reconciled(s, cause, admission);
      var message := s.job.value.state.message;
      && t == s.(status := t.status) && SameMemory(t.status, s.status)
      && Shows(t.status, "Failed", true, "JobFailed") && Says(t.status, "Failed", message)
      && Shows(t.status, "Ready", false, "JobFailed") && Says(t.status, "Ready", message)
      && Shows(t.status, "Progressing", false, "JobFailed") && Says(t.status, "Progressing", "Job failed")
  {
    hide Reconciled;
    ByDecision(s, cause, admission);
  }

  /** A running Job of the computed hash stays, whatever the Secrets hold now, and a stuck pod's cause is shown. */
  lemma RunningJobIsReported(s: System, cause: string, admission: Admission)
    requires s.phase.Idle? && s.job.Some? && !s.job.value.deleting && s.job.value.state.Running?
    requires s.job.value.hash == s.hash
    ensures var t := Reconciled(s, cause, admission);
      var reason := if cause == "" then "JobRunning" else "JobPodNotStarting";
      && t == s.(status := t.status) && SameMemory(t.status, s.status)
      && Shows(t.status, "Progressing", true, reason) && Shows(t.status, "Ready", false, reason)
      && Says(t.status, "Progressing", if cause == "" then "database-init Job is running" else cause)
      && Says(t.status, "Ready", if cause == "" then "database-init Job has not completed" else cause)
  {
    hide Reconciled;
    ByDecision(s, cause, admission);
  }

  /** A complete Job of the computed hash stays, whatever the Secrets hold now, and is remembered and reported. */
  lemma CompletionIsReported(s: System, cause: string, admission: Admission)
    requires s.phase.Idle? && s.job.Some? && !s.job.value.deleting && s.job.value.state.Completed?
    requires s.job.value.hash == s.hash
    ensures var t := Reconciled(s, cause, admission);
      && t == s.(status := t.status)
      && t.status.completionTime == Some(s.job.value.state.time) && t.status.lastCompletedHash == s.hash
      && Shows(t.status, "Complete", true, "JobComplete") && Shows(t.status, "Ready", true, "JobComplete")
      && Says(t.status, "Complete", "database schema initialized successfully")
      && Says(t.status, "Ready", "database schema initialized successfully")
      && Shows(t.status, "Progressing", false, "JobComplete") && Says(t.status, "Progressing", "Job complete")
      && Shows(t.status, "Failed", false, "JobComplete") && Says(t.status, "Failed", "Job complete")
  {
    hide Reconciled;
    ByDecision(s, cause, admission);
  }

  /** A reconcile that cannot resolve what its database refers to says so, and touches nothing else. */
  lemma UnresolvedIsReported(s: System)
    requires s.phase.Idle?
    ensures var t := Execute(s, [Begin(false), WriteStatus(false)]);
      && t == s.(status := t.status) && SameMemory(t.status, s.status)
      && "Ready" in t.status.conditions && !t.status.conditions["Ready"].holds
      && forall kind :: kind != "Ready" ==>
           (kind in t.status.conditions <==> kind in s.status.conditions)
           && (kind in s.status.conditions ==> t.status.conditions[kind] == s.status.conditions[kind])
  {
    Chained(s, [Begin(false)], [WriteStatus(false)]);
    Single(s, Begin(false));
    Single(Apply(s, Begin(false)), WriteStatus(false));
    assert [Begin(false)] + [WriteStatus(false)] == [Begin(false), WriteStatus(false)];
    hide Execute;
  }

  // ---------- The recovery budget can be used up ----------

  lemma Chained(s: System, events: seq<Event>, more: seq<Event>)
    ensures Execute(s, events + more) == Execute(Execute(s, events), more)
  {
    hide Apply;
    Runs.Continued(Apply, s, events, more);
  }

  lemma Single(s: System, e: Event)
    ensures Execute(s, [e]) == Apply(s, e)
  {
    hide Apply;
    Runs.OneMore(Apply, s, [], e);
    assert [] + [e] == [e];
  }

  /** At rest beside a failed Job made for the present hash and the present Secrets. */
  predicate Stuck(s: System) {
    && s.phase.Idle? && s.job.Some? && !s.job.value.deleting && s.job.value.state.Failed?
    && s.job.value.hash == s.hash && s.job.value.connHash == s.connHash
  }

  const TRY: seq<Event> := Undisturbed("", Admitted) + [JobFails("")]

  /** A Job is created and fails. */
  lemma JobIsTried(s: System)
    requires s.phase.Idle? && s.job.None? && s.status.completionTime.None?
    ensures var t := Execute(s, TRY);
      Stuck(t) && t.recoveries == s.recoveries && t.secretChanges == s.secretChanges
  {
    var u := Reconciled(s, "", Admitted);
    MissingJobIsCreated(s, "", Admitted);
    EveryReconcile(s, "", Admitted);
    hide Execute, Undisturbed, Reconciled, Shows, Says, OutcomeCleared, OthersKept;
    TryEnds(s);
    Single(u, JobFails(""));
  }

  lemma TryEnds(s: System)
    ensures Execute(s, TRY) == Execute(Reconciled(s, "", Admitted), [JobFails("")])
  {
    hide Execute, Undisturbed;
    Chained(s, Undisturbed("", Admitted), [JobFails("")]);
  }

  /** Another edit of the Secrets buys another recovery. */
  lemma EditBuysRecovery(s: System, connHash: string) returns (events: seq<Event>)
    requires Stuck(s) && connHash != s.connHash
    ensures var t := Execute(s, events);
      Stuck(t) && t.recoveries == s.recoveries + 1 && t.secretChanges == s.secretChanges + 1
  {
    hide Execute, Undisturbed, Reconciled, Shows, Says, OthersKept;
    var edit := EditSecrets(connHash);
    var u := Apply(s, edit);
    Single(s, edit);
    FailedJobIsRecovered(u, "", Admitted, "");
    EveryReconcile(u, "", Admitted);
    var v := Reconciled(u, "", Admitted);
    RecoveredBy(u);
    JobIsTried(v);
    Chained(u, Undisturbed("", Admitted), TRY);
    Chained(s, [edit], Undisturbed("", Admitted) + TRY);
    events := [edit] + (Undisturbed("", Admitted) + TRY);
  }

  lemma RecoveredBy(s: System)
    ensures Reconciled(s, "", Admitted) == Execute(s, Undisturbed("", Admitted))
  {}

  /** The bound on recoveries is met: from every initial state and for every n a run edits the Secrets n times and recovers
      n times. */
  lemma {:induction false} BudgetIsUsedUp(s: System, n: nat) returns (events: seq<Event>)
    requires Initial(s)
    ensures var t := Execute(s, events); Stuck(t) && t.recoveries == n && t.secretChanges == n
  {
    hide Execute, Stuck;
    if n == 0 {
      JobIsTried(s);
      events := TRY;
    } else {
      var before := BudgetIsUsedUp(s, n - 1);
      var t := Execute(s, before);
      var more := EditBuysRecovery(t, t.connHash + "'");
      Chained(s, before, more);
      events := before + more;
    }
  }
}

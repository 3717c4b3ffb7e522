/** The database reconciler in a world that edits specs and Secrets, finishes and collects Jobs, loses
    status writes and crashes it between any two API calls. */
module DatabaseProtocol {
  import opened Wrappers
  import opened DatabaseJob
  import Runs

  /** A reconcile in flight, with the hashes it computed when it began. */
  datatype Phase =
    | Idle
    | GotDatabase(hash: string, connHash: string, st: Status)
    | WillDelete(st: Status, recovery: bool)
    | WillCreate(hash: string, connHash: string, st: Status)
    | WillPersist(st: Status)

  /** `hash` and `connHash` are what a reconcile beginning now computes. The last three fields count:
      Jobs created, secret-change recoveries, changes of the connection Secrets' content. */
  datatype System = System(
    status: Status,
    job: Option<Job>,
    hash: string,
    connHash: string,
    phase: Phase,
    creations: seq<string>,
    recoveries: nat,
    secretChanges: nat)

  datatype Event =
    | EditSpec(hash: string)
    | EditSecrets(connHash: string)
    | JobCompletes(time: nat)
    | JobFails(message: string)
    | JobDisappears
    | Begin(resolved: bool)
    | ReadJob(cause: string)
    | CallDelete(lingers: bool)
    | CallCreate(admission: Admission)
    | WriteStatus(conflict: bool)
    | Crash

  function Unresolved(st: Status): (r: Status)
    ensures SameMemory(r, st)
  {
    With(st, "Ready", false, "ClusterNotFound", "a reference does not resolve")
  }

  /** One event; an event that is not enabled changes nothing. */
  function Apply(s: System, e: Event): System {
    match e
    case EditSpec(hash) => s.(hash := hash)
    case EditSecrets(connHash) =>
      if connHash == s.connHash then s else s.(connHash := connHash, secretChanges := s.secretChanges + 1)
    case JobCompletes(time) =>
      if s.job.Some? && s.job.value.state.Running? then s.(job := Some(s.job.value.(state := Completed(time)))) else s
    case JobFails(message) =>
      if s.job.Some? && s.job.value.state.Running? then s.(job := Some(s.job.value.(state := Failed(message)))) else s
    case JobDisappears => s.(job := None)
    case Begin(resolved) =>
      if !s.phase.Idle? then s
      else if resolved then s.(phase := GotDatabase(s.hash, s.connHash, s.status))
      else s.(phase := WillPersist(Unresolved(s.status)))
    case ReadJob(cause) =>
      if !s.phase.GotDatabase? then s
      else
        var p := s.phase;
        s.(phase := match Decide(p.st, s.job, p.hash, p.connHash, cause)
          case Persist(st) => WillPersist(st)
          case Delete(st, recovery) => WillDelete(st, recovery)
          case Create => WillCreate(p.hash, p.connHash, p.st))
    case CallDelete(lingers) =>
      if !s.phase.WillDelete? then s
      else s.(
        job := if lingers && s.job.Some? then Some(s.job.value.(deleting := true)) else None,
        phase := WillPersist(s.phase.st),
        recoveries := s.recoveries + if s.phase.recovery then 1 else 0)
    case CallCreate(admission) =>
      if !s.phase.WillCreate? then s
      else
        var p := s.phase;
        (match admission
        case Inconclusive => s.(phase := Idle)
        case Denied(message) => s.(phase := WillPersist(Refused(p.st, message)))
        case Admitted =>
          if s.job.Some? then s.(phase := Idle) // already exists: the next reconcile observes it
          else s.(job := Some(Job(p.hash, p.connHash, Running, false)),
                  creations := s.creations + [p.hash],
                  phase := WillPersist(Created(p.st))))
    case WriteStatus(conflict) =>
      if !s.phase.WillPersist? then s
      else s.(status := if conflict then s.status else s.phase.st, phase := Idle)
    case Crash => s.(phase := Idle)
  }

  function Execute(s: System, events: seq<Event>): System {
    Runs.Fold(Apply, s, events)
  }

  ghost predicate Initial(s: System) {
    && s.status == Status(None, "", map[]) && s.job.None? && s.phase.Idle?
    && s.creations == [] && s.recoveries == 0 && s.secretChanges == 0
  }

  // ---------- The completion memory is truthful ----------

  /** The status claims that the run for h completed. */
  predicate Remembers(st: Status, h: string) {
    st.completionTime.Some? && st.lastCompletedHash == h
  }

  /** Every Job stamped with a remembered hash is complete. */
  predicate Truthful(st: Status, job: Option<Job>) {
    st.completionTime.Some? && job.Some? && job.value.hash == st.lastCompletedHash ==> job.value.state.Completed?
  }

  ghost predicate PhaseOk(s: System) {
    match s.phase
    case Idle => true
    case GotDatabase(hash, connHash, st) => st == s.status
    case WillDelete(st, recovery) => st.completionTime.None?
    case WillCreate(hash, connHash, st) => st == s.status && !Remembers(st, hash)
    case WillPersist(st) => Truthful(st, s.job)
  }

  /** 1 while some decision or some Job in place still rests on other Secret content than the present. */
  function Debt(s: System): nat {
    if || (s.job.Some? && !s.job.value.deleting && s.job.value.connHash != s.connHash)
       || (s.phase.WillDelete? && s.phase.recovery)
       || (s.phase.WillCreate? && s.phase.connHash != s.connHash)
       || (s.phase.GotDatabase? && s.phase.connHash != s.connHash)
       || (s.phase.GotDatabase? && s.job.Some? && !s.job.value.deleting && s.job.value.connHash != s.phase.connHash)
    then 1 else 0
  }

  ghost predicate Inv(s: System) {
    Truthful(s.status, s.job) && PhaseOk(s) && s.recoveries + Debt(s) <= s.secretChanges
  }

  lemma StepKeepsInv(s: System, e: Event)
    requires Inv(s)
    ensures Inv(Apply(s, e))
  {
    hide With, Decide, Refused, Created;
    if e.ReadJob? && s.phase.GotDatabase? {
      DecisionMeaning(s.phase.st, s.job, s.phase.hash, s.phase.connHash, e.cause);
    }
  }

  lemma ReachableInv(s: System, events: seq<Event>)
    requires Initial(s)
    ensures Inv(Execute(s, events))
  {
    hide Inv, Apply;
    assert Inv(s) by { InitialInv(s); }
    forall t, e | Inv(t) ensures Inv(Apply(t, e)) { StepKeepsInv(t, e); }
    Runs.Keeps(Apply, Inv, s, events);
  }

  lemma InitialInv(s: System)
    requires Initial(s)
    ensures Inv(s)
  {}

  /** In every run, a persisted completion of h means that any Job stamped h that exists is complete. */
  lemma MemoryIsTruthful(s: System, events: seq<Event>)
    requires Initial(s)
    ensures var t := Execute(s, events);
      t.status.completionTime.Some? && t.job.Some? && t.job.value.hash == t.status.lastCompletedHash
      ==> t.job.value.state.Completed?
  {
    ReachableInv(s, events);
  }

  /** Bounded recovery: in every run, failed Jobs are recreated for a changed Secret at most as often as
      the content of the connection Secrets changed. */
  lemma RecoveriesAreBounded(s: System, events: seq<Event>)
    requires Initial(s)
    ensures Execute(s, events).recoveries <= Execute(s, events).secretChanges
  {
    ReachableInv(s, events);
  }

  // ---------- Run once ----------

  /** No Job of another hash is in the way: none, one being deleted, or the completed one. */
  predicate Unobstructed(job: Option<Job>, h: string) {
    job.Some? ==> job.value.deleting || (job.value.hash == h && job.value.state.Completed?)
  }

  /** No reconcile in flight is about to forget the completion of h, or works for another hash. */
  predicate Harmless(ph: Phase, h: string) {
    match ph
    case Idle => true
    case GotDatabase(hash, _, _) => hash == h
    case WillPersist(st) => Remembers(st, h)
    case WillDelete(_, _) => false
    case WillCreate(_, _, _) => false
  }

  /** The computed hash is h and its completion is persisted. */
  predicate CompletedFor(s: System, h: string) {
    s.hash == h && Remembers(s.status, h)
  }

  /** The computed hash stays h. */
  predicate Stays(events: seq<Event>, h: string) {
    forall e :: e in events && e.EditSpec? ==> e.hash == h
  }

  /** From here on no Job is ever created while the computed hash stays h. */
  ghost predicate NeverAgain(s: System, h: string) {
    forall events :: Stays(events, h) ==> Execute(s, events).creations == s.creations
  }

  /** Everything that has to hold for the run of h to be over for good. */
  ghost predicate Done(s: System, h: string) {
    && CompletedFor(s, h) && Unobstructed(s.job, h) && Harmless(s.phase, h)
    && (s.phase.GotDatabase? ==> s.phase.st == s.status)
  }

  lemma StepKeepsDone(s: System, e: Event, h: string)
    requires Done(s, h) && (e.EditSpec? ==> e.hash == h)
    ensures Done(Apply(s, e), h) && Apply(s, e).creations == s.creations
  {
    hide With, Decide, Refused, Created;
    if e.ReadJob? && s.phase.GotDatabase? {
      DecisionMeaning(s.phase.st, s.job, s.phase.hash, s.phase.connHash, e.cause);
    }
  }

  /** Run-once: the Job may be kept or collected, status writes may be lost, Secrets may change, reconciles
      may crash anywhere. */
  lemma {:induction false} DoneIsForGood(s: System, events: seq<Event>, h: string)
    requires Done(s, h) && Stays(events, h)
    ensures Done(Execute(s, events), h) && Execute(s, events).creations == s.creations
    decreases |events|
  {
    hide Done, Apply;
    if events != [] {
      assert Stays(events[1..], h) by { assert events == [events[0]] + events[1..]; }
      StepKeepsDone(s, events[0], h);
      DoneIsForGood(Apply(s, events[0]), events[1..], h);
    }
  }

  /** Some continuation under h creates another Job. */
  ghost predicate RunsAgain(s: System, h: string) {
    exists events :: Stays(events, h) && Execute(s, events).creations != s.creations
  }

  lemma Start(s: System) returns (es: seq<Event>, t: System)
    ensures es == [] && t == s && t == Execute(s, es)
  {
    es, t := [], s;
  }

  /** One more event at the end of a run, and the state it leads to. */
  lemma Then(s: System, events: seq<Event>, t: System, e: Event) returns (more: seq<Event>, t': System)
    requires t == Execute(s, events)
    ensures more == events + [e] && t' == Apply(t, e) && t' == Execute(s, more)
  {
    hide Apply;
    Runs.OneMore(Apply, s, events, e);
    more, t' := events + [e], Apply(t, e);
  }

  /** A live Job of another hash: the next reconciles delete it, forget the completion and run h again. */
  lemma ObstructedRunsAgain(s: System, h: string)
    requires Inv(s) && CompletedFor(s, h) && !Unobstructed(s.job, h)
    ensures RunsAgain(s, h)
  {
    hide With, Execute, Decide, Recreating, Refused, Created;
    var es, t := Start(s);
    es, t := Then(s, es, t, Crash);
    es, t := Then(s, es, t, Begin(true));
    DecisionMeaning(s.status, s.job, h, s.connHash, "");
    es, t := Then(s, es, t, ReadJob(""));
    assert t.phase.WillDelete?;
    es, t := Then(s, es, t, CallDelete(false));
    es, t := Then(s, es, t, WriteStatus(false));
    assert t.status.completionTime.None? && t.job.None?;
    es, t := Then(s, es, t, Begin(true));
    DecisionMeaning(t.status, None, h, s.connHash, "");
    es, t := Then(s, es, t, ReadJob(""));
    es, t := Then(s, es, t, CallCreate(Admitted));
    assert t.creations == s.creations + [h];
  }

  /** A reconcile of another hash has read the database: without a Job in sight it creates one. */
  lemma OtherHashRuns(s: System, h: string)
    requires Inv(s) && CompletedFor(s, h) && s.phase.GotDatabase? && s.phase.hash != h
    ensures RunsAgain(s, h)
  {
    hide With, Execute, Decide, Refused, Created;
    var es, t := Start(s);
    es, t := Then(s, es, t, JobDisappears);
    DecisionMeaning(s.phase.st, None, s.phase.hash, s.phase.connHash, "");
    es, t := Then(s, es, t, ReadJob(""));
    assert t.phase.WillCreate?;
    es, t := Then(s, es, t, CallCreate(Admitted));
    assert t.creations == s.creations + [s.phase.hash];
  }

  /** A reconcile is about to create. */
  lemma PendingCreateRuns(s: System, h: string)
    requires CompletedFor(s, h) && s.phase.WillCreate?
    ensures RunsAgain(s, h)
  {
    hide With, Execute, Created;
    var es, t := Start(s);
    es, t := Then(s, es, t, JobDisappears);
    es, t := Then(s, es, t, CallCreate(Admitted));
    assert t.creations == s.creations + [s.phase.hash];
  }

  /** A reconcile is about to write a status that forgets. */
  lemma ForgettingWriteRuns(s: System, h: string)
    requires s.hash == h && s.phase.WillPersist? && !Remembers(s.phase.st, h)
    ensures RunsAgain(s, h)
  {
    hide With, Execute, Decide, Refused, Created;
    var es, t := Start(s);
    es, t := Then(s, es, t, WriteStatus(false));
    es, t := Then(s, es, t, JobDisappears);
    es, t := Then(s, es, t, Begin(true));
    DecisionMeaning(t.status, None, h, t.connHash, "");
    es, t := Then(s, es, t, ReadJob(""));
    assert t.phase.WillCreate?;
    es, t := Then(s, es, t, CallCreate(Admitted));
    assert t.creations == s.creations + [h];
  }

  /** A reconcile is about to delete a Job, and will write a status that forgets. */
  lemma PendingDeleteRuns(s: System, h: string)
    requires Inv(s) && CompletedFor(s, h) && s.phase.WillDelete?
    ensures RunsAgain(s, h)
  {
    hide Execute;
    var t := Apply(s, CallDelete(false));
    ForgettingWriteRuns(t, h);
    var es :| Stays(es, h) && Execute(t, es).creations != t.creations;
    assert ([CallDelete(false)] + es)[1..] == es;
    assert Execute(s, [CallDelete(false)] + es) == Execute(t, es) by { ExecuteFirst(s, CallDelete(false), es); }
    assert Stays([CallDelete(false)] + es, h);
  }

  lemma ExecuteFirst(s: System, e: Event, es: seq<Event>)
    ensures Execute(s, [e] + es) == Execute(Apply(s, e), es)
  {
    hide Apply;
    assert ([e] + es)[1..] == es;
  }

  /** Run-once, exactly: with the completion of h persisted and h computed, no Job is ever created again while
      the computed hash stays h, if and only if no live Job of another hash is in the way and no reconcile in
      flight works for another hash or is about to write a status that forgets. */
  lemma RunOnce(s: System, events: seq<Event>, h: string)
    requires Initial(s)
    requires CompletedFor(Execute(s, events), h)
    ensures var t := Execute(s, events);
      NeverAgain(t, h) <==> Unobstructed(t.job, h) && Harmless(t.phase, h)
  {
    hide Execute, Unobstructed, Harmless;
    ReachableInv(s, events);
    var t := Execute(s, events);
    if Unobstructed(t.job, h) && Harmless(t.phase, h) {
      assert Done(t, h);
      forall more | Stays(more, h) ensures Execute(t, more).creations == t.creations {
        DoneIsForGood(t, more, h);
      }
    } else {
      assert RunsAgain(t, h) by { OtherwiseRunsAgain(t, h); }
    }
  }

  lemma OtherwiseRunsAgain(s: System, h: string)
    requires Inv(s) && CompletedFor(s, h) && !(Unobstructed(s.job, h) && Harmless(s.phase, h))
    ensures RunsAgain(s, h)
  {
    hide RunsAgain, Inv;
    if !Unobstructed(s.job, h) {
      ObstructedRunsAgain(s, h);
    } else {
      match s.phase
      case GotDatabase(_, _, _) => OtherHashRuns(s, h);
      case WillDelete(_, _) => PendingDeleteRuns(s, h);
      case WillCreate(_, _, _) => PendingCreateRuns(s, h);
      case WillPersist(_) => ForgettingWriteRuns(s, h);
    }
  }

  /** Where the good state comes from: a reconcile observes the completed Job of the computed hash and its
      status write lands. The Job may have been collected in between. */
  lemma PersistedCompletionIsDone(s: System, cause: string, collected: bool, h: string)
    requires s.phase.GotDatabase? && s.phase.hash == h == s.hash && s.job.Some?
    requires s.job.value.hash == h && s.job.value.state.Completed? && !s.job.value.deleting
    ensures var t := Apply(s, ReadJob(cause));
      Done(Apply(if collected then Apply(t, JobDisappears) else t, WriteStatus(false)), h)
  {
    hide With, Decide;
    DecisionMeaning(s.phase.st, s.job, h, s.phase.connHash, cause);
  }

  // ---------- Every failing kind of state is reachable ----------

  datatype Failing = Obstructed | OtherHash | PendingDelete | PendingCreate | ForgettingWrite

  predicate Fails(s: System, h: string, kind: Failing) {
    match kind
    case Obstructed => s.phase.Idle? && !Unobstructed(s.job, h)
    case OtherHash => s.phase.GotDatabase? && s.phase.hash != h && Unobstructed(s.job, h)
    case PendingDelete => s.phase.WillDelete? && Unobstructed(s.job, h)
    case PendingCreate => s.phase.WillCreate? && Unobstructed(s.job, h)
    case ForgettingWrite => s.phase.WillPersist? && !Remembers(s.phase.st, h) && Unobstructed(s.job, h)
  }

  /** The run of h completes, and its status is persisted. */
  lemma FirstRun(s: System) returns (es: seq<Event>, t: System)
    requires Initial(s)
    ensures t == Execute(s, es) && CompletedFor(t, s.hash) && t.phase.Idle? && t.connHash == s.connHash
    ensures t.job == Some(Job(s.hash, s.connHash, Completed(0), false))
  {
    hide With, Execute, Decide, Refused, Created, Reflected;
    es, t := Start(s);
    es, t := Then(s, es, t, Begin(true));
    DecisionMeaning(s.status, None, s.hash, s.connHash, "");
    es, t := Then(s, es, t, ReadJob(""));
    assert t.phase.WillCreate?;
    es, t := Then(s, es, t, CallCreate(Admitted));
    es, t := Then(s, es, t, WriteStatus(false));
    es, t := Then(s, es, t, JobCompletes(0));
    es, t := Then(s, es, t, Begin(true));
    DecisionMeaning(t.status, t.job, s.hash, s.connHash, "");
    es, t := Then(s, es, t, ReadJob(""));
    assert t.phase.WillPersist?;
    es, t := Then(s, es, t, WriteStatus(false));
  }

  /** From every initial state and for every other hash, each failing kind is reached with the completion of h
      persisted and h computed: the spec is edited to g and back while a reconcile runs. */
  lemma FailingStatesAreReachable(s: System, g: string, kind: Failing) returns (es: seq<Event>)
    requires Initial(s) && g != s.hash
    ensures var t := Execute(s, es); CompletedFor(t, s.hash) && Fails(t, s.hash, kind)
  {
    hide With, Execute, Decide, Refused, Created, Reflected, Recreating;
    var t: System;
    es, t := FirstRun(s);
    var st, conn := t.status, s.connHash;
    DecisionMeaning(st, None, g, conn, "");
    DecisionMeaning(st, t.job, g, conn, "");
    if kind != PendingDelete && kind != ForgettingWrite {
      es, t := Then(s, es, t, JobDisappears);
    }
    es, t := Then(s, es, t, EditSpec(g));
    es, t := Then(s, es, t, Begin(true));
    assert t.phase == GotDatabase(g, conn, st);
    if kind != OtherHash {
      es, t := Then(s, es, t, ReadJob(""));
      if kind == ForgettingWrite {
        es, t := Then(s, es, t, CallDelete(false));
      } else if kind == Obstructed {
        es, t := Then(s, es, t, CallCreate(Admitted));
        es, t := Then(s, es, t, WriteStatus(true));
      }
    }
    es, t := Then(s, es, t, EditSpec(s.hash));
  }
}

/** What the translators say about pods, container by container: which statuses count as failures, how they are worded,
    and which pod and container is picked. */
module PodVerdicts {
  import opened Wrappers
  import opened Text
  import opened Sequences
  import opened PodStates
  import opened CurrentReplicaSet
  import opened PackageStatus
  import opened PodMessages
  import opened PodSignature
  import opened PodWatches

  predicate WaitsFor(c: ContainerStatus, reasons: set<string>) {
    c.state.waiting.Some? && c.state.waiting.value.reason in reasons
  }

  predicate Exits(c: ContainerStatus) {
    c.state.terminated.Some? && c.state.terminated.value.exitCode != 0
  }

  // ---------- The Degraded message ----------

  const PULLS: set<string> :=
    {"ImagePullBackOff", "ErrImagePull", "ErrImageNeverPull", "InvalidImageName", "RegistryUnavailable"}

  const STARTS: set<string> := {"CreateContainerConfigError", "CreateContainerError", "RunContainerError"}

  /** A container fails when it waits for an image, for its start or in a crash loop, or, among the init containers, when
      it has exited with a code other than zero. */
  predicate Failing(c: ContainerStatus, isInit: bool) {
    WaitsFor(c, PULLS + STARTS + {"CrashLoopBackOff"}) || (isInit && Exits(c))
  }

  lemma FailingMeaning(c: ContainerStatus, isInit: bool)
    ensures Fails(c, isInit) <==> Failing(c, isInit)
    ensures Detail(c, isInit).Some? <==> Failing(c, isInit)
  {
    assert c.state.waiting.Some? ==> (HardReason(c.state.waiting.value.reason) <==> WaitsFor(c, PULLS + STARTS + {"CrashLoopBackOff"}));
    DetailMeansFailure(c, isInit);
  }

  /** The wording of a failure: the image that cannot be pulled; the last words, or the exit code, of a crash loop; the
      kubelet's message, cut; the last words, or the reason, of an init container that exited. */
  lemma Wording(c: ContainerStatus, isInit: bool)
    requires Failing(c, isInit)
    ensures var d, last := Detail(c, isInit).value, c.last.terminated;
      if WaitsFor(c, PULLS) then
        var reason := c.state.waiting.value.reason;
        d == (if reason == "ErrImagePull" then "ImagePullBackOff" else reason) + ": cannot pull image \"" + c.image + "\""
      else if WaitsFor(c, {"CrashLoopBackOff"}) then
        d == if last.None? then "CrashLoopBackOff"
             else if Summary(last.value.message) != "" then "CrashLoopBackOff (" + Summary(last.value.message) + ")"
             else "CrashLoopBackOff (exit " + Itoa(last.value.exitCode) + ")"
      else if WaitsFor(c, STARTS) then
        var reason, message := c.state.waiting.value.reason, TrimSpace(c.state.waiting.value.message);
        d == if message == "" then reason
             else if |message| > 200 then reason + " (" + (message[..200] + "\U{2026}") + ")"
             else reason + " (" + message + ")"
      else
        var t := c.state.terminated.value;
        d == "exited " + Itoa(t.exitCode) + " (" + (if Summary(t.message) != "" then Summary(t.message) else t.reason) + ")"
  {
    FailingMeaning(c, isInit);
    hide Summary, Itoa, TrimSpace;
    if WaitsFor(c, PULLS) {
      var reason := if c.state.waiting.value.reason == "ErrImagePull" then "ImagePullBackOff" else c.state.waiting.value.reason;
      assert Detail(c, isInit).value == reason + ": cannot pull image " + Quote(c.image);
      assert reason + ": cannot pull image " + ("\"" + c.image + "\"") == reason + ": cannot pull image \"" + c.image + "\"";
    }
  }

  /** A failing container; of the package fetches only if they count. */
  predicate Faulty(c: ContainerStatus, isInit: bool, fetches: bool) {
    Failing(c, isInit) && (fetches || !("package-fetch-" <= c.name))
  }

  function Faults(isInit: bool, fetches: bool): ContainerStatus -> bool {
    (c: ContainerStatus) => Faulty(c, isInit, fetches)
  }

  function Picked(s: seq<ContainerStatus>, isInit: bool, fetches: bool): seq<Entry> {
    if fetches then Entries(s, isInit) else Others(Entries(s, isInit))
  }

  lemma PickedSnoc(s: seq<ContainerStatus>, isInit: bool, fetches: bool)
    requires s != []
    ensures var n := |s| - 1;
      Picked(s, isInit, fetches) == Picked(s[..n], isInit, fetches) +
        if Faulty(s[n], isInit, fetches) then [EntryOf(s[n], isInit)] else []
  {
    hide Failing, EntryOf, Fails;
    var n := |s| - 1;
    FailingMeaning(s[n], isInit);
    var r, e := Entries(s[..n], isInit), EntryOf(s[n], isInit);
    assert e.name == s[n].name by { NameOfEntry(s[n], isInit); }
    assert (r + [e])[..|r|] == r && r + [] == r && Others(r) + [] == Others(r);
  }

  lemma NameOfEntry(c: ContainerStatus, isInit: bool)
    ensures EntryOf(c, isInit).name == c.name
  {}

  lemma {:induction false} FirstIsPicked(s: seq<ContainerStatus>, isInit: bool, fetches: bool)
    ensures NoneOf(s, Faults(isInit, fetches)) <==> Picked(s, isInit, fetches) == []
    ensures forall i: nat :: FirstOf(s, Faults(isInit, fetches), i) ==>
      Picked(s, isInit, fetches) != [] && Picked(s, isInit, fetches)[0] == EntryOf(s[i], isInit)
  {
    if s == [] {
      assert Entries(s, isInit) == [] && Others([]) == [];
    } else {
      var n, p := |s| - 1, Faults(isInit, fetches);
      FirstIsPicked(s[..n], isInit, fetches);
      PickedSnoc(s, isInit, fetches);
      NoneSnoc(s, p);
      assert p(s[n]) <==> Faulty(s[n], isInit, fetches);
      hide Faulty, EntryOf, Picked, NoneOf, Faults;
      forall i: nat | FirstOf(s, p, i)
        ensures i < |s| && Picked(s, isInit, fetches) != [] && Picked(s, isInit, fetches)[0] == EntryOf(s[i], isInit)
      {
        FirstSnoc(s, p, i);
      }
    }
  }

  /** A pod with a failing container other than a package fetch. */
  predicate Ails(p: Pod) {
    !NoneOf(p.inits, Faults(true, false)) || !NoneOf(p.containers, Faults(false, true))
  }

  lemma BlameIff(p: Pod)
    ensures FirstBlame(p).Some? <==> Ails(p)
  {
    FirstIsPicked(p.inits, true, false);
    FirstIsPicked(p.containers, false, true);
    hide Entries, Others, EntryOf, Faults;
  }

  lemma BlamesInit(p: Pod, i: nat)
    requires FirstOf(p.inits, Faults(true, false), i)
    ensures FirstBlame(p) == Some(Blame(true, EntryOf(p.inits[i], true)))
  {
    FirstIsPicked(p.inits, true, false);
    hide Entries, Others, EntryOf, Faults;
  }

  lemma BlamesContainer(p: Pod, i: nat)
    requires NoneOf(p.inits, Faults(true, false)) && FirstOf(p.containers, Faults(false, true), i)
    ensures FirstBlame(p) == Some(Blame(false, EntryOf(p.containers[i], false)))
  {
    FirstIsPicked(p.inits, true, false);
    FirstIsPicked(p.containers, false, true);
    hide Entries, Others, EntryOf, Faults;
  }

  lemma {:induction false} FailureMeaning(pods: seq<Pod>)
    ensures PodFailure(pods).None? <==> NoneOf(pods, Ails)
    ensures forall k: nat :: FirstOf(pods, Ails, k) ==> PodFailure(pods) == FirstBlame(pods[k])
  {
    if pods != [] {
      var n := |pods| - 1;
      FailureMeaning(pods[..n]);
      BlameIff(pods[n]);
      NoneSnoc(pods, Ails);
      hide Ails, FirstBlame, NoneOf;
      forall k: nat | FirstOf(pods, Ails, k) ensures k < |pods| && PodFailure(pods) == FirstBlame(pods[k]) {
        FirstSnoc(pods, Ails, k);
        BlameIff(pods[k]);
      }
    }
  }

  /** The text about a container, as the condition shows it. */
  function Worded(kind: string, name: string, detail: string): string {
    kind + " " + ("\"" + name + "\"") + ": " + detail
  }

  /** Degraded is silent exactly when no current pod ails. */
  lemma DegradedIff(pods: seq<Pod>)
    ensures Degradation(pods).Some? <==> exists p :: p in Current(pods) && Ails(p)
  {
    FailureMeaning(Current(pods));
    hide Current, Ails, PodFailure;
  }

  lemma DegradedBy(pods: seq<Pod>, k: nat)
    requires FirstOf(Current(pods), Ails, k)
    ensures FirstBlame(Current(pods)[k]).Some? ==> Degradation(pods) == Some(Message(FirstBlame(Current(pods)[k]).value))
  {
    FailureMeaning(Current(pods));
    hide Current, Ails, PodFailure, FirstBlame, Message, FirstOf;
  }

  lemma WordsEntry(c: ContainerStatus, isInit: bool)
    requires Detail(c, isInit).Some?
    ensures Message(Blame(isInit, EntryOf(c, isInit))) ==
      Worded(if isInit then "init container" else "container", c.name, Detail(c, isInit).value)
  {
    hide Detail, Token;
    assert "init container " == "init container" + " " && "container " == "container" + " ";
  }

  /** Otherwise it is about the first current pod that does, and there about the first failing init container that is no
      package fetch. */
  lemma DegradedInit(pods: seq<Pod>, k: nat, i: nat)
    requires FirstOf(Current(pods), Ails, k) && FirstOf(Current(pods)[k].inits, Faults(true, false), i)
    ensures var c := Current(pods)[k].inits[i];
      Detail(c, true).Some? && Degradation(pods) == Some(Worded("init container", c.name, Detail(c, true).value))
  {
    var p := Current(pods)[k];
    FaultIsWorded(p.inits[i], true, false);
    BlamesInit(p, i);
    WordsEntry(p.inits[i], true);
    hide *;
    DegradedBy(pods, k);
  }

  /** Or, if no init container fails, about the first failing container. */
  lemma DegradedContainer(pods: seq<Pod>, k: nat, i: nat)
    requires FirstOf(Current(pods), Ails, k)
    requires var p := Current(pods)[k]; NoneOf(p.inits, Faults(true, false)) && FirstOf(p.containers, Faults(false, true), i)
    ensures var c := Current(pods)[k].containers[i];
      Detail(c, false).Some? && Degradation(pods) == Some(Worded("container", c.name, Detail(c, false).value))
  {
    var p := Current(pods)[k];
    FaultIsWorded(p.containers[i], false, true);
    BlamesContainer(p, i);
    WordsEntry(p.containers[i], false);
    hide *;
    DegradedBy(pods, k);
  }

  lemma FaultIsWorded(c: ContainerStatus, isInit: bool, fetches: bool)
    requires Faulty(c, isInit, fetches)
    ensures Detail(c, isInit).Some?
  {
    FailingMeaning(c, isInit);
  }

  // ---------- The pods of a Job ----------

  predicate TellsUnplaced(c: PodCondition) {
    c.kind == "PodScheduled" && c.status == "False" && c.reason == "Unschedulable"
  }

  /** A pending pod that no node can take, as its first such condition tells. */
  predicate Unplaced(p: Pod, k: nat) {
    p.phase == "Pending" && FirstOf(p.conditions, TellsUnplaced, k)
  }

  predicate Placed(p: Pod) {
    p.phase == "Pending" ==> NoneOf(p.conditions, TellsUnplaced)
  }

  lemma {:induction false} FirstTold(s: seq<PodCondition>)
    ensures FirstUnschedulable(s).None? <==> NoneOf(s, TellsUnplaced)
    ensures forall k: nat :: FirstOf(s, TellsUnplaced, k) ==> FirstUnschedulable(s) == Some(s[k].message)
  {
    if s != [] {
      FirstTold(s[1..]);
      NoneCons(s, TellsUnplaced);
      assert IsUnschedulable(s[0]) <==> TellsUnplaced(s[0]);
      forall k: nat | FirstOf(s, TellsUnplaced, k) ensures k < |s| && FirstUnschedulable(s) == Some(s[k].message) {
        FirstCons(s, TellsUnplaced, k);
      }
    }
  }

  const JOB_PULLS: set<string> := {"ImagePullBackOff", "ErrImagePull", "InvalidImageName"}

  /** What a database container says, and what a genclust container says. */
  lemma ContainerCauses(c: ContainerStatus)
    ensures DatabaseContainerCause(c) ==
      if WaitsFor(c, JOB_PULLS) then ImagePull(c.state.waiting.value.message)
      else if WaitsFor(c, {"CreateContainerConfigError"}) then ConfigError(c.state.waiting.value.message)
      else if WaitsFor(c, {"CrashLoopBackOff"}) then CrashLoop(c.last.terminated)
      else if Exits(c) then Exited(c.state.terminated.value)
      else Fine
    ensures GenclustContainerCause(c) ==
      if WaitsFor(c, JOB_PULLS) then ImagePull(c.state.waiting.value.message)
      else if WaitsFor(c, {"CreateContainerConfigError"}) then ConfigError(c.state.waiting.value.message)
      else Fine
  {}

  /** A database container with something to say. */
  predicate Speaks(c: ContainerStatus) {
    c.name == "idsvr-db-init" && DatabaseContainerCause(c) != Fine
  }

  lemma {:induction false} DatabaseContainers(s: seq<ContainerStatus>)
    ensures FirstDatabaseCause(s) == Fine <==> NoneOf(s, Speaks)
    ensures forall i: nat :: FirstOf(s, Speaks, i) ==> FirstDatabaseCause(s) == DatabaseContainerCause(s[i])
  {
    if s != [] {
      DatabaseContainers(s[1..]);
      NoneCons(s, Speaks);
      hide DatabaseContainerCause, NoneOf;
      forall i: nat | FirstOf(s, Speaks, i) ensures i < |s| && FirstDatabaseCause(s) == DatabaseContainerCause(s[i]) {
        FirstCons(s, Speaks, i);
      }
    }
  }

  /** The cause shown for the database Job: of its newest pod, by name on ties, unless that one is going; no node, or
      else its first database container with something to say. */
  lemma DatabaseCauseMeaning(pods: seq<Pod>)
    ensures pods == [] ==> TranslateDatabaseInit(pods) == Fine
    ensures pods != [] ==>
      var p := pods[MostRecent(pods, true)];
      var cause := TranslateDatabaseInit(pods);
      && (p.deleting ==> cause == Fine)
      && (!p.deleting ==>
            && (forall k: nat :: Unplaced(p, k) ==> cause == Unschedulable(p.conditions[k].message))
            && (Placed(p) ==>
                  && (cause == Fine <==> NoneOf(p.containers, Speaks))
                  && forall i: nat :: FirstOf(p.containers, Speaks, i) ==> cause == DatabaseContainerCause(p.containers[i])))
  {
    if pods != [] {
      var p := pods[MostRecent(pods, true)];
      FirstTold(p.conditions);
      DatabaseContainers(p.containers);
      hide MostRecent, DatabaseContainerCause, FirstDatabaseCause, FirstUnschedulable, TellsUnplaced;
    }
  }

  predicate IsGenclust(c: ContainerStatus) {
    c.name == "genclust"
  }

  lemma {:induction false} GenclustContainers(s: seq<ContainerStatus>)
    ensures FindContainer(s, GENCLUST_CONTAINER).None? <==> NoneOf(s, IsGenclust)
    ensures forall i: nat :: FirstOf(s, IsGenclust, i) ==> FindContainer(s, GENCLUST_CONTAINER) == Some(s[i])
  {
    if s != [] {
      GenclustContainers(s[1..]);
      NoneCons(s, IsGenclust);
      forall i: nat | FirstOf(s, IsGenclust, i) ensures i < |s| && FindContainer(s, GENCLUST_CONTAINER) == Some(s[i]) {
        FirstCons(s, IsGenclust, i);
      }
    }
  }

  /** The verdict about the genclust Job's pods: without a pod the refusal, if there is one; else the newest pod's cause,
      by the smaller name on ties, of its first genclust container. */
  lemma GenclustCauseMeaning(pods: seq<Pod>, refused: string)
    ensures pods == [] ==> TranslateJobPod(pods, refused) == if refused != "" then AdmissionFailed(refused) else Silent
    ensures pods != [] ==>
      var p := pods[MostRecent(pods, false)];
      var verdict := TranslateJobPod(pods, refused);
      && (p.deleting ==> verdict == Silent)
      && (!p.deleting ==>
            && (forall k: nat :: Unplaced(p, k) ==> verdict == Stuck(Unschedulable(p.conditions[k].message)))
            && (Placed(p) ==>
                  && (NoneOf(p.containers, IsGenclust) ==> verdict == Silent)
                  && forall i: nat :: FirstOf(p.containers, IsGenclust, i) ==>
                       var cause := GenclustContainerCause(p.containers[i]);
                       verdict == if cause == Fine then Silent else Stuck(cause)))
  {
    if pods != [] {
      var p := pods[MostRecent(pods, false)];
      FirstTold(p.conditions);
      GenclustContainers(p.containers);
      hide MostRecent, GenclustContainerCause, FindContainer, FirstUnschedulable, TellsUnplaced;
    }
  }
}

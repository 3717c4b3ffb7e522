/** What the watches and the translators read of a pod. */
module PodStates {
  import opened Wrappers

  datatype Waiting = Waiting(reason: string, message: string)

  datatype Terminated = Terminated(exitCode: int, reason: string, message: string)

  /** `running` holds the start time. */
  datatype ContainerState = ContainerState(waiting: Option<Waiting>, running: Option<nat>, terminated: Option<Terminated>)

  datatype ContainerStatus = ContainerStatus(
    name: string, image: string, state: ContainerState, last: ContainerState, restartCount: int)

  datatype OwnerRef = OwnerRef(kind: string, controller: Option<bool>, uid: string)

  datatype PodCondition = PodCondition(kind: string, status: string, reason: string, message: string)

  /** `created` counts from the zero time; `managed` says the managed-by label names the operator, and
      `packagesHash` is the packages-hash annotation ("" when missing). */
  datatype Pod = Pod(
    name: string, created: nat, deleting: bool, owners: seq<OwnerRef>, managed: bool, packagesHash: string,
    phase: string, conditions: seq<PodCondition>, inits: seq<ContainerStatus>, containers: seq<ContainerStatus>)

  // ---------- Comparing two revisions ----------

  /** The API's own rule: at most one member of a container state is set. */
  predicate WellFormedState(s: ContainerState) {
    && (s.waiting.Some? ==> s.running.None? && s.terminated.None?)
    && (s.running.Some? ==> s.terminated.None?)
  }

  predicate WellFormedStatus(c: ContainerStatus) {
    WellFormedState(c.state) && WellFormedState(c.last)
  }

  predicate EqualContainerState(a: ContainerState, b: ContainerState) {
    if a.waiting.Some? && b.waiting.Some? then a.waiting == b.waiting
    else if a.running.Some? && b.running.Some? then true
    else if a.terminated.Some? && b.terminated.Some? then a.terminated == b.terminated
    else
      && a.waiting.None? && a.running.None? && a.terminated.None?
      && b.waiting.None? && b.running.None? && b.terminated.None?
  }

  predicate EqualStatus(a: ContainerStatus, b: ContainerStatus) {
    && a.restartCount == b.restartCount
    && EqualContainerState(a.state, b.state)
    && EqualContainerState(a.last, b.last)
  }

  /** What remains of a state once the start time is forgotten. */
  function Visible(s: ContainerState): ContainerState {
    s.(running := if s.running.Some? then Some(0) else None)
  }

  /** On states the API allows, the comparison forgets the start time and nothing else. */
  lemma EqualStateMeansSameVisible(a: ContainerState, b: ContainerState)
    requires WellFormedState(a) && WellFormedState(b)
    ensures EqualContainerState(a, b) <==> Visible(a) == Visible(b)
  {
    assert a == ContainerState(a.waiting, a.running, a.terminated);
    assert b == ContainerState(b.waiting, b.running, b.terminated);
  }

  /** The rule is needed: a state with two members set hides a change of the second one. */
  lemma TwoMembersHideAnExitCode(w: Waiting, t: Terminated, u: Terminated)
    requires t != u
    ensures var a, b := ContainerState(Some(w), None, Some(t)), ContainerState(Some(w), None, Some(u));
      EqualContainerState(a, b) && Visible(a) != Visible(b)
  {
    var a, b := ContainerState(Some(w), None, Some(t)), ContainerState(Some(w), None, Some(u));
    assert Visible(a).terminated == Some(t) && Visible(b).terminated == Some(u);
  }

  // ---------- Looking a container up by name ----------

  predicate UniqueNames(s: seq<ContainerStatus>) {
    forall i, j :: 0 <= i < j < |s| ==> s[i].name != s[j].name
  }

  /** The name-keyed view of a list of statuses: a later entry replaces an earlier one of its name. */
  function IndexByName(s: seq<ContainerStatus>): (m: map<string, ContainerStatus>)
    ensures forall n :: n in m ==> m[n] in s && m[n].name == n
    ensures forall c :: c in s ==> c.name in m
  {
    if s == [] then map[] else IndexByName(s[..|s| - 1])[s[|s| - 1].name := s[|s| - 1]]
  }

  lemma IndexIsExact(s: seq<ContainerStatus>, k: nat)
    requires UniqueNames(s) && k < |s|
    ensures s[k].name in IndexByName(s) && IndexByName(s)[s[k].name] == s[k]
  {
    var m := IndexByName(s);
    assert s[k] in s;
    var i :| 0 <= i < |s| && s[i] == m[s[k].name];
  }
}

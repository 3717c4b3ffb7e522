/** The pod watches: updates they drop leave the translators' verdicts as they were. */
module PodWatches {
  import opened Wrappers
  import opened Ordering
  import opened PodStates
  import opened CurrentReplicaSet
  import opened PackageStatus
  import opened PodSignature

  // ---------- The predicates ----------

  /** packageInitContainerStatusDiffers. */
  predicate InitStatusDiffers(old_: seq<ContainerStatus>, new_: seq<ContainerStatus>) {
    var byName := IndexByName(old_);
    exists c :: c in new_ && IsFetch(c) && (c.name in byName ==> !EqualStatus(byName[c.name], c))
  }

  predicate PackageWatch(old_: Pod, new_: Pod) {
    new_.managed && (InitStatusDiffers(old_.inits, new_.inits) || Signature(old_) != Signature(new_))
  }

  const POD_SCHEDULED: string := "PodScheduled"

  function FindScheduled(s: seq<PodCondition>): Option<PodCondition> {
    if s == [] then None else if s[0].kind == POD_SCHEDULED then Some(s[0]) else FindScheduled(s[1..])
  }

  function FindContainer(s: seq<ContainerStatus>, name: string): Option<ContainerStatus> {
    if s == [] then None else if s[0].name == name then Some(s[0]) else FindContainer(s[1..], name)
  }

  predicate ContainerDiffers(old_: Pod, c: ContainerStatus) {
    var byName := IndexByName(old_.containers);
    c.name in byName ==> !EqualStatus(byName[c.name], c)
  }

  const DATABASE_CONTAINER: string := "idsvr-db-init"

  /** Decides on the first status of the container. */
  predicate DatabaseWatch(old_: Pod, new_: Pod) {
    || old_.phase != new_.phase
    || FindScheduled(old_.conditions) != FindScheduled(new_.conditions)
    || var c := FindContainer(new_.containers, DATABASE_CONTAINER);
      c.Some? && ContainerDiffers(old_, c.value)
  }

  const GENCLUST_CONTAINER: string := "genclust"

  /** Looks at every status of the container. */
  predicate GenclustWatch(old_: Pod, new_: Pod) {
    || old_.phase != new_.phase
    || FindScheduled(old_.conditions) != FindScheduled(new_.conditions)
    || exists c :: c in new_.containers && c.name == GENCLUST_CONTAINER && ContainerDiffers(old_, c)
  }

  // ---------- The translators of a Job's pods ----------

  /** What is wrong with a Job's pod; the message is a rendering of it. */
  datatype Cause =
    | Fine
    | Unschedulable(message: string)
    | ImagePull(message: string)
    | ConfigError(message: string)
    | CrashLoop(last: Option<Terminated>)
    | Exited(terminated: Terminated)

  predicate IsUnschedulable(c: PodCondition) {
    c.kind == POD_SCHEDULED && c.status == "False" && c.reason == "Unschedulable"
  }

  function FirstUnschedulable(s: seq<PodCondition>): Option<string> {
    if s == [] then None else if IsUnschedulable(s[0]) then Some(s[0].message) else FirstUnschedulable(s[1..])
  }

  predicate PullFailed(reason: string) {
    reason == "ImagePullBackOff" || reason == "ErrImagePull" || reason == "InvalidImageName"
  }

  function DatabaseContainerCause(c: ContainerStatus): Cause {
    var w, t := c.state.waiting, c.state.terminated;
    if w.Some? && PullFailed(w.value.reason) then ImagePull(w.value.message)
    else if w.Some? && w.value.reason == "CreateContainerConfigError" then ConfigError(w.value.message)
    else if w.Some? && w.value.reason == "CrashLoopBackOff" then CrashLoop(c.last.terminated)
    else if t.Some? && t.value.exitCode != 0 then Exited(t.value)
    else Fine
  }

  /** The first database container with something to say. */
  function FirstDatabaseCause(s: seq<ContainerStatus>): Cause {
    if s == [] then Fine
    else if s[0].name == DATABASE_CONTAINER && DatabaseContainerCause(s[0]) != Fine then DatabaseContainerCause(s[0])
    else FirstDatabaseCause(s[1..])
  }

  function SchedulingCause(p: Pod): Cause {
    if p.phase != "Pending" then Fine
    else
      match FirstUnschedulable(p.conditions)
      case Some(m) => Unschedulable(m)
      case None => Fine
  }

  function DatabasePodCause(p: Pod): Cause {
    if p.deleting then Fine
    else if SchedulingCause(p) != Fine then SchedulingCause(p)
    else FirstDatabaseCause(p.containers)
  }

  function GenclustContainerCause(c: ContainerStatus): Cause {
    var w := c.state.waiting;
    if w.Some? && PullFailed(w.value.reason) then ImagePull(w.value.message)
    else if w.Some? && w.value.reason == "CreateContainerConfigError" then ConfigError(w.value.message)
    else Fine
  }

  function GenclustPodCause(p: Pod): Cause {
    if p.deleting then Fine
    else if SchedulingCause(p) != Fine then SchedulingCause(p)
    else
      match FindContainer(p.containers, GENCLUST_CONTAINER)
      case Some(c) => GenclustContainerCause(c)
      case None => Fine
  }

  /** Is p preferred to w: younger, or as young with the larger (database) or smaller (genclust) name? */
  predicate Preferred(p: Pod, w: Pod, largerName: bool) {
    || p.created > w.created
    || (p.created == w.created && if largerName then Less(w.name, p.name) else Less(p.name, w.name))
  }

  /** The index the scan for the most recent pod ends on. */
  function MostRecent(pods: seq<Pod>, largerName: bool): (k: nat)
    requires pods != []
    ensures k < |pods|
  {
    if |pods| == 1 then 0
    else
      var k := MostRecent(pods[..|pods| - 1], largerName);
      if Preferred(pods[|pods| - 1], pods[k], largerName) then |pods| - 1 else k
  }

  lemma {:induction false} NoneIsPreferred(pods: seq<Pod>, largerName: bool, i: nat)
    requires i < |pods|
    ensures !Preferred(pods[i], pods[MostRecent(pods, largerName)], largerName)
  {
    var n := |pods| - 1;
    if n == 0 {
      LessTotal(pods[0].name, pods[0].name);
    } else {
      var k := MostRecent(pods[..n], largerName);
      LessTotal(pods[n].name, pods[n].name);
      if i < n {
        NoneIsPreferred(pods[..n], largerName, i);
        var a, b, c := pods[i], pods[k], pods[n];
        LessTotal(a.name, b.name);
        LessTotal(a.name, c.name);
        LessTotal(b.name, c.name);
        if Less(a.name, c.name) && Less(b.name, a.name) { LessTransitive(b.name, a.name, c.name); }
        if Less(c.name, a.name) && Less(a.name, b.name) { LessTransitive(c.name, a.name, b.name); }
      }
    }
  }

  /** No pod is newer than the one the scan ends on, and of those as new it has the largest, or the smallest, name. */
  lemma MostRecentIsBest(pods: seq<Pod>, largerName: bool, i: nat)
    requires i < |pods|
    ensures var p, best := pods[i], pods[MostRecent(pods, largerName)];
      && p.created <= best.created
      && (p.created == best.created && p.name != best.name ==> if largerName then Less(p.name, best.name) else Less(best.name, p.name))
  {
    hide MostRecent;
    NoneIsPreferred(pods, largerName, i);
    LessTotal(pods[i].name, pods[MostRecent(pods, largerName)].name);
  }

  method MostRecentPod(pods: seq<Pod>, largerName: bool) returns (winner: Option<Pod>)
    ensures winner == if pods == [] then None else Some(pods[MostRecent(pods, largerName)])
  {
    if |pods| == 0 {
      return None;
    }
    var w := pods[0];
    for i := 1 to |pods|
      invariant w == pods[MostRecent(pods[..i], largerName)]
    {
      assert pods[..i + 1][..i] == pods[..i];
      if Preferred(pods[i], w, largerName) {
        w := pods[i];
      }
    }
    assert pods[..|pods|] == pods;
    return Some(w);
  }

  function TranslateDatabaseInit(pods: seq<Pod>): Cause {
    if pods == [] then Fine else DatabasePodCause(pods[MostRecent(pods, true)])
  }

  datatype Admission = Silent | AdmissionFailed(message: string) | Stuck(cause: Cause)

  /** translateJobPodAdmission: an event about a refused pod counts only while there is no pod. */
  function TranslateJobPod(pods: seq<Pod>, refused: string): Admission {
    if pods == [] then (if refused != "" then AdmissionFailed(refused) else Silent)
    else
      var cause := GenclustPodCause(pods[MostRecent(pods, false)]);
      if cause == Fine then Silent else Stuck(cause)
  }

  // ---------- Dropped updates ----------

  /** The metadata no pod watch looks at. */
  predicate SameMetadata(a: Pod, b: Pod) {
    && a.name == b.name && a.created == b.created && a.deleting == b.deleting
    && a.owners == b.owners && a.packagesHash == b.packagesHash
  }

  /** An equal status shows the translators the same thing. */
  lemma EqualStatusSameView(c: ContainerStatus, d: ContainerStatus)
    requires WellFormedStatus(c) && WellFormedStatus(d) && c.name == d.name && EqualStatus(c, d)
    ensures Look(c) == Look(d)
    ensures DatabaseContainerCause(c) == DatabaseContainerCause(d)
    ensures GenclustContainerCause(c) == GenclustContainerCause(d)
  {
    EqualStateMeansSameVisible(c.state, d.state);
    EqualStateMeansSameVisible(c.last, d.last);
    assert c.state.waiting == Visible(c.state).waiting && d.state.waiting == Visible(d.state).waiting;
    assert c.state.terminated == Visible(c.state).terminated && d.state.terminated == Visible(d.state).terminated;
    assert c.last.terminated == Visible(c.last).terminated && d.last.terminated == Visible(d.last).terminated;
  }

  /** The fetch containers of a list. */
  function Fetches(s: seq<ContainerStatus>): (r: seq<ContainerStatus>)
    ensures forall c :: c in r <==> c in s && IsFetch(c)
    ensures UniqueNames(s) ==> UniqueNames(r)
    ensures |Looks(s)| == |r| && forall k :: 0 <= k < |r| ==> Looks(s)[k] == Look(r[k])
  {
    if s == [] then []
    else
      var c, before := s[|s| - 1], s[..|s| - 1];
      assert s == before + [c];
      assert UniqueNames(s) ==> forall d :: d in before ==> d.name != c.name;
      assert UniqueNames(s) ==> UniqueNames(before);
      Fetches(before) + (if IsFetch(c) then [c] else [])
  }

  /** Kubelet reports the fetch containers in the pod's order and never takes one back. */
  predicate NoneVanished(old_: seq<ContainerStatus>, new_: seq<ContainerStatus>) {
    var a, b := Fetches(old_), Fetches(new_);
    |a| <= |b| && forall k :: 0 <= k < |a| ==> a[k].name == b[k].name
  }

  /** A quiet fetch container was there before. */
  lemma QuietWasThere(old_: seq<ContainerStatus>, new_: seq<ContainerStatus>, d: ContainerStatus)
    returns (c: ContainerStatus)
    requires !InitStatusDiffers(old_, new_) && d in new_ && IsFetch(d)
    ensures c in Fetches(old_) && c.name == d.name && EqualStatus(c, d)
  {
    hide IsFetch, EqualStatus, Fetches;
    c := IndexByName(old_)[d.name];
    FetchIsByName(c, d);
  }

  /** And at the same place. */
  lemma QuietFetch(old_: seq<ContainerStatus>, new_: seq<ContainerStatus>, k: nat)
    requires !InitStatusDiffers(old_, new_) && NoneVanished(old_, new_)
    requires UniqueNames(new_) && k < |Fetches(new_)|
    ensures k < |Fetches(old_)| && EqualStatus(Fetches(old_)[k], Fetches(new_)[k])
    ensures Fetches(old_)[k].name == Fetches(new_)[k].name
  {
    hide IsFetch, EqualStatus, Fetches, InitStatusDiffers;
    var a, b := Fetches(old_), Fetches(new_);
    var d := b[k];
    assert d in b;
    var c := QuietWasThere(old_, new_, d);
    var j :| 0 <= j < |a| && a[j] == c;
    assert b[j].name == c.name == d.name;
  }

  lemma DroppedInitUpdate(old_: seq<ContainerStatus>, new_: seq<ContainerStatus>)
    requires !InitStatusDiffers(old_, new_) && NoneVanished(old_, new_)
    requires UniqueNames(old_) && UniqueNames(new_)
    requires forall c :: c in old_ + new_ ==> WellFormedStatus(c)
    ensures Looks(old_) == Looks(new_)
  {
    hide IsFetch, WellFormedStatus, EqualStatus, Look, Fetches, Looks, InitStatusDiffers, UniqueNames;
    var a, b := Fetches(old_), Fetches(new_);
    forall k | 0 <= k < |b| ensures k < |a| && Look(a[k]) == Look(b[k]) {
      QuietFetch(old_, new_, k);
      assert a[k] in a && b[k] in b;
      assert a[k] in old_ + new_ && b[k] in old_ + new_;
      EqualStatusSameView(a[k], b[k]);
    }
    assert |a| == |b| by {
      hide *;
      assert |a| <= |b|;
      if |a| < |b| { QuietFetch(old_, new_, |a|); }
    }
    assert forall k :: 0 <= k < |a| ==> Looks(old_)[k] == Look(a[k]);
    assert forall k :: 0 <= k < |b| ==> Looks(new_)[k] == Look(b[k]);
  }

  lemma FetchIsByName(c: ContainerStatus, d: ContainerStatus)
    requires c.name == d.name
    ensures IsFetch(c) == IsFetch(d)
  {}

  /** Two lists of pods that differ only in what `view` does not see. */
  ghost predicate Alike<T(!new)>(a: seq<Pod>, b: seq<Pod>, view: Pod -> T) {
    |a| == |b| && forall i :: 0 <= i < |a| ==> SameMetadata(a[i], b[i]) && view(a[i]) == view(b[i])
  }

  lemma {:induction false} AlikePodsOf<T(!new)>(a: seq<Pod>, b: seq<Pod>, u: string, view: Pod -> T)
    requires Alike(a, b, view)
    ensures Alike(PodsOf(a, u), PodsOf(b, u), view)
  {
    assert |a| == |b|;
    hide Alike;
    if a != [] {
      var n := |a| - 1;
      AlikePodsOf(a[..n], b[..n], u, view);
    }
  }

  lemma {:induction false} AlikeNewest<T(!new)>(a: seq<Pod>, b: seq<Pod>, view: Pod -> T)
    requires Alike(a, b, view)
    ensures Newest(a) == Newest(b)
  {
    assert |a| == |b|;
    hide Alike;
    if a != [] {
      AlikeNewest(a[..|a| - 1], b[..|b| - 1], view);
    }
  }

  lemma {:induction false} AlikeMatching<T(!new)>(a: seq<Pod>, b: seq<Pod>, hash: string, view: Pod -> T)
    requires Alike(a, b, view)
    ensures Alike(Matching(a, hash), Matching(b, hash), view)
  {
    assert |a| == |b|;
    hide Alike;
    if a != [] && hash != "" {
      var n := |a| - 1;
      AlikeMatching(a[..n], b[..n], hash, view);
    }
  }

  /** Alike lists have the same ReplicaSets and the same leader. */
  lemma AlikeLeaders<T(!new)>(a: seq<Pod>, b: seq<Pod>, view: Pod -> T)
    requires Alike(a, b, view)
    ensures Uids(a) == Uids(b) && forall w :: Leads(a, Uids(a), w) <==> Leads(b, Uids(b), w)
  {
    hide PodsOf, Newest;
    forall u ensures (PodsOf(a, u) == [] <==> PodsOf(b, u) == []) && Newest(PodsOf(a, u)) == Newest(PodsOf(b, u)) {
      AlikePodsOf(a, b, u, view);
      AlikeNewest(PodsOf(a, u), PodsOf(b, u), view);
    }
    assert Uids(a) == Uids(b);
  }

  function DetailOf(b: Option<Blame>): string {
    match b
    case Some(blame) => blame.entry.detail
    case None => ""
  }

  lemma SameOwner(p: Pod, q: Pod)
    requires p.owners == q.owners && p.deleting == q.deleting
    ensures OwnerOf(p) == OwnerOf(q)
  {}

  /** The pod whose container the Degraded overlay words. */
  ghost predicate BlamedIn(pods: seq<Pod>, w: string, i: nat)
    requires i < |pods|
  {
    && OwnerOf(pods[i]) == Some(w) && FirstBlame(pods[i]).Some?
    && forall k :: 0 <= k < i && OwnerOf(pods[k]) == Some(w) ==> FirstBlame(pods[k]).None?
  }

  ghost predicate Blamed(pods: seq<Pod>, i: nat)
    requires i < |pods|
  {
    exists w :: Leads(pods, Uids(pods), w) && BlamedIn(pods, w, i)
  }

  /** The verdict of a ReplicaSet with one more pod. */
  lemma FailureSnoc(pods: seq<Pod>, p: Pod, w: string)
    ensures PodFailure(PodsOf(pods + [p], w)) ==
      if PodFailure(PodsOf(pods, w)).Some? then PodFailure(PodsOf(pods, w))
      else if OwnerOf(p) == Some(w) then FirstBlame(p) else None
  {
    hide FirstBlame, OwnerOf;
    assert (pods + [p])[..|pods|] == pods;
    var r := PodsOf(pods, w);
    assert (r + [p])[..|r|] == r && r + [] == r;
  }

  /** Some pod of the ReplicaSet fails. */
  ghost predicate SomeFails(pods: seq<Pod>, w: string) {
    exists k :: 0 <= k < |pods| && OwnerOf(pods[k]) == Some(w) && FirstBlame(pods[k]).Some?
  }

  lemma {:induction false} SomebodyFails(pods: seq<Pod>, w: string)
    ensures PodFailure(PodsOf(pods, w)).Some? <==> SomeFails(pods, w)
  {
    hide FirstBlame, OwnerOf, PodFailure;
    if pods == [] {
      NobodyFails(w);
    } else {
      var before, last := pods[..|pods| - 1], pods[|pods| - 1];
      assert pods == before + [last];
      SomebodyFails(before, w);
      FailureSnoc(before, last, w);
      if k :| 0 <= k < |before| && OwnerOf(before[k]) == Some(w) && FirstBlame(before[k]).Some? {
        assert pods[k] == before[k];
      }
      if k :| 0 <= k < |pods| && OwnerOf(pods[k]) == Some(w) && FirstBlame(pods[k]).Some? {
        assert k < |before| ==> before[k] == pods[k];
      }
    }
  }

  lemma NobodyFails(w: string)
    ensures PodFailure(PodsOf([], w)) == None
  {}

  /** Replacing a pod by one with a blame of its own changes the verdict exactly when its blame is the one taken. */
  lemma {:induction false} ReplacedBlame(pods: seq<Pod>, i: nat, new_: Pod, w: string)
    requires i < |pods| && OwnerOf(pods[i]) == OwnerOf(new_)
    requires FirstBlame(pods[i]).Some? == FirstBlame(new_).Some?
    ensures PodFailure(PodsOf(pods[i := new_], w)) ==
      if BlamedIn(pods, w, i) then FirstBlame(new_) else PodFailure(PodsOf(pods, w))
    ensures BlamedIn(pods, w, i) ==> PodFailure(PodsOf(pods, w)) == FirstBlame(pods[i])
  {
    hide FirstBlame, OwnerOf, PodFailure, PodsOf;
    var n := |pods| - 1;
    var before, last, next := pods[..n], pods[n], pods[i := new_];
    assert pods == before + [last];
    SomebodyFails(before, w);
    FailureSnoc(before, last, w);
    if i == n {
      assert next == before + [new_];
      FailureSnoc(before, new_, w);
    } else {
      ReplacedBlame(before, i, new_, w);
      assert next == before[i := new_] + [last];
      FailureSnoc(before[i := new_], last, w);
      assert BlamedIn(before, w, i) <==> BlamedIn(pods, w, i);
    }
  }

  // ---------- One pod's share in PackagesReady ----------

  /** The verdict over two reports, one after the other. */
  function Combine(a: Verdict, b: Verdict): Verdict {
    if a.Failed? then a
    else if b.Failed? || a.Unset? then b
    else if b.Unset? then a
    else Fetched(a.count + b.count)
  }

  lemma {:induction false} ConcludeConcat(r: seq<Seen>, x: seq<Seen>)
    ensures Conclude(r + x) == Combine(Conclude(r), Conclude(x))
  {
    if x == [] {
      assert r + x == r;
    } else {
      hide Conclude, Weigh, Combine;
      var before, last := x[..|x| - 1], x[|x| - 1];
      assert x == before + [last] && r + x == r + before + [last];
      ConcludeConcat(r, before);
    }
  }

  function OwnVerdict(p: Pod): Verdict {
    Conclude(Looks(p.inits))
  }

  /** The verdict over the pods of one hash and one ReplicaSet. */
  function VerdictOf(pods: seq<Pod>, hash: string, w: string): Verdict {
    Conclude(Report(PodsOf(Matching(pods, hash), w)))
  }

  function ShareOf(p: Pod, hash: string, w: string): Verdict {
    if hash != "" && p.packagesHash == hash && OwnerOf(p) == Some(w) then OwnVerdict(p) else Unset
  }

  lemma VerdictOfNone(hash: string, w: string)
    ensures VerdictOf([], hash, w) == Unset
  {}

  lemma CountingSnoc(pods: seq<Pod>, p: Pod, hash: string, w: string)
    ensures PodsOf(Matching(pods + [p], hash), w) ==
      PodsOf(Matching(pods, hash), w) + if hash != "" && p.packagesHash == hash && OwnerOf(p) == Some(w) then [p] else []
  {
    hide OwnerOf;
    assert (pods + [p])[..|pods|] == pods;
    var m := Matching(pods, hash);
    assert (m + [p])[..|m|] == m && m + [] == m;
    if hash == "" { assert Matching(pods + [p], hash) == [] == m; }
  }

  lemma ReportSnoc(pods: seq<Pod>, p: Pod)
    ensures Report(pods + [p]) == Report(pods) + Looks(p.inits)
  {
    assert (pods + [p])[..|pods|] == pods;
  }

  lemma VerdictSnoc(pods: seq<Pod>, p: Pod, hash: string, w: string)
    ensures VerdictOf(pods + [p], hash, w) == Combine(VerdictOf(pods, hash, w), ShareOf(p, hash, w))
  {
    hide OwnerOf, Looks, Conclude, PodsOf, Matching, Report;
    CountingSnoc(pods, p, hash, w);
    var c := PodsOf(Matching(pods, hash), w);
    assert c + [] == c;
    ReportSnoc(c, p);
    ConcludeConcat(Report(c), Looks(p.inits));
  }

  lemma {:induction false} VerdictConcat(a: seq<Pod>, b: seq<Pod>, hash: string, w: string)
    ensures VerdictOf(a + b, hash, w) == Combine(VerdictOf(a, hash, w), VerdictOf(b, hash, w))
  {
    hide VerdictOf, ShareOf;
    VerdictOfNone(hash, w);
    if b == [] {
      assert a + b == a;
    } else {
      var before, last := b[..|b| - 1], b[|b| - 1];
      assert b == before + [last] && a + b == a + before + [last];
      VerdictConcat(a, before, hash, w);
      VerdictSnoc(before, last, hash, w);
      VerdictSnoc(a + before, last, hash, w);
    }
  }

  lemma VerdictAround(pods: seq<Pod>, i: nat, p: Pod, hash: string, w: string)
    requires i < |pods|
    ensures VerdictOf(pods[i := p], hash, w) ==
      Combine(Combine(VerdictOf(pods[..i], hash, w), ShareOf(p, hash, w)), VerdictOf(pods[i + 1..], hash, w))
  {
    hide VerdictOf, ShareOf;
    assert pods[i := p] == pods[..i] + [p] + pods[i + 1..];
    VerdictConcat(pods[..i] + [p], pods[i + 1..], hash, w);
    VerdictSnoc(pods[..i], p, hash, w);
  }

  /** Two shares make a difference unless what comes after fails, and fails in the same way as the one or two of them
      that do. */
  predicate Differ(x: Verdict, y: Verdict, after: Verdict) {
    x != y && !(after.Failed? && (x.Failed? ==> x == after) && (y.Failed? ==> y == after))
  }

  /** The pod counts, no counting pod before it fails, and its containers now make a difference. */
  ghost predicate Shows(pods: seq<Pod>, i: nat, new_: Pod, hash: string)
    requires i < |pods|
  {
    var m := Matching(pods, hash);
    exists w :: Leads(m, Uids(m), w) && ShowsIn(pods, i, new_, hash, w)
  }

  ghost predicate ShowsIn(pods: seq<Pod>, i: nat, new_: Pod, hash: string, w: string)
    requires i < |pods|
  {
    && hash != "" && pods[i].packagesHash == hash && OwnerOf(pods[i]) == Some(w)
    && !VerdictOf(pods[..i], hash, w).Failed?
    && Differ(OwnVerdict(pods[i]), OwnVerdict(new_), VerdictOf(pods[i + 1..], hash, w))
  }

  /** What a new revision of one pod does to PackagesReady, exactly. */
  lemma ReplacedVerdict(pods: seq<Pod>, i: nat, new_: Pod, hash: string)
    requires i < |pods| && SameMetadata(pods[i], new_)
    ensures Conclude(Evidence(pods[i := new_], hash)) != Conclude(Evidence(pods, hash)) <==> Shows(pods, i, new_, hash)
  {
    hide Current, PodsOf, Newest, Conclude, Report, Matching, ShowsIn, OwnerOf;
    var next := pods[i := new_];
    var meta := (p: Pod) => p.name;
    assert Alike(next, pods, meta);
    AlikeMatching(next, pods, hash, meta);
    var m, n := Matching(pods, hash), Matching(next, hash);
    AlikeLeaders(n, m, meta);
    if Uids(m) == {} {
      CurrentOfNone(m);
      CurrentOfNone(n);
    } else {
      var w := LeaderExists(m, Uids(m));
      CurrentIs(m, w);
      CurrentIs(n, w);
      forall x | Leads(m, Uids(m), x) ensures x == w { LeaderIsUnique(m, Uids(m), x, w); }
      ReplacedIn(pods, i, new_, hash, w);
    }
  }

  lemma CombineDiffers(a: Verdict, x: Verdict, y: Verdict, b: Verdict)
    requires (x.Fetched? ==> x.count > 0) && (y.Fetched? ==> y.count > 0)
    ensures Combine(Combine(a, y), b) != Combine(Combine(a, x), b) <==> !a.Failed? && Differ(x, y, b)
  {}

  lemma ReplacedIn(pods: seq<Pod>, i: nat, new_: Pod, hash: string, w: string)
    requires i < |pods| && SameMetadata(pods[i], new_)
    ensures VerdictOf(pods[i := new_], hash, w) != VerdictOf(pods, hash, w) <==> ShowsIn(pods, i, new_, hash, w)
  {
    hide VerdictOf, OwnerOf, Looks, Conclude, Combine, Differ;
    SameOwner(pods[i], new_);
    VerdictAround(pods, i, pods[i], hash, w);
    VerdictAround(pods, i, new_, hash, w);
    assert pods[i := pods[i]] == pods;
    CombineDiffers(VerdictOf(pods[..i], hash, w), OwnVerdict(pods[i]), OwnVerdict(new_), VerdictOf(pods[i + 1..], hash, w));
  }

  /** A pod update that the package watch drops leaves PackagesReady as it was, exactly unless the pod's own share in it
      changes and shows; no share changes while no fetch container vanishes or moves. The update leaves the Degraded
      message about the same container and reason, and leaves the message as it was exactly when the pod is not the one
      blamed or the detail is worded the same. */
  lemma DroppedPackageUpdate(pods: seq<Pod>, i: nat, new_: Pod, hash: string)
    requires i < |pods| && SameMetadata(pods[i], new_) && new_.managed
    requires WellFormedPod(pods[i]) && WellFormedPod(new_)
    requires !PackageWatch(pods[i], new_)
    ensures Conclude(Evidence(pods[i := new_], hash)) == Conclude(Evidence(pods, hash)) <==> !Shows(pods, i, new_, hash)
    ensures NoneVanished(pods[i].inits, new_.inits) ==> OwnVerdict(new_) == OwnVerdict(pods[i]) && !Shows(pods, i, new_, hash)
    ensures SameBlame(PodFailure(Current(pods[i := new_])), PodFailure(Current(pods)))
    ensures Degradation(pods[i := new_]) == Degradation(pods) <==>
      (Blamed(pods, i) ==> DetailOf(FirstBlame(new_)) == DetailOf(FirstBlame(pods[i])))
  {
    hide *;
    ReplacedVerdict(pods, i, new_, hash);
    if NoneVanished(pods[i].inits, new_.inits) {
      DroppedShare(pods[i], new_) by { DroppedDiffersNowhere(pods[i], new_); }
      SameShareShowsNowhere(pods, i, new_, hash);
    }
    SameSignatureSameBlame(pods[i], new_) by { DroppedDiffersNowhere(pods[i], new_); }
    DroppedDegradation(pods, i, new_);
  }

  lemma DroppedShare(old_: Pod, new_: Pod)
    requires WellFormedPod(old_) && WellFormedPod(new_)
    requires NoneVanished(old_.inits, new_.inits) && !InitStatusDiffers(old_.inits, new_.inits)
    ensures OwnVerdict(new_) == OwnVerdict(old_)
  {
    hide Looks, InitStatusDiffers, NoneVanished, UniqueNames;
    DroppedInitUpdate(old_.inits, new_.inits);
  }

  lemma SameShareShowsNowhere(pods: seq<Pod>, i: nat, new_: Pod, hash: string)
    requires i < |pods| && OwnVerdict(new_) == OwnVerdict(pods[i])
    ensures !Shows(pods, i, new_, hash)
  {
    hide OwnVerdict, VerdictOf, Leads;
  }

  lemma DroppedDiffersNowhere(old_: Pod, new_: Pod)
    requires new_.managed && !PackageWatch(old_, new_)
    ensures !InitStatusDiffers(old_.inits, new_.inits) && Signature(old_) == Signature(new_)
  {
    hide InitStatusDiffers, Signature;
  }

  lemma DroppedDegradation(pods: seq<Pod>, i: nat, new_: Pod)
    requires i < |pods| && SameMetadata(pods[i], new_)
    requires SameBlame(FirstBlame(pods[i]), FirstBlame(new_))
    ensures SameBlame(PodFailure(Current(pods[i := new_])), PodFailure(Current(pods)))
    ensures Degradation(pods[i := new_]) == Degradation(pods) <==>
      (Blamed(pods, i) ==> DetailOf(FirstBlame(new_)) == DetailOf(FirstBlame(pods[i])))
  {
    hide FirstBlame, Current, PodsOf, Newest, BlamedIn, Message, PodFailure, OwnerOf;
    var next := pods[i := new_];
    var meta := (p: Pod) => p.name;
    assert Alike(next, pods, meta);
    AlikeLeaders(next, pods, meta);
    if Uids(pods) == {} {
      CurrentOfNone(pods);
      CurrentOfNone(next);
    } else {
      var w := LeaderExists(pods, Uids(pods));
      CurrentIs(pods, w);
      CurrentIs(next, w);
      forall x | Leads(pods, Uids(pods), x) ensures x == w { LeaderIsUnique(pods, Uids(pods), x, w); }
      SameOwner(pods[i], new_);
      ReplacedBlame(pods, i, new_, w);
      if BlamedIn(pods, w, i) {
        BlamedBlames(pods, w, i);
        SameWording(FirstBlame(pods[i]).value, FirstBlame(new_).value);
      }
    }
  }

  lemma BlamedBlames(pods: seq<Pod>, w: string, i: nat)
    requires i < |pods| && BlamedIn(pods, w, i)
    ensures FirstBlame(pods[i]).Some?
  {}

  /** Conditions are merged by type, so a pod has one PodScheduled condition at most. */
  predicate OneScheduled(s: seq<PodCondition>) {
    forall i, j :: 0 <= i < j < |s| ==> !(s[i].kind == POD_SCHEDULED && s[j].kind == POD_SCHEDULED)
  }

  lemma {:induction false} ScheduledDecides(s: seq<PodCondition>)
    requires OneScheduled(s)
    ensures FirstUnschedulable(s) == match FindScheduled(s)
      case Some(c) => if IsUnschedulable(c) then Some(c.message) else None
      case None => None
  {
    if s != [] {
      ScheduledDecides(s[1..]);
      if s[0].kind == POD_SCHEDULED {
        NoneScheduled(s[1..]);
      }
    }
  }

  lemma {:induction false} NoneScheduled(s: seq<PodCondition>)
    requires forall c :: c in s ==> c.kind != POD_SCHEDULED
    ensures FindScheduled(s) == None
  {
    if s != [] {
      NoneScheduled(s[1..]);
    }
  }

  lemma {:induction false} ContainerIsIndexed(s: seq<ContainerStatus>, name: string)
    requires UniqueNames(s)
    ensures FindContainer(s, name) == if name in IndexByName(s) then Some(IndexByName(s)[name]) else None
  {
    if exists k :: 0 <= k < |s| && s[k].name == name {
      var k :| 0 <= k < |s| && s[k].name == name;
      IndexIsExact(s, k);
      FindsAt(s, name, k);
    } else {
      FindsNone(s, name);
    }
  }

  lemma {:induction false} FindsAt(s: seq<ContainerStatus>, name: string, k: nat)
    requires UniqueNames(s) && k < |s| && s[k].name == name
    ensures FindContainer(s, name) == Some(s[k])
  {
    if k > 0 {
      FindsAt(s[1..], name, k - 1);
    }
  }

  lemma {:induction false} FindsNone(s: seq<ContainerStatus>, name: string)
    requires forall c :: c in s ==> c.name != name
    ensures FindContainer(s, name) == None
  {
    if s != [] {
      FindsNone(s[1..], name);
    }
  }

  lemma {:induction false} DatabaseCauseIsFound(s: seq<ContainerStatus>)
    requires UniqueNames(s)
    ensures FirstDatabaseCause(s) == match FindContainer(s, DATABASE_CONTAINER)
      case Some(c) => DatabaseContainerCause(c)
      case None => Fine
  {
    hide DatabaseContainerCause;
    if s != [] {
      DatabaseCauseIsFound(s[1..]);
      if s[0].name == DATABASE_CONTAINER {
        FindsNone(s[1..], DATABASE_CONTAINER);
      }
    }
  }

  predicate WellFormedJobPod(p: Pod) {
    && (forall c :: c in p.containers ==> WellFormedStatus(c))
    && UniqueNames(p.containers) && OneScheduled(p.conditions)
  }

  /** The named container has not vanished from the list. */
  predicate StillThere(old_: Pod, new_: Pod, name: string) {
    FindContainer(old_.containers, name).Some? ==> FindContainer(new_.containers, name).Some?
  }

  /** A quiet container looks the same before and after. */
  lemma QuietContainer(old_: Pod, new_: Pod, name: string)
    requires WellFormedJobPod(old_) && WellFormedJobPod(new_) && StillThere(old_, new_, name)
    requires var c := FindContainer(new_.containers, name); c.Some? ==> !ContainerDiffers(old_, c.value)
    ensures var c, d := FindContainer(old_.containers, name), FindContainer(new_.containers, name);
      && c.Some? == d.Some?
      && (c.Some? ==> DatabaseContainerCause(c.value) == DatabaseContainerCause(d.value)
                      && GenclustContainerCause(c.value) == GenclustContainerCause(d.value))
  {
    hide DatabaseContainerCause, GenclustContainerCause, EqualStatus, WellFormedStatus;
    ContainerIsIndexed(old_.containers, name);
    ContainerIsIndexed(new_.containers, name);
    var c, d := FindContainer(old_.containers, name), FindContainer(new_.containers, name);
    if d.Some? {
      EqualStatusSameView(c.value, d.value);
    }
  }

  lemma {:induction false} SameMostRecent(a: seq<Pod>, b: seq<Pod>, largerName: bool)
    requires a != [] && |a| == |b|
    requires forall i :: 0 <= i < |a| ==> SameMetadata(a[i], b[i])
    ensures MostRecent(a, largerName) == MostRecent(b, largerName)
  {
    if |a| > 1 {
      SameMostRecent(a[..|a| - 1], b[..|b| - 1], largerName);
    }
  }

  /** A pod update the database watch drops leaves the database verdict as it was. */
  lemma DroppedDatabaseUpdate(pods: seq<Pod>, i: nat, new_: Pod)
    requires i < |pods| && SameMetadata(pods[i], new_)
    requires WellFormedJobPod(pods[i]) && WellFormedJobPod(new_)
    requires StillThere(pods[i], new_, DATABASE_CONTAINER)
    requires !DatabaseWatch(pods[i], new_)
    ensures TranslateDatabaseInit(pods[i := new_]) == TranslateDatabaseInit(pods)
  {
    hide DatabaseContainerCause, FindContainer, FirstDatabaseCause, FirstUnschedulable, FindScheduled, ContainerDiffers,
      IsUnschedulable;
    var old_ := pods[i];
    SameMostRecent(pods[i := new_], pods, true);
    ScheduledDecides(old_.conditions);
    ScheduledDecides(new_.conditions);
    DatabaseCauseIsFound(old_.containers);
    DatabaseCauseIsFound(new_.containers);
    QuietContainer(old_, new_, DATABASE_CONTAINER);
    assert DatabasePodCause(old_) == DatabasePodCause(new_);
  }

  /** A pod update the genclust watch drops leaves the admission verdict as it was. */
  lemma DroppedGenclustUpdate(pods: seq<Pod>, i: nat, new_: Pod, refused: string)
    requires i < |pods| && SameMetadata(pods[i], new_)
    requires WellFormedJobPod(pods[i]) && WellFormedJobPod(new_)
    requires StillThere(pods[i], new_, GENCLUST_CONTAINER)
    requires !GenclustWatch(pods[i], new_)
    ensures TranslateJobPod(pods[i := new_], refused) == TranslateJobPod(pods, refused)
  {
    hide GenclustContainerCause, FindContainer, FirstUnschedulable, FindScheduled, ContainerDiffers, IsUnschedulable;
    var old_ := pods[i];
    SameMostRecent(pods[i := new_], pods, false);
    ScheduledDecides(old_.conditions);
    ScheduledDecides(new_.conditions);
    ContainerIsIndexed(new_.containers, GENCLUST_CONTAINER);
    QuietContainer(old_, new_, GENCLUST_CONTAINER);
    assert GenclustPodCause(old_) == GenclustPodCause(new_);
  }

  // ---------- Which updates pass ----------

  /** Some former status has the name of this one and shows the same: all but start times and images. */
  predicate Unchanged(before: seq<ContainerStatus>, c: ContainerStatus) {
    exists b :: b in before && ShowSame(b, c)
  }

  predicate ShowSame(b: ContainerStatus, c: ContainerStatus) {
    && b.name == c.name && b.restartCount == c.restartCount
    && Visible(b.state) == Visible(c.state) && Visible(b.last) == Visible(c.last)
  }

  lemma UnchangedIff(before: seq<ContainerStatus>, c: ContainerStatus)
    requires UniqueNames(before) && WellFormedStatus(c) && forall b :: b in before ==> WellFormedStatus(b)
    ensures c.name in IndexByName(before) && EqualStatus(IndexByName(before)[c.name], c) <==> Unchanged(before, c)
  {
    hide WellFormedState, EqualContainerState, Visible;
    forall b | b in before && b.name == c.name
      ensures c.name in IndexByName(before) && IndexByName(before)[c.name] == b
      ensures EqualStatus(b, c) <==> ShowSame(b, c)
    {
      var k :| 0 <= k < |before| && before[k] == b;
      IndexIsExact(before, k);
      EqualStateMeansSameVisible(b.state, c.state);
      EqualStateMeansSameVisible(b.last, c.last);
    }
  }

  predicate PackagePodMoved(o: Pod, n: Pod) {
    || (exists c :: c in n.inits && "package-fetch-" <= c.name && !Unchanged(o.inits, c))
    || !Same(Entries(o.inits, true), Entries(n.inits, true))
    || !Same(Entries(o.containers, false), Entries(n.containers, false))
  }

  /** The package watch passes exactly the updates of managed pods in which a package fetch is new or shows something
      else, or other containers fail, or fail in another way. */
  lemma PackageUpdatePasses(o: Pod, n: Pod)
    requires WellFormedPod(o) && WellFormedPod(n)
    ensures PackageWatch(o, n) <==> n.managed && PackagePodMoved(o, n)
  {
    SignatureParses(o, n);
    forall c | c in n.inits
      ensures (c.name in IndexByName(o.inits) && EqualStatus(IndexByName(o.inits)[c.name], c)) <==> Unchanged(o.inits, c)
    {
      UnchangedIff(o.inits, c);
    }
    hide Signature, Entries, Unchanged, EqualStatus, WellFormedPod, Same;
  }

  /** The PodScheduled condition came, went or changed. */
  predicate Rescheduled(o: Pod, n: Pod) {
    || (exists c :: c in o.conditions && c.kind == "PodScheduled" && c !in n.conditions)
    || (exists c :: c in n.conditions && c.kind == "PodScheduled" && c !in o.conditions)
  }

  lemma {:induction false} FoundScheduled(s: seq<PodCondition>)
    requires OneScheduled(s)
    ensures forall c :: FindScheduled(s) == Some(c) <==> c in s && c.kind == "PodScheduled"
  {
    if s != [] {
      assert s == [s[0]] + s[1..];
      FoundScheduled(s[1..]);
      assert s[0].kind == "PodScheduled" ==> forall c :: c in s[1..] ==> c.kind != "PodScheduled";
    }
  }

  lemma RescheduledIff(o: Pod, n: Pod)
    requires OneScheduled(o.conditions) && OneScheduled(n.conditions)
    ensures FindScheduled(o.conditions) != FindScheduled(n.conditions) <==> Rescheduled(o, n)
  {
    FoundScheduled(o.conditions);
    FoundScheduled(n.conditions);
    hide FindScheduled, OneScheduled;
    if FindScheduled(o.conditions).Some? {
      assert FindScheduled(o.conditions) == Some(FindScheduled(o.conditions).value);
    }
    if FindScheduled(n.conditions).Some? {
      assert FindScheduled(n.conditions) == Some(FindScheduled(n.conditions).value);
    }
  }

  /** What makes the watches of a Job's pods pass an update. */
  predicate JobPodMoved(o: Pod, n: Pod, container: string) {
    || o.phase != n.phase || Rescheduled(o, n)
    || exists c :: c in n.containers && c.name == container && !Unchanged(o.containers, c)
  }

  lemma {:induction false} FoundContainer(s: seq<ContainerStatus>, name: string)
    requires UniqueNames(s)
    ensures forall c :: FindContainer(s, name) == Some(c) <==> c in s && c.name == name
  {
    if s != [] {
      assert s == [s[0]] + s[1..];
      FoundContainer(s[1..], name);
      assert forall c :: c in s[1..] ==> c.name != s[0].name;
    }
  }

  /** The watches of the two Jobs' pods pass exactly the updates that change the phase, the PodScheduled condition, or
      what the status of their container shows. */
  lemma JobUpdatePasses(o: Pod, n: Pod)
    requires WellFormedJobPod(o) && WellFormedJobPod(n)
    ensures DatabaseWatch(o, n) <==> JobPodMoved(o, n, "idsvr-db-init")
    ensures GenclustWatch(o, n) <==> JobPodMoved(o, n, "genclust")
  {
    RescheduledIff(o, n);
    FoundContainer(n.containers, DATABASE_CONTAINER);
    forall c | c in n.containers ensures ContainerDiffers(o, c) <==> !Unchanged(o.containers, c) {
      UnchangedIff(o.containers, c);
    }
    hide FindScheduled, FindContainer, ContainerDiffers, Unchanged, Rescheduled, WellFormedStatus, UniqueNames, OneScheduled;
    var found := FindContainer(n.containers, DATABASE_CONTAINER);
    assert found.Some? ==> found == Some(found.value);
  }
}

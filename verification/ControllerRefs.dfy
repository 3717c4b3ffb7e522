/** When a node's controller reference can name a cluster that is gone: the exact condition, and the ways there. */
module ControllerRefs {
  import opened Wrappers
  import opened OwnerRefs
  import opened Ownership
  import Runs

  // ---------- When a reference can dangle ----------

  /** A node's controller reference carries this UID. */
  ghost predicate Shown(s: System, uid: nat) {
    exists n, r :: n in s.nodes && r in s.nodes[n].refs && Controls(r, uid)
  }

  /** A reconcile in flight is about to write it, and the write will be accepted. */
  ghost predicate Pending(s: System, uid: nat) {
    exists p :: p in s.passes && s.passes[p].HasCluster? && s.passes[p].uid == uid && Viable(s, s.passes[p])
  }

  /** The cluster cache still shows a cluster with this UID, or has yet to come by one. */
  ghost predicate StillCached(s: System, uid: nat) {
    exists k, c :: s.cache <= k <= |s.clusterHistory| && c in ClustersAt(s, k) && ClustersAt(s, k)[c].uid == uid
  }

  /** A reference to a cluster that is gone. */
  ghost predicate Dangles(s: System, uid: nat) {
    Shown(s, uid) && !Alive(s, uid)
  }

  ghost predicate NeverDangles(s: System, uid: nat) {
    forall events :: !Dangles(Execute(s, events), uid)
  }

  /** Nothing leads to the UID any more. */
  ghost predicate Cut(s: System, uid: nat) {
    !Shown(s, uid) && !Pending(s, uid) && !StillCached(s, uid)
  }

  lemma NodeWriteKeepsCut(s: System, name: string, n: NodeObj, uid: nat)
    requires Inv(s) && Cut(s, uid) && forall r :: r in n.refs ==> !Controls(r, uid)
    ensures Cut(PutNode(s, name, n), uid)
  {
    hide Controls, Patched, Controllers, NodesOk, ClearedOk;
    var t := PutNode(s, name, n);
    assert forall k :: ClustersAt(t, k) == ClustersAt(s, k);
    forall p | p in t.passes && t.passes[p].HasCluster? && t.passes[p].uid == uid ensures !Viable(t, t.passes[p]) {
      assert PassOk(s, s.passes[p]) && !Viable(s, s.passes[p]);
    }
  }

  /** A change of the cluster objects that brings none with the UID. */
  lemma PutClustersKeepsCut(s: System, clusters: map<string, ClusterObj>, uid: nat)
    requires Cut(s, uid) && forall c :: c in clusters ==> clusters[c].uid != uid
    ensures Cut(PutClusters(s, clusters), uid)
  {
    hide Controls, Patched, Controllers;
    var t := PutClusters(s, clusters);
    forall p | p in t.passes && t.passes[p].HasCluster? && t.passes[p].uid == uid ensures !Viable(t, t.passes[p]) {
      assert !Viable(s, s.passes[p]);
    }
    forall k, c | t.cache <= k <= |t.clusterHistory| && c in ClustersAt(t, k) ensures ClustersAt(t, k)[c].uid != uid {
      if k <= |s.clusterHistory| { assert ClustersAt(t, k) == ClustersAt(s, k); }
    }
  }

  /** A change of what only the deletion passes see, or a cluster cache that moves on. */
  lemma SameSightKeepsCut(s: System, t: System, uid: nat)
    requires Cut(s, uid) && t.nodes == s.nodes && t.passes == s.passes
    requires t.clusters == s.clusters && t.clusterHistory == s.clusterHistory && s.cache <= t.cache
    ensures Cut(t, uid)
  {
    hide Controls, Patched, Controllers;
    assert forall k :: ClustersAt(t, k) == ClustersAt(s, k);
    forall p | p in t.passes && t.passes[p].HasCluster? && t.passes[p].uid == uid ensures !Viable(t, t.passes[p]) {
      assert !Viable(s, s.passes[p]);
    }
  }

  lemma NoneUnderUid(s: System, uid: nat)
    requires UidsOk(s) && !StillCached(s, uid)
    ensures forall c :: c in s.clusters ==> s.clusters[c].uid != uid
  {
    assert ClustersAt(s, |s.clusterHistory|) == s.clusters;
  }

  /** Passes that are old ones, or carry another UID or none. */
  lemma PassesKeepCut(s: System, passes: map<nat, Pass>, uid: nat)
    requires Cut(s, uid)
    requires forall p :: p in passes && passes[p].HasCluster? && passes[p].uid == uid ==> p in s.passes && s.passes[p] == passes[p]
    ensures Cut(s.(passes := passes), uid)
  {
    hide Controls, Patched, Controllers;
    var t := s.(passes := passes);
    assert forall k :: ClustersAt(t, k) == ClustersAt(s, k);
    forall p | p in passes && passes[p].HasCluster? && passes[p].uid == uid ensures !Viable(t, passes[p]) {
      assert !Viable(s, s.passes[p]);
    }
  }

  lemma PatchKeepsCut(s: System, pass: nat, uid: nat)
    requires Inv(s) && Cut(s, uid)
    ensures Cut(Apply(s, PatchNode(pass)), uid)
  {
    hide Inv;
    if pass in s.passes && s.passes[pass].HasCluster? {
      var p := s.passes[pass];
      var done := s.(passes := s.passes - {pass});
      PassesKeepInv(s, s.passes - {pass});
      PassesKeepCut(s, s.passes - {pass}, uid);
      if Viable(s, p) {
        assert p.uid != uid;
        forall r | r in Patched(p) ensures !Controls(r, uid) {
          if NamesACluster(r) { OwnedControls(p.read.refs, p.read.clusterRef, p.uid, r); }
        }
        NodeWriteKeepsCut(done, p.node, s.nodes[p.node].(refs := Patched(p)), uid);
      }
    }
  }

  lemma ReadKeepsCut(s: System, e: Event, uid: nat)
    requires Inv(s) && Cut(s, uid) && (e.ReadNode? || e.ReadCluster?)
    ensures Cut(Apply(s, e), uid)
  {
    hide Shown, Pending;
    var t := Apply(s, e);
    assert t == s.(passes := t.passes);
    assert s.cache <= |s.clusterHistory|;
    if e.ReadCluster? {
      forall c | c in ClustersAt(s, s.cache) ensures ClustersAt(s, s.cache)[c].uid != uid {}
    }
    PassesKeepCut(s, t.passes, uid);
  }

  lemma ClusterStepKeepsCut(s: System, e: Event, uid: nat)
    requires UidsOk(s) && Cut(s, uid) && uid < |s.names|
    requires e.CreateCluster? || e.AddFinalizer? || e.DeleteCluster?
    ensures Cut(Apply(s, e), uid)
  {
    NoneUnderUid(s, uid);
    hide Cut, UidsOk;
    var t := Apply(s, e);
    PutClustersKeepsCut(s, t.clusters, uid);
    if t != s { SameSightKeepsCut(PutClusters(s, t.clusters), t, uid); }
  }

  lemma ReleaseKeepsCut(s: System, name: string, uid: nat)
    requires UidsOk(s) && Cut(s, uid)
    ensures Cut(Apply(s, Release(name)), uid)
  {
    NoneUnderUid(s, uid);
    hide Cut, UidsOk;
    var t := Apply(s, Release(name));
    PutClustersKeepsCut(s, s.clusters - {name}, uid);
    if t.clusterHistory == s.clusterHistory {
      SameSightKeepsCut(s, t, uid);
    } else {
      SameSightKeepsCut(PutClusters(s, s.clusters - {name}), t, uid);
    }
  }

  lemma InvUids(s: System)
    requires Inv(s)
    ensures UidsOk(s)
  {}

  lemma StepKeepsCut(s: System, e: Event, uid: nat)
    requires Inv(s) && Cut(s, uid) && uid < |s.names|
    ensures Cut(Apply(s, e), uid)
  {
    hide Inv, Cut, HasChild;
    match e
    case CreateNode(name, clusterRef, refs) =>
      if name !in s.nodes && Controllers(refs) == [] {
        forall r | r in refs ensures !Controls(r, uid) { if IsController(r) { SelectShape(refs, r, IsController); } }
        NodeWriteKeepsCut(s, name, NodeObj(clusterRef, refs, 0), uid);
        SameSightKeepsCut(PutNode(s, name, NodeObj(clusterRef, refs, 0)), Apply(s, e), uid);
      }
    case EditClusterRef(name, clusterRef) =>
      if name in s.nodes {
        OldRefsShowNothing(s, name, uid);
        NodeWriteKeepsCut(s, name, s.nodes[name].(clusterRef := clusterRef), uid);
        SameSightKeepsCut(PutNode(s, name, s.nodes[name].(clusterRef := clusterRef)), Apply(s, e), uid);
      }
    case TouchNode(name) =>
      if name in s.nodes {
        OldRefsShowNothing(s, name, uid);
        NodeWriteKeepsCut(s, name, s.nodes[name], uid);
      }
    case DeleteNode(name) => DeleteNodeKeepsCut(s, name, uid);
    case ReadNode(_, _) => ReadKeepsCut(s, e, uid);
    case ReadCluster(_) => ReadKeepsCut(s, e, uid);
    case PatchNode(pass) => PatchKeepsCut(s, pass, uid);
    case AbandonPass(pass) => PassesKeepCut(s, s.passes - {pass}, uid);
    case Release(name) => ReleaseKeepsCut(s, name, uid) by { InvUids(s); }
    case ListChildren(_, _) => SameSightKeepsCut(s, Apply(s, e), uid);
    case AbandonRelease(_) => SameSightKeepsCut(s, Apply(s, e), uid);
    case SyncClusters(_) => SameSightKeepsCut(s, Apply(s, e), uid);
    case _ => ClusterStepKeepsCut(s, e, uid) by { InvUids(s); }
  }

  lemma OldRefsShowNothing(s: System, name: string, uid: nat)
    requires Cut(s, uid) && name in s.nodes
    ensures forall r :: r in s.nodes[name].refs ==> !Controls(r, uid)
  {}

  lemma DeleteNodeKeepsCut(s: System, name: string, uid: nat)
    requires Inv(s) && Cut(s, uid)
    ensures Cut(Apply(s, DeleteNode(name)), uid)
  {
    hide Controls, Patched, Controllers;
    var t := Apply(s, DeleteNode(name));
    assert forall k :: ClustersAt(t, k) == ClustersAt(s, k);
    forall p | p in t.passes && t.passes[p].HasCluster? && t.passes[p].uid == uid ensures !Viable(t, t.passes[p]) {
      assert !Viable(s, s.passes[p]);
    }
  }

  /** UIDs of the past never come back. */
  lemma StepKeepsDead(s: System, e: Event, uid: nat)
    requires uid < |s.names| && !Alive(s, uid)
    ensures var t := Apply(s, e); uid < |t.names| && !Alive(t, uid)
  {
    hide HasChild, Patched, Viable;
    var t := Apply(s, e);
    forall c | c in t.clusters ensures t.clusters[c].uid != uid {
      if c in s.clusters { assert s.clusters[c].uid != uid; }
    }
  }

  lemma {:induction false} DeadStaysDead(s: System, events: seq<Event>, uid: nat)
    requires uid < |s.names| && !Alive(s, uid)
    ensures !Alive(Execute(s, events), uid)
    decreases |events|
  {
    hide Apply, Alive;
    if events != [] {
      StepKeepsDead(s, events[0], uid);
      DeadStaysDead(Apply(s, events[0]), events[1..], uid);
    }
  }

  lemma {:induction false} CutIsForGood(s: System, events: seq<Event>, uid: nat)
    requires Inv(s) && Cut(s, uid) && uid < |s.names|
    ensures !Shown(Execute(s, events), uid)
    decreases |events|
  {
    if events == [] {
    } else {
      hide Apply, Inv, Cut, Shown;
      StepKeepsInv(s, events[0]);
      StepKeepsCut(s, events[0], uid);
      NamesGrow(s, events[0]);
      CutIsForGood(Apply(s, events[0]), events[1..], uid);
    }
  }

  lemma NamesGrow(s: System, e: Event)
    ensures |s.names| <= |Apply(s, e).names|
  {
    hide HasChild, Viable;
  }

  // ---------- The other half ----------

  /** One more event at the end of a run, and the state it leads to. */
  lemma Then(s: System, events: seq<Event>, t: System, e: Event) returns (more: seq<Event>, t': System)
    requires t == Execute(s, events)
    ensures more == events + [e] && t' == Apply(t, e) && t' == Execute(s, more)
  {
    hide Apply;
    Runs.OneMore(Apply, s, events, e);
    more, t' := events + [e], Apply(t, e);
  }

  lemma Start(s: System) returns (events: seq<Event>, t: System)
    ensures events == [] && t == s && t == Execute(s, events)
  {
    events, t := [], s;
  }

  lemma PendingShows(s: System, uid: nat) returns (events: seq<Event>)
    requires Pending(s, uid)
    ensures Shown(Execute(s, events), uid)
  {
    hide Execute, Controls, Patched;
    var p :| p in s.passes && s.passes[p].HasCluster? && s.passes[p].uid == uid && Viable(s, s.passes[p]);
    var t: System;
    events, t := Start(s);
    PatchedControls(s.passes[p]);
    events, t := Then(s, events, t, PatchNode(p));
    assert t.nodes[s.passes[p].node].refs == Patched(s.passes[p]);
  }

  lemma {:induction false} LongerThanAll(names: set<string>) returns (n: string)
    ensures forall m :: m in names ==> |m| < |n|
    decreases names
  {
    n := "n";
    if names != {} {
      var m :| m in names;
      var k := LongerThanAll(names - {m});
      n := k + m + "n";
    }
  }

  lemma {:induction false} GreaterThanAll(keys: set<nat>) returns (n: nat)
    ensures forall m :: m in keys ==> m < n
    decreases keys
  {
    n := 0;
    if keys != {} {
      var m :| m in keys;
      var k := GreaterThanAll(keys - {m});
      n := k + m + 1;
      assert forall x :: x in keys ==> x == m || x in keys - {m};
    }
  }

  lemma FreshIsAdopted(name: string, uid: nat)
    ensures Controllers([]) == []
    ensures |Controllers(Owned([], Canonical(name, uid)))| == 1
  {
    assert Controllers([]) == [];
    OneSelected(Canonical(name, uid), IsController);
    assert Owned([], Canonical(name, uid)) == [Canonical(name, uid)];
  }

  /** A node created just now, and a reconcile that has read it. */
  lemma NewcomerIsRead(s: System, c: string) returns (events: seq<Event>, t: System, n: string, pass: nat)
    ensures t == Execute(s, events)
    ensures t.clusters == s.clusters && t.clusterHistory == s.clusterHistory && t.cache == s.cache
    ensures n in t.nodes && t.nodes[n] == NodeObj(c, [], s.nextVersion)
    ensures pass in t.passes && t.passes[pass] == HasNode(n, t.nodes[n])
  {
    hide Execute, Owned, Viable, HasChild;
    n := LongerThanAll(s.nodes.Keys);
    pass := GreaterThanAll(s.passes.Keys);
    assert n !in s.nodes && pass !in s.passes && Controllers([]) == [];
    events, t := Start(s);
    events, t := Then(s, events, t, CreateNode(n, c, []));
    events, t := Then(s, events, t, ReadNode(pass, n));
  }

  /** While the cache shows the UID, such a node is about to be adopted under it. */
  lemma StillCachedPends(s: System, uid: nat) returns (events: seq<Event>)
    requires Inv(s) && StillCached(s, uid)
    ensures Pending(Execute(s, events), uid)
  {
    hide Execute, Controls, Inv, Owned, Controllers, Canonical, HasChild;
    var k, c :| s.cache <= k <= |s.clusterHistory| && c in ClustersAt(s, k) && ClustersAt(s, k)[c].uid == uid;
    FreshIsAdopted(c, uid);
    var t, n, pass;
    events, t, n, pass := NewcomerIsRead(s, c);
    events, t := Then(s, events, t, SyncClusters(k));
    assert ClustersAt(t, t.cache) == ClustersAt(s, k);
    events, t := Then(s, events, t, ReadCluster(pass));
    assert t.passes[pass] == HasCluster(n, NodeObj(c, [], s.nextVersion), uid);
    assert Viable(t, t.passes[pass]);
  }

  lemma StillCachedShows(s: System, uid: nat) returns (events: seq<Event>)
    requires Inv(s) && StillCached(s, uid)
    ensures Shown(Execute(s, events), uid)
  {
    hide Shown, Pending, StillCached, Apply, Inv;
    var first := StillCachedPends(s, uid);
    var rest := PendingShows(Execute(s, first), uid);
    Runs.Continued(Apply, s, first, rest);
    events := first + rest;
  }

  lemma NotCutShows(s: System, uid: nat) returns (events: seq<Event>)
    requires Inv(s) && !Cut(s, uid)
    ensures Shown(Execute(s, events), uid)
  {
    hide Inv, Shown, Pending, StillCached;
    if Shown(s, uid) {
      var t;
      events, t := Start(s);
    } else if Pending(s, uid) {
      events := PendingShows(s, uid);
    } else {
      events := StillCachedShows(s, uid);
    }
  }

  // ---------- The main results ----------

  /** No cascade deletion, exactly: in every reachable state, a UID that is gone never shows in a node's controller
      reference, now or in any continuation, if and only if no node has it, no acceptable patch in flight carries
      it, and the node reconciler's cluster cache has moved past it. */
  lemma ControllerNeverDangles(events: seq<Event>, uid: nat)
    requires var t := Execute(EMPTY, events); uid < |t.names| && !Alive(t, uid)
    ensures var t := Execute(EMPTY, events);
      NeverDangles(t, uid) <==> !Shown(t, uid) && !Pending(t, uid) && !StillCached(t, uid)
  {
    ReachableInv(events);
    var t := Execute(EMPTY, events);
    hide Execute, Alive, Inv, Shown, Pending, StillCached;
    if Cut(t, uid) {
      forall more ensures !Dangles(Execute(t, more), uid) { CutIsForGood(t, more, uid); }
    } else {
      var more := NotCutShows(t, uid);
      DeadStaysDead(t, more, uid);
      assert Dangles(Execute(t, more), uid);
    }
  }

  /** The finalizer blocks: a cluster leaves on its release only when no node is its child any more, by
      spec or by controller UID, unless it was raced. */
  lemma ReleaseMeansNoChildren(events: seq<Event>, name: string, node: string)
    requires var t := Execute(EMPTY, events);
      && name in t.clusters && name !in Apply(t, Release(name)).clusters
      && t.clusters[name].uid !in t.raced && node in t.nodes
    ensures var t := Execute(EMPTY, events); !IsChild(t.nodes[node], name, t.clusters[name].uid)
  {
    hide Execute;
    ReachableInv(events);
    assert ClearedOk(Execute(EMPTY, events), name);
  }

  /** A childless removal, raced or not, leaves no reference and no acceptable patch behind: once the cluster cache
      has caught up, the UID never dangles. */
  lemma ChildlessRemovalIsSafe(events: seq<Event>, name: string, e: Event)
    requires e == Release(name) || e == DeleteCluster(name)
    requires var s := Execute(EMPTY, events);
      name in s.clusters && name !in Apply(s, e).clusters && !HasChild(s.nodes, name, s.clusters[name].uid)
    ensures var s := Execute(EMPTY, events);
      var t := Apply(s, e);
      var uid := s.clusters[name].uid;
      && !Shown(t, uid) && !Pending(t, uid)
      && NeverDangles(Apply(t, SyncClusters(|t.clusterHistory|)), uid)
  {
    ReachableInv(events);
    var s := Execute(EMPTY, events);
    hide Execute;
    var uid := s.clusters[name].uid;
    var all, t := Then(EMPTY, events, s, e);
    var caughtUp: System;
    all, caughtUp := Then(EMPTY, all, t, SyncClusters(|t.clusterHistory|));
    UidBelongs(s, name);
    NoChildNoTrace(s, name, uid);
    RemovedIsDead(s, name, caughtUp);
    assert !StillCached(caughtUp, uid) by {
      hide Inv;
      assert ClustersAt(caughtUp, |caughtUp.clusterHistory|) == caughtUp.clusters;
    }
    ControllerNeverDangles(all, uid);
  }

  lemma NoChildNoTrace(s: System, name: string, uid: nat)
    requires Inv(s) && uid < |s.names| && s.names[uid] == name && !HasChild(s.nodes, name, uid)
    ensures !Shown(s, uid) && !Pending(s, uid)
  {
    hide Controllers, Patched, UidsOk, ClearedOk;
    forall n, r | n in s.nodes && r in s.nodes[n].refs ensures !Controls(r, uid) {
      assert !IsChild(s.nodes[n], name, uid);
      if IsController(r) { ControllerIsUnique(s.nodes[n].refs, r); }
    }
    forall p | p in s.passes && s.passes[p].HasCluster? && s.passes[p].uid == uid ensures !Viable(s, s.passes[p]) {
      assert PassOk(s, s.passes[p]);
      if s.passes[p].node in s.nodes { assert !IsChild(s.nodes[s.passes[p].node], name, uid); }
    }
  }

  lemma RemovedIsDead(s: System, name: string, t: System)
    requires UidsOk(s) && name in s.clusters && t.clusters == s.clusters - {name}
    ensures !Alive(t, s.clusters[name].uid)
  {
    forall c | c in s.clusters ensures s.clusters[c].uid == s.clusters[name].uid ==> c == name {
      UidBelongs(s, c);
      UidBelongs(s, name);
    }
  }

  /** Until it has caught up the UID can still dangle, whoever removed the cluster and however: a node created just
      now is adopted under it. */
  lemma RemovalOpensAWindow(events: seq<Event>, name: string, e: Event)
    requires e == Release(name) || e == DeleteCluster(name)
    requires var s := Execute(EMPTY, events); name in s.clusters && name !in Apply(s, e).clusters
    ensures var s := Execute(EMPTY, events); !NeverDangles(Apply(s, e), s.clusters[name].uid)
  {
    ReachableInv(events);
    var s := Execute(EMPTY, events);
    hide Execute;
    var uid := s.clusters[name].uid;
    var all, t := Then(EMPTY, events, s, e);
    UidBelongs(s, name);
    RemovedIsDead(s, name, t);
    assert StillCached(t, uid) by {
      hide Inv;
      assert s.cache <= |s.clusterHistory|;
      assert ClustersAt(t, |s.clusterHistory|) == s.clusters;
    }
    ControllerNeverDangles(all, uid);
  }

  // ---------- Dangling with an up-to-date cache ----------

  lemma {:induction false} ControllersSplit(refs: seq<OwnerRef>)
    ensures |Controllers(refs)| == |Controllers(ClusterRefs(refs))| + |Controllers(OtherRefs(refs))|
  {
    if refs != [] {
      ControllersSplit(refs[1..]);
      SelectConcat([refs[0]], refs[1..], NamesACluster);
      SelectConcat([refs[0]], refs[1..], r => !NamesACluster(r));
      SelectConcat(ClusterRefs([refs[0]]), ClusterRefs(refs[1..]), IsController);
      SelectConcat(OtherRefs([refs[0]]), OtherRefs(refs[1..]), IsController);
      assert [refs[0]] + refs[1..] == refs;
    }
  }

  /** No other kind of object controls the node. */
  predicate Adoptable(n: NodeObj) {
    Controllers(OtherRefs(n.refs)) == []
  }

  lemma OneSelected(r: OwnerRef, p: OwnerRef -> bool)
    requires p(r)
    ensures Select([r], p) == [r]
  {
    assert [r][1..] == [] && Select([], p) == [];
  }

  /** The patch of an adoptable node is accepted. */
  lemma AdoptionIsAccepted(n: NodeObj, uid: nat)
    requires Adoptable(n)
    ensures |Controllers(Owned(n.refs, Canonical(n.clusterRef, uid)))| <= 1
  {
    var want := Canonical(n.clusterRef, uid);
    OwnedIsCanonical(n.refs, n.clusterRef, uid);
    ControllersSplit(Owned(n.refs, want));
    OneSelected(want, IsController);
  }

  /** An adoptable node that names a live cluster is about to be adopted. */
  lemma Adopting(events: seq<Event>, name: string, node: string, pass: nat) returns (all: seq<Event>, t: System)
    requires var s := Execute(EMPTY, events);
      && name in s.clusters && pass !in s.passes
      && node in s.nodes && s.nodes[node].clusterRef == name && Adoptable(s.nodes[node])
    ensures var s := Execute(EMPTY, events);
      && events <= all && t == Execute(EMPTY, all) && Pending(t, s.clusters[name].uid)
      && t.clusters == s.clusters && t.cleared == s.cleared && t.nodes == s.nodes && t.raced == s.raced
  {
    ReachableInv(events);
    var s := Execute(EMPTY, events);
    hide Execute, Controllers;
    hide Inv;
    AdoptionIsAccepted(s.nodes[node], s.clusters[name].uid);
    t := s;
    all, t := Then(EMPTY, events, t, ReadNode(pass, node));
    all, t := Then(EMPTY, all, t, SyncClusters(|s.clusterHistory|));
    all, t := Then(EMPTY, all, t, ReadCluster(pass));
    assert t.passes[pass] == HasCluster(node, s.nodes[node], s.clusters[name].uid);
    assert Viable(t, t.passes[pass]);
  }

  /** The cache has caught up and the UID can dangle all the same. */
  ghost predicate DanglesWithoutLag(t: System, uid: nat) {
    t.cache == |t.clusterHistory| && !Alive(t, uid) && !NeverDangles(t, uid)
  }

  /** What a cluster without the finalizer can do, in every reachable state with an adoptable node that names it:
      it is deleted while the node is being adopted. */
  lemma UnprotectedClusterDangles(events: seq<Event>, name: string, node: string, pass: nat) returns (all: seq<Event>)
    requires var s := Execute(EMPTY, events);
      && name in s.clusters && !s.clusters[name].finalizer && pass !in s.passes
      && node in s.nodes && s.nodes[node].clusterRef == name && Adoptable(s.nodes[node])
    ensures events <= all && DanglesWithoutLag(Execute(EMPTY, all), Execute(EMPTY, events).clusters[name].uid)
  {
    var s, t := Execute(EMPTY, events), EMPTY;
    all, t := Adopting(events, name, node, pass);
    all := RemovedWhilePending(all, t, name, DeleteCluster(name));
  }

  /** What a late child can do, in every reachable state in which a deletion pass is about to release a cluster that an
      adoptable node still names: the cluster is released while the node is being adopted. */
  lemma RacedReleaseDangles(events: seq<Event>, name: string, node: string, pass: nat) returns (all: seq<Event>)
    requires var s := Execute(EMPTY, events);
      && name in s.clusters && name in s.cleared && s.cleared[name] == s.clusters[name].uid && pass !in s.passes
      && node in s.nodes && s.nodes[node].clusterRef == name && Adoptable(s.nodes[node])
    ensures events <= all && DanglesWithoutLag(Execute(EMPTY, all), Execute(EMPTY, events).clusters[name].uid)
  {
    var s, t := Execute(EMPTY, events), EMPTY;
    all, t := Adopting(events, name, node, pass);
    all := RemovedWhilePending(all, t, name, Release(name));
  }

  lemma RemovedWhilePending(events: seq<Event>, s: System, name: string, e: Event) returns (all: seq<Event>)
    requires s == Execute(EMPTY, events) && name in s.clusters && Pending(s, s.clusters[name].uid)
    requires (e == Release(name) || e == DeleteCluster(name)) && name !in Apply(s, e).clusters
    ensures events <= all && DanglesWithoutLag(Execute(EMPTY, all), s.clusters[name].uid)
  {
    ReachableInv(events);
    hide Execute;
    var uid := s.clusters[name].uid;
    var t := s;
    all, t := Then(EMPTY, events, t, e);
    UidBelongs(s, name);
    RemovedIsDead(s, name, t);
    hide Inv, Alive;
    all, t := Then(EMPTY, all, t, SyncClusters(|t.clusterHistory|));
    StillPending(s, t, uid);
    StillDead(Apply(s, e), t, uid);
    ControllerNeverDangles(all, uid);
  }

  lemma StillPending(s: System, t: System, uid: nat)
    requires t.nodes == s.nodes && t.passes == s.passes && Pending(s, uid)
    ensures Pending(t, uid)
  {
    hide Controllers, Patched;
    var p :| p in s.passes && s.passes[p].HasCluster? && s.passes[p].uid == uid && Viable(s, s.passes[p]);
    assert Viable(t, t.passes[p]);
  }

  lemma StillDead(s: System, t: System, uid: nat)
    requires t.clusters == s.clusters && !Alive(s, uid)
    ensures !Alive(t, uid)
  {}

  /** A state that RacedReleaseDangles starts from is reached for any names, in either way: the node comes after the
      list, or it comes before and the list is older. */
  lemma RacedStateIsReachable(name: string, node: string, lagging: bool) returns (events: seq<Event>)
    ensures var t := Execute(EMPTY, events);
      && name in t.clusters && name in t.cleared && t.cleared[name] == t.clusters[name].uid && t.passes == map[]
      && node in t.nodes && t.nodes[node].clusterRef == name && Adoptable(t.nodes[node])
  {
    hide Execute;
    var t: System;
    events, t := Start(EMPTY);
    events, t := Then(EMPTY, events, t, CreateCluster(name));
    events, t := Then(EMPTY, events, t, AddFinalizer(name));
    if lagging {
      events, t := Then(EMPTY, events, t, CreateNode(node, name, []));
      assert t.nodeHistory == [map[]];
    }
    events, t := Then(EMPTY, events, t, DeleteCluster(name));
    events, t := Then(EMPTY, events, t, ListChildren(name, 0));
    assert name in t.cleared;
    if !lagging {
      events, t := Then(EMPTY, events, t, CreateNode(node, name, []));
    }
  }

  /** And so is one with an unprotected cluster. */
  lemma UnprotectedStateIsReachable(name: string, node: string) returns (events: seq<Event>)
    ensures var t := Execute(EMPTY, events);
      && name in t.clusters && !t.clusters[name].finalizer && t.passes == map[]
      && node in t.nodes && t.nodes[node].clusterRef == name && Adoptable(t.nodes[node])
  {
    hide Execute;
    var t: System;
    events, t := Start(EMPTY);
    events, t := Then(EMPTY, events, t, CreateCluster(name));
    events, t := Then(EMPTY, events, t, CreateNode(node, name, []));
  }
}

/** Cluster deletion against node moves: finalizers, the dual-leg child list, owner-reference patches
    under an optimistic lock. Kubernetes deletes a node whose controller reference names a UID that is
    gone, so the question is whether that can ever come about. */
module Ownership {
  import opened Wrappers
  import opened OwnerRefs
  import Runs

  datatype ClusterObj = ClusterObj(uid: nat, deleting: bool, finalizer: bool)

  /** `version` is the resourceVersion: every write gives the node a fresh one. */
  datatype NodeObj = NodeObj(clusterRef: string, refs: seq<OwnerRef>, version: nat)

  /** A node reconcile in flight: the node as read, then the UID it is about to patch in. */
  datatype Pass =
    | HasNode(node: string, read: NodeObj)
    | HasCluster(node: string, read: NodeObj, uid: nat)

  /** `names`: the name of every cluster ever created, by UID. The two histories hold the objects as they were before
      each change, and `cache` is the moment up to which the node reconciler's cluster cache has come. `cleared`:
      clusters whose deletion pass has listed no children and not yet released the finalizer. `raced`: UIDs that a
      node became a child of after the snapshot the deletion pass listed. */
  datatype System = System(
    names: seq<string>,
    clusters: map<string, ClusterObj>,
    clusterHistory: seq<map<string, ClusterObj>>,
    cache: nat,
    nodes: map<string, NodeObj>,
    nodeHistory: seq<map<string, NodeObj>>,
    nextVersion: nat,
    passes: map<nat, Pass>,
    cleared: map<string, nat>,
    raced: set<nat>)

  datatype Event =
    | CreateCluster(name: string)
    | AddFinalizer(name: string)
    | DeleteCluster(name: string)
    | ListChildren(name: string, snapshot: nat)
    | Release(name: string)
    | AbandonRelease(name: string)
    | SyncClusters(moment: nat)
    | CreateNode(name: string, clusterRef: string, refs: seq<OwnerRef>)
    | EditClusterRef(name: string, clusterRef: string)
    | TouchNode(name: string)
    | DeleteNode(name: string)
    | ReadNode(pass: nat, name: string)
    | ReadCluster(pass: nat)
    | PatchNode(pass: nat)
    | AbandonPass(pass: nat)

  predicate IsController(r: OwnerRef) {
    r.controller == Some(true)
  }

  function Controllers(refs: seq<OwnerRef>): seq<OwnerRef> {
    Select(refs, IsController)
  }

  /** metav1.IsControlledBy: the first controller reference carries the UID. */
  predicate IsControlledBy(refs: seq<OwnerRef>, uid: nat) {
    Controllers(refs) != [] && Controllers(refs)[0].uid == uid
  }

  /** listChildNodes counts a node by spec or by controller UID. */
  predicate IsChild(n: NodeObj, name: string, uid: nat) {
    n.clusterRef == name || IsControlledBy(n.refs, uid)
  }

  predicate HasChild(nodes: map<string, NodeObj>, name: string, uid: nat) {
    exists n | n in nodes :: IsChild(nodes[n], name, uid)
  }

  function PointAt(s: System, clusterRef: string): set<nat> {
    if clusterRef in s.cleared then s.raced + {s.cleared[clusterRef]} else s.raced
  }

  function PutNodes(s: System, nodes: map<string, NodeObj>): System {
    s.(nodes := nodes, nodeHistory := s.nodeHistory + [s.nodes])
  }

  function PutNode(s: System, name: string, n: NodeObj): System {
    PutNodes(s, s.nodes[name := n.(version := s.nextVersion)]).(nextVersion := s.nextVersion + 1)
  }

  function PutClusters(s: System, clusters: map<string, ClusterObj>): System {
    s.(clusters := clusters, clusterHistory := s.clusterHistory + [s.clusters])
  }

  /** The nodes as a list may show them: at any moment so far. */
  function NodesAt(s: System, moment: nat): map<string, NodeObj> {
    if moment < |s.nodeHistory| then s.nodeHistory[moment] else s.nodes
  }

  function ClustersAt(s: System, moment: nat): map<string, ClusterObj> {
    if moment < |s.clusterHistory| then s.clusterHistory[moment] else s.clusters
  }

  /** The references a pass is about to write. */
  function Patched(p: Pass): seq<OwnerRef>
    requires p.HasCluster?
  {
    Owned(p.read.refs, Canonical(p.read.clusterRef, p.uid))
  }

  /** The patch will be accepted: the node has not moved on, and no second controller arises. */
  predicate Viable(s: System, p: Pass) {
    p.HasCluster? && p.node in s.nodes && s.nodes[p.node].version == p.read.version && |Controllers(Patched(p))| <= 1
  }

  /** One event; an event that is not enabled changes nothing. */
  function Apply(s: System, e: Event): System {
    match e
    case CreateCluster(name) =>
      if name in s.clusters then s
      else PutClusters(s, s.clusters[name := ClusterObj(|s.names|, false, false)]).(names := s.names + [name])
    case AddFinalizer(name) =>
      if name in s.clusters && !s.clusters[name].deleting then
        PutClusters(s, s.clusters[name := s.clusters[name].(finalizer := true)])
      else s
    case DeleteCluster(name) =>
      if name !in s.clusters then s
      else if s.clusters[name].finalizer then PutClusters(s, s.clusters[name := s.clusters[name].(deleting := true)])
      else PutClusters(s, s.clusters - {name})
    case ListChildren(name, snapshot) =>
      if && name in s.clusters && s.clusters[name].deleting && s.clusters[name].finalizer
         && !HasChild(NodesAt(s, snapshot), name, s.clusters[name].uid)
      then
        var uid := s.clusters[name].uid;
        s.(cleared := s.cleared[name := uid], raced := if HasChild(s.nodes, name, uid) then s.raced + {uid} else s.raced - {uid})
      else s
    case Release(name) =>
      if name in s.cleared && name in s.clusters && s.clusters[name].uid == s.cleared[name] then
        PutClusters(s, s.clusters - {name}).(cleared := s.cleared - {name})
      else s.(cleared := s.cleared - {name})
    case AbandonRelease(name) => s.(cleared := s.cleared - {name})
    case SyncClusters(moment) => if s.cache <= moment <= |s.clusterHistory| then s.(cache := moment) else s
    case CreateNode(name, clusterRef, refs) =>
      if name in s.nodes || Controllers(refs) != [] then s
      else PutNode(s, name, NodeObj(clusterRef, refs, 0)).(raced := PointAt(s, clusterRef))
    case EditClusterRef(name, clusterRef) =>
      if name !in s.nodes then s
      else PutNode(s, name, s.nodes[name].(clusterRef := clusterRef)).(raced := PointAt(s, clusterRef))
    case TouchNode(name) => if name !in s.nodes then s else PutNode(s, name, s.nodes[name])
    case DeleteNode(name) => PutNodes(s, s.nodes - {name})
    case ReadNode(pass, name) =>
      if name in s.nodes && pass !in s.passes then s.(passes := s.passes[pass := HasNode(name, s.nodes[name])]) else s
    case ReadCluster(pass) =>
      var seen := ClustersAt(s, s.cache);
      if pass in s.passes && s.passes[pass].HasNode? && s.passes[pass].read.clusterRef in seen then
        var p := s.passes[pass];
        s.(passes := s.passes[pass := HasCluster(p.node, p.read, seen[p.read.clusterRef].uid)])
      else s
    case PatchNode(pass) =>
      if pass !in s.passes || !s.passes[pass].HasCluster? then s
      else
        var p := s.passes[pass];
        var done := s.(passes := s.passes - {pass});
        // otherwise a conflict when the node has moved on, a rejection when the patch adds a second controller
        if Viable(s, p) then PutNode(done, p.node, s.nodes[p.node].(refs := Patched(p))) else done
    case AbandonPass(pass) => s.(passes := s.passes - {pass})
  }

  function Execute(s: System, events: seq<Event>): System {
    Runs.Fold(Apply, s, events)
  }

  const EMPTY: System := System([], map[], [], 0, map[], [], 0, map[], map[], {})

  ghost predicate Alive(s: System, uid: nat) {
    exists c :: c in s.clusters && s.clusters[c].uid == uid
  }

  /** A controller reference to a cluster with this UID. */
  predicate Controls(r: OwnerRef, uid: nat) {
    NamesACluster(r) && IsController(r) && r.uid == uid
  }

  // ---------- The invariant ----------

  /** UIDs are never reused: each belongs to one name for good. */
  ghost predicate UidsOk(s: System) {
    && (forall k, c :: 0 <= k <= |s.clusterHistory| && c in ClustersAt(s, k) ==>
          ClustersAt(s, k)[c].uid < |s.names| && s.names[ClustersAt(s, k)[c].uid] == c)
    && (forall c :: c in s.cleared ==> s.cleared[c] < |s.names| && s.names[s.cleared[c]] == c)
    && s.cache <= |s.clusterHistory|
  }

  ghost predicate NodesOk(s: System) {
    forall n :: n in s.nodes ==> s.nodes[n].version < s.nextVersion && |Controllers(s.nodes[n].refs)| <= 1
  }

  /** A pass whose node has not moved on since it was read holds the node as it still is, and the UID it
      has read belongs to the cluster that node names. */
  ghost predicate PassOk(s: System, p: Pass) {
    && p.read.version < s.nextVersion
    && (p.node in s.nodes && s.nodes[p.node].version == p.read.version ==> s.nodes[p.node] == p.read)
    && (p.HasCluster? ==> p.uid < |s.names| && s.names[p.uid] == p.read.clusterRef)
  }

  /** A cluster cleared for release has no child, unless it was raced. */
  ghost predicate ClearedOk(s: System, c: string)
    requires c in s.cleared
  {
    c in s.clusters && s.clusters[c].uid == s.cleared[c] && s.cleared[c] !in s.raced ==> !HasChild(s.nodes, c, s.cleared[c])
  }

  ghost predicate Inv(s: System) {
    && UidsOk(s) && NodesOk(s)
    && (forall p :: p in s.passes ==> PassOk(s, s.passes[p]))
    && (forall c :: c in s.cleared ==> ClearedOk(s, c))
  }

  // ---------- Each event keeps the invariant ----------

  lemma SelectShape(refs: seq<OwnerRef>, r: OwnerRef, p: OwnerRef -> bool)
    requires r in refs && p(r)
    ensures r in Select(refs, p)
  {
  }

  /** With one controller reference at most, a reference that controls is the one that counts. */
  lemma ControllerIsUnique(refs: seq<OwnerRef>, r: OwnerRef)
    requires r in refs && IsController(r) && |Controllers(refs)| <= 1
    ensures IsControlledBy(refs, r.uid)
  {
    SelectShape(refs, r, IsController);
  }

  /** Nothing among the patched references but the one just read names a cluster. */
  lemma OwnedControls(refs: seq<OwnerRef>, name: string, uid: nat, r: OwnerRef)
    requires r in Owned(refs, Canonical(name, uid)) && NamesACluster(r)
    ensures r.uid == uid
  {
    OwnedIsCanonical(refs, name, uid);
    SelectShape(Owned(refs, Canonical(name, uid)), r, NamesACluster);
  }

  /** The canonical reference is among the patched ones. */
  lemma PatchedControls(p: Pass)
    requires p.HasCluster?
    ensures var r := Canonical(p.read.clusterRef, p.uid); r in Patched(p) && Controls(r, p.uid)
  {
    OwnedIsCanonical(p.read.refs, p.read.clusterRef, p.uid);
    SelectedOccurs(Patched(p), Canonical(p.read.clusterRef, p.uid), NamesACluster) by {
      assert Canonical(p.read.clusterRef, p.uid) in ClusterRefs(Patched(p));
    }
  }

  /** A node write: no UID cleared and not raced gains a child. */
  lemma NodeWriteKeepsInv(s: System, name: string, n: NodeObj, raced: set<nat>)
    requires Inv(s) && |Controllers(n.refs)| <= 1 && s.raced <= raced
    requires forall c :: c in s.cleared && c in s.clusters && s.clusters[c].uid == s.cleared[c] && s.cleared[c] !in raced ==>
      !IsChild(n, c, s.cleared[c])
    ensures Inv(PutNode(s, name, n).(raced := raced))
  {
    hide Controllers, IsControlledBy;
    var t := PutNode(s, name, n).(raced := raced);
    forall p | p in t.passes ensures PassOk(t, t.passes[p]) {
      assert PassOk(s, s.passes[p]);
    }
    forall c | c in t.cleared ensures ClearedOk(t, c) {
      assert ClearedOk(s, c);
    }
    assert forall k :: ClustersAt(t, k) == ClustersAt(s, k);
  }

  lemma PatchKeepsInv(s: System, pass: nat)
    requires Inv(s)
    ensures Inv(Apply(s, PatchNode(pass)))
  {
    hide IsController;
    if pass in s.passes {
      var p := s.passes[pass];
      assert PassOk(s, p);
      var done := s.(passes := s.passes - {pass});
      PassesKeepInv(s, s.passes - {pass});
      if Viable(s, p) {
        var n := s.nodes[p.node].(refs := Patched(p));
        forall c | c in s.cleared && c in s.clusters && s.clusters[c].uid == s.cleared[c] && s.cleared[c] !in s.raced
          ensures !IsChild(n, c, s.cleared[c])
        {
          assert ClearedOk(s, c);
          assert !IsChild(s.nodes[p.node], c, s.cleared[c]);
          assert s.cleared[c] != p.uid;
          PatchedIsControlled(p);
        }
        NodeWriteKeepsInv(done, p.node, n, s.raced);
      }
    }
  }

  lemma PatchedIsControlled(p: Pass)
    requires p.HasCluster? && |Controllers(Patched(p))| <= 1
    ensures forall uid: nat :: IsControlledBy(Patched(p), uid) <==> uid == p.uid
  {
    PatchedControls(p);
    ControllerIsUnique(Patched(p), Canonical(p.read.clusterRef, p.uid));
  }

  /** Fewer passes, or passes that are fine by themselves. */
  lemma PassesKeepInv(s: System, passes: map<nat, Pass>)
    requires Inv(s)
    requires forall p :: p in passes ==> (p in s.passes && passes[p] == s.passes[p]) || PassOk(s, passes[p])
    ensures Inv(s.(passes := passes))
  {
    hide IsChild, Controllers;
    var t := s.(passes := passes);
    forall p | p in passes ensures PassOk(t, passes[p]) {
      assert PassOk(s, passes[p]);
    }
    forall c | c in t.cleared ensures ClearedOk(t, c) {
      assert ClearedOk(s, c);
    }
    assert forall k :: ClustersAt(t, k) == ClustersAt(s, k);
  }

  lemma ReadKeepsInv(s: System, e: Event)
    requires Inv(s) && (e.ReadNode? || e.ReadCluster?)
    ensures Inv(Apply(s, e))
  {
    hide Controllers, IsChild;
    var t := Apply(s, e);
    assert t == s.(passes := t.passes);
    if e.ReadCluster? && e.pass in s.passes { assert PassOk(s, s.passes[e.pass]); }
    PassesKeepInv(s, t.passes);
  }

  /** A change of the cluster objects: no UID appears but a new one. */
  lemma ClusterWriteKeepsInv(s: System, clusters: map<string, ClusterObj>, names: seq<string>)
    requires Inv(s) && s.names <= names
    requires forall c :: c in clusters ==>
      (c in s.clusters && clusters[c].uid == s.clusters[c].uid) || (|s.names| <= clusters[c].uid < |names| && names[clusters[c].uid] == c)
    ensures Inv(PutClusters(s, clusters).(names := names))
  {
    hide HasChild, Controllers;
    var t := PutClusters(s, clusters).(names := names);
    assert ClustersAt(s, |s.clusterHistory|) == s.clusters;
    forall k, c | 0 <= k <= |t.clusterHistory| && c in ClustersAt(t, k)
      ensures ClustersAt(t, k)[c].uid < |names| && names[ClustersAt(t, k)[c].uid] == c
    {
      if k <= |s.clusterHistory| {
        assert ClustersAt(t, k) == ClustersAt(s, k);
      } else if c in s.clusters && clusters[c].uid == s.clusters[c].uid {
        assert c in ClustersAt(s, |s.clusterHistory|);
      }
    }
    forall p | p in t.passes ensures PassOk(t, t.passes[p]) { assert PassOk(s, s.passes[p]); }
    forall c | c in t.cleared ensures ClearedOk(t, c) { assert ClearedOk(s, c); }
  }

  /** A change of what is cleared: every entry is an old one, or justified by itself. */
  lemma ClearingKeepsInv(s: System, cleared: map<string, nat>, raced: set<nat>)
    requires Inv(s)
    requires var t := s.(cleared := cleared, raced := raced);
      forall c :: c in cleared ==>
        || (c in s.cleared && cleared[c] == s.cleared[c] && (cleared[c] in s.raced ==> cleared[c] in raced))
        || (c in s.clusters && cleared[c] == s.clusters[c].uid && ClearedOk(t, c))
    ensures Inv(s.(cleared := cleared, raced := raced))
  {
    hide HasChild, Controllers;
    var t := s.(cleared := cleared, raced := raced);
    assert ClustersAt(s, |s.clusterHistory|) == s.clusters;
    assert forall k :: ClustersAt(t, k) == ClustersAt(s, k);
    forall p | p in t.passes ensures PassOk(t, t.passes[p]) { assert PassOk(s, s.passes[p]); }
    forall c | c in cleared ensures ClearedOk(t, c) && cleared[c] < |s.names| && s.names[cleared[c]] == c {
      if c in s.cleared { assert ClearedOk(s, c); }
      if c in s.clusters { assert c in ClustersAt(s, |s.clusterHistory|); }
    }
  }

  lemma ListingKeepsInv(s: System, name: string, snapshot: nat)
    requires Inv(s)
    ensures Inv(Apply(s, ListChildren(name, snapshot)))
  {
    hide HasChild, NodesOk, PassOk, UidsOk;
    var t := Apply(s, ListChildren(name, snapshot));
    if t != s {
      var uid := s.clusters[name].uid;
      UidBelongs(s, name);
      forall c | c in s.cleared && c != name ensures s.cleared[c] != uid { ClearedBelongs(s, c); }
      ClearingKeepsInv(s, t.cleared, t.raced);
    }
  }

  lemma UidBelongs(s: System, name: string)
    requires UidsOk(s) && name in s.clusters
    ensures s.clusters[name].uid < |s.names| && s.names[s.clusters[name].uid] == name
  {
    assert ClustersAt(s, |s.clusterHistory|) == s.clusters;
  }

  lemma ClearedBelongs(s: System, name: string)
    requires UidsOk(s) && name in s.cleared
    ensures s.cleared[name] < |s.names| && s.names[s.cleared[name]] == name
  {}

  lemma ReleaseKeepsInv(s: System, name: string)
    requires Inv(s)
    ensures Inv(Apply(s, Release(name)))
  {
    hide HasChild, NodesOk, PassOk, UidsOk, ClearedOk;
    ClearingKeepsInv(s, s.cleared - {name}, s.raced);
    var t := s.(cleared := s.cleared - {name}, raced := s.raced);
    if name in s.cleared && name in s.clusters && s.clusters[name].uid == s.cleared[name] {
      ClusterWriteKeepsInv(t, s.clusters - {name}, s.names);
    }
  }

  lemma SyncKeepsInv(s: System, moment: nat)
    requires Inv(s)
    ensures Inv(Apply(s, SyncClusters(moment)))
  {
    hide HasChild, Controllers;
    var t := Apply(s, SyncClusters(moment));
    assert forall k :: ClustersAt(t, k) == ClustersAt(s, k);
    forall p | p in t.passes ensures PassOk(t, t.passes[p]) { assert PassOk(s, s.passes[p]); }
    forall c | c in t.cleared ensures ClearedOk(t, c) { assert ClearedOk(s, c); }
  }

  lemma StepKeepsInv(s: System, e: Event)
    requires Inv(s)
    ensures Inv(Apply(s, e))
  {
    hide Inv, IsChild, HasChild;
    match e
    case CreateCluster(name) =>
      if name !in s.clusters {
        ClusterWriteKeepsInv(s, s.clusters[name := ClusterObj(|s.names|, false, false)], s.names + [name]);
      }
    case AddFinalizer(name) =>
      if name in s.clusters && !s.clusters[name].deleting {
        ClusterWriteKeepsInv(s, s.clusters[name := s.clusters[name].(finalizer := true)], s.names);
      }
    case DeleteCluster(name) =>
      if name in s.clusters {
        ClusterWriteKeepsInv(s, s.clusters[name := s.clusters[name].(deleting := true)], s.names);
        ClusterWriteKeepsInv(s, s.clusters - {name}, s.names);
      }
    case ListChildren(name, snapshot) => ListingKeepsInv(s, name, snapshot);
    case Release(name) => ReleaseKeepsInv(s, name);
    case AbandonRelease(name) => AbandonKeepsInv(s, name);
    case SyncClusters(moment) => SyncKeepsInv(s, moment);
    case CreateNode(name, clusterRef, refs) =>
      if name !in s.nodes && Controllers(refs) == [] { PointKeepsInv(s, name, NodeObj(clusterRef, refs, 0)); }
    case EditClusterRef(name, clusterRef) =>
      if name in s.nodes { PointKeepsInv(s, name, s.nodes[name].(clusterRef := clusterRef)); }
    case TouchNode(name) => TouchKeepsInv(s, name);
    case DeleteNode(name) => DeleteNodeKeepsInv(s, name);
    case ReadNode(_, _) => ReadKeepsInv(s, e);
    case ReadCluster(_) => ReadKeepsInv(s, e);
    case PatchNode(pass) => PatchKeepsInv(s, pass);
    case AbandonPass(pass) => PassesKeepInv(s, s.passes - {pass});
  }

  lemma AbandonKeepsInv(s: System, name: string)
    requires Inv(s)
    ensures Inv(s.(cleared := s.cleared - {name}))
  {
    hide HasChild, NodesOk, PassOk, UidsOk, ClearedOk;
    ClearingKeepsInv(s, s.cleared - {name}, s.raced);
    assert s.(cleared := s.cleared - {name}) == s.(cleared := s.cleared - {name}, raced := s.raced);
  }

  /** Pointing a node at a cluster, by creation or by an edit of its clusterRef. */
  lemma PointKeepsInv(s: System, name: string, n: NodeObj)
    requires Inv(s)
    requires Controllers(n.refs) == [] || (name in s.nodes && n.refs == s.nodes[name].refs)
    ensures Inv(PutNode(s, name, n).(raced := PointAt(s, n.clusterRef)))
  {
    if name in s.nodes { OldChildrenAreKnown(s, name); }
    NodeWriteKeepsInv(s, name, n, PointAt(s, n.clusterRef));
  }

  lemma TouchKeepsInv(s: System, name: string)
    requires Inv(s)
    ensures Inv(Apply(s, TouchNode(name)))
  {
    if name in s.nodes {
      OldChildrenAreKnown(s, name);
      NodeWriteKeepsInv(s, name, s.nodes[name], s.raced);
      assert Apply(s, TouchNode(name)) == PutNode(s, name, s.nodes[name]).(raced := s.raced);
    }
  }

  lemma OldChildrenAreKnown(s: System, name: string)
    requires Inv(s) && name in s.nodes
    ensures forall c :: c in s.cleared && c in s.clusters && s.clusters[c].uid == s.cleared[c] && s.cleared[c] !in s.raced ==>
      !IsChild(s.nodes[name], c, s.cleared[c])
  {
    forall c | c in s.cleared && c in s.clusters && s.clusters[c].uid == s.cleared[c] && s.cleared[c] !in s.raced
      ensures !IsChild(s.nodes[name], c, s.cleared[c])
    {
      assert ClearedOk(s, c);
    }
  }

  lemma DeleteNodeKeepsInv(s: System, name: string)
    requires Inv(s)
    ensures Inv(Apply(s, DeleteNode(name)))
  {
    hide IsChild, Controllers;
    var t := Apply(s, DeleteNode(name));
    forall p | p in t.passes ensures PassOk(t, t.passes[p]) {
      assert PassOk(s, s.passes[p]);
    }
    forall c | c in t.cleared ensures ClearedOk(t, c) {
      assert ClearedOk(s, c);
    }
    assert forall k :: ClustersAt(t, k) == ClustersAt(s, k);
  }

  lemma ReachableInv(events: seq<Event>)
    ensures Inv(Execute(EMPTY, events))
  {
    assert Inv(EMPTY);
    hide Inv, Apply;
    forall t, e | Inv(t) ensures Inv(Apply(t, e)) { StepKeepsInv(t, e); }
    Runs.Keeps(Apply, Inv, EMPTY, events);
  }
}

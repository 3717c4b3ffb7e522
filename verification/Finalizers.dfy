/** What the finalizer of a cluster holds back: a cluster that carries it leaves only after a deletion pass whose list
    of nodes showed no child. */
module Finalizers {
  import opened OwnerRefs
  import opened Ownership
  import Runs

  /** A child by its spec or by the UID of its controller. */
  predicate Belongs(n: NodeObj, name: string, uid: nat) {
    n.clusterRef == name || IsControlledBy(n.refs, uid)
  }

  /** Event i is a deletion pass over a cluster that is being deleted, and no node belonged to it at the moment that the
      listed snapshot shows. */
  ghost predicate LetsGo(events: seq<Event>, i: nat, snapshot: nat, name: string, uid: nat)
    requires i < |events|
  {
    var t := Execute(EMPTY, events[..i]);
    && events[i] == ListChildren(name, snapshot)
    && name in t.clusters && t.clusters[name] == ClusterObj(uid, true, true)
    && forall n :: n in NodesAt(t, snapshot) ==> !Belongs(NodesAt(t, snapshot)[n], name, uid)
  }

  lemma OneEvent(events: seq<Event>)
    requires events != []
    ensures Execute(EMPTY, events) == Apply(Execute(EMPTY, events[..|events| - 1]), events[|events| - 1])
  {
    var n := |events| - 1;
    assert events == events[..n] + [events[n]];
    Runs.OneMore(Apply, EMPTY, events[..n], events[n]);
  }

  /** Only such a pass clears a cluster for release. */
  lemma ClearedBy(s: System, e: Event, name: string)
    requires name in Apply(s, e).cleared && !(name in s.cleared && s.cleared[name] == Apply(s, e).cleared[name])
    ensures e.ListChildren? && e.name == name && name in s.clusters
    ensures s.clusters[name] == ClusterObj(Apply(s, e).cleared[name], true, true)
    ensures forall n :: n in NodesAt(s, e.snapshot) ==> !Belongs(NodesAt(s, e.snapshot)[n], name, s.clusters[name].uid)
  {
    hide Owned, IsControlledBy, Viable, Patched;
    assert e.ListChildren? && e.name == name;
    assert forall n :: n in NodesAt(s, e.snapshot) ==>
      (Belongs(NodesAt(s, e.snapshot)[n], name, s.clusters[name].uid) <==> IsChild(NodesAt(s, e.snapshot)[n], name, s.clusters[name].uid));
  }

  lemma {:induction false} ClearedWasListed(events: seq<Event>, name: string) returns (i: nat, snapshot: nat)
    requires name in Execute(EMPTY, events).cleared
    ensures i < |events| && LetsGo(events, i, snapshot, name, Execute(EMPTY, events).cleared[name])
    decreases |events|
  {
    assert Execute(EMPTY, []) == EMPTY;
    var n := |events| - 1;
    var s, e := Execute(EMPTY, events[..n]), events[n];
    OneEvent(events);
    if name in s.cleared && s.cleared[name] == Execute(EMPTY, events).cleared[name] {
      i, snapshot := ClearedWasListed(events[..n], name);
      assert events[..n][..i] == events[..i];
    } else {
      hide Execute, Apply;
      ClearedBy(s, e, name);
      i, snapshot := n, e.snapshot;
    }
  }

  /** An event that removes a cluster. */
  lemma RemovedBy(s: System, e: Event, name: string)
    requires name in s.clusters && name !in Apply(s, e).clusters
    ensures e == Release(name) || (e == DeleteCluster(name) && !s.clusters[name].finalizer)
    ensures e == Release(name) ==> name in s.cleared && s.cleared[name] == s.clusters[name].uid
  {
    hide Owned, IsControlledBy, Viable, Patched, HasChild, NodesAt;
  }

  /** The finalizer holds: in every run, an event that removes a cluster that carries it is the release by a deletion
      pass, and that pass has listed no child of it. */
  lemma FinalizerHolds(events: seq<Event>, e: Event, name: string)
    requires var t := Execute(EMPTY, events);
      name in t.clusters && t.clusters[name].finalizer && name !in Apply(t, e).clusters
    ensures e == Release(name)
    ensures exists i: nat, snapshot: nat :: i < |events| && LetsGo(events, i, snapshot, name, Execute(EMPTY, events).clusters[name].uid)
  {
    hide Execute, Apply;
    RemovedBy(Execute(EMPTY, events), e, name);
    var i, snapshot := ClearedWasListed(events, name);
    assert LetsGo(events, i, snapshot, name, Execute(EMPTY, events).clusters[name].uid);
  }

  /** And it does not hold for longer: a deletion pass over a list without children lets the cluster go, whoever it is and
      whatever the nodes do meanwhile. */
  lemma ChildlessDeletionEnds(s: System, name: string, snapshot: nat)
    requires name in s.clusters && s.clusters[name].deleting && s.clusters[name].finalizer
    requires forall n :: n in NodesAt(s, snapshot) ==> !Belongs(NodesAt(s, snapshot)[n], name, s.clusters[name].uid)
    ensures var t := Execute(s, [ListChildren(name, snapshot), Release(name)]);
      t.clusters == s.clusters - {name} && t.nodes == s.nodes && t.passes == s.passes
  {
    var t := Apply(s, ListChildren(name, snapshot));
    assert forall n :: n in NodesAt(s, snapshot) ==>
      (IsChild(NodesAt(s, snapshot)[n], name, s.clusters[name].uid) <==> Belongs(NodesAt(s, snapshot)[n], name, s.clusters[name].uid));
    assert !HasChild(NodesAt(s, snapshot), name, s.clusters[name].uid);
    hide HasChild, NodesAt;
    Twice(s, ListChildren(name, snapshot), Release(name));
  }

  /** Such a pass counts as raced exactly when a node belongs to the cluster by now; on a current list it never does. */
  lemma RacedIff(s: System, name: string, snapshot: nat)
    requires name in s.clusters && s.clusters[name].deleting && s.clusters[name].finalizer
    requires forall n :: n in NodesAt(s, snapshot) ==> !Belongs(NodesAt(s, snapshot)[n], name, s.clusters[name].uid)
    ensures var uid := s.clusters[name].uid;
      uid in Apply(s, ListChildren(name, snapshot)).raced <==> exists n :: n in s.nodes && Belongs(s.nodes[n], name, uid)
    ensures snapshot >= |s.nodeHistory| ==> s.clusters[name].uid !in Apply(s, ListChildren(name, snapshot)).raced
  {
    var uid := s.clusters[name].uid;
    assert forall n :: n in NodesAt(s, snapshot) ==>
      (IsChild(NodesAt(s, snapshot)[n], name, uid) <==> Belongs(NodesAt(s, snapshot)[n], name, uid));
    assert !HasChild(NodesAt(s, snapshot), name, uid);
    assert forall n :: n in s.nodes ==> (IsChild(s.nodes[n], name, uid) <==> Belongs(s.nodes[n], name, uid));
    hide IsControlledBy;
  }

  lemma Twice(s: System, d: Event, e: Event)
    ensures Execute(s, [d, e]) == Apply(Apply(s, d), e)
  {
    hide Apply;
    Runs.OneMore(Apply, s, [d], e);
    Runs.OneMore(Apply, s, [], d);
    assert [d] + [e] == [d, e] && [] + [d] == [d];
  }

  /** A live cluster gets its finalizer, and its deletion then only marks it; without one it goes at once. */
  lemma DeletionWaits(s: System, name: string)
    requires name in s.clusters && !s.clusters[name].deleting
    ensures Execute(s, [AddFinalizer(name), DeleteCluster(name)]).clusters ==
      s.clusters[name := ClusterObj(s.clusters[name].uid, true, true)]
    ensures !s.clusters[name].finalizer ==> Apply(s, DeleteCluster(name)).clusters == s.clusters - {name}
  {
    Twice(s, AddFinalizer(name), DeleteCluster(name));
  }
}

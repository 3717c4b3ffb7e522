/** Cleaning up the children a node leaves behind when its clusterRef moves. */
module OrphanCleanup {

  datatype Kind = HorizontalPodAutoscaler | PodDisruptionBudget | NetworkPolicy | Deployment | Service

  datatype Ref = Ref(kind: Kind, name: string)

  /** `labelled`: the managed-by label names the operator; `controller` is the controlling owner's UID, or "". */
  datatype Child = Child(labelled: bool, controller: string)

  type Children = map<Ref, Child>

  /** A child of this node. */
  predicate Own(c: Child, uid: string) {
    c.labelled && c.controller == uid
  }

  /** A child of this node under a name other than the current one. */
  predicate Orphan(r: Ref, c: Child, uid: string, keep: string) {
    Own(c, uid) && r.name != keep
  }

  function Orphans(children: Children, uid: string, keep: string): set<Ref> {
    set r | r in children && Orphan(r, children[r], uid, keep)
  }

  /** A pass over the listed orphans removed `gone` from the live children; a clean one removed all of them. */
  predicate Swept(before: Children, after: Children, gone: set<Ref>, listed: set<Ref>, ok: bool) {
    gone <= listed && after == before - gone && (ok ==> gone == listed)
  }

  class Cluster {
    var children: Children

    /** A delete by kind and name; NotFound counts as success, any other error leaves the object. */
    method Delete(r: Ref, fails: set<Ref>) returns (ok: bool)
      modifies this
      ensures ok <==> r !in fails
      ensures children == if ok then old(children) - {r} else old(children)
    {
      ok := r !in fails;
      if ok {
        children := children - {r};
      }
    }
  }

  /** The listed orphans of one kind. */
  function OrphansOf(kind: Kind, seen: Children, uid: string, keep: string): set<Ref> {
    set r | r in Orphans(seen, uid, keep) && r.kind == kind
  }

  /** The loop over one kind. */
  method CleanKind(store: Cluster, seen: Children, kind: Kind, uid: string, keep: string, fails: set<Ref>)
    returns (ok: bool, ghost gone: set<Ref>)
    modifies store
    ensures Swept(old(store.children), store.children, gone, OrphansOf(kind, seen, uid, keep), ok)
    ensures !ok ==> fails * OrphansOf(kind, seen, uid, keep) != {}
    ensures forall r :: r in old(store.children) && r !in store.children ==>
      r.kind == kind && r in seen && seen[r].labelled && seen[r].controller == uid && r.name != keep
    ensures ok ==> forall r :: r in store.children && r.kind == kind && r in seen ==>
      !seen[r].labelled || seen[r].controller != uid || r.name == keep
    ensures forall r :: r in store.children ==> r in old(store.children) && store.children[r] == old(store.children)[r]
  {
    var rest := set r | r in seen && r.kind == kind && seen[r].labelled;
    gone := {};
    while rest != {}
      invariant rest <= set r | r in seen && r.kind == kind && seen[r].labelled
      invariant gone <= OrphansOf(kind, seen, uid, keep) <= gone + rest
      invariant store.children == old(store.children) - gone
      decreases rest
    {
      var r :| r in rest;
      rest := rest - {r};
      if r.name == keep {
        continue;
      }
      if seen[r].controller != uid {
        continue;
      }
      assert r in OrphansOf(kind, seen, uid, keep);
      ok := store.Delete(r, fails);
      if !ok {
        assert r in fails * OrphansOf(kind, seen, uid, keep);
        return false, gone;
      }
      gone := gone + {r};
    }
    return true, gone;
  }

  const KINDS: seq<Kind> := [HorizontalPodAutoscaler, PodDisruptionBudget, NetworkPolicy, Deployment, Service]

  lemma EveryKindIsListed()
    ensures forall k: Kind :: k in KINDS
  {
    forall k: Kind ensures k in KINDS {
      match k
      case HorizontalPodAutoscaler => assert KINDS[0] == k;
      case PodDisruptionBudget => assert KINDS[1] == k;
      case NetworkPolicy => assert KINDS[2] == k;
      case Deployment => assert KINDS[3] == k;
      case Service => assert KINDS[4] == k;
    }
  }

  /** cleanupOrphanChildren: a pass removes only listed orphans, a clean one removes all of them. What counts is the
      list: a live child goes exactly when the list showed an orphan under its kind and name, whoever owns the live
      one. On a current list that spares everything foreign, unlabelled or correctly named. */
  method CleanupOrphanChildren(store: Cluster, seen: Children, uid: string, keep: string, fails: set<Ref>)
    returns (ok: bool, ghost gone: set<Ref>)
    modifies store
    ensures Swept(old(store.children), store.children, gone, Orphans(seen, uid, keep), ok)
    ensures !ok ==> fails * Orphans(seen, uid, keep) != {}
    ensures forall r :: r in old(store.children) && r !in store.children ==>
      r in seen && seen[r].labelled && seen[r].controller == uid && r.name != keep
    ensures ok ==> forall r :: r in old(store.children) ==>
      (r !in store.children <==> r in seen && seen[r].labelled && seen[r].controller == uid && r.name != keep)
    ensures ok && seen == old(store.children) ==> forall r :: r in old(store.children) ==>
      (r in store.children <==> !seen[r].labelled || seen[r].controller != uid || r.name == keep)
    ensures forall r :: r in store.children ==> r in old(store.children) && store.children[r] == old(store.children)[r]
  {
    gone := {};
    for i := 0 to |KINDS|
      invariant gone == set r | r in Orphans(seen, uid, keep) && r.kind in KINDS[..i]
      invariant store.children == old(store.children) - gone
    {
      assert forall k :: k in KINDS[..i + 1] <==> k in KINDS[..i] || k == KINDS[i];
      ghost var more;
      ok, more := CleanKind(store, seen, KINDS[i], uid, keep, fails);
      gone := gone + more;
      if !ok {
        return false, gone;
      }
    }
    assert KINDS[..|KINDS|] == KINDS;
    EveryKindIsListed();
    assert gone == Orphans(seen, uid, keep);
    return true, gone;
  }

  // ---------- Moves ----------

  datatype State = State(clusterRef: string, children: Children)

  /** A reconcile works with the clusterRef and the lists it has read, both possibly old; its cleanup removes `gone`
      and may fail half way, and only after a clean one it creates children of some kinds. */
  datatype Event =
    | Edit(clusterRef: string)
    | Outside(children: Children)
    | Reconcile(clusterRef: string, seen: Children, gone: set<Ref>, ok: bool, kinds: set<Kind>)

  /** The naming function. Nothing is assumed about it but that it is a function of cluster and node. */
  datatype Naming = Naming(ownedName: string -> string)

  /** CreateOrUpdate of the wanted kinds under one name; a child somebody else controls is not taken. */
  function Upsert(children: Children, kinds: set<Kind>, uid: string, keep: string): Children {
    children + map k | k in kinds && Ref(k, keep) !in children :: Ref(k, keep) := Child(true, uid)
  }

  function Step(s: State, e: Event, uid: string, naming: Naming): State {
    match e
    case Edit(ref) => s.(clusterRef := ref)
    case Outside(children) => s.(children := children)
    case Reconcile(ref, _, gone, ok, kinds) =>
      var left := s.children - gone;
      s.(children := if ok then Upsert(left, kinds, uid, naming.ownedName(ref)) else left)
  }

  /** Others add no children of this node; a cleanup sweeps what its lists show. */
  ghost predicate Legal(s: State, e: Event, uid: string, naming: Naming) {
    match e
    case Edit(_) => true
    case Outside(children) =>
      forall r :: r in children && Own(children[r], uid) ==> r in s.children && Own(s.children[r], uid)
    case Reconcile(ref, seen, gone, ok, _) =>
      Swept(s.children, s.children - gone, gone, Orphans(seen, uid, naming.ownedName(ref)), ok)
  }

  /** The state after the first k events. */
  function At(s: State, events: seq<Event>, k: nat, uid: string, naming: Naming): State
    requires k <= |events|
  {
    if k == 0 then s else Step(At(s, events, k - 1, uid, naming), events[k - 1], uid, naming)
  }

  function End(s: State, events: seq<Event>, uid: string, naming: Naming): State {
    At(s, events, |events|, uid, naming)
  }

  ghost predicate LegalRun(s: State, events: seq<Event>, uid: string, naming: Naming) {
    forall k :: 0 <= k < |events| ==> Legal(At(s, events, k, uid, naming), events[k], uid, naming)
  }

  predicate Agree(kind: Kind, seen: Children, live: Children) {
    forall r :: r in seen.Keys + live.Keys && r.kind == kind ==> r in seen && r in live && seen[r] == live[r]
  }

  /** The list of one kind is a snapshot taken between m and i. */
  ghost predicate Snapshot(s: State, events: seq<Event>, m: nat, i: nat, kind: Kind, seen: Children, uid: string, naming: Naming)
    requires i <= |events|
  {
    exists j :: m <= j <= i && Agree(kind, seen, At(s, events, j, uid, naming).children)
  }

  /** The lists that event i reads, one a kind, each taken at some time since m. */
  ghost predicate ListedSince(s: State, events: seq<Event>, m: nat, i: nat, uid: string, naming: Naming)
    requires i < |events| && events[i].Reconcile?
  {
    forall kind: Kind :: Snapshot(s, events, m, i, kind, events[i].seen, uid, naming)
  }

  /** From event m on every reconcile works for this cluster. */
  predicate WorksFor(events: seq<Event>, m: nat, ref: string) {
    forall j :: m <= j < |events| && events[j].Reconcile? ==> events[j].clusterRef == ref
  }

  /** While reconciles work for one cluster, stale children only disappear. */
  lemma StepSweeps(s: State, e: Event, ref: string, uid: string, naming: Naming)
    requires Legal(s, e, uid, naming) && (e.Reconcile? ==> e.clusterRef == ref)
    ensures var keep := naming.ownedName(ref);
      Orphans(Step(s, e, uid, naming).children, uid, keep) <= Orphans(s.children, uid, keep)
  {}

  lemma {:induction false} StaleShrinks(s: State, events: seq<Event>, m: nat, j: nat, k: nat, ref: string, uid: string, naming: Naming)
    requires LegalRun(s, events, uid, naming) && WorksFor(events, m, ref) && m <= j <= k <= |events|
    ensures var keep := naming.ownedName(ref);
      Orphans(At(s, events, k, uid, naming).children, uid, keep) <= Orphans(At(s, events, j, uid, naming).children, uid, keep)
  {
    hide Orphans, Step, Legal;
    if j < k {
      StaleShrinks(s, events, m, j, k - 1, ref, uid, naming);
      StepSweeps(At(s, events, k - 1, uid, naming), events[k - 1], ref, uid, naming);
    }
  }

  /** A clean pass over lists taken since m finds every stale child. */
  lemma PassFindsAll(s: State, events: seq<Event>, m: nat, i: nat, ref: string, uid: string, naming: Naming)
    requires LegalRun(s, events, uid, naming) && WorksFor(events, m, ref) && m <= i < |events|
    requires events[i].Reconcile? && events[i].ok && ListedSince(s, events, m, i, uid, naming)
    ensures Orphans(At(s, events, i + 1, uid, naming).children, uid, naming.ownedName(ref)) == {}
  {
    var keep, e := naming.ownedName(ref), events[i];
    var before := At(s, events, i, uid, naming);
    assert Legal(before, e, uid, naming);
    forall r | r in Orphans(before.children, uid, keep) ensures r in e.gone {
      assert Snapshot(s, events, m, i, r.kind, e.seen, uid, naming);
      var j :| m <= j <= i && Agree(r.kind, e.seen, At(s, events, j, uid, naming).children);
      StaleShrinks(s, events, m, j, i, ref, uid, naming);
      assert r in Orphans(At(s, events, j, uid, naming).children, uid, keep);
      assert r in Orphans(e.seen, uid, keep);
    }
    StepSweeps(before, e, ref, uid, naming);
  }

  /** Whatever the moves, failed passes and old reads so far: once all reconciles work for one cluster, a single
      clean pass over lists taken since then leaves no child of the node under another name, and it stays so. */
  lemma MoveLeavesNoOrphan(s: State, events: seq<Event>, m: nat, i: nat, ref: string, uid: string, naming: Naming)
    requires LegalRun(s, events, uid, naming) && WorksFor(events, m, ref) && m <= i < |events|
    requires events[i].Reconcile? && events[i].ok && ListedSince(s, events, m, i, uid, naming)
    ensures var end := End(s, events, uid, naming).children;
      forall r :: r in end && Own(end[r], uid) ==> r.name == naming.ownedName(ref)
  {
    PassFindsAll(s, events, m, i, ref, uid, naming);
    StaleShrinks(s, events, m, i + 1, |events|, ref, uid, naming);
    var end, keep := End(s, events, uid, naming).children, naming.ownedName(ref);
    forall r | r in end && Own(end[r], uid) ensures r.name == keep {
      assert r !in Orphans(end, uid, keep);
    }
  }

  /** Children that are never this node's survive every run of moves and reconciles as they are, however old the
      lists. */
  lemma {:induction false} OthersAreSpared(s: State, events: seq<Event>, k: nat, r: Ref, uid: string, naming: Naming)
    requires LegalRun(s, events, uid, naming) && k <= |events|
    requires forall j :: 0 <= j < |events| ==> !events[j].Outside?
    requires forall j :: 0 <= j < |events| && events[j].Reconcile? ==> ListedSince(s, events, 0, j, uid, naming)
    requires r in s.children && !Own(s.children[r], uid)
    ensures var t := At(s, events, k, uid, naming); r in t.children && t.children[r] == s.children[r]
  {
    hide Legal, Step, Own, Agree;
    if k > 0 {
      var e, t := events[k - 1], At(s, events, k - 1, uid, naming);
      OthersAreSpared(s, events, k - 1, r, uid, naming);
      assert Legal(t, e, uid, naming);
      if e.Reconcile? {
        assert Snapshot(s, events, 0, k - 1, r.kind, e.seen, uid, naming);
        var j :| 0 <= j <= k - 1 && Agree(r.kind, e.seen, At(s, events, j, uid, naming).children);
        OthersAreSpared(s, events, j, r, uid, naming);
        UnlistedIsKept(t, e, At(s, events, j, uid, naming).children, r, uid, naming);
      } else {
        EditKeepsChildren(t, e, uid, naming);
      }
    }
  }

  /** A pass does not touch what its snapshot did not show as this node's. */
  lemma UnlistedIsKept(t: State, e: Event, snapshot: Children, r: Ref, uid: string, naming: Naming)
    requires e.Reconcile? && Legal(t, e, uid, naming) && Agree(r.kind, e.seen, snapshot)
    requires r in t.children && r in snapshot && !Own(snapshot[r], uid)
    ensures var u := Step(t, e, uid, naming); r in u.children && u.children[r] == t.children[r]
  {
    assert e.seen[r] == snapshot[r];
    assert r !in e.gone;
  }

  lemma EditKeepsChildren(t: State, e: Event, uid: string, naming: Naming)
    requires e.Edit?
    ensures Step(t, e, uid, naming).children == t.children
  {}

  /** A correctly named child is not touched either, however often the node reconciles. */
  lemma {:induction false} CurrentIsSpared(s: State, events: seq<Event>, k: nat, r: Ref, ref: string, uid: string, naming: Naming)
    requires LegalRun(s, events, uid, naming) && k <= |events| && WorksFor(events, 0, ref)
    requires forall j :: 0 <= j < |events| ==> !events[j].Outside?
    requires r in s.children && r.name == naming.ownedName(ref)
    ensures var t := At(s, events, k, uid, naming); r in t.children && t.children[r] == s.children[r]
  {
    if k > 0 {
      CurrentIsSpared(s, events, k - 1, r, ref, uid, naming);
      assert Legal(At(s, events, k - 1, uid, naming), events[k - 1], uid, naming);
    }
  }

  /** Never having been this node's is needed: in every state with an orphan, if somebody else takes over its kind
      and name, a clean pass over the list from before deletes the successor. */
  lemma OldListDeletesSuccessor(s: State, r: Ref, other: Child, uid: string, naming: Naming)
    requires r in Orphans(s.children, uid, naming.ownedName(s.clusterRef)) && !Own(other, uid)
    ensures var keep := naming.ownedName(s.clusterRef);
      var events := [Outside(s.children[r := other]),
                     Reconcile(s.clusterRef, s.children, Orphans(s.children, uid, keep), true, {})];
      && LegalRun(s, events, uid, naming) && ListedSince(s, events, 0, 1, uid, naming)
      && r in At(s, events, 1, uid, naming).children && At(s, events, 1, uid, naming).children[r] == other
      && r !in End(s, events, uid, naming).children
  {
    var keep := naming.ownedName(s.clusterRef);
    var gone := Orphans(s.children, uid, keep);
    var first, second := Outside(s.children[r := other]), Reconcile(s.clusterRef, s.children, gone, true, {});
    var events := [first, second];
    hide Orphans, Upsert;
    assert At(s, events, 0, uid, naming) == s;
    var t := Step(s, first, uid, naming);
    assert At(s, events, 1, uid, naming) == t;
    assert Legal(t, second, uid, naming);
    forall kind: Kind ensures Snapshot(s, events, 0, 1, kind, s.children, uid, naming) {
      assert Agree(kind, s.children, At(s, events, 0, uid, naming).children);
    }
    NothingUpserted(t.children - gone, uid, keep);
    assert End(s, events, uid, naming) == Step(t, second, uid, naming);
  }

  lemma NothingUpserted(children: Children, uid: string, keep: string)
    ensures Upsert(children, {}, uid, keep) == children
  {}
}

/** Choosing the pods of the newest ReplicaSet. */
module CurrentReplicaSet {
  import opened Wrappers
  import opened Ordering
  import opened PodStates

  const ZERO_TIME: nat := 0

  function ControllerReplicaSet(refs: seq<OwnerRef>): Option<string> {
    if refs == [] then None
    else if refs[0].kind == "ReplicaSet" && refs[0].controller == Some(true) then Some(refs[0].uid)
    else ControllerReplicaSet(refs[1..])
  }

  /** The ReplicaSet a pod counts for; none while the pod is being deleted. */
  function OwnerOf(p: Pod): Option<string> {
    if p.deleting then None else ControllerReplicaSet(p.owners)
  }

  /** The live pods of one ReplicaSet, in list order. */
  function PodsOf(pods: seq<Pod>, uid: string): (r: seq<Pod>)
    ensures forall p :: p in r <==> p in pods && OwnerOf(p) == Some(uid)
  {
    if pods == [] then []
    else
      var p := pods[|pods| - 1];
      assert pods == pods[..|pods| - 1] + [p];
      PodsOf(pods[..|pods| - 1], uid) + (if OwnerOf(p) == Some(uid) then [p] else [])
  }

  /** The newest creation time, never below the zero time. */
  function Newest(pods: seq<Pod>): (t: nat)
    ensures t >= ZERO_TIME && forall p :: p in pods ==> p.created <= t
  {
    if pods == [] then ZERO_TIME
    else
      var p := pods[|pods| - 1];
      var t := Newest(pods[..|pods| - 1]);
      assert pods == pods[..|pods| - 1] + [p];
      if p.created > t then p.created else t
  }

  /** A ReplicaSet precedes another when its newest pod is younger, or as young and its UID smaller. */
  predicate Precedes(pods: seq<Pod>, u: string, v: string) {
    var tu, tv := Newest(PodsOf(pods, u)), Newest(PodsOf(pods, v));
    tu > tv || (tu == tv && Less(u, v))
  }

  lemma PrecedesIsAnOrder(pods: seq<Pod>, u: string, v: string, w: string)
    ensures u == v || Precedes(pods, u, v) || Precedes(pods, v, u)
    ensures !(Precedes(pods, u, v) && Precedes(pods, v, u))
    ensures Precedes(pods, u, v) && Precedes(pods, v, w) ==> Precedes(pods, u, w)
  {
    hide PodsOf, Newest;
    LessTotal(u, v);
    if Less(u, v) && Less(v, w) { LessTransitive(u, v, w); }
  }

  /** w has live pods and precedes every other ReplicaSet of `us` that has some. */
  ghost predicate Leads(pods: seq<Pod>, us: set<string>, w: string) {
    w in us && forall v :: v in us && v != w ==> Precedes(pods, w, v)
  }

  /** The UIDs of the ReplicaSets with live pods. */
  ghost function Uids(pods: seq<Pod>): (us: set<string>)
    ensures forall u :: u in us <==> PodsOf(pods, u) != []
  {
    var us := set p | p in pods && OwnerOf(p).Some? :: OwnerOf(p).value;
    assert forall u :: u in us <==> PodsOf(pods, u) != [] by {
      forall u ensures u in us <==> PodsOf(pods, u) != [] {
        if PodsOf(pods, u) != [] {
          assert PodsOf(pods, u)[0] in PodsOf(pods, u);
        }
      }
    }
    us
  }

  lemma OneMoreContender(pods: seq<Pod>, us: set<string>, w: string, u: string)
    requires Leads(pods, us, w)
    ensures Leads(pods, us + {u}, if Precedes(pods, u, w) then u else w)
  {
    hide Precedes;
    forall v ensures Precedes(pods, u, w) && Precedes(pods, w, v) ==> Precedes(pods, u, v) {
      PrecedesIsAnOrder(pods, u, w, v);
    }
    PrecedesIsAnOrder(pods, u, w, w);
  }

  lemma {:induction false} LeaderExists(pods: seq<Pod>, us: set<string>) returns (w: string)
    requires us != {}
    ensures Leads(pods, us, w)
    decreases us
  {
    hide Precedes;
    var u :| u in us;
    if us == {u} {
      w := u;
    } else {
      assert us <= {u} ==> us == {u};
      var x := LeaderExists(pods, us - {u});
      OneMoreContender(pods, us - {u}, x, u);
      assert us - {u} + {u} == us;
      w := if Precedes(pods, u, x) then u else x;
    }
  }

  /** The leader is unique: the iteration order of the group map is never visible. */
  lemma LeaderIsUnique(pods: seq<Pod>, us: set<string>, w: string, x: string)
    requires Leads(pods, us, w) && Leads(pods, us, x)
    ensures w == x
  {
    PrecedesIsAnOrder(pods, w, x, x);
  }

  /** The live pods of the newest ReplicaSet; nothing when no live pod has one. */
  ghost function Current(pods: seq<Pod>): (r: seq<Pod>) {
    if Uids(pods) == {} then []
    else
      assert exists w :: Leads(pods, Uids(pods), w) by { var w := LeaderExists(pods, Uids(pods)); }
      var w :| Leads(pods, Uids(pods), w);
      PodsOf(pods, w)
  }

  lemma CurrentIs(pods: seq<Pod>, w: string)
    requires Leads(pods, Uids(pods), w)
    ensures Current(pods) == PodsOf(pods, w)
  {
    forall x | Leads(pods, Uids(pods), x) ensures x == w {
      LeaderIsUnique(pods, Uids(pods), w, x);
    }
  }

  // ---------- The grouping loop ----------

  datatype Group = Group(pods: seq<Pod>, newest: nat)

  const EMPTY: Group := Group([], ZERO_TIME)

  function AddPod(g: Group, p: Pod): Group {
    Group(g.pods + [p], if p.created > g.newest then p.created else g.newest)
  }

  /** The group of one UID: its live pods and their newest creation time. */
  function GroupOf(pods: seq<Pod>, u: string): Group {
    Group(PodsOf(pods, u), Newest(PodsOf(pods, u)))
  }

  /** The map holds exactly the ReplicaSets with live pods. */
  ghost predicate Grouped(groups: map<string, Group>, pods: seq<Pod>) {
    && groups.Keys == Uids(pods)
    && forall u :: u in groups ==> groups[u] == GroupOf(pods, u)
  }

  lemma GroupOneMore(pods: seq<Pod>, p: Pod, u: string)
    ensures GroupOf(pods + [p], u) == if OwnerOf(p) == Some(u) then AddPod(GroupOf(pods, u), p) else GroupOf(pods, u)
  {
    assert (pods + [p])[..|pods|] == pods;
    var r := PodsOf(pods, u);
    assert (r + [p])[..|r|] == r;
  }

  /** One turn of the grouping loop. */
  function Regroup(groups: map<string, Group>, p: Pod): map<string, Group> {
    match OwnerOf(p)
    case None => groups
    case Some(u) => groups[u := AddPod(if u in groups then groups[u] else EMPTY, p)]
  }

  lemma RegroupKeepsGrouped(groups: map<string, Group>, pods: seq<Pod>, p: Pod)
    requires Grouped(groups, pods)
    ensures Grouped(Regroup(groups, p), pods + [p])
  {
    hide PodsOf, Newest, OwnerOf, Uids;
    forall u ensures GroupOf(pods + [p], u) ==
      if OwnerOf(p) == Some(u) then AddPod(GroupOf(pods, u), p) else GroupOf(pods, u)
    {
      GroupOneMore(pods, p, u);
    }
    NewestOfNone();
    forall u ensures u in Uids(pods + [p]) <==> GroupOf(pods + [p], u).pods != [] {}
    forall u ensures u !in groups ==> GroupOf(pods, u) == EMPTY {
      assert u in Uids(pods) <==> GroupOf(pods, u).pods != [];
    }
    var next := Regroup(groups, p);
    forall u ensures u in next <==> u in Uids(pods + [p]) {
      assert u in Uids(pods) <==> GroupOf(pods, u).pods != [];
    }
    assert next.Keys == Uids(pods + [p]);
  }

  lemma UidsOfNone()
    ensures Uids([]) == {}
  {}

  lemma NewestOfNone()
    ensures Newest([]) == ZERO_TIME
  {}

  lemma CurrentOfNone(pods: seq<Pod>)
    requires Uids(pods) == {}
    ensures Current(pods) == []
  {}

  lemma PrecedesIs(pods: seq<Pod>, u: string, w: string)
    ensures Precedes(pods, u, w) <==>
      var g, h := GroupOf(pods, u), GroupOf(pods, w);
      g.newest > h.newest || (g.newest == h.newest && Less(u, w))
  {}

  method CurrentReplicaSetPods(pods: seq<Pod>) returns (r: seq<Pod>)
    ensures r == Current(pods)
  {
    hide PodsOf, Newest, OwnerOf, Precedes, Current, Uids;
    var groups: map<string, Group> := map[];
    UidsOfNone();
    for i := 0 to |pods|
      invariant Grouped(groups, pods[..i])
    {
      var p := pods[i];
      RegroupKeepsGrouped(groups, pods[..i], p);
      assert pods[..i] + [p] == pods[..i + 1];
      var owner := OwnerOf(p);
      if owner.Some? {
        var g := if owner.value in groups then groups[owner.value] else EMPTY;
        groups := groups[owner.value := AddPod(g, p)];
      }
    }
    assert pods[..|pods|] == pods;
    if |groups| == 0 {
      CurrentOfNone(pods);
      return [];
    }
    // The map is walked in any order.
    var rest := groups.Keys;
    var w :| w in rest;
    rest := rest - {w};
    while rest != {}
      invariant rest <= groups.Keys && Leads(pods, groups.Keys - rest, w)
      decreases rest
    {
      var u :| u in rest;
      PrecedesIs(pods, u, w);
      OneMoreContender(pods, groups.Keys - rest, w, u);
      assert groups.Keys - (rest - {u}) == groups.Keys - rest + {u};
      rest := rest - {u};
      if groups[u].newest > groups[w].newest || (groups[u].newest == groups[w].newest && Less(u, w)) {
        w := u;
      }
    }
    assert groups.Keys - rest == Uids(pods);
    CurrentIs(pods, w);
    return groups[w].pods;
  }

  // ---------- Which pods are current ----------

  /** A reference that makes a ReplicaSet the controller. */
  predicate NamesController(r: OwnerRef) {
    r.kind == "ReplicaSet" && r.controller == Some(true)
  }

  predicate FirstController(refs: seq<OwnerRef>, k: nat) {
    k < |refs| && NamesController(refs[k]) && forall j :: 0 <= j < k ==> !NamesController(refs[j])
  }

  /** A live pod whose first controlling ReplicaSet is this one. */
  ghost predicate Serves(p: Pod, u: string) {
    !p.deleting && exists k: nat :: FirstController(p.owners, k) && p.owners[k].uid == u
  }

  lemma {:induction false} ControllerIs(refs: seq<OwnerRef>, u: string)
    ensures ControllerReplicaSet(refs) == Some(u) <==> exists k: nat :: FirstController(refs, k) && refs[k].uid == u
  {
    if refs != [] {
      var rest := refs[1..];
      ControllerIs(rest, u);
      if NamesController(refs[0]) {
        assert FirstController(refs, 0);
        assert forall k: nat :: FirstController(refs, k) ==> k == 0;
      } else {
        forall k: nat ensures FirstController(rest, k) ==> FirstController(refs, k + 1) {}
        forall k: nat ensures FirstController(refs, k) ==> k > 0 && FirstController(rest, k - 1) {
          if FirstController(refs, k) { assert rest[k - 1] == refs[k]; }
        }
      }
    }
  }

  lemma OwnerIs(p: Pod, u: string)
    ensures OwnerOf(p) == Some(u) <==> Serves(p, u)
  {
    ControllerIs(p.owners, u);
  }

  /** Some pod of ReplicaSet u outranks the pod q of ReplicaSet v: it is younger, or as young and u the smaller UID. */
  ghost predicate Outranks(pods: seq<Pod>, u: string, q: Pod, v: string) {
    exists p :: p in pods && Serves(p, u) && (p.created > q.created || (p.created == q.created && Less(u, v)))
  }

  lemma {:induction false} NewestIsReached(pods: seq<Pod>)
    requires pods != []
    ensures exists p :: p in pods && p.created == Newest(pods)
  {
    var before, last := pods[..|pods| - 1], pods[|pods| - 1];
    assert pods == before + [last];
    assert last in pods;
    if before == [] {
      assert Newest(pods) == last.created;
    } else {
      NewestIsReached(before);
      var p :| p in before && p.created == Newest(before);
      assert p in pods;
      assert Newest(pods) == if last.created > p.created then last.created else p.created;
    }
  }

  lemma PrecedesMeaning(pods: seq<Pod>, u: string, v: string)
    requires PodsOf(pods, u) != [] && PodsOf(pods, v) != []
    ensures Precedes(pods, u, v) <==> forall q :: q in pods && Serves(q, v) ==> Outranks(pods, u, q, v)
  {
    hide Serves, OwnerOf, Less;
    forall p, w ensures OwnerOf(p) == Some(w) <==> Serves(p, w) { OwnerIs(p, w); }
    var us, vs := PodsOf(pods, u), PodsOf(pods, v);
    NewestIsReached(us);
    NewestIsReached(vs);
    var p :| p in us && p.created == Newest(us);
    var q :| q in vs && q.created == Newest(vs);
    if Precedes(pods, u, v) {
      forall x | x in pods && Serves(x, v) ensures Outranks(pods, u, x, v) {
        assert x in vs && x.created <= q.created;
      }
    }
    if Outranks(pods, u, q, v) {
      var x :| x in pods && Serves(x, u) && (x.created > q.created || (x.created == q.created && Less(u, v)));
      assert x in us;
    }
  }

  /** A pod is current exactly when it serves a ReplicaSet that outranks every pod of every other one. */
  lemma CurrentMeaning(pods: seq<Pod>, p: Pod)
    ensures p in Current(pods) <==> p in pods && exists u ::
      Serves(p, u) && forall q, v :: q in pods && Serves(q, v) && v != u ==> Outranks(pods, u, q, v)
  {
    hide PodsOf, Newest, Precedes, OwnerOf, Serves, Outranks, Current;
    forall x, w ensures OwnerOf(x) == Some(w) <==> Serves(x, w) { OwnerIs(x, w); }
    ServedIsListed(pods, Owner(p));
    if p in pods && Serves(p, Owner(p)) {
      assert Owner(p) in Uids(pods);
      var w := LeaderExists(pods, Uids(pods));
      CurrentIs(pods, w);
      forall u | Serves(p, u) ensures u == Owner(p) { assert OwnerOf(p) == Some(u); }
      LeadsMeaning(pods, Owner(p));
      if Leads(pods, Uids(pods), Owner(p)) { LeaderIsUnique(pods, Uids(pods), Owner(p), w); }
      PodsOfMembers(pods, w);
    } else {
      NotCurrent(pods, p);
    }
  }

  lemma LeadsMeaning(pods: seq<Pod>, u: string)
    requires u in Uids(pods)
    ensures Leads(pods, Uids(pods), u) <==> forall q, v :: q in pods && Serves(q, v) && v != u ==> Outranks(pods, u, q, v)
  {
    hide PodsOf, Newest, Precedes, OwnerOf, Serves, Outranks;
    if Leads(pods, Uids(pods), u) {
      forall q, v | q in pods && Serves(q, v) && v != u ensures Outranks(pods, u, q, v) {
        ServedIsListed(pods, v);
        PrecedesMeaning(pods, u, v);
      }
    }
    if forall q, v :: q in pods && Serves(q, v) && v != u ==> Outranks(pods, u, q, v) {
      forall v | v in Uids(pods) && v != u ensures Precedes(pods, u, v) { PrecedesMeaning(pods, u, v); }
    }
  }

  function Owner(p: Pod): string {
    if OwnerOf(p).Some? then OwnerOf(p).value else ""
  }

  lemma PodsOfMembers(pods: seq<Pod>, w: string)
    ensures forall p :: p in PodsOf(pods, w) <==> p in pods && OwnerOf(p) == Some(w)
  {}

  lemma NotCurrent(pods: seq<Pod>, p: Pod)
    requires !(p in pods && Serves(p, Owner(p)))
    ensures p !in Current(pods) && (p in pods ==> forall u :: !Serves(p, u))
  {
    hide Serves;
    forall u ensures OwnerOf(p) == Some(u) <==> Serves(p, u) { OwnerIs(p, u); }
  }

  lemma ServedIsListed(pods: seq<Pod>, w: string)
    ensures w in Uids(pods) <==> exists x :: x in pods && Serves(x, w)
  {
    hide Serves, OwnerOf;
    forall x ensures OwnerOf(x) == Some(w) <==> Serves(x, w) { OwnerIs(x, w); }
    var r := PodsOf(pods, w);
    assert r != [] ==> r[0] in r;
  }
}

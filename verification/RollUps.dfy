/** The cluster conditions aggregated from child nodes. */
module RollUps {
  import opened Wrappers
  import opened Ordering
  import opened Sorting
  import opened Sequences
  import opened Text

  /** A condition; only its status, reason and message are aggregated. */
  datatype Condition = Condition(status: string, reason: string, message: string)

  datatype Node = Node(
    name: string, admin: bool, ready: Option<Condition>, available: Option<Condition>,
    degraded: Option<Condition>, packagesReady: Option<Condition>)

  predicate IsTrue(c: Option<Condition>) {
    c.Some? && c.value.status == "True"
  }

  function NodeName(n: Node): string {
    n.name
  }

  predicate Degraded(n: Node) {
    IsTrue(n.degraded)
  }

  predicate Reports(n: Node) {
    n.packagesReady.Some?
  }

  predicate FailsPackages(n: Node) {
    n.packagesReady.Some? && n.packagesReady.value.status == "False"
  }

  /** The message about the first of several failing nodes. */
  function FailureMessage(first: Node, message: string, failing: nat, total: nat, text: string): string {
    if total <= 1 then message
    else if failing == 1 then first.name + ": " + message
    else Decimal(failing) + "/" + Decimal(total) + text + " (first: " + first.name + ": " + message + ")"
  }

  /** f is the failing node with the smallest name. */
  ghost predicate IsFirst(nodes: seq<Node>, fails: Node -> bool, f: Node) {
    f in nodes && fails(f) && forall n :: n in nodes && fails(n) && n != f ==> Less(f.name, n.name)
  }

  lemma FirstIsUnique(nodes: seq<Node>, fails: Node -> bool, f: Node, g: Node)
    requires IsFirst(nodes, fails, f) && IsFirst(nodes, fails, g)
    ensures f == g
  {
    LessTotal(f.name, g.name);
  }

  /** What the Degraded roll-up says, without a word about order. */
  ghost predicate DegradedRollUp(nodes: seq<Node>, r: Option<Condition>) {
    match r
    case None => forall n :: n in nodes ==> !Degraded(n)
    case Some(c) => exists f ::
      && IsFirst(nodes, Degraded, f)
      && c == Condition("True", f.degraded.value.reason,
           FailureMessage(f, f.degraded.value.message, |Filter(nodes, Degraded)|, |nodes|, " nodes are degraded"))
  }

  /** The head of a name-sorted list of uniquely named nodes is the first one. */
  lemma HeadIsFirst(nodes: seq<Node>, sorted: seq<Node>, p: Node -> bool)
    requires UniqueKeys(nodes, NodeName) && IsSortOf(sorted, Filter(nodes, p), NodeName) && sorted != []
    ensures IsFirst(nodes, p, sorted[0])
    ensures |sorted| == |Filter(nodes, p)|
  {
    hide Less;
    SameMembers(sorted, Filter(nodes, p));
    assert |multiset(sorted)| == |sorted|;
    var f := sorted[0];
    assert f in sorted;
    forall n | n in nodes && p(n) && n != f ensures Less(f.name, n.name) {
      assert n in sorted;
      var k :| 0 <= k < |sorted| && sorted[k] == n;
      assert !Less(NodeName(sorted[k]), NodeName(sorted[0]));
      var i :| 0 <= i < |nodes| && nodes[i] == n;
      var j :| 0 <= j < |nodes| && nodes[j] == f;
      assert NodeName(nodes[i]) != NodeName(nodes[j]);
      LessTotal(f.name, n.name);
    }
  }

  method AggregateNodeDegraded(nodes: seq<Node>) returns (r: Option<Condition>)
    requires UniqueKeys(nodes, NodeName)
    ensures DegradedRollUp(nodes, r)
  {
    hide IsFirst, UniqueKeys, Ordered, Filter;
    var failing: seq<Node> := [];
    NoneFiltered(Degraded);
    for i := 0 to |nodes|
      invariant failing == Filter(nodes[..i], Degraded)
    {
      FilterSnoc(nodes, i, Degraded);
      if IsTrue(nodes[i].degraded) {
        failing := failing + [nodes[i]];
      }
    }
    assert nodes[..|nodes|] == nodes;
    if |failing| == 0 {
      return None;
    }
    var sorted := SortBy(failing, NodeName);
    assert |multiset(sorted)| == |multiset(failing)|;
    HeadIsFirst(nodes, sorted, Degraded);
    var first := sorted[0];
    assert Degraded(first) by { assert IsFirst(nodes, Degraded, first); FirstFails(nodes, Degraded, first); }
    var msg := first.degraded.value.message;
    if |nodes| > 1 {
      if |sorted| == 1 {
        msg := first.name + ": " + msg;
      } else {
        msg := Decimal(|sorted|) + "/" + Decimal(|nodes|) + " nodes are degraded" + " (first: " + first.name + ": " + msg + ")";
      }
    }
    return Some(Condition("True", first.degraded.value.reason, msg));
  }

  lemma NoneFiltered(p: Node -> bool)
    ensures Filter([], p) == []
  {}

  lemma FirstFails(nodes: seq<Node>, p: Node -> bool, f: Node)
    requires IsFirst(nodes, p, f)
    ensures p(f)
  {}

  /** What the PackagesReady roll-up says, without a word about order. */
  ghost predicate PackagesRollUp(nodes: seq<Node>, r: Option<Condition>) {
    var reporting, failing := |Filter(nodes, Reports)|, |Filter(nodes, FailsPackages)|;
    match r
    case None => reporting == 0
    case Some(c) =>
      if failing == 0 then
        reporting > 0 && c == Condition("True", "AllPackagesFetched", Decimal(reporting) + " node(s) have all packages fetched")
      else
        exists f ::
          && IsFirst(nodes, FailsPackages, f)
          && c == Condition("False", f.packagesReady.value.reason,
               FailureMessage(f, f.packagesReady.value.message, failing, reporting, " nodes have package failures"))
  }

  method AggregatePackagesReady(nodes: seq<Node>) returns (r: Option<Condition>)
    requires UniqueKeys(nodes, NodeName)
    ensures PackagesRollUp(nodes, r)
  {
    hide IsFirst, UniqueKeys, Ordered, Filter;
    var withCond: seq<Node> := [];
    NoneFiltered(Reports);
    NoneFiltered(FailsPackages);
    for i := 0 to |nodes|
      invariant withCond == Filter(nodes[..i], Reports)
    {
      FilterSnoc(nodes, i, Reports);
      if nodes[i].packagesReady.Some? {
        withCond := withCond + [nodes[i]];
      }
    }
    assert nodes[..|nodes|] == nodes;
    FilterOfFilter(nodes, Reports, FailsPackages, FailsPackages);
    if |withCond| == 0 {
      return None;
    }
    var sorted := SortBy(withCond, NodeName);
    assert |multiset(sorted)| == |multiset(withCond)|;
    var firstFail: Option<Node> := None;
    var failCount := 0;
    for i := 0 to |sorted|
      invariant failCount == |Filter(sorted[..i], FailsPackages)|
      invariant firstFail == if failCount == 0 then None else Some(Filter(sorted[..i], FailsPackages)[0])
    {
      FilterSnoc(sorted, i, FailsPackages);
      if FailsPackages(sorted[i]) {
        failCount := failCount + 1;
        if firstFail.None? {
          firstFail := Some(sorted[i]);
        }
      }
    }
    assert sorted[..|sorted|] == sorted;
    FilterOfSort(sorted, withCond, FailsPackages, NodeName);
    assert |multiset(Filter(sorted, FailsPackages))| == |multiset(Filter(withCond, FailsPackages))|;
    if firstFail.None? {
      return Some(Condition("True", "AllPackagesFetched", Decimal(|sorted|) + " node(s) have all packages fetched"));
    }
    HeadIsFirst(nodes, Filter(sorted, FailsPackages), FailsPackages);
    var first := firstFail.value;
    FirstFails(nodes, FailsPackages, first);
    var msg := first.packagesReady.value.message;
    if |sorted| > 1 {
      if failCount == 1 {
        msg := first.name + ": " + msg;
      } else {
        msg := Decimal(failCount) + "/" + Decimal(|sorted|) + " nodes have package failures" + " (first: " + first.name + ": " + msg + ")";
      }
    }
    return Some(Condition("False", first.packagesReady.value.reason, msg));
  }

  /** Filtering a sorted list sorts the filtered list. */
  lemma {:induction false} FilterOfSort(sorted: seq<Node>, s: seq<Node>, p: Node -> bool, key: Node -> string)
    requires IsSortOf(sorted, s, key)
    ensures IsSortOf(Filter(sorted, p), Filter(s, p), key)
  {
    hide Less, Filter;
    FilterOfMultiset(sorted, p);
    FilterOfMultiset(s, p);
    assert multiset(Filter(sorted, p)) == multiset(Filter(s, p)) by {
      forall n ensures multiset(Filter(sorted, p))[n] == multiset(Filter(s, p))[n] {}
    }
    var at := FilterEmbeds(sorted, p);
    EmbeddedIsOrdered(Filter(sorted, p), sorted, at, key);
  }

  lemma EmbeddedIsOrdered(r: seq<Node>, s: seq<Node>, at: seq<nat>, key: Node -> string)
    requires Embeds(r, s, at) && Ordered(s, key)
    ensures Ordered(r, key)
  {
    hide Less;
    forall i, j | 0 <= i < j < |r| ensures !Less(key(r[j]), key(r[i])) {
      assert at[i] < at[j];
    }
  }

  lemma {:induction false} FilterOfMultiset<T(!new)>(s: seq<T>, p: T -> bool)
    ensures forall x :: multiset(Filter(s, p))[x] == if p(x) then multiset(s)[x] else 0
  {
    if s != [] {
      FilterOfMultiset(s[..|s| - 1], p);
      assert s == s[..|s| - 1] + [s[|s| - 1]];
    }
  }

  // ---------- Order does not matter ----------

  lemma SameFirst(a: seq<Node>, b: seq<Node>, p: Node -> bool, f: Node)
    requires multiset(a) == multiset(b)
    ensures IsFirst(a, p, f) <==> IsFirst(b, p, f)
  {
    SameMembers(a, b);
  }

  lemma SameCount(a: seq<Node>, b: seq<Node>, p: Node -> bool)
    requires multiset(a) == multiset(b)
    ensures |Filter(a, p)| == |Filter(b, p)|
  {
    FilterOfMultiset(a, p);
    FilterOfMultiset(b, p);
    assert multiset(Filter(a, p)) == multiset(Filter(b, p));
    assert |multiset(Filter(a, p))| == |Filter(a, p)| && |multiset(Filter(b, p))| == |Filter(b, p)|;
  }

  /** The list order of the nodes, which the API server does not promise, never shows in Degraded. */
  lemma DegradedIgnoresOrder(a: seq<Node>, b: seq<Node>, r: Option<Condition>, s: Option<Condition>)
    requires multiset(a) == multiset(b) && DegradedRollUp(a, r) && DegradedRollUp(b, s)
    ensures r == s
  {
    hide IsFirst, Filter, FailureMessage;
    assert |a| == |multiset(a)| == |multiset(b)| == |b|;
    SameMembers(a, b);
    SameCount(a, b, Degraded);
    forall f ensures IsFirst(a, Degraded, f) <==> IsFirst(b, Degraded, f) {
      SameFirst(a, b, Degraded, f);
    }
    forall f | IsFirst(a, Degraded, f) ensures f in a && Degraded(f) { FirstIsCounted(a, Degraded, f); }
    forall f, g | IsFirst(a, Degraded, f) && IsFirst(a, Degraded, g) ensures f == g { FirstIsUnique(a, Degraded, f, g); }
  }

  /** Nor in PackagesReady. */
  lemma PackagesIgnoreOrder(a: seq<Node>, b: seq<Node>, r: Option<Condition>, s: Option<Condition>)
    requires multiset(a) == multiset(b) && PackagesRollUp(a, r) && PackagesRollUp(b, s)
    ensures r == s
  {
    hide IsFirst, Filter, FailureMessage;
    forall f ensures IsFirst(a, FailsPackages, f) <==> IsFirst(b, FailsPackages, f) {
      SameFirst(a, b, FailsPackages, f);
    }
    SameCount(a, b, FailsPackages);
    SameCount(a, b, Reports);
    FailingReport(a);
    forall f, g | IsFirst(a, FailsPackages, f) && IsFirst(a, FailsPackages, g) ensures f == g {
      FirstIsUnique(a, FailsPackages, f, g);
    }
  }

  lemma FailingReport(nodes: seq<Node>)
    ensures |Filter(nodes, FailsPackages)| > 0 ==> |Filter(nodes, Reports)| > 0
  {
    var f := Filter(nodes, FailsPackages);
    if |f| > 0 {
      assert f[0] in f;
      assert f[0] in Filter(nodes, Reports);
    }
  }

  lemma FirstIsCounted(nodes: seq<Node>, p: Node -> bool, f: Node)
    requires IsFirst(nodes, p, f)
    ensures f in nodes && p(f)
  {}

  // ---------- All cluster conditions ----------

  datatype ClusterConditions = ClusterConditions(
    ready: Condition, available: Condition, progressing: Condition, degraded: Condition, packagesReady: Option<Condition>)

  const NO_NODES: Condition := Condition("False", "NoNodes", "No nodes reference this cluster")

  predicate IsAdmin(n: Node) {
    n.admin
  }

  /** Two admins outrank any forwarded degradation; the empty cluster is not ready but not degraded. */
  ghost predicate ClusterRollUp(nodes: seq<Node>, c: ClusterConditions) {
    if nodes == [] then
      c == ClusterConditions(NO_NODES, NO_NODES, Condition("True", "WaitingForNodes", "Waiting for nodes to be created"), NO_NODES, None)
    else
      && c.ready == (if forall n :: n in nodes ==> IsTrue(n.ready)
                     then Condition("True", "AllNodesReady", "All nodes are ready")
                     else Condition("False", "NodesNotReady", "Not all nodes are ready"))
      && c.available == (if forall n :: n in nodes ==> IsTrue(n.available)
                         then Condition("True", "AllNodesAvailable", "All nodes have minimum availability")
                         else Condition("False", "NodesUnavailable", "Not all nodes have minimum availability"))
      && c.progressing == (if c.ready.status == "True"
                           then Condition("False", "Stable", "All nodes are ready")
                           else Condition("True", "NodesProgressing", "Some nodes are not yet ready"))
      && (|Filter(nodes, IsAdmin)| > 1 ==>
            c.degraded == Condition("True", "MultipleAdminNodes", "More than one admin node exists for this cluster"))
      && (|Filter(nodes, IsAdmin)| <= 1 ==>
            if forall n :: n in nodes ==> !Degraded(n)
            then c.degraded == Condition("False", "NotDegraded", "No partial-availability degradation detected")
            else DegradedRollUp(nodes, Some(c.degraded)))
      && PackagesRollUp(nodes, c.packagesReady)
  }

  method Survey(nodes: seq<Node>) returns (allReady: bool, allAvailable: bool, adminCount: nat)
    ensures allReady <==> forall n :: n in nodes ==> IsTrue(n.ready)
    ensures allAvailable <==> forall n :: n in nodes ==> IsTrue(n.available)
    ensures adminCount == |Filter(nodes, IsAdmin)|
  {
    hide Filter, IsTrue;
    allReady, allAvailable, adminCount := true, true, 0;
    NoneFiltered(IsAdmin);
    for i := 0 to |nodes|
      invariant allReady <==> forall n :: n in nodes[..i] ==> IsTrue(n.ready)
      invariant allAvailable <==> forall n :: n in nodes[..i] ==> IsTrue(n.available)
      invariant adminCount == |Filter(nodes[..i], IsAdmin)|
    {
      FilterSnoc(nodes, i, IsAdmin);
      assert nodes[..i + 1] == nodes[..i] + [nodes[i]];
      if nodes[i].admin {
        adminCount := adminCount + 1;
      }
      if !IsTrue(nodes[i].ready) {
        allReady := false;
      }
      if !IsTrue(nodes[i].available) {
        allAvailable := false;
      }
    }
    assert nodes[..|nodes|] == nodes;
  }

  method ComputeClusterConditions(nodes: seq<Node>) returns (c: ClusterConditions)
    requires UniqueKeys(nodes, NodeName)
    ensures ClusterRollUp(nodes, c)
  {
    hide UniqueKeys, PackagesRollUp, DegradedRollUp, Filter, IsTrue;
    if |nodes| == 0 {
      return ClusterConditions(
        NO_NODES, NO_NODES, Condition("True", "WaitingForNodes", "Waiting for nodes to be created"), NO_NODES, None);
    }
    var allReady, allAvailable, adminCount := Survey(nodes);
    var ready := if allReady then Condition("True", "AllNodesReady", "All nodes are ready")
      else Condition("False", "NodesNotReady", "Not all nodes are ready");
    var available := if allAvailable then Condition("True", "AllNodesAvailable", "All nodes have minimum availability")
      else Condition("False", "NodesUnavailable", "Not all nodes have minimum availability");
    var progressing := if !allReady then Condition("True", "NodesProgressing", "Some nodes are not yet ready")
      else Condition("False", "Stable", "All nodes are ready");
    var degraded := Condition("False", "NotDegraded", "No partial-availability degradation detected");
    if adminCount > 1 {
      degraded := Condition("True", "MultipleAdminNodes", "More than one admin node exists for this cluster");
    } else {
      var d := AggregateNodeDegraded(nodes);
      NoneMeansNone(nodes, d);
      if d.Some? {
        degraded := d.value;
      }
    }
    var packages := AggregatePackagesReady(nodes);
    return ClusterConditions(ready, available, progressing, degraded, packages);
  }

  lemma NoneMeansNone(nodes: seq<Node>, r: Option<Condition>)
    requires DegradedRollUp(nodes, r)
    ensures r.None? <==> forall n :: n in nodes ==> !Degraded(n)
  {}

  /** All cluster conditions are functions of the set of nodes. */
  lemma ConditionsIgnoreOrder(a: seq<Node>, b: seq<Node>, c: ClusterConditions, d: ClusterConditions)
    requires multiset(a) == multiset(b) && ClusterRollUp(a, c) && ClusterRollUp(b, d)
    ensures c == d
  {
    hide PackagesRollUp, DegradedRollUp, Filter;
    assert |a| == |multiset(a)| == |multiset(b)| == |b|;
    SameMembers(a, b);
    if a != [] {
      SameCount(a, b, IsAdmin);
      PackagesIgnoreOrder(a, b, c.packagesReady, d.packagesReady);
      if |Filter(a, IsAdmin)| <= 1 && exists n :: n in a && Degraded(n) {
        DegradedIgnoresOrder(a, b, Some(c.degraded), Some(d.degraded));
      }
    }
  }

  // ---------- What the conditions mean ----------

  /** The condition is there, with this status. */
  predicate Holds(c: Option<Condition>, status: string) {
    c.Some? && c.value.status == status
  }

  function CountWith(nodes: seq<Node>, p: Node -> bool): nat {
    if nodes == [] then 0 else CountWith(nodes[..|nodes| - 1], p) + if p(nodes[|nodes| - 1]) then 1 else 0
  }

  predicate HasDegraded(n: Node) {
    Holds(n.degraded, "True")
  }

  predicate HasFailure(n: Node) {
    Holds(n.packagesReady, "False")
  }

  predicate HasVerdict(n: Node) {
    n.packagesReady.Some?
  }

  predicate HasAdmin(n: Node) {
    n.admin
  }

  lemma {:induction false} CountIsFilter(nodes: seq<Node>, p: Node -> bool, q: Node -> bool)
    requires forall n :: p(n) <==> q(n)
    ensures |Filter(nodes, p)| == CountWith(nodes, q)
  {
    if nodes != [] {
      CountIsFilter(nodes[..|nodes| - 1], p, q);
    }
  }

  /** The text about k of n nodes, of which f is the one with the smallest name. */
  predicate Tells(text: string, f: Node, message: string, k: nat, n: nat, what: string) {
    && (n <= 1 ==> text == message)
    && (n > 1 && k == 1 ==> text == f.name + ": " + message)
    && (n > 1 && k != 1 ==> text == Decimal(k) + "/" + Decimal(n) + what + " (first: " + f.name + ": " + message + ")")
  }

  /** The node with the smallest name among those with the property. */
  ghost predicate Smallest(nodes: seq<Node>, p: Node -> bool, f: Node) {
    f in nodes && p(f) && forall n :: n in nodes && p(n) && n != f ==> Less(f.name, n.name)
  }

  /** Degraded forwards the degraded node with the smallest name, with its reason and message, and counts them. */
  lemma DegradedMeaning(nodes: seq<Node>, r: Option<Condition>)
    requires DegradedRollUp(nodes, r)
    ensures r.None? <==> CountWith(nodes, HasDegraded) == 0
    ensures r.Some? ==> exists f ::
      && Smallest(nodes, HasDegraded, f) && r.value.status == "True" && r.value.reason == f.degraded.value.reason
      && Tells(r.value.message, f, f.degraded.value.message, CountWith(nodes, HasDegraded), |nodes|, " nodes are degraded")
  {
    CountIsFilter(nodes, Degraded, HasDegraded);
    hide Filter, CountWith, Less;
    if r.Some? {
      var f :| IsFirst(nodes, Degraded, f)
        && r.value == Condition("True", f.degraded.value.reason,
             FailureMessage(f, f.degraded.value.message, |Filter(nodes, Degraded)|, |nodes|, " nodes are degraded"));
      assert f in Filter(nodes, Degraded);
      assert Smallest(nodes, HasDegraded, f);
    } else {
      NoMembers(Filter(nodes, Degraded));
    }
  }

  /** PackagesReady is omitted when no node reports it, forwards the failing node with the smallest name if one fails, and
      is True otherwise. */
  lemma PackagesMeaning(nodes: seq<Node>, r: Option<Condition>)
    requires PackagesRollUp(nodes, r)
    ensures r.None? <==> CountWith(nodes, HasVerdict) == 0
    ensures r.Some? && CountWith(nodes, HasFailure) == 0 ==> (
      r.value
        == Condition("True", "AllPackagesFetched", Decimal(CountWith(nodes, HasVerdict)) + " node(s) have all packages fetched"))
    ensures CountWith(nodes, HasFailure) > 0 ==> r.Some? && exists f ::
      && Smallest(nodes, HasFailure, f) && r.value.status == "False" && r.value.reason == f.packagesReady.value.reason
      && Tells(r.value.message, f, f.packagesReady.value.message, CountWith(nodes, HasFailure), CountWith(nodes, HasVerdict),
               " nodes have package failures")
  {
    CountIsFilter(nodes, Reports, HasVerdict);
    CountIsFilter(nodes, FailsPackages, HasFailure);
    FailingReport(nodes);
    hide Filter, CountWith, Less;
    var failing, reporting := |Filter(nodes, FailsPackages)|, |Filter(nodes, Reports)|;
    if r.Some? && failing > 0 {
      var f :| IsFirst(nodes, FailsPackages, f)
        && r.value == Condition("False", f.packagesReady.value.reason,
             FailureMessage(f, f.packagesReady.value.message, failing, reporting, " nodes have package failures"));
      assert Smallest(nodes, HasFailure, f);
      assert Tells(r.value.message, f, f.packagesReady.value.message, failing, reporting, " nodes have package failures");
    }
  }

  /** Ready and Available need every node, and Progressing is the opposite of Ready; a cluster without nodes is not
      ready. */
  lemma ReadyMeaning(nodes: seq<Node>, c: ClusterConditions)
    requires ClusterRollUp(nodes, c)
    ensures c.ready.status == "True" <==> nodes != [] && forall n :: n in nodes ==> Holds(n.ready, "True")
    ensures c.available.status == "True" <==> nodes != [] && forall n :: n in nodes ==> Holds(n.available, "True")
    ensures c.progressing.status == "True" <==> c.ready.status != "True"
  {
    hide PackagesRollUp, DegradedRollUp, Filter;
  }

  /** A cluster is degraded when it has two admins, whatever the nodes say, or when one of its nodes is degraded; it
      tells of packages when one of its nodes does. */
  lemma ClusterMeaning(nodes: seq<Node>, c: ClusterConditions)
    requires ClusterRollUp(nodes, c)
    ensures CountWith(nodes, HasAdmin) > 1 ==> c.degraded.status == "True" && c.degraded.reason == "MultipleAdminNodes"
    ensures c.degraded.status == "True" <==> CountWith(nodes, HasAdmin) > 1 || CountWith(nodes, HasDegraded) > 0
    ensures c.packagesReady.None? <==> CountWith(nodes, HasVerdict) == 0
  {
    CountIsFilter(nodes, IsAdmin, HasAdmin);
    CountIsFilter(nodes, Degraded, HasDegraded);
    NoMembersIff(nodes);
    if nodes != [] {
      PackagesMeaning(nodes, c.packagesReady);
      DegradedIsTrue(nodes, c);
    }
    hide *;
  }

  lemma DegradedIsTrue(nodes: seq<Node>, c: ClusterConditions)
    requires nodes != [] && ClusterRollUp(nodes, c)
    ensures |Filter(nodes, IsAdmin)| > 1 ==> c.degraded.status == "True" && c.degraded.reason == "MultipleAdminNodes"
    ensures |Filter(nodes, IsAdmin)| <= 1 ==> (c.degraded.status == "True" <==> exists n :: n in nodes && Degraded(n))
  {
    hide PackagesRollUp, Filter, FailureMessage, Degraded;
  }

  lemma NoMembersIff(nodes: seq<Node>)
    ensures (forall n :: n in nodes ==> !Degraded(n)) <==> |Filter(nodes, Degraded)| == 0
  {
    if forall n :: n in nodes ==> !Degraded(n) {
      NoMembers(Filter(nodes, Degraded));
    }
  }
}

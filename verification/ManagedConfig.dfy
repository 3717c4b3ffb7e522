/** Discovery of managed ConfigMaps and Secrets, and the watches that stand in for rescanning them. */
module ManagedConfig {
  import opened Wrappers
  import opened Framing
  import opened Ordering
  import opened Sequences
  import opened Sorting
  import opened Text

  datatype Kind = ConfigMap | Secret

  datatype Object = Object(
    kind: Kind, name: string, labels: map<string, string>, annotations: map<string, string>, data: map<string, string>)

  const MANAGED_LABEL: string := "curity.io/managed"
  const COMPONENT_LABEL: string := "curity.io/component"
  const TYPE_ANNOTATION: string := "curity.io/config-type"
  const SCOPE_ANNOTATION: string := "curity.io/cluster"

  function Get(m: map<string, string>, k: string): string {
    if k in m then m[k] else ""
  }

  predicate Managed(o: Object) {
    Get(o.labels, MANAGED_LABEL) == "true"
  }

  /** The cluster-config Secrets the operator writes itself. */
  predicate Internal(o: Object) {
    o.kind == Secret && Get(o.labels, COMPONENT_LABEL) == "cluster-config"
  }

  // ---------- Scope ----------

  /** The non-empty trimmed fields. */
  function Names(fields: seq<string>): set<string> {
    (set f | f in fields :: TrimSpace(f)) - {""}
  }

  lemma NamesSnoc(fields: seq<string>, f: string)
    ensures Names(fields + [f]) == Names(fields) + if TrimSpace(f) == "" then {} else {TrimSpace(f)}
  {
    hide TrimSpace;
    var a, b := Names(fields + [f]), Names(fields) + if TrimSpace(f) == "" then {} else {TrimSpace(f)};
    assert f in fields + [f];
    forall g | g in fields ensures g in fields + [f] {}
    forall n ensures n in a <==> n in b {
      if n in b && n in Names(fields) {
        var g :| g in fields && TrimSpace(g) == n;
        assert g in fields + [f];
      }
    }
  }

  /** The names a scope annotation designates. */
  function ScopeNames(val: string): set<string> {
    Names(Split(val, ','))
  }

  method ParseClusterScope(val: string) returns (names: set<string>, empty: bool)
    ensures names == ScopeNames(val) && (empty <==> names == {})
  {
    var parts := Split(val, ',');
    names := {};
    for i := 0 to |parts|
      invariant names == Names(parts[..i])
    {
      assert parts[..i + 1] == parts[..i] + [parts[i]];
      NamesSnoc(parts[..i], parts[i]);
      var p := TrimSpace(parts[i]);
      if p == "" {
        continue;
      }
      names := names + {p};
    }
    assert parts[..|parts|] == parts;
    empty := names == {};
  }

  /** A name the scope list can carry; cluster names, being DNS labels, are such names. */
  predicate Listable(name: string) {
    name != "" && ',' !in name && !IsSpace(name[0]) && !IsSpace(name[|name| - 1])
  }

  /** Writing a list of clusters into the annotation scopes the object to exactly those clusters. */
  lemma ScopeRoundTrip(names: seq<string>, annotations: map<string, string>, cluster: string)
    requires names != [] && forall n :: n in names ==> Listable(n)
    requires Get(annotations, SCOPE_ANNOTATION) == Join(names, ',') && SCOPE_ANNOTATION in annotations
    ensures AppliesToCluster(annotations, cluster) <==> cluster in names
  {
    SplitOfJoin(names, ',');
    assert forall n :: n in names ==> TrimSpace(n) == n;
  }

  predicate AppliesToCluster(annotations: map<string, string>, cluster: string) {
    SCOPE_ANNOTATION in annotations ==> cluster in ScopeNames(annotations[SCOPE_ANNOTATION])
  }

  // ---------- Discovery ----------

  function ResolveConfigType(annotations: map<string, string>): Option<string> {
    var val := Get(annotations, TYPE_ANNOTATION);
    if val == "" || val == "base" then Some("base")
    else if val == "license" || val == "logging" || val == "postCommitScript" || val == "env" then Some(val)
    else None
  }

  datatype Config = Config(name: string, isSecret: bool, configType: string, data: map<string, string>)

  datatype Skipped = Skipped(name: string, kind: Kind, annotation: string)

  predicate InScope(o: Object, cluster: string) {
    Managed(o) && !Internal(o) && AppliesToCluster(o.annotations, cluster)
  }

  /** What one object contributes to a cluster. */
  datatype Contribution = Nothing | Found(config: Config) | Complaint(skipped: Skipped)

  function Contributes(o: Object, cluster: string): Contribution {
    if !InScope(o, cluster) then Nothing
    else
      match ResolveConfigType(o.annotations)
      case Some(t) => Found(Config(o.name, o.kind == Secret, t, o.data))
      case None => Complaint(Skipped(o.name, o.kind, Get(o.annotations, TYPE_ANNOTATION)))
  }

  function ConfigName(c: Config): string {
    c.name
  }

  function SkippedName(s: Skipped): string {
    s.name
  }

  /** The configurations and the complaints of a list of objects, in list order. */
  function ConfigsIn(objects: seq<Object>, cluster: string): (r: seq<Config>)
    ensures forall c :: c in r <==> exists o :: o in objects && Contributes(o, cluster) == Found(c)
  {
    if objects == [] then []
    else
      var o, before := objects[|objects| - 1], objects[..|objects| - 1];
      assert objects == before + [o];
      ConfigsIn(before, cluster) + match Contributes(o, cluster) case Found(c) => [c] case _ => []
  }

  function SkippedIn(objects: seq<Object>, cluster: string): (r: seq<Skipped>)
    ensures forall s :: s in r <==> exists o :: o in objects && Contributes(o, cluster) == Complaint(s)
  {
    if objects == [] then []
    else
      var o, before := objects[|objects| - 1], objects[..|objects| - 1];
      assert objects == before + [o];
      SkippedIn(before, cluster) + match Contributes(o, cluster) case Complaint(s) => [s] case _ => []
  }

  /** One of the two listing loops. */
  method Collect(objects: seq<Object>, cluster: string) returns (configs: seq<Config>, skipped: seq<Skipped>)
    requires forall o :: o in objects ==> Managed(o)
    ensures configs == ConfigsIn(objects, cluster) && skipped == SkippedIn(objects, cluster)
  {
    hide AppliesToCluster, ResolveConfigType, Get, Managed;
    configs, skipped := [], [];
    for i := 0 to |objects|
      invariant configs == ConfigsIn(objects[..i], cluster) && skipped == SkippedIn(objects[..i], cluster)
    {
      var o := objects[i];
      assert o in objects;
      assert objects[..i + 1][..i] == objects[..i];
      assert configs + [] == configs && skipped + [] == skipped;
      if o.kind == Secret && Get(o.labels, COMPONENT_LABEL) == "cluster-config" {
        continue;
      }
      if !AppliesToCluster(o.annotations, cluster) {
        continue;
      }
      var t := ResolveConfigType(o.annotations);
      if t.None? {
        skipped := skipped + [Skipped(o.name, o.kind, Get(o.annotations, TYPE_ANNOTATION))];
        continue;
      }
      configs := configs + [Config(o.name, o.kind == Secret, t.value, o.data)];
    }
    assert objects[..|objects|] == objects;
  }

  datatype Ref = Ref(kind: Kind, name: string)

  /** A namespace: each object under its kind and name. */
  type Namespace = m: map<Ref, Object> | forall r :: r in m ==> Ref(m[r].kind, m[r].name) == r witness map[]

  /** The independent view of discovery: what the namespace holds for a cluster. */
  ghost function Configs(ns: Namespace, cluster: string): set<Config> {
    set r | r in ns && Contributes(ns[r], cluster).Found? :: Contributes(ns[r], cluster).config
  }

  ghost function Complaints(ns: Namespace, cluster: string): set<Skipped> {
    set r | r in ns && Contributes(ns[r], cluster).Complaint? :: Contributes(ns[r], cluster).skipped
  }

  /** The answer of the API server: all managed objects of one kind, in any order. */
  ghost predicate Lists(objects: seq<Object>, ns: Namespace, kind: Kind) {
    forall o :: o in objects <==> Managed(o) && o.kind == kind && Ref(kind, o.name) in ns && ns[Ref(kind, o.name)] == o
  }

  /** Any listing of the namespace finds the same configurations and complaints. */
  lemma ListsCoverNamespace(configMaps: seq<Object>, secrets: seq<Object>, ns: Namespace, cluster: string)
    requires Lists(configMaps, ns, ConfigMap) && Lists(secrets, ns, Secret)
    ensures forall c :: c in Configs(ns, cluster) <==> c in ConfigsIn(configMaps, cluster) + ConfigsIn(secrets, cluster)
    ensures forall s :: s in Complaints(ns, cluster) <==> s in SkippedIn(configMaps, cluster) + SkippedIn(secrets, cluster)
  {
    assert forall o :: !Managed(o) ==> Contributes(o, cluster) == Nothing;
    hide Contributes, Managed, ConfigsIn, SkippedIn;
    forall r | r in ns && Contributes(ns[r], cluster) != Nothing ensures ns[r] in configMaps || ns[r] in secrets {
      assert Ref(ns[r].kind, ns[r].name) == r;
    }
  }

  /** discoverManagedResources: everything in scope, sorted by name; ties keep no particular order. */
  method DiscoverManagedResources(configMaps: seq<Object>, secrets: seq<Object>, ghost ns: Namespace, cluster: string)
    returns (configs: seq<Config>, skipped: seq<Skipped>)
    requires Lists(configMaps, ns, ConfigMap) && Lists(secrets, ns, Secret)
    ensures IsSortOf(configs, ConfigsIn(configMaps, cluster) + ConfigsIn(secrets, cluster), ConfigName)
    ensures IsSortOf(skipped, SkippedIn(configMaps, cluster) + SkippedIn(secrets, cluster), SkippedName)
    ensures forall c :: c in configs <==> c in Configs(ns, cluster)
    ensures forall s :: s in skipped <==> s in Complaints(ns, cluster)
  {
    hide Contributes, Managed, Ordered, ConfigsIn, SkippedIn, Configs, Complaints;
    var c, s := Collect(configMaps, cluster);
    var d, t := Collect(secrets, cluster);
    configs := SortBy(c + d, ConfigName);
    skipped := SortBy(s + t, SkippedName);
    ListsCoverNamespace(configMaps, secrets, ns, cluster);
    SameMembers(configs, c + d);
    SameMembers(skipped, s + t);
  }

  // ---------- Watches ----------

  datatype Event = Create(new_: Object) | Update(old_: Object, new_: Object) | Delete(old_: Object)

  ghost predicate Occurs(e: Event, ns: Namespace) {
    match e
    case Create(n) => Ref(n.kind, n.name) !in ns
    case Update(o, n) => Ref(o.kind, o.name) in ns && ns[Ref(o.kind, o.name)] == o && n.kind == o.kind && n.name == o.name
    case Delete(o) => Ref(o.kind, o.name) in ns && ns[Ref(o.kind, o.name)] == o
  }

  ghost function After(e: Event, ns: Namespace): Namespace {
    match e
    case Create(n) => ns[Ref(n.kind, n.name) := n]
    case Update(o, n) => ns[Ref(n.kind, n.name) := n]
    case Delete(o) => ns - {Ref(o.kind, o.name)}
  }

  /** managedConfigPredicate. */
  predicate Passes(e: Event) {
    match e
    case Create(n) => Managed(n)
    case Update(o, n) => Managed(n) || Managed(o)
    case Delete(o) => Managed(o)
  }

  function InScopeOf(clusters: seq<string>, o: Object): seq<string> {
    if clusters == [] then []
    else
      var c := clusters[|clusters| - 1];
      InScopeOf(clusters[..|clusters| - 1], o) + (if AppliesToCluster(o.annotations, c) then [c] else [])
  }

  /** The clusters one object state wakes: those in scope, or all when a scope names none of them. */
  function ClustersFor(o: Object, clusters: seq<string>): seq<string> {
    if !Managed(o) then []
    else if SCOPE_ANNOTATION in o.annotations && InScopeOf(clusters, o) == [] then clusters
    else InScopeOf(clusters, o)
  }

  method FindClustersForManagedConfig(o: Object, clusters: seq<string>) returns (requests: seq<string>)
    ensures requests == ClustersFor(o, clusters)
  {
    if !Managed(o) {
      return [];
    }
    requests := [];
    for i := 0 to |clusters|
      invariant requests == InScopeOf(clusters[..i], o)
    {
      assert clusters[..i + 1][..i] == clusters[..i];
      if !AppliesToCluster(o.annotations, clusters[i]) {
        continue;
      }
      requests := requests + [clusters[i]];
    }
    assert clusters[..|clusters|] == clusters;
    if SCOPE_ANNOTATION in o.annotations && |requests| == 0 {
      for i := 0 to |clusters|
        invariant requests == clusters[..i]
      {
        requests := requests + [clusters[i]];
      }
    }
  }

  datatype NodeRef = NodeRef(name: string, cluster: string)

  /** The nodes one object state wakes: those whose cluster is in scope. */
  function NodesFor(o: Object, nodes: seq<NodeRef>): seq<string> {
    if !Managed(o) || nodes == [] then []
    else
      var n := nodes[|nodes| - 1];
      NodesFor(o, nodes[..|nodes| - 1]) + (if AppliesToCluster(o.annotations, n.cluster) then [n.name] else [])
  }

  class WorkQueue {
    var requests: set<string>

    method Add(r: string)
      modifies this
      ensures requests == old(requests) + {r}
    {
      requests := requests + {r};
    }
  }

  /** What an event enqueues, given the mapping of one object state. */
  ghost function Enqueued(e: Event, targets: Object -> seq<string>): set<string> {
    match e
    case Create(n) => set r | r in targets(n)
    case Update(o, n) => set r | r in targets(o) + targets(n)
    case Delete(o) => set r | r in targets(o)
  }

  method Enqueue(q: WorkQueue, reqs: seq<string>)
    modifies q
    ensures q.requests == old(q.requests) + set r | r in reqs
  {
    for i := 0 to |reqs|
      invariant q.requests == old(q.requests) + set r | r in reqs[..i]
    {
      assert reqs[..i + 1] == reqs[..i] + [reqs[i]];
      q.Add(reqs[i]);
    }
    assert reqs[..|reqs|] == reqs;
  }

  /** newUnionScopeHandler behind its predicate. */
  method HandleEvent(q: WorkQueue, e: Event, targets: Object -> seq<string>)
    modifies q
    ensures q.requests == old(q.requests) + if Passes(e) then Enqueued(e, targets) else {}
  {
    if !Passes(e) {
      return;
    }
    match e
    case Create(n) => Enqueue(q, targets(n));
    case Delete(o) => Enqueue(q, targets(o));
    case Update(o, n) =>
      var seen: set<string> := {};
      var before, after := targets(o), targets(n);
      for i := 0 to |before|
        invariant seen == set r | r in before[..i]
        invariant q.requests == old(q.requests)
      {
        assert before[..i + 1] == before[..i] + [before[i]];
        seen := seen + {before[i]};
      }
      for i := 0 to |after|
        invariant seen == (set r | r in before) + set r | r in after[..i]
        invariant q.requests == old(q.requests)
      {
        assert after[..i + 1] == after[..i] + [after[i]];
        seen := seen + {after[i]};
      }
      assert seen == set r | r in before + after;
      var rest := seen;
      while rest != {}
        invariant rest <= seen && q.requests == old(q.requests) + (seen - rest)
        decreases rest
      {
        var r :| r in rest;
        q.Add(r);
        rest := rest - {r};
      }
  }

  // ---------- Completeness ----------

  lemma {:induction false} InScopeOfMembers(clusters: seq<string>, o: Object)
    ensures forall c :: c in InScopeOf(clusters, o) <==> c in clusters && AppliesToCluster(o.annotations, c)
  {
    hide AppliesToCluster;
    if clusters != [] {
      InScopeOfMembers(clusters[..|clusters| - 1], o);
      assert clusters == clusters[..|clusters| - 1] + [clusters[|clusters| - 1]];
    }
  }

  /** A cluster is woken exactly when the object is managed and names it, or names no cluster there is. */
  lemma ClusterIsWoken(o: Object, clusters: seq<string>, c: string)
    requires c in clusters
    ensures c in ClustersFor(o, clusters) <==>
      Managed(o) && (AppliesToCluster(o.annotations, c) || forall d :: d in clusters ==> !AppliesToCluster(o.annotations, d))
  {
    InScopeOfMembers(clusters, o);
    var s := InScopeOf(clusters, o);
    assert s != [] ==> s[0] in s;
    assert SCOPE_ANNOTATION !in o.annotations ==> AppliesToCluster(o.annotations, c);
  }

  /** With a cluster in the namespace no managed object is left without a reconcile to report its scope. */
  lemma SomeClusterIsWoken(o: Object, clusters: seq<string>)
    requires clusters != []
    ensures ClustersFor(o, clusters) != [] <==> Managed(o)
  {
    ClusterIsWoken(o, clusters, clusters[0]);
    InScopeOfMembers(clusters, o);
  }

  lemma {:induction false} NodeIsWoken(o: Object, nodes: seq<NodeRef>, n: NodeRef)
    requires n in nodes && Managed(o) && AppliesToCluster(o.annotations, n.cluster)
    ensures n.name in NodesFor(o, nodes)
  {
    hide AppliesToCluster, Managed;
    var last, before := nodes[|nodes| - 1], nodes[..|nodes| - 1];
    assert nodes == before + [last];
    if n != last {
      NodeIsWoken(o, before, n);
    }
  }

  /** The object states an event shows: the one it removes and the one it adds. */
  ghost function States(e: Event): set<Object> {
    match e
    case Create(n) => {n}
    case Update(o, n) => {o, n}
    case Delete(o) => {o}
  }

  lemma SameContributions(ns: Namespace, after: Namespace, cluster: string)
    requires forall r :: r in ns && Contributes(ns[r], cluster) != Nothing ==> r in after && after[r] == ns[r]
    requires forall r :: r in after && Contributes(after[r], cluster) != Nothing ==> r in ns && after[r] == ns[r]
    ensures Configs(after, cluster) == Configs(ns, cluster) && Complaints(after, cluster) == Complaints(ns, cluster)
  {
    hide Contributes;
  }

  lemma OutOfScopeChangesNothing(ns: Namespace, e: Event, cluster: string)
    requires Occurs(e, ns) && forall o :: o in States(e) ==> !InScope(o, cluster)
    ensures Configs(After(e, ns), cluster) == Configs(ns, cluster)
    ensures Complaints(After(e, ns), cluster) == Complaints(ns, cluster)
  {
    assert forall o :: !InScope(o, cluster) ==> Contributes(o, cluster) == Nothing;
    hide Contributes, InScope, Configs, Complaints;
    var after := After(e, ns);
    var x := if e.Create? then Ref(e.new_.kind, e.new_.name) else Ref(e.old_.kind, e.old_.name);
    assert forall r :: r != x ==> (r in after <==> r in ns) && (r in ns ==> after[r] == ns[r]);
    assert x in ns ==> ns[x] in States(e);
    assert x in after ==> after[x] in States(e);
    assert forall r :: r in ns && Contributes(ns[r], cluster) != Nothing ==> r in after && after[r] == ns[r];
    assert forall r :: r in after && Contributes(after[r], cluster) != Nothing ==> r in ns && after[r] == ns[r];
    SameContributions(ns, after, cluster);
  }

  /** An event that changes what a cluster discovers shows a managed state in that cluster's scope. */
  lemma ChangeIsInScope(ns: Namespace, e: Event, cluster: string)
    requires Occurs(e, ns)
    requires Configs(After(e, ns), cluster) != Configs(ns, cluster) || Complaints(After(e, ns), cluster) != Complaints(ns, cluster)
    ensures exists o :: o in States(e) && InScope(o, cluster)
  {
    hide InScope, Configs, Complaints;
    if forall o :: o in States(e) ==> !InScope(o, cluster) {
      OutOfScopeChangesNothing(ns, e, cluster);
    }
  }

  /** Whatever changes the discovery of a cluster wakes that cluster. */
  lemma ClusterWatchIsComplete(ns: Namespace, e: Event, clusters: seq<string>, cluster: string)
    requires Occurs(e, ns) && cluster in clusters
    requires Configs(After(e, ns), cluster) != Configs(ns, cluster) || Complaints(After(e, ns), cluster) != Complaints(ns, cluster)
    ensures Passes(e) && cluster in Enqueued(e, o => ClustersFor(o, clusters))
  {
    hide Configs, Complaints;
    ChangeIsInScope(ns, e, cluster);
    var o :| o in States(e) && InScope(o, cluster);
    ClusterIsWoken(o, clusters, cluster);
  }

  /** And it wakes every node that names the cluster, whether or not the cluster exists. */
  lemma NodeWatchIsComplete(ns: Namespace, e: Event, nodes: seq<NodeRef>, n: NodeRef)
    requires Occurs(e, ns) && n in nodes
    requires var c := n.cluster;
      Configs(After(e, ns), c) != Configs(ns, c) || Complaints(After(e, ns), c) != Complaints(ns, c)
    ensures Passes(e) && n.name in Enqueued(e, o => NodesFor(o, nodes))
  {
    hide Configs, Complaints;
    ChangeIsInScope(ns, e, n.cluster);
    var o :| o in States(e) && InScope(o, n.cluster);
    NodeIsWoken(o, nodes, n);
  }

  // ---------- The hash that rolls the pods ----------

  function DataFields(keys: seq<string>, data: map<string, string>): seq<string>
    requires forall k :: k in keys ==> k in data
  {
    if keys == [] then [] else [keys[0], data[keys[0]]] + DataFields(keys[1..], data)
  }

  ghost function ConfigFields(c: Config): seq<string> {
    [c.name, if c.isSecret then "Secret" else "ConfigMap", c.configType] + DataFields(Listing(c.data.Keys), c.data)
  }

  ghost function HashFields(configs: seq<Config>): seq<string> {
    if configs == [] then [] else ConfigFields(configs[0]) + HashFields(configs[1..])
  }

  /** computeConfigHash. */
  ghost function ConfigHash(configs: seq<Config>): Digest {
    if configs == [] then NoDigest else Sha256(Frame(HashFields(configs)))
  }

  lemma {:induction false} FrameSplits(a: seq<string>, x: string, y: string, b: seq<string>)
    ensures Frame(a + [x] + b) == Frame(a + [y] + b) <==> x == y
  {
    FrameOfConcat(a + [x], b);
    FrameOfConcat(a + [y], b);
    FrameSnoc(a, x);
    FrameSnoc(a, y);
    var p, q := Frame(a), [NUL] + Frame(b);
    assert Frame(a + [x] + b) == p + x + q && Frame(a + [y] + b) == p + y + q;
    if p + x + q == p + y + q {
      assert |x| == |y|;
      assert x == (p + x + q)[|p|..|p| + |x|] == (p + y + q)[|p|..|p| + |y|] == y;
    }
  }

  /** The fields around one value do not depend on the value. */
  lemma {:induction false} DataFieldsAround(keys: seq<string>, data: map<string, string>, k: string, v: string)
    returns (a: seq<string>, b: seq<string>)
    requires Increasing(keys) && k in keys && forall x :: x in keys ==> x in data
    ensures DataFields(keys, data) == a + [data[k]] + b
    ensures DataFields(keys, data[k := v]) == a + [v] + b
  {
    assert keys == [keys[0]] + keys[1..];
    if keys[0] == k {
      LessTotal(k, k);
      SameFields(keys[1..], data, k, v);
      a, b := [k], DataFields(keys[1..], data);
    } else {
      a, b := DataFieldsAround(keys[1..], data, k, v);
      a := [keys[0], data[keys[0]]] + a;
      assert DataFields(keys, data[k := v]) == a + [v] + b;
    }
  }

  lemma {:induction false} SameFields(keys: seq<string>, data: map<string, string>, k: string, v: string)
    requires k !in keys && forall x :: x in keys ==> x in data
    ensures DataFields(keys, data[k := v]) == DataFields(keys, data)
  {
    if keys != [] {
      SameFields(keys[1..], data, k, v);
    }
  }

  lemma {:induction false} HashFieldsAround(configs: seq<Config>, i: nat, c: Config)
    returns (a: seq<string>, b: seq<string>)
    requires i < |configs|
    ensures HashFields(configs) == a + ConfigFields(configs[i]) + b
    ensures HashFields(configs[i := c]) == a + ConfigFields(c) + b
  {
    hide ConfigFields;
    if i == 0 {
      a, b := [], HashFields(configs[1..]);
      assert configs[0 := c][1..] == configs[1..];
    } else {
      a, b := HashFieldsAround(configs[1..], i - 1, c);
      assert configs[i := c][1..] == configs[1..][i - 1 := c];
      a := ConfigFields(configs[0]) + a;
      assert HashFields(configs[i := c]) == a + ConfigFields(c) + b;
    }
  }

  /** Changing one value, of an env resource too, changes the hash, so the pods roll. */
  lemma ValueChangeRollsPods(configs: seq<Config>, i: nat, k: string, v: string)
    requires i < |configs| && k in configs[i].data
    ensures var changed := configs[i := configs[i].(data := configs[i].data[k := v])];
      ConfigHash(changed) == ConfigHash(configs) <==> v == configs[i].data[k]
  {
    hide Listing, HashFields;
    var c := configs[i];
    var d := c.(data := c.data[k := v]);
    assert d.data.Keys == c.data.Keys;
    var a, b := DataFieldsAround(Listing(c.data.Keys), c.data, k, v);
    var p, q := HashFieldsAround(configs, i, d);
    var head := [c.name, if c.isSecret then "Secret" else "ConfigMap", c.configType];
    assert p + ConfigFields(c) + q == (p + head + a) + [c.data[k]] + (b + q);
    assert p + ConfigFields(d) + q == (p + head + a) + [v] + (b + q);
    FrameSplits(p + head + a, c.data[k], v, b + q);
  }

  // ---------- What discovery means ----------

  /** The label of this name has this value. */
  predicate Labelled(o: Object, key: string, value: string) {
    key in o.labels && o.labels[key] == value
  }

  /** Managed, not the operator's own cluster-config Secret, and scoped to the cluster by name or to every cluster. */
  ghost predicate Meant(o: Object, cluster: string) {
    && Labelled(o, "curity.io/managed", "true")
    && !(o.kind == Secret && Labelled(o, "curity.io/component", "cluster-config"))
    && ("curity.io/cluster" in o.annotations ==>
          cluster != "" && exists f :: f in Split(o.annotations["curity.io/cluster"], ',') && TrimSpace(f) == cluster)
  }

  /** The type an object asks for: base unless its annotation says otherwise. */
  function AskedType(o: Object): string {
    if "curity.io/config-type" !in o.annotations || o.annotations["curity.io/config-type"] == "" then "base"
    else o.annotations["curity.io/config-type"]
  }

  const TYPES: set<string> := {"base", "license", "logging", "postCommitScript", "env"}

  /** What a namespace holds for a cluster: a configuration for every meant object of a known type, with its name, kind,
      type and data, and a complaint for every meant object of any other type. */
  lemma DiscoveryMeaning(ns: Namespace, cluster: string, c: Config, s: Skipped)
    ensures c in Configs(ns, cluster) <==> exists r ::
      && r in ns && Meant(ns[r], cluster) && AskedType(ns[r]) in TYPES
      && c == Config(r.name, r.kind == Secret, AskedType(ns[r]), ns[r].data)
    ensures s in Complaints(ns, cluster) <==> exists r ::
      && r in ns && Meant(ns[r], cluster) && AskedType(ns[r]) !in TYPES
      && s == Skipped(r.name, r.kind, AskedType(ns[r]))
  {
    forall r | r in ns
      ensures Contributes(ns[r], cluster) == (
        if !Meant(ns[r], cluster) then Nothing
        else if AskedType(ns[r]) in TYPES then Found(Config(r.name, r.kind == Secret, AskedType(ns[r]), ns[r].data))
        else Complaint(Skipped(r.name, r.kind, AskedType(ns[r]))))
    {
      ContributionMeaning(ns[r], cluster);
      assert Ref(ns[r].kind, ns[r].name) == r;
    }
    hide Contributes, Meant, AskedType;
  }

  lemma ContributionMeaning(o: Object, cluster: string)
    ensures Contributes(o, cluster) ==
      if !Meant(o, cluster) then Nothing
      else if AskedType(o) in TYPES then Found(Config(o.name, o.kind == Secret, AskedType(o), o.data))
      else Complaint(Skipped(o.name, o.kind, AskedType(o)))
  {
    hide TrimSpace, Split;
    assert InScope(o, cluster) <==> Meant(o, cluster);
  }

  /** An object state wakes exactly the nodes whose cluster it is meant for. */
  lemma {:induction false} NodeIsWokenIff(o: Object, nodes: seq<NodeRef>, name: string)
    ensures name in NodesFor(o, nodes) <==>
      Managed(o) && exists n :: n in nodes && n.name == name && AppliesToCluster(o.annotations, n.cluster)
  {
    hide AppliesToCluster, Managed;
    if nodes != [] {
      var last, before := nodes[|nodes| - 1], nodes[..|nodes| - 1];
      assert nodes == before + [last];
      NodeIsWokenIff(o, before, name);
    }
  }

  /** Without configurations there is no hash, and so no annotation. */
  lemma HashIffConfigs(configs: seq<Config>)
    ensures ConfigHash(configs) == NoDigest <==> configs == []
  {}
}

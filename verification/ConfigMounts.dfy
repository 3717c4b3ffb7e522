/** Logging validation and the mount paths of the discovered configurations. */
module ConfigMounts {
  import opened Wrappers
  import opened Framing
  import opened Ordering
  import opened Sequences
  import opened Sorting
  import opened ManagedConfig

  // ---------- Logging validation ----------

  const LOGGING: string := "logging"
  const LOGGING_KEY: string := "log4j2.xml"

  predicate IsLogging(c: Config) {
    c.configType == LOGGING
  }

  /** Exactly one data key, of the one name. */
  predicate ValidLogging(c: Config) {
    c.data.Keys == {LOGGING_KEY}
  }

  datatype Reason = LoggingConfigInvalid | DuplicateLoggingConfig

  /** A resource named by its kind and name. */
  function RefKey(c: Config): string {
    (if c.isSecret then "Secret" else "ConfigMap") + "/" + c.name
  }

  datatype Issue = Issue(config: Config, reason: Reason)

  predicate Sound(c: Config) {
    IsLogging(c) ==> ValidLogging(c)
  }

  predicate Unsound(c: Config) {
    !Sound(c)
  }

  predicate NotLogging(c: Config) {
    !IsLogging(c)
  }

  predicate GoodLogging(c: Config) {
    IsLogging(c) && ValidLogging(c)
  }

  function Loggings(configs: seq<Config>): seq<Config> {
    Filter(configs, GoodLogging)
  }

  /** What is mounted: everything but logging, and the one valid logging resource when it is the only one. */
  function Kept(configs: seq<Config>): seq<Config> {
    if |Loggings(configs)| <= 1 then Filter(configs, Sound) else Filter(configs, NotLogging)
  }

  /** The dropped resources: invalid ones, and all valid ones when there are several. */
  predicate Dropped(configs: seq<Config>, c: Config) {
    IsLogging(c) && (!ValidLogging(c) || |Loggings(configs)| > 1)
  }

  /** One issue of the given reason for every listed resource, in order. */
  predicate Reports(issues: seq<Issue>, configs: seq<Config>, reason: Reason) {
    |issues| == |configs| && forall k :: 0 <= k < |issues| ==> issues[k] == Issue(configs[k], reason)
  }

  /** The first pass: invalid logging resources are reported and left out. */
  method ValidateEach(configs: seq<Config>) returns (valid: seq<Config>, issues: seq<Issue>)
    ensures valid == Filter(configs, Sound)
    ensures Reports(issues, Filter(configs, Unsound), LoggingConfigInvalid)
  {
    hide Filter, ValidLogging, IsLogging;
    issues, valid := [], [];
    for i := 0 to |configs|
      invariant valid == Filter(configs[..i], Sound)
      invariant Reports(issues, Filter(configs[..i], Unsound), LoggingConfigInvalid)
    {
      var c := configs[i];
      FilterSnoc(configs, i, Sound);
      FilterSnoc(configs, i, Unsound);
      if !IsLogging(c) {
        valid := valid + [c];
        continue;
      }
      if !ValidLogging(c) {
        issues := issues + [Issue(c, LoggingConfigInvalid)];
        continue;
      }
      valid := valid + [c];
    }
    assert configs[..|configs|] == configs;
  }

  /** detectDuplicateLoggingConfigs: the logging resources in (kind, name) order when there are several. */
  method DetectDuplicates(configs: seq<Config>) returns (owners: seq<Config>)
    ensures |Filter(configs, IsLogging)| <= 1 ==> owners == []
    ensures |Filter(configs, IsLogging)| > 1 ==> IsSortOf(owners, Filter(configs, IsLogging), RefKey)
  {
    hide Filter, IsLogging;
    owners := [];
    for i := 0 to |configs|
      invariant owners == Filter(configs[..i], IsLogging)
    {
      FilterSnoc(configs, i, IsLogging);
      if !IsLogging(configs[i]) {
        continue;
      }
      owners := owners + [configs[i]];
    }
    assert configs[..|configs|] == configs;
    if |owners| <= 1 {
      return [];
    }
    owners := SortBy(owners, RefKey);
  }

  /** The last pass: what the duplicate set names is left out. */
  method DropNamed(configs: seq<Config>, names: set<string>) returns (kept: seq<Config>)
    requires forall c :: c in configs && IsLogging(c) ==> RefKey(c) in names
    ensures kept == Filter(configs, NotLogging)
  {
    hide Filter, IsLogging, RefKey;
    kept := [];
    for i := 0 to |configs|
      invariant kept == Filter(configs[..i], NotLogging)
    {
      FilterSnoc(configs, i, NotLogging);
      var c := configs[i];
      assert c in configs;
      if !IsLogging(c) {
        kept := kept + [c];
        continue;
      }
      if RefKey(c) in names {
        continue;
      }
      kept := kept + [c];
    }
    assert configs[..|configs|] == configs;
  }

  /** The issues of a list: the invalid resources in list order, then the duplicates in (kind, name) order. */
  ghost predicate IssuesOf(configs: seq<Config>, issues: seq<Issue>) {
    exists invalid, duplicates, sorted ::
      && issues == invalid + duplicates
      && Reports(invalid, Filter(configs, Unsound), LoggingConfigInvalid)
      && Reports(duplicates, sorted, DuplicateLoggingConfig)
      && IsSortOf(sorted, if |Loggings(configs)| > 1 then Loggings(configs) else [], RefKey)
  }

  method ApplyLoggingValidations(configs: seq<Config>) returns (kept: seq<Config>, issues: seq<Issue>)
    ensures kept == Kept(configs) && IssuesOf(configs, issues)
  {
    hide Filter, Ordered, RefKey;
    FilterOfFilter(configs, Sound, IsLogging, GoodLogging);
    FilterOfFilter(configs, Sound, NotLogging, NotLogging);
    var valid, invalid := ValidateEach(configs);
    var owners := DetectDuplicates(valid);
    if owners == [] {
      assert |Loggings(configs)| <= 1;
      assert Reports([], [], DuplicateLoggingConfig) && IsSortOf<Config>([], [], RefKey) by { NothingSorted(); }
      assert invalid == invalid + [];
      return valid, invalid;
    }
    var names: set<string> := {};
    var duplicates: seq<Issue> := [];
    for i := 0 to |owners|
      invariant forall c :: c in owners[..i] ==> RefKey(c) in names
      invariant Reports(duplicates, owners[..i], DuplicateLoggingConfig)
    {
      assert owners[..i + 1] == owners[..i] + [owners[i]];
      names := names + {RefKey(owners[i])};
      duplicates := duplicates + [Issue(owners[i], DuplicateLoggingConfig)];
    }
    assert owners[..|owners|] == owners;
    SameMembers(owners, Loggings(configs));
    kept := DropNamed(valid, names);
    issues := invalid + duplicates;
  }

  lemma NothingSorted()
    ensures IsSortOf<Config>([], [], RefKey)
  {}

  // ---------- What the validation achieves ----------

  function Subjects(issues: seq<Issue>): seq<Config> {
    seq(|issues|, i requires 0 <= i < |issues| => issues[i].config)
  }

  /** Nothing is lost and nothing doubled: every resource is either kept or reported, exactly once. */
  lemma KeptAndIssuesCover(configs: seq<Config>, issues: seq<Issue>)
    requires IssuesOf(configs, issues)
    ensures multiset(Kept(configs)) + multiset(Subjects(issues)) == multiset(configs)
  {
    hide Filter, Ordered;
    var invalid, duplicates, sorted :|
      && issues == invalid + duplicates
      && Reports(invalid, Filter(configs, Unsound), LoggingConfigInvalid)
      && Reports(duplicates, sorted, DuplicateLoggingConfig)
      && IsSortOf(sorted, if |Loggings(configs)| > 1 then Loggings(configs) else [], RefKey);
    assert Subjects(issues) == Filter(configs, Unsound) + sorted;
    FilterSplits(configs, Sound, Unsound);
    var valid := Filter(configs, Sound);
    FilterSplits(valid, IsLogging, NotLogging);
    FilterOfFilter(configs, Sound, IsLogging, GoodLogging);
    FilterOfFilter(configs, Sound, NotLogging, NotLogging);
  }

  /** What is kept holds at most one logging resource, and a valid one. */
  lemma AtMostOneLogging(configs: seq<Config>)
    ensures forall c :: c in Kept(configs) && IsLogging(c) ==> ValidLogging(c)
    ensures |Filter(Kept(configs), IsLogging)| <= 1
  {
    FilterOfFilter(configs, Sound, IsLogging, GoodLogging);
    if |Loggings(configs)| > 1 {
      var twice := Filter(Filter(configs, NotLogging), IsLogging);
      NoMembers(twice);
    }
  }

  /** A logging resource holds the one file that is mounted, and nothing else. */
  predicate HoldsLog4j(c: Config) {
    c.configType == "logging" && c.data.Keys == {"log4j2.xml"}
  }

  /** What is kept: everything that is not logging, and a logging resource that holds the one file if it is the only
      one that does. */
  lemma KeptMeaning(configs: seq<Config>, c: Config)
    ensures c in Kept(configs) <==>
      c in configs && (c.configType == "logging" ==> HoldsLog4j(c) && |Filter(configs, HoldsLog4j)| == 1)
  {
    SameFilter(configs, GoodLogging, HoldsLog4j);
    if c in configs && HoldsLog4j(c) { assert c in Filter(configs, HoldsLog4j); }
  }

  lemma {:induction false} SameFilter(configs: seq<Config>, p: Config -> bool, q: Config -> bool)
    requires forall c :: p(c) <==> q(c)
    ensures Filter(configs, p) == Filter(configs, q)
  {
    if configs != [] {
      SameFilter(configs[..|configs| - 1], p, q);
    }
  }

  /** What is reported: every logging resource that does not hold the one file, as invalid, and every one that does, as a
      duplicate, when there are several. */
  lemma IssueMeaning(configs: seq<Config>, issues: seq<Issue>, i: Issue)
    requires IssuesOf(configs, issues)
    ensures i in issues <==>
      && i.config in configs && i.config.configType == "logging"
      && (i.reason.LoggingConfigInvalid? <==> !HoldsLog4j(i.config))
      && (i.reason.DuplicateLoggingConfig? ==> |Filter(configs, HoldsLog4j)| > 1)
  {
    SameFilter(configs, GoodLogging, HoldsLog4j);
    hide Ordered, RefKey;
    var invalid, duplicates, sorted :|
      && issues == invalid + duplicates
      && Reports(invalid, Filter(configs, Unsound), LoggingConfigInvalid)
      && Reports(duplicates, sorted, DuplicateLoggingConfig)
      && IsSortOf(sorted, if |Loggings(configs)| > 1 then Loggings(configs) else [], RefKey);
    SameMembers(sorted, if |Loggings(configs)| > 1 then Loggings(configs) else []);
    ReportedIff(invalid, Filter(configs, Unsound), LoggingConfigInvalid, i);
    ReportedIff(duplicates, sorted, DuplicateLoggingConfig, i);
    hide Filter, IssuesOf;
  }

  lemma ReportedIff(issues: seq<Issue>, configs: seq<Config>, reason: Reason, i: Issue)
    requires Reports(issues, configs, reason)
    ensures i in issues <==> i.reason == reason && i.config in configs
  {
    if i.reason == reason && i.config in configs {
      var k :| 0 <= k < |configs| && configs[k] == i.config;
      assert issues[k] == i;
    }
  }

  lemma {:induction false} LessAfter(p: string, a: string, b: string)
    ensures Less(p + a, p + b) <==> Less(a, b)
  {
    if p == "" {
      assert p + a == a && p + b == b;
    } else {
      assert (p + a)[1..] == p[1..] + a && (p + b)[1..] == p[1..] + b;
      LessAfter(p[1..], a, b);
    }
  }

  /** The duplicates are listed ConfigMaps first, and by name within a kind. */
  lemma DuplicatesAreOrdered(configs: seq<Config>, issues: seq<Issue>, i: nat, j: nat)
    requires IssuesOf(configs, issues) && i < j < |issues|
    requires issues[i].reason.DuplicateLoggingConfig? && issues[j].reason.DuplicateLoggingConfig?
    ensures var a, b := issues[i].config, issues[j].config;
      (a.isSecret ==> b.isSecret) && (a.isSecret == b.isSecret ==> !Less(b.name, a.name))
  {
    var invalid, duplicates, sorted :|
      && issues == invalid + duplicates
      && Reports(invalid, Filter(configs, Unsound), LoggingConfigInvalid)
      && Reports(duplicates, sorted, DuplicateLoggingConfig)
      && IsSortOf(sorted, if |Loggings(configs)| > 1 then Loggings(configs) else [], RefKey);
    hide Filter, IssuesOf, RefKey, Less, Loggings;
    forall k | 0 <= k < |invalid| ensures issues[k].reason.LoggingConfigInvalid? { assert issues[k] == invalid[k]; }
    assert duplicates[i - |invalid|] == issues[i] && duplicates[j - |invalid|] == issues[j];
    KeysAreOrdered(issues[i].config, issues[j].config);
  }

  lemma KeysAreOrdered(a: Config, b: Config)
    requires !Less(RefKey(b), RefKey(a))
    ensures (a.isSecret ==> b.isSecret) && (a.isSecret == b.isSecret ==> !Less(b.name, a.name))
  {
    LessAfter("Secret/", b.name, a.name);
    LessAfter("ConfigMap/", b.name, a.name);
    assert RefKey(a) == (if a.isSecret then "Secret/" + a.name else "ConfigMap/" + a.name);
    assert RefKey(b) == (if b.isSecret then "Secret/" + b.name else "ConfigMap/" + b.name);
  }

  /** A second pass keeps everything and reports nothing, so both reconcilers agree on what is mounted. */
  lemma ValidationIsIdempotent(configs: seq<Config>, issues: seq<Issue>)
    requires IssuesOf(Kept(configs), issues)
    ensures Kept(Kept(configs)) == Kept(configs) && issues == []
  {
    hide Filter, IssuesOf;
    var kept := Kept(configs);
    assert Kept(kept) == kept by {
      KeptIsStable(configs);
    }
    hide *;
    KeptAndIssuesCover(kept, issues);
    NothingAdded(multiset(kept), multiset(Subjects(issues)));
    assert |multiset(Subjects(issues))| == |Subjects(issues)| == |issues|;
  }

  lemma KeptIsStable(configs: seq<Config>)
    ensures Kept(Kept(configs)) == Kept(configs)
  {
    hide Filter, Loggings, ValidLogging;
    var kept := Kept(configs);
    AtMostOneLogging(configs);
    FilterKeepsAll(kept, Sound);
    FilterOfFilter(kept, Sound, IsLogging, GoodLogging);
    assert Loggings(kept) == Filter(kept, GoodLogging) by { LoggingsIs(kept); }
  }

  lemma LoggingsIs(configs: seq<Config>)
    ensures Loggings(configs) == Filter(configs, GoodLogging)
  {}

  lemma NothingAdded<T>(a: multiset<T>, b: multiset<T>)
    requires a + b == a
    ensures b == multiset{}
  {
    assert |a + b| == |a| + |b|;
  }

  /** What is kept stands in input order: it is found in the input at increasing positions. */
  lemma KeptInOrder(configs: seq<Config>) returns (at: seq<nat>)
    ensures Embeds(Kept(configs), configs, at)
  {
    if |Loggings(configs)| <= 1 {
      at := FilterEmbeds(configs, Sound);
    } else {
      at := FilterEmbeds(configs, NotLogging);
    }
  }

  // ---------- Mount paths ----------

  const BASE_DIR: string := "/opt/idsvr/etc/init/"
  const LICENSE_DIR: string := "/opt/idsvr/etc/init/license/"
  const LOGGING_FILE: string := "/opt/idsvr/etc/log4j2.xml"
  const SCRIPT_DIR: string := "/opt/idsvr/usr/bin/post-commit-scripts/"
  const CLUSTER_FILE: string := "/opt/idsvr/etc/init/cluster.xml"

  function MountFilename(isSecret: bool, name: string, key: string): string {
    (if isSecret then "secret_" else "cm_") + name + "_" + key
  }

  /** A mounted file: cluster.xml, the logging leaf, or one key of one resource in a directory. */
  datatype Mount = ClusterXml | Leaf(key: string) | File(configType: string, isSecret: bool, name: string, key: string)

  function DirOf(configType: string): string {
    if configType == "license" then LICENSE_DIR
    else if configType == "postCommitScript" then SCRIPT_DIR
    else BASE_DIR
  }

  function PathOf(m: Mount): string {
    match m
    case ClusterXml => CLUSTER_FILE
    case Leaf(_) => LOGGING_FILE
    case File(t, s, n, k) => DirOf(t) + MountFilename(s, n, k)
  }

  function FilesOf(c: Config, keys: seq<string>): seq<Mount> {
    seq(|keys|, i requires 0 <= i < |keys| => File(c.configType, c.isSecret, c.name, keys[i]))
  }

  ghost function MountsOf(c: Config): seq<Mount> {
    var keys := Listing(c.data.Keys);
    if c.configType == "env" then []
    else if IsLogging(c) then (if |keys| == 1 then [Leaf(keys[0])] else [])
    else FilesOf(c, keys)
  }

  ghost function Mounts(configs: seq<Config>): seq<Mount> {
    if configs == [] then [ClusterXml] else Mounts(configs[..|configs| - 1]) + MountsOf(configs[|configs| - 1])
  }

  /** The mounts buildVolumes builds. */
  method BuildMounts(configs: seq<Config>) returns (mounts: seq<Mount>)
    ensures mounts == Mounts(configs)
  {
    hide Listing;
    mounts := [ClusterXml];
    for i := 0 to |configs|
      invariant mounts == Mounts(configs[..i])
    {
      var c := configs[i];
      assert configs[..i + 1][..i] == configs[..i];
      assert mounts + [] == mounts;
      if c.configType == "env" {
        continue;
      }
      var keys := SortKeys(c.data.Keys);
      IncreasingIsUnique(keys, Listing(c.data.Keys));
      var isLeaf := IsLogging(c);
      if isLeaf && |keys| != 1 {
        continue;
      }
      if isLeaf {
        mounts := mounts + [Leaf(keys[0])];
        continue;
      }
      ghost var before := mounts;
      for k := 0 to |keys|
        invariant mounts == before + FilesOf(c, keys[..k])
      {
        assert FilesOf(c, keys[..k + 1]) == FilesOf(c, keys[..k]) + [File(c.configType, c.isSecret, c.name, keys[k])];
        mounts := mounts + [File(c.configType, c.isSecret, c.name, keys[k])];
      }
      assert keys[..|keys|] == keys;
    }
    assert configs[..|configs|] == configs;
  }

  /** Kubernetes resource names hold no underscore. */
  predicate PlainName(m: Mount) {
    m.File? ==> '_' !in m.name
  }

  /** The file name determines kind, name and key. */
  lemma FilenameDetermines(s: bool, n: string, k: string, s': bool, n': string, k': string)
    requires '_' !in n && '_' !in n'
    requires MountFilename(s, n, k) == MountFilename(s', n', k')
    ensures s == s' && n == n' && k == k'
  {
    var a, b := MountFilename(s, n, k), MountFilename(s', n', k');
    assert a[0] == (if s then 's' else 'c') && b[0] == (if s' then 's' else 'c');
    var d := if s then 7 else 3;
    assert a[d..] == n + ['_'] + k && b[d..] == n' + ['_'] + k';
    HeadsAgreeAt('_', n, n', k, k');
  }

  /** The characters that tell the mounts apart: the sixth directory letter, then the first two of the file. */
  lemma PathLandmarks(m: Mount)
    ensures var p := PathOf(m);
      && |p| > 21
      && (m.ClusterXml? ==> p[11] == 'e' && p[15] == 'i' && p[20] == 'c' && p[21] == 'l')
      && (m.Leaf? ==> p[11] == 'e' && p[15] == 'l')
      && (m.File? ==>
           var dir, file := DirOf(m.configType), MountFilename(m.isSecret, m.name, m.key);
           && p == dir + file && |file| > 2
           && (dir == SCRIPT_DIR ==> p[11] == 'u')
           && (dir == LICENSE_DIR ==> p[11] == 'e' && p[15] == 'i' && p[20] == 'l')
           && (dir == BASE_DIR ==> p[11] == 'e' && p[15] == 'i' && p[20] == file[0] && p[21] == file[1]
                                   && ((p[20] == 'c' && p[21] == 'm') || p[20] == 's')))
  {
    if m.File? {
      var file := MountFilename(m.isSecret, m.name, m.key);
      assert |BASE_DIR| == 20 && (BASE_DIR + file)[20] == file[0] && (BASE_DIR + file)[21] == file[1];
    }
  }

  /** Two mounts share a path only when they are two logging leaves or the same file of the same directory. */
  lemma PathsDiffer(a: Mount, b: Mount)
    requires PlainName(a) && PlainName(b)
    ensures PathOf(a) == PathOf(b) <==>
      || a == b == ClusterXml
      || (a.Leaf? && b.Leaf?)
      || (a.File? && b.File? && a.(configType := b.configType) == b && DirOf(a.configType) == DirOf(b.configType))
  {
    hide MountFilename;
    PathLandmarks(a);
    PathLandmarks(b);
    if a.File? && b.File? && PathOf(a) == PathOf(b) {
      var dir := DirOf(a.configType);
      assert DirOf(b.configType) == dir;
      var f, g := MountFilename(a.isSecret, a.name, a.key), MountFilename(b.isSecret, b.name, b.key);
      assert f == PathOf(a)[|dir|..] == PathOf(b)[|dir|..] == g;
      FilenameDetermines(a.isSecret, a.name, a.key, b.isSecret, b.name, b.key);
    }
  }

  /** Without the naming rule two resources can ask for one path. */
  lemma UnderscoreCollides(t: string, x: string, y: string, z: string)
    ensures var a, b := File(t, false, x, y + "_" + z), File(t, false, x + "_" + y, z);
      PathOf(a) == PathOf(b) && a != b
  {
    var a, b := File(t, false, x, y + "_" + z), File(t, false, x + "_" + y, z);
    assert MountFilename(false, x, y + "_" + z) == MountFilename(false, x + "_" + y, z);
    assert |a.name| != |b.name|;
  }

  predicate UniqueRefs(configs: seq<Config>) {
    forall i, j :: 0 <= i < j < |configs| ==> !(configs[i].isSecret == configs[j].isSecret && configs[i].name == configs[j].name)
  }

  ghost predicate DistinctPaths(mounts: seq<Mount>) {
    forall i, j :: 0 <= i < j < |mounts| ==> PathOf(mounts[i]) != PathOf(mounts[j])
  }

  /** Where the mounts of a list come from. */
  lemma {:induction false} MountsComeFrom(configs: seq<Config>)
    ensures forall m :: m in Mounts(configs) ==>
      m == ClusterXml || exists c :: c in configs && m in MountsOf(c)
  {
    hide MountsOf;
    if configs != [] {
      var before := configs[..|configs| - 1];
      assert configs == before + [configs[|configs| - 1]];
      MountsComeFrom(before);
    }
  }

  lemma MountsOfOne(c: Config)
    requires '_' !in c.name
    ensures DistinctPaths(MountsOf(c))
    ensures forall m :: m in MountsOf(c) ==>
      && PlainName(m) && !m.ClusterXml?
      && (m.Leaf? ==> IsLogging(c)) && (m.File? ==> m.isSecret == c.isSecret && m.name == c.name)
  {
    hide Listing, MountFilename, DirOf;
    var keys := Listing(c.data.Keys);
    var ms := MountsOf(c);
    forall i, j | 0 <= i < j < |ms| ensures PathOf(ms[i]) != PathOf(ms[j]) {
      LessTotal(keys[i], keys[j]);
      PathsDiffer(ms[i], ms[j]);
    }
  }

  /** The mounts of one more resource meet none of the earlier ones. */
  lemma LastMountsAreNew(configs: seq<Config>, a: Mount, b: Mount)
    requires UniqueRefs(configs) && forall c :: c in configs ==> '_' !in c.name
    requires configs != [] && |Filter(configs, IsLogging)| <= 1
    requires a in Mounts(configs[..|configs| - 1]) && b in MountsOf(configs[|configs| - 1])
    ensures PathOf(a) != PathOf(b)
  {
    hide MountsOf, PathOf, Filter, Mounts, DirOf;
    var n := |configs| - 1;
    var before, last := configs[..n], configs[n];
    MountsComeFrom(before);
    MountsOfOne(last);
    if a != ClusterXml {
      var c :| c in before && a in MountsOf(c);
      MountsOfOne(c);
      var i :| 0 <= i < n && configs[i] == c;
      assert !(c.isSecret == last.isSecret && c.name == last.name);
    }
    PathsDiffer(a, b);
  }

  /** Every mounted path is different, cluster.xml included. */
  lemma {:induction false} MountPathsAreDistinct(configs: seq<Config>)
    requires UniqueRefs(configs) && forall c :: c in configs ==> '_' !in c.name
    requires |Filter(configs, IsLogging)| <= 1
    ensures DistinctPaths(Mounts(configs))
  {
    if configs != [] {
      hide MountsOf, PathOf, Filter, DistinctPaths, UniqueRefs;
      var n := |configs| - 1;
      var before, last := configs[..n], configs[n];
      PrefixKeepsUnique(configs);
      MountPathsAreDistinct(before);
      assert last in configs;
      MountsOfOne(last);
      var ms, more := Mounts(before), MountsOf(last);
      forall a, b | a in ms && b in more ensures PathOf(a) != PathOf(b) {
        LastMountsAreNew(configs, a, b);
      }
      DistinctConcat(ms, more);
    }
  }

  lemma PrefixKeepsUnique(configs: seq<Config>)
    requires configs != [] && UniqueRefs(configs) && |Filter(configs, IsLogging)| <= 1
    ensures var before := configs[..|configs| - 1]; UniqueRefs(before) && |Filter(before, IsLogging)| <= 1
  {}

  lemma DistinctConcat(a: seq<Mount>, b: seq<Mount>)
    requires DistinctPaths(a) && DistinctPaths(b)
    requires forall x, y :: x in a && y in b ==> PathOf(x) != PathOf(y)
    ensures DistinctPaths(a + b)
  {}

  /** What the validated pipeline mounts never overlaps. */
  lemma ValidatedMountsAreDistinct(configs: seq<Config>)
    requires UniqueRefs(configs) && forall c :: c in configs ==> '_' !in c.name
    ensures DistinctPaths(Mounts(Kept(configs)))
  {
    hide Filter, Mounts;
    AtMostOneLogging(configs);
    var at := KeptInOrder(configs);
    MountPathsAreDistinct(Kept(configs));
  }

  // ---------- Where everything is mounted ----------

  /** The path of one key of one configuration; None when it is not mounted as a file. */
  function Placed(c: Config, key: string): Option<string> {
    var file := (if c.isSecret then "secret_" else "cm_") + c.name + "_" + key;
    if c.configType == "env" then None
    else if c.configType == "logging" then (if |c.data| == 1 then Some("/opt/idsvr/etc/log4j2.xml") else None)
    else if c.configType == "license" then Some("/opt/idsvr/etc/init/license/" + file)
    else if c.configType == "postCommitScript" then Some("/opt/idsvr/usr/bin/post-commit-scripts/" + file)
    else Some("/opt/idsvr/etc/init/" + file)
  }

  lemma PlacedAt(c: Config, i: nat)
    requires i < |MountsOf(c)|
    ensures i < |Listing(c.data.Keys)| && Placed(c, Listing(c.data.Keys)[i]) == Some(PathOf(MountsOf(c)[i]))
  {
    ListingSize(c.data);
    hide Listing;
  }

  lemma PlacedIsMounted(c: Config, i: nat)
    requires i < |Listing(c.data.Keys)| && Placed(c, Listing(c.data.Keys)[i]).Some?
    ensures |MountsOf(c)| == |Listing(c.data.Keys)|
  {
    ListingSize(c.data);
    hide Listing;
  }

  /** What one configuration mounts, path by path. */
  lemma MountsOfMeaning(c: Config, path: string)
    ensures (exists m :: m in MountsOf(c) && PathOf(m) == path) <==> exists key :: key in c.data && Placed(c, key) == Some(path)
  {
    var keys, ms := Listing(c.data.Keys), MountsOf(c);
    hide MountsOf, PathOf, Placed;
    if key :| key in c.data && Placed(c, key) == Some(path) {
      assert key in keys;
      var i :| 0 <= i < |keys| && keys[i] == key;
      PlacedIsMounted(c, i);
      PlacedAt(c, i);
      assert ms[i] in ms;
    }
    if m :| m in ms && PathOf(m) == path {
      var i :| 0 <= i < |ms| && ms[i] == m;
      PlacedAt(c, i);
      assert keys[i] in c.data;
    }
  }

  lemma ListingSize(data: map<string, string>)
    ensures |Listing(data.Keys)| == |data|
  {
    var keys := Listing(data.Keys);
    IncreasingHasSize(keys, data.Keys);
    assert |data.Keys| == |data|;
  }

  lemma {:induction false} IncreasingHasSize(keys: seq<string>, s: set<string>)
    requires Increasing(keys) && forall x :: x in keys <==> x in s
    ensures |keys| == |s|
  {
    if keys == [] {
      assert s == {};
    } else {
      TailMembers(keys);
      IncreasingHasSize(keys[1..], s - {keys[0]});
    }
  }

  /** Every file lands where its type sends it: the mounted paths are cluster.xml and the place of every key of every
      configuration, and no others. */
  lemma {:induction false} MountedPaths(configs: seq<Config>, path: string)
    ensures (exists m :: m in Mounts(configs) && PathOf(m) == path) <==>
      path == "/opt/idsvr/etc/init/cluster.xml" || exists c, key :: c in configs && key in c.data && Placed(c, key) == Some(path)
  {
    if configs == [] {
      assert Mounts(configs) == [ClusterXml];
      assert ClusterXml in Mounts(configs);
    } else {
      var before, last := configs[..|configs| - 1], configs[|configs| - 1];
      assert configs == before + [last];
      MountedPaths(before, path);
      MountsOfMeaning(last, path);
      hide MountsOf, PathOf, Placed;
    }
  }
}

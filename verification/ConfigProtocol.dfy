/** Both controllers around the cluster-config Secret as one transition system. A cluster reconcile is a
    sequence of single writes that anything may interleave with or cut short; a node reconcile reads
    versions of any age, each object with an age of its own. */
module ConfigProtocol {
  import opened Wrappers
  import opened Framing
  import opened Text
  import opened ConfigHash
  import opened ClusterConfig
  import opened NodeGate
  import Runs

  /** A finished genclust run: the inputs and the encryption key of its Job, and the cluster.xml it printed. */
  datatype Run = Run(inputs: Inputs, keyHash: Digest, log: string)

  /** A Deployment write with everything its reconcile had read. */
  datatype Rollout = Rollout(view: NodeView, second: Option<ConfigSecret>, deployment: Deployment)

  /** Every persisted state so far, the cluster reconcile in flight, and what was observable. */
  datatype System = System(past: seq<World>, now: World, phase: Phase, runs: set<Run>, rollouts: seq<Rollout>)

  /** How old each object is that a node reconcile reads, as a position in the history. */
  datatype Ages = Ages(cluster: nat, nodes: nat, secret: nat, secretAgain: nat, creds: nat)

  datatype Event =
    | EditCluster(spec: ClusterSpec)
    | EditAdmin(admin: Option<AdminNode>)
    | SetCredentials(creds: Credentials)
    | JobCompletes(log: string)
    | JobFails
    | JobVanishes
    | BeginReconcile(cluster: nat, nodes: nat)
    | Write(answers: Answers)
    | Crash
    | ReconcileNode(ages: Ages)

  ghost predicate GoodSpec(spec: ClusterSpec) {
    && NulFree(spec.image) && NulFree(spec.pullSecret) && NulFree(spec.packagesHash)
    && !("cfgport=" <= spec.packagesHash)
  }

  ghost predicate GoodAdmin(admin: Option<AdminNode>) {
    admin.Some? ==> NulFree(admin.value.name) && admin.value.name != ""
  }

  function At(s: System, k: nat): World {
    if k < |s.past| then s.past[k] else s.now
  }

  function Push(s: System, w: World): System {
    s.(past := s.past + [s.now], now := w)
  }

  function ReadView(s: System, g: Ages): NodeView {
    NodeView(At(s, g.cluster).spec, At(s, g.cluster).ready, At(s, g.nodes).admin,
             At(s, g.secret).secret, At(s, g.creds).creds)
  }

  /** What a cluster reconcile begins with: spec and node list of any age, and what it wrote itself as it is. */
  function Seen(s: System, cluster: nat, nodes: nat): World {
    s.now.(spec := At(s, cluster).spec, admin := At(s, nodes).admin)
  }

  /** One event; an event that is not enabled changes nothing. */
  ghost function Apply(s: System, e: Event, hosts: string -> string): System {
    match e
    case EditCluster(spec) => if GoodSpec(spec) then Push(s, s.now.(spec := spec)) else s
    case EditAdmin(admin) => if GoodAdmin(admin) then Push(s, s.now.(admin := admin)) else s
    case SetCredentials(creds) => Push(s, s.now.(creds := creds))
    case JobCompletes(log) =>
      if s.now.job.Some? && s.now.job.value.status.Running? then
        Push(s, s.now.(job := Some(s.now.job.value.(status := Complete(log)))))
          .(runs := s.runs + {Run(s.now.job.value.inputs, s.now.job.value.keyHash, log)})
      else s
    case JobFails =>
      if s.now.job.Some? && s.now.job.value.status.Running? then
        Push(s, s.now.(job := Some(s.now.job.value.(status := Failed))))
      else s
    case JobVanishes => Push(s, s.now.(job := None))
    case BeginReconcile(cluster, nodes) => if s.phase.Idle? then s.(phase := Begin(Seen(s, cluster, nodes), hosts)) else s
    case Write(answers) =>
      var (w, ph) := Perform(s.now, s.phase, answers);
      Push(s, w).(phase := ph)
    case Crash => s.(phase := Idle)
    case ReconcileNode(g) =>
      var view, second := ReadView(s, g), At(s, g.secretAgain).secret;
      match DeploymentWrite(view, second)
      case None => s
      case Some(d) => s.(rollouts := s.rollouts + [Rollout(view, second, d)])
  }

  ghost function Step(hosts: string -> string): (System, Event) -> System {
    (s, e) => Apply(s, e, hosts)
  }

  ghost function Execute(s: System, events: seq<Event>, hosts: string -> string): System {
    Runs.Fold(Step(hosts), s, events)
  }

  /** Nothing generated yet: no Secret, no Job, no condition. */
  ghost predicate Initial(s: System) {
    && s.past == [] && s.phase == Idle && s.runs == {} && s.rollouts == []
    && GoodSpec(s.now.spec) && GoodAdmin(s.now.admin)
    && s.now.secret.None? && s.now.job.None? && s.now.ready == Unset
  }

  // ---------- Where cluster.xml came from ----------

  /** A derivation of some cluster.xml: a run, then in-place renames. */
  datatype Origin = FromRun | FromRename(source: Origin, oldAdmin: string, oldXml: string)

  /** The xml was printed by a run with exactly these inputs and this key, or is another such xml in which one host
      tag was changed from the former admin to this one, all other inputs being the same. */
  ghost predicate Explains(o: Origin, runs: set<Run>, xml: string, i: Inputs, key: Digest, hosts: string -> string) {
    match o
    case FromRun => Run(i, key, xml) in runs
    case FromRename(source, oldAdmin, oldXml) =>
      && Explains(source, runs, oldXml, i.(admin := oldAdmin), key, hosts)
      && Contains(oldXml, HostTag(hosts, oldAdmin))
      && xml == RenameHost(hosts, oldXml, oldAdmin, i.admin)
  }

  /** The annotations of the Secret tell the truth about its data: its inputs, its admin, and the key it is encrypted
      under, unless the run had none. */
  ghost predicate Backed(s: ConfigSecret, i: Inputs, key: Digest, o: Origin, runs: set<Run>, hosts: string -> string) {
    && WellFormed(i) && s.configHash == ConfigDigest(i) && s.admin == i.admin
    && (key == NoDigest || key == s.keyHash)
    && Explains(o, runs, s.data, i, key, hosts)
  }

  ghost predicate Sound(s: ConfigSecret, runs: set<Run>, hosts: string -> string) {
    Populated(s) ==> exists i, key, o :: Backed(s, i, key, o, runs, hosts)
  }

  // ---------- The invariant ----------

  /** The data is the placeholder text because a genclust run with the annotated inputs printed it. */
  ghost predicate PrintedPlaceholder(s: ConfigSecret, runs: set<Run>) {
    s.data == PLACEHOLDER && exists i, key :: s.configHash == ConfigDigest(i) && Run(i, key, PLACEHOLDER) in runs
  }

  /** The Secret holds what a genclust run delivered. */
  ghost predicate Delivered(w: World, runs: set<Run>) {
    w.secret.Some? && (Populated(w.secret.value) || PrintedPlaceholder(w.secret.value, runs))
  }

  ghost predicate JobOk(j: Job, runs: set<Run>) {
    && WellFormed(j.inputs) && j.configHash == ConfigDigest(j.inputs)
    && (j.status.Complete? ==> Run(j.inputs, j.keyHash, j.status.log) in runs)
  }

  ghost predicate WorldOk(w: World, runs: set<Run>, hosts: string -> string) {
    && GoodSpec(w.spec) && GoodAdmin(w.admin)
    && (w.secret.Some? ==> Sound(w.secret.value, runs, hosts))
    && (w.job.Some? ==> JobOk(w.job.value, runs))
    && (w.ready == IsReady ==> Delivered(w, runs))
  }

  /** The inputs a reconcile carries belong to a cluster that has an admin. */
  ghost predicate Live(i: Inputs) {
    WellFormed(i) && i.admin != ""
  }

  ghost predicate PhaseOk(ph: Phase, w: World, runs: set<Run>, hosts: string -> string) {
    match ph
    case Idle => true
    case FlipRotation(i, key) => Live(i)
    case FlipRegen(i, key) => Live(i)
    case ResetRotation(i, key) => Live(i) && w.ready.NotReady?
    case ResetRegen(i, key) => Live(i) && w.ready.NotReady?
    case DropJobRotation => w.ready.NotReady?
    case DropJobRegen(i) => Live(i)
    case StoreSecret(s) => Populated(s) && Sound(s, runs, hosts)
    case CreatePlaceholder(i) => Live(i)
    case AtJob(i) => Live(i)
    case DropCompletedJob => Delivered(w, runs)
    case Publish(outcome) => outcome == IsReady ==> Delivered(w, runs)
  }

  /** The gate: nothing to wait for without an admin; otherwise the cluster is reported ready and the Secret holds real
      data for the spec and the admin as read, under a key that the credentials do not contradict. */
  predicate GateOpens(v: NodeView) {
    v.admin.None? || (
      && v.ready == IsReady
      && v.secret.Some? && v.secret.value.data != "" && v.secret.value.data != PLACEHOLDER
      && v.secret.value.configHash == ConfigDigest(InputsFor(v.spec, v.admin))
      && (v.secret.value.keyHash == NoDigest ||
            (v.creds.Readable? && (v.creds.keyHash == NoDigest || v.creds.keyHash == v.secret.value.keyHash))))
  }

  /** The Deployment carries the spec as read and stamps exactly the non-empty data of the second reading. */
  predicate DeploysRead(r: Rollout) {
    && r.deployment.spec == r.view.spec
    && (r.second.Some? && r.second.value.data != "" ==> r.deployment.stamp == Sha256(r.second.value.data))
    && (r.second.None? || r.second.value.data == "" ==> r.deployment.stamp == NoDigest)
  }

  /** What a Deployment write guarantees about the objects it was computed from. */
  ghost predicate RolloutOk(r: Rollout, runs: set<Run>, hosts: string -> string) {
    && GoodSpec(r.view.spec) && GoodAdmin(r.view.admin)
    && (r.second.Some? ==> Sound(r.second.value, runs, hosts))
    && GateOpens(r.view) && DeploysRead(r)
  }

  ghost predicate Inv(s: System, hosts: string -> string) {
    && (forall k: nat :: WorldOk(At(s, k), s.runs, hosts))
    && PhaseOk(s.phase, s.now, s.runs, hosts)
    && (forall r :: r in s.rollouts ==> RolloutOk(r, s.runs, hosts))
  }

  // ---------- More runs never spoil anything ----------

  lemma {:induction false} ExplainsGrows(o: Origin, runs: set<Run>, more: set<Run>, xml: string, i: Inputs, key: Digest,
                                         hosts: string -> string)
    requires runs <= more && Explains(o, runs, xml, i, key, hosts)
    ensures Explains(o, more, xml, i, key, hosts)
  {
    match o
    case FromRun =>
    case FromRename(source, oldAdmin, oldXml) =>
      ExplainsGrows(source, runs, more, oldXml, i.(admin := oldAdmin), key, hosts);
  }

  lemma SoundGrows(s: ConfigSecret, runs: set<Run>, more: set<Run>, hosts: string -> string)
    requires runs <= more && Sound(s, runs, hosts)
    ensures Sound(s, more, hosts)
  {
    if Populated(s) {
      var i, key, o :| Backed(s, i, key, o, runs, hosts);
      ExplainsGrows(o, runs, more, s.data, i, key, hosts);
      assert Backed(s, i, key, o, more, hosts);
    }
  }

  lemma InvGrows(s: System, more: set<Run>, hosts: string -> string)
    requires Inv(s, hosts) && s.runs <= more
    ensures Inv(s.(runs := more), hosts)
  {
    hide Sound, Apply;
    var t := s.(runs := more);
    forall k: nat ensures WorldOk(At(t, k), more, hosts) {
      var w := At(s, k);
      assert WorldOk(w, s.runs, hosts);
      if w.secret.Some? { SoundGrows(w.secret.value, s.runs, more, hosts); }
    }
    if s.phase.StoreSecret? { SoundGrows(s.phase.s, s.runs, more, hosts); }
    forall r | r in t.rollouts ensures RolloutOk(r, more, hosts) {
      assert RolloutOk(r, s.runs, hosts);
      if r.second.Some? { SoundGrows(r.second.value, s.runs, more, hosts); }
    }
  }

  // ---------- One step at a time ----------

  lemma InputsWellFormed(spec: ClusterSpec, admin: Option<AdminNode>)
    requires GoodSpec(spec) && GoodAdmin(admin)
    ensures WellFormed(InputsFor(spec, admin))
  {
  }

  /** A rewritten xml is longer than the placeholder and carries the tag of the new admin. */
  lemma RenameKeepsReal(hosts: string -> string, xml: string, oldAdmin: string, newAdmin: string)
    requires Contains(xml, HostTag(hosts, oldAdmin))
    ensures var r := RenameHost(hosts, xml, oldAdmin, newAdmin);
      Contains(r, HostTag(hosts, newAdmin)) && r != "" && r != PLACEHOLDER
  {
    ReplaceFirstKeepsTheRest(xml, HostTag(hosts, oldAdmin), HostTag(hosts, newAdmin));
    var r, tag := RenameHost(hosts, xml, oldAdmin, newAdmin), HostTag(hosts, newAdmin);
    assert |tag| >= 13 && |r| >= |tag| && |PLACEHOLDER| == 11;
  }

  /** The rename branch keeps the annotations truthful. */
  lemma RenameStaysSound(s: ConfigSecret, i: Inputs, runs: set<Run>, hosts: string -> string)
    requires WellFormed(i) && Populated(s) && Sound(s, runs, hosts)
    requires OnlyAdminChanged(s, i) && Contains(s.data, HostTag(hosts, s.admin))
    ensures Populated(Renamed(s, i, hosts)) && Sound(Renamed(s, i, hosts), runs, hosts)
  {
    var j, key, o :| Backed(s, j, key, o, runs, hosts);
    var t := Renamed(s, i, hosts);
    assert WellFormed(i.(admin := s.admin)) by { assert s.admin == j.admin; }
    ConfigDigestInjective(j, i.(admin := s.admin));
    RenameKeepsReal(hosts, s.data, s.admin, i.admin);
    assert Explains(FromRename(o, s.admin, s.data), runs, t.data, i, key, hosts);
    assert Backed(t, i, key, FromRename(o, s.admin, s.data), runs, hosts);
  }

  lemma BeginKeepsInv(w: World, runs: set<Run>, hosts: string -> string)
    requires WorldOk(w, runs, hosts)
    ensures PhaseOk(Begin(w, hosts), w, runs, hosts)
  {
    hide ConfigDigest, RenameHost, HostTag, Contains, Explains;
    InputsWellFormed(w.spec, w.admin);
    var i := CurrentInputs(w);
    if w.admin.Some? && HasRealXml(w) && w.creds.Readable? {
      var s := w.secret.value;
      SoundSecretHasHash(s, runs, hosts);
      if Decide(s, i, w.creds.keyHash, hosts) == RenameAdmin {
        RenameStaysSound(s, i, runs, hosts);
      }
    }
  }

  lemma SoundSecretHasHash(s: ConfigSecret, runs: set<Run>, hosts: string -> string)
    requires Populated(s) && Sound(s, runs, hosts)
    ensures s.configHash != NoDigest
  {
    var j, key, o :| Backed(s, j, key, o, runs, hosts);
  }

  /** Populating the Secret from a completed Job with the present config hash, under the present key or none. */
  lemma PopulateStaysSound(existing: ConfigSecret, job: Job, i: Inputs, key: Digest, runs: set<Run>, hosts: string -> string)
    requires Live(i) && JobOk(job, runs) && job.status.Complete? && job.status.log != ""
    requires job.configHash == ConfigDigest(i) && (job.keyHash == NoDigest || job.keyHash == key)
    ensures var t := MergeInto(existing, BuildSecret(job.status.log, i, key));
      Sound(t, runs, hosts) && (Populated(t) || PrintedPlaceholder(t, runs))
  {
    ConfigDigestInjective(job.inputs, i);
    var t := MergeInto(existing, BuildSecret(job.status.log, i, key));
    assert Explains(FromRun, runs, t.data, i, job.keyHash, hosts);
    assert Backed(t, i, job.keyHash, FromRun, runs, hosts);
    assert Run(i, job.keyHash, job.status.log) in runs;
  }

  lemma AtJobKeepsInv(w: World, i: Inputs, a: Answers, runs: set<Run>, hosts: string -> string)
    requires WorldOk(w, runs, hosts) && Live(i)
    ensures var (w', ph') := AtJobStep(w, i, a); WorldOk(w', runs, hosts) && PhaseOk(ph', w', runs, hosts)
  {
    hide ConfigDigest, Sound, BuildSecret, MergeInto;
    if w.job.Some? && w.job.value.status.Complete? && w.job.value.status.log != "" && w.creds.Readable?
       && !Drifted(w.job.value, i, w.creds.keyHash) && w.secret.Some? {
      PopulateStaysSound(w.secret.value, w.job.value, i, w.creds.keyHash, runs, hosts);
    }
  }

  lemma WriteKeepsInv(w: World, ph: Phase, a: Answers, runs: set<Run>, hosts: string -> string)
    requires WorldOk(w, runs, hosts) && PhaseOk(ph, w, runs, hosts)
    ensures var (w', ph') := Perform(w, ph, a); WorldOk(w', runs, hosts) && PhaseOk(ph', w', runs, hosts)
  {
    hide ConfigDigest, AtJobStep, Explains, JobOk, WellFormed;
    if ph.AtJob? {
      AtJobKeepsInv(w, ph.i, a, runs, hosts);
    }
  }

  /** Which node reconciles write a Deployment, exactly, and what they write: one rollout is added if and only if the
      gate opens on what was read, and nothing else changes. */
  lemma GateIsExact(s: System, g: Ages, hosts: string -> string)
    ensures var t, view, second := Apply(s, ReconcileNode(g), hosts), ReadView(s, g), At(s, g.secretAgain).secret;
      && t == s.(rollouts := t.rollouts)
      && (t.rollouts != s.rollouts <==> GateOpens(view))
      && (GateOpens(view) ==> exists r :: t.rollouts == s.rollouts + [r] && r.view == view && r.second == second && DeploysRead(r))
  {
    hide ConfigDigest;
    var t, view, second := Apply(s, ReconcileNode(g), hosts), ReadView(s, g), At(s, g.secretAgain).secret;
    assert DeploymentWrite(view, second).Some? <==> GateOpens(view);
    if GateOpens(view) {
      var r := Rollout(view, second, DeploymentWrite(view, second).value);
      assert t.rollouts == s.rollouts + [r] && DeploysRead(r);
      assert |t.rollouts| == |s.rollouts| + 1;
    }
  }

  /** With an admin and the cluster ready, the gate defers or fails: it fails exactly when all it has read fits so far, the
      Secret has a key to compare, and the credentials exist but cannot be read. */
  lemma GateFailsIff(v: NodeView)
    ensures ClusterConfigStale(v) == Unknown <==>
      && v.secret.Some? && v.secret.value.data != "" && v.secret.value.data != PLACEHOLDER
      && v.secret.value.configHash == ConfigDigest(InputsFor(v.spec, v.admin))
      && v.secret.value.keyHash != NoDigest && v.creds.Unreachable?
  {}

  lemma NodeKeepsInv(s: System, g: Ages, hosts: string -> string)
    requires Inv(s, hosts)
    ensures Inv(Apply(s, ReconcileNode(g), hosts), hosts)
  {
    hide Sound, GateOpens, DeploysRead, DeploymentWrite, PhaseOk;
    GateIsExact(s, g, hosts);
    assert WorldOk(At(s, g.cluster), s.runs, hosts) && WorldOk(At(s, g.nodes), s.runs, hosts)
        && WorldOk(At(s, g.secretAgain), s.runs, hosts);
    var t := Apply(s, ReconcileNode(g), hosts);
    forall k: nat ensures WorldOk(At(t, k), t.runs, hosts) {
      assert WorldOk(At(s, k), s.runs, hosts);
    }
  }

  /** A new current world is all there is to check when the runs stay. */
  lemma PushKeepsInv(s: System, w: World, ph: Phase, hosts: string -> string)
    requires Inv(s, hosts) && WorldOk(w, s.runs, hosts) && PhaseOk(ph, w, s.runs, hosts)
    ensures Inv(Push(s, w).(phase := ph), hosts)
  {
    hide WorldOk, PhaseOk, RolloutOk;
    var t := Push(s, w).(phase := ph);
    forall k: nat ensures WorldOk(At(t, k), t.runs, hosts) {
      assert WorldOk(At(s, k), s.runs, hosts);
      assert At(t, k) == At(s, k) || At(t, k) == w;
    }
  }

  lemma StepKeepsInv(s: System, e: Event, hosts: string -> string)
    requires Inv(s, hosts)
    ensures Inv(Apply(s, e, hosts), hosts)
  {
    hide Sound, Begin, Perform, RolloutOk;
    assert WorldOk(s.now, s.runs, hosts) by { assert At(s, |s.past|) == s.now; }
    match e
    case EditCluster(spec) => if GoodSpec(spec) { PushKeepsInv(s, s.now.(spec := spec), s.phase, hosts); }
    case EditAdmin(admin) => if GoodAdmin(admin) { PushKeepsInv(s, s.now.(admin := admin), s.phase, hosts); }
    case SetCredentials(creds) => PushKeepsInv(s, s.now.(creds := creds), s.phase, hosts);
    case JobCompletes(log) =>
      if s.now.job.Some? && s.now.job.value.status.Running? {
        var more := s.runs + {Run(s.now.job.value.inputs, s.now.job.value.keyHash, log)};
        InvGrows(s, more, hosts);
        var t := s.(runs := more);
        assert WorldOk(t.now, more, hosts) by { assert At(t, |t.past|) == t.now; }
        PushKeepsInv(t, t.now.(job := Some(t.now.job.value.(status := Complete(log)))), t.phase, hosts);
      }
    case JobFails =>
      if s.now.job.Some? && s.now.job.value.status.Running? {
        PushKeepsInv(s, s.now.(job := Some(s.now.job.value.(status := Failed))), s.phase, hosts);
      }
    case JobVanishes => PushKeepsInv(s, s.now.(job := None), s.phase, hosts);
    case BeginReconcile(cluster, nodes) =>
      if s.phase.Idle? {
        SeenBegins(s, cluster, nodes, hosts);
        SamePastKeepsInv(s, Begin(Seen(s, cluster, nodes), hosts), hosts);
      }
    case Write(answers) =>
      WriteKeepsInv(s.now, s.phase, answers, s.runs, hosts);
      var (w, ph) := Perform(s.now, s.phase, answers);
      PushKeepsInv(s, w, ph, hosts);
    case Crash => SamePastKeepsInv(s, Idle, hosts);
    case ReconcileNode(g) => NodeKeepsInv(s, g, hosts);
  }

  /** Beginning with an old spec or node list is as good as beginning with the present ones. */
  lemma SeenBegins(s: System, cluster: nat, nodes: nat, hosts: string -> string)
    requires Inv(s, hosts)
    ensures PhaseOk(Begin(Seen(s, cluster, nodes), hosts), s.now, s.runs, hosts)
  {
    hide Begin, Sound, RolloutOk;
    var w := Seen(s, cluster, nodes);
    assert WorldOk(At(s, cluster), s.runs, hosts) && WorldOk(At(s, nodes), s.runs, hosts);
    assert WorldOk(s.now, s.runs, hosts) by { assert At(s, |s.past|) == s.now; }
    BeginKeepsInv(w, s.runs, hosts);
  }

  lemma SamePastKeepsInv(s: System, ph: Phase, hosts: string -> string)
    requires Inv(s, hosts) && PhaseOk(ph, s.now, s.runs, hosts)
    ensures Inv(s.(phase := ph), hosts)
  {
    hide WorldOk, PhaseOk, RolloutOk;
    forall k: nat ensures WorldOk(At(s.(phase := ph), k), s.runs, hosts) {
      assert WorldOk(At(s, k), s.runs, hosts);
    }
  }

  /** Every state of every run from an initial state satisfies the invariant. */
  lemma ReachableInv(s: System, events: seq<Event>, hosts: string -> string)
    requires Initial(s)
    ensures Inv(Execute(s, events, hosts), hosts)
  {
    assert Inv(s, hosts);
    hide Inv, Apply;
    var inv := t => Inv(t, hosts);
    forall t, e | inv(t) ensures inv(Step(hosts)(t, e)) { StepKeepsInv(t, e, hosts); }
    Runs.Keeps(Step(hosts), inv, s, events);
  }

  // ---------- The main results ----------

  /** Provenance: at every point of every run, a populated Secret's annotations name the admin, the inputs and the
      encryption key of its data, and the data derives from a run of a Job with those inputs and that key, or none. */
  lemma SecretIsAlwaysExplained(s: System, events: seq<Event>, hosts: string -> string, k: nat)
    requires Initial(s)
    requires HasRealXml(At(Execute(s, events, hosts), k))
    ensures var t := Execute(s, events, hosts);
      var secret := At(t, k).secret.value;
      exists i, key, o :: Backed(secret, i, key, o, t.runs, hosts)
  {
    ReachableInv(s, events, hosts);
    hide Execute;
    var t := Execute(s, events, hosts);
    assert WorldOk(At(t, k), t.runs, hosts);
  }

  /** The run a derivation starts from: it ran with the same inputs but for the admin. */
  ghost function SourceAdmin(o: Origin, admin: string): string {
    match o
    case FromRun => admin
    case FromRename(source, oldAdmin, _) => SourceAdmin(source, oldAdmin)
  }

  ghost function SourceXml(o: Origin, xml: string): string {
    match o
    case FromRun => xml
    case FromRename(source, _, oldXml) => SourceXml(source, oldXml)
  }

  /** What a derivation means: image, pull secret, packages, port and key of the run are those of the Secret,
      each rename rewrote one host tag and nothing around it, and after a rename the tag of the annotated
      admin occurs in the data. */
  lemma {:induction false} DerivationMeaning(o: Origin, runs: set<Run>, xml: string, i: Inputs, key: Digest, hosts: string -> string)
    requires Explains(o, runs, xml, i, key, hosts)
    ensures Run(i.(admin := SourceAdmin(o, i.admin)), key, SourceXml(o, xml)) in runs
    ensures o.FromRename? ==>
      && Contains(xml, HostTag(hosts, i.admin))
      && exists pre, post :: o.oldXml == pre + HostTag(hosts, o.oldAdmin) + post
                          && xml == pre + HostTag(hosts, i.admin) + post
  {
    match o
    case FromRun =>
    case FromRename(source, oldAdmin, oldXml) =>
      DerivationMeaning(source, runs, oldXml, i.(admin := oldAdmin), key, hosts);
      ReplaceFirstKeepsTheRest(oldXml, HostTag(hosts, oldAdmin), HostTag(hosts, i.admin));
  }

  /** Write ordering, exactly: whatever is interleaved and wherever a reconcile is cut, a persisted
      ClusterConfigReady=True has a Secret beside it whose data is real, if and only if it is not the placeholder
      text printed by a genclust run with the annotated inputs. */
  lemma ReadyMeansReal(s: System, events: seq<Event>, hosts: string -> string, k: nat)
    requires Initial(s)
    requires At(Execute(s, events, hosts), k).ready == IsReady
    ensures var t := Execute(s, events, hosts);
      var w := At(t, k);
      w.secret.Some? && (HasRealXml(w) <==> !PrintedPlaceholder(w.secret.value, t.runs))
  {
    ReachableInv(s, events, hosts);
    hide Execute;
    var t := Execute(s, events, hosts);
    assert WorldOk(At(t, k), t.runs, hosts);
  }

  /** The Secret that is stamped holds real data generated for these inputs. */
  ghost predicate StampedFor(r: Rollout, i: Inputs, runs: set<Run>, hosts: string -> string) {
    && r.second.Some? && Populated(r.second.value)
    && r.deployment.stamp == Sha256(r.second.value.data)
    && exists key, o :: Backed(r.second.value, i, key, o, runs, hosts)
  }

  /** No mixed versions, exactly: with an admin, a Deployment is stamped with real xml generated for the very
      spec that supplied its image, pull secret and packages, if and only if the Secret as read for the stamp
      holds data annotated with the hash of that spec. One reading for gate and stamp is enough. The ages of
      what was read do not matter. */
  lemma NoMixedVersions(s: System, events: seq<Event>, hosts: string -> string, r: Rollout)
    requires Initial(s)
    requires r in Execute(s, events, hosts).rollouts && r.view.admin.Some?
    ensures GateOpens(r.view) && DeploysRead(r)
    ensures var i := InputsFor(r.deployment.spec, r.view.admin);
      StampedFor(r, i, Execute(s, events, hosts).runs, hosts) <==>
        r.second.Some? && Populated(r.second.value) && r.second.value.configHash == ConfigDigest(i)
    ensures r.second == r.view.secret ==>
      StampedFor(r, InputsFor(r.deployment.spec, r.view.admin), Execute(s, events, hosts).runs, hosts)
  {
    ReachableInv(s, events, hosts);
    hide Execute, Explains;
    var runs := Execute(s, events, hosts).runs;
    assert RolloutOk(r, runs, hosts);
    var i := InputsFor(r.view.spec, r.view.admin);
    InputsWellFormed(r.view.spec, r.view.admin);
    if r.second.Some? && Populated(r.second.value) && r.second.value.configHash == ConfigDigest(i) {
      var c := r.second.value;
      var j, key, o :| Backed(c, j, key, o, runs, hosts);
      ConfigDigestInjective(i, j);
      assert Backed(c, i, key, o, runs, hosts);
    }
  }

  /** What such a stamp stands for: the stamped xml goes back to a genclust run with the same image, pull secret,
      packages and port, and with the key that the Secret is annotated with, or none. */
  lemma StampMeaning(r: Rollout, i: Inputs, runs: set<Run>, hosts: string -> string)
    requires StampedFor(r, i, runs, hosts)
    ensures exists key, o ::
      && Backed(r.second.value, i, key, o, runs, hosts)
      && Run(i.(admin := SourceAdmin(o, i.admin)), key, SourceXml(o, r.second.value.data)) in runs
  {
    var key, o :| Backed(r.second.value, i, key, o, runs, hosts);
    DerivationMeaning(o, runs, r.second.value.data, i, key, hosts);
  }
}

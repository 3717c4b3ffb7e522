/** How cluster.xml is generated: the decision tree of ensureClusterConfig, cut at every API write. */
module ClusterConfig {
  import opened Wrappers
  import opened Framing
  import opened Text
  import opened ConfigHash

  const PLACEHOLDER: string := "placeholder"

  // ---------- Persisted objects ----------

  /** The part of the cluster spec that genclust and the node Deployments share. */
  datatype ClusterSpec = ClusterSpec(image: string, pullSecret: string, packagesHash: string)

  datatype AdminNode = AdminNode(name: string, configPort: nat)

  /** The admin-credentials Secret: absent, unreadable for now, or read with the hash of its key. */
  datatype Credentials = Missing | Unreachable | Readable(keyHash: Digest)

  /** The cluster-config Secret: cluster.xml ("" when the key is absent) and its three annotations. */
  datatype ConfigSecret = ConfigSecret(data: string, admin: string, keyHash: Digest, configHash: Digest)

  datatype JobStatus = Running | Complete(log: string) | Failed

  /** The genclust Job: the inputs its pod template was built from, its annotations, its state. */
  datatype Job = Job(inputs: Inputs, configHash: Digest, keyHash: Digest, status: JobStatus)

  /** The ClusterConfigReady condition. */
  datatype Ready = Unset | IsReady | NotReady(reason: string)

  datatype World = World(
    spec: ClusterSpec,
    admin: Option<AdminNode>,
    creds: Credentials,
    secret: Option<ConfigSecret>,
    job: Option<Job>,
    ready: Ready)

  function InputsFor(spec: ClusterSpec, admin: Option<AdminNode>): Inputs {
    match admin
    case None => Inputs(spec.image, spec.pullSecret, "", spec.packagesHash, DEFAULT_CONFIG_PORT)
    case Some(a) => Inputs(spec.image, spec.pullSecret, a.name, spec.packagesHash, a.configPort)
  }

  function CurrentInputs(w: World): Inputs {
    InputsFor(w.spec, w.admin)
  }

  /** isClusterConfigReady: the Secret holds real data. */
  predicate Populated(s: ConfigSecret) {
    s.data != "" && s.data != PLACEHOLDER
  }

  predicate HasRealXml(w: World) {
    w.secret.Some? && Populated(w.secret.value)
  }

  function BuildSecret(xml: string, i: Inputs, key: Digest): ConfigSecret {
    ConfigSecret(if xml != "" then xml else PLACEHOLDER, i.admin, key, ConfigDigest(i))
  }

  /** New data and every annotation that the built Secret carries; an empty key hash is not written. */
  function MergeInto(existing: ConfigSecret, built: ConfigSecret): ConfigSecret {
    ConfigSecret(
      built.data,
      if built.admin != "" then built.admin else existing.admin,
      if built.keyHash != NoDigest then built.keyHash else existing.keyHash,
      built.configHash)
  }

  // ---------- The admin host inside cluster.xml ----------

  /** `hosts` maps a node name to the name of its Service in this cluster. */
  function HostTag(hosts: string -> string, node: string): string {
    "<host>" + hosts(node) + "</host>"
  }

  function RenameHost(hosts: string -> string, xml: string, oldAdmin: string, newAdmin: string): string {
    ReplaceFirst(xml, HostTag(hosts, oldAdmin), HostTag(hosts, newAdmin))
  }

  // ---------- The branch taken on a populated Secret ----------

  datatype Branch = RotateKey | Steady | Backfill | RenameAdmin | Regenerate

  predicate KeyRotated(s: ConfigSecret, key: Digest) {
    s.keyHash != NoDigest && key != NoDigest && s.keyHash != key
  }

  predicate OnlyAdminChanged(s: ConfigSecret, i: Inputs) {
    && s.configHash != NoDigest && s.admin != "" && s.admin != i.admin
    && s.configHash == ConfigDigest(i.(admin := s.admin))
  }

  function Decide(s: ConfigSecret, i: Inputs, key: Digest, hosts: string -> string): Branch {
    if KeyRotated(s, key) then RotateKey
    else if s.configHash != NoDigest && s.configHash == ConfigDigest(i) then Steady
    else if s.configHash == NoDigest && s.admin == i.admin then Backfill
    else if OnlyAdminChanged(s, i) && Contains(s.data, HostTag(hosts, s.admin)) then RenameAdmin
    else Regenerate
  }

  function Renamed(s: ConfigSecret, i: Inputs, hosts: string -> string): ConfigSecret {
    s.(data := RenameHost(hosts, s.data, s.admin, i.admin), admin := i.admin, configHash := ConfigDigest(i))
  }

  function ResetForRotation(s: ConfigSecret, i: Inputs, key: Digest): ConfigSecret {
    s.(data := PLACEHOLDER, keyHash := key, configHash := ConfigDigest(i))
  }

  function ResetForRegen(s: ConfigSecret, i: Inputs, key: Digest): ConfigSecret {
    s.(data := PLACEHOLDER, configHash := ConfigDigest(i), admin := i.admin,
       keyHash := if key != NoDigest then key else s.keyHash)
  }

  predicate Drifted(job: Job, i: Inputs, key: Digest) {
    || (job.configHash != NoDigest && job.configHash != ConfigDigest(i))
    || (job.keyHash != NoDigest && job.keyHash != key)
  }

  // ---------- One reconcile, cut before every API write ----------

  /** What a reconcile is about to do. Everything read before the cut is carried along. */
  datatype Phase =
    | Idle
    | FlipRotation(i: Inputs, key: Digest)
    | ResetRotation(i: Inputs, key: Digest)
    | DropJobRotation
    | FlipRegen(i: Inputs, key: Digest)
    | ResetRegen(i: Inputs, key: Digest)
    | DropJobRegen(i: Inputs)
    | StoreSecret(s: ConfigSecret)
    | CreatePlaceholder(i: Inputs)
    | AtJob(i: Inputs)
    | DropCompletedJob
    | Publish(outcome: Ready)

  /** What the API server answers along the way: whether a completed Job's log can be read (and if not,
      whether the 30 s grace is over), whether the dry run admits the pod, the reason that its pod gives a running
      Job (JobRunning, or what the pod is stuck on), and whether deleting a completed Job succeeds. */
  datatype Answers = Answers(logReadable: bool, logExpired: bool, admitted: bool, running: string,
                              jobDeleted: bool)

  function Begin(w: World, hosts: string -> string): Phase {
    var i := CurrentInputs(w);
    if w.admin.None? then Publish(NotReady("WaitingForAdmin"))
    else if w.secret.None? then CreatePlaceholder(i)
    else if !Populated(w.secret.value) then AtJob(i)
    else if !w.creds.Readable? then Idle
    else
      var s, key := w.secret.value, w.creds.keyHash;
      match Decide(s, i, key, hosts)
      case RotateKey => FlipRotation(i, key)
      case Steady => Publish(IsReady)
      case Backfill => StoreSecret(s.(configHash := ConfigDigest(i)))
      case RenameAdmin => StoreSecret(Renamed(s, i, hosts))
      case Regenerate => FlipRegen(i, key)
  }

  /** The Job steps: drift, completion, failure, still running, or creation. */
  function AtJobStep(w: World, i: Inputs, a: Answers): (World, Phase) {
    if !w.creds.Readable? then (w, Idle)
    else
      var key := w.creds.keyHash;
      match w.job
      case None =>
        if !a.admitted then (w, Publish(NotReady("JobPodAdmissionForbidden")))
        else (w.(job := Some(Job(i, ConfigDigest(i), key, Running))), Publish(NotReady("JobCreated")))
      case Some(job) =>
        if Drifted(job, i, key) then (w.(job := None), Publish(NotReady("Regenerating")))
        else match job.status
          case Running => (w, Publish(NotReady(a.running)))
          case Failed => (w, Publish(NotReady("JobFailed")))
          case Complete(log) =>
            if !a.logReadable then
              (if a.logExpired then w.(job := None) else w, Publish(NotReady("LogsUnavailable")))
            else if log == "" then (w.(job := None), Publish(NotReady("EmptyOutput")))
            else if w.secret.None? then (w, Idle)
            else (w.(secret := Some(MergeInto(w.secret.value, BuildSecret(log, i, key)))), DropCompletedJob)
  }

  /** The next API write of a reconcile in phase `ph`, together with the reads right before it. */
  function Perform(w: World, ph: Phase, a: Answers): (World, Phase) {
    match ph
    case Idle => (w, Idle)
    case FlipRotation(i, key) => (w.(ready := NotReady("Regenerating")), ResetRotation(i, key))
    case ResetRotation(i, key) =>
      if w.secret.None? then (w, Idle)
      else (w.(secret := Some(ResetForRotation(w.secret.value, i, key))), DropJobRotation)
    case DropJobRotation => (w.(job := None), Publish(NotReady("Regenerating")))
    case FlipRegen(i, key) => (w.(ready := NotReady("Regenerating")), ResetRegen(i, key))
    case ResetRegen(i, key) =>
      if w.secret.None? then (w, Idle)
      else (w.(secret := Some(ResetForRegen(w.secret.value, i, key))), DropJobRegen(i))
    case DropJobRegen(i) => (w.(job := None), AtJob(i))
    case StoreSecret(s) => (w.(secret := Some(s)), Publish(IsReady))
    case CreatePlaceholder(i) =>
      if !w.creds.Readable? then (w, Idle)
      else if w.secret.Some? then (w, AtJob(i))
      else (w.(secret := Some(BuildSecret("", i, w.creds.keyHash))), AtJob(i))
    case AtJob(i) => AtJobStep(w, i, a)
    case DropCompletedJob => (if a.jobDeleted then w.(job := None) else w, Publish(IsReady))
    case Publish(outcome) => (w.(ready := outcome), Idle)
  }

  /** How many writes at most separate a phase from the end of its reconcile. */
  function Remaining(ph: Phase): nat {
    match ph
    case Idle => 0
    case Publish(_) => 1
    case StoreSecret(_) => 2
    case DropCompletedJob => 2
    case DropJobRotation => 2
    case AtJob(_) => 3
    case CreatePlaceholder(_) => 4
    case ResetRotation(_, _) => 4
    case DropJobRegen(_) => 4
    case FlipRotation(_, _) => 5
    case ResetRegen(_, _) => 5
    case FlipRegen(_, _) => 6
  }

  predicate Over(ph: Phase) {
    ph.Idle? || ph.Publish?
  }

  /** The world and the phase in which an undisturbed ensureClusterConfig returns. */
  function Settle(w: World, ph: Phase, a: Answers): (World, Phase)
    decreases Remaining(ph)
  {
    if Over(ph) then (w, ph)
    else
      var (w', ph') := Perform(w, ph, a);
      Settle(w', ph', a)
  }

  /** The state a write leaves behind; a write that changes nothing leaves none. */
  function Change(w: World, w': World): seq<World> {
    if w' == w then [] else [w']
  }

  /** The persisted states an undisturbed ensureClusterConfig passes through, one a write. */
  function Trail(w: World, ph: Phase, a: Answers): seq<World>
    decreases Remaining(ph)
  {
    if Over(ph) then []
    else
      var (w', ph') := Perform(w, ph, a);
      Change(w, w') + Trail(w', ph', a)
  }

  // ---------- The reconciler's own code ----------

  /** What the caller gets: an error, or the condition held in memory. */
  datatype Outcome = Errored | Settled(ready: Ready)

  lemma {:induction false} SettleEnds(w: World, ph: Phase, a: Answers)
    ensures Over(Settle(w, ph, a).1)
    decreases Remaining(ph)
  {
    if !Over(ph) {
      var (w', ph') := Perform(w, ph, a);
      SettleEnds(w', ph', a);
    }
  }

  /** The API server as this reconciler sees it. `trail` records every state that was persisted. */
  class ApiServer {
    const spec: ClusterSpec
    const admin: Option<AdminNode>
    const creds: Credentials
    var secret: Option<ConfigSecret>
    var job: Option<Job>
    var ready: Ready
    ghost var trail: seq<World>

    constructor (w: World)
      ensures View() == w && trail == []
    {
      spec, admin, creds := w.spec, w.admin, w.creds;
      secret, job, ready := w.secret, w.job, w.ready;
      trail := [];
    }

    ghost function View(): World
      reads this
    {
      World(spec, admin, creds, secret, job, ready)
    }

    method UpdateStatus(r: Ready)
      modifies this
      ensures View() == old(View()).(ready := r)
      ensures trail == old(trail) + Change(old(View()), View())
    {
      ready := r;
      trail := trail + Change(old(View()), View());
    }

    method PutSecret(s: ConfigSecret)
      modifies this
      ensures View() == old(View()).(secret := Some(s))
      ensures trail == old(trail) + Change(old(View()), View())
    {
      secret := Some(s);
      trail := trail + Change(old(View()), View());
    }

    method DeleteJob()
      modifies this
      ensures View() == old(View()).(job := None)
      ensures trail == old(trail) + Change(old(View()), View())
    {
      job := None;
      trail := trail + Change(old(View()), View());
    }

    method CreateJob(j: Job)
      modifies this
      ensures View() == old(View()).(job := Some(j))
      ensures trail == old(trail) + Change(old(View()), View())
    {
      job := Some(j);
      trail := trail + Change(old(View()), View());
    }
  }

  /** Steps 4 and 5 of ensureClusterConfig: the existing Job, or a new one. */
  method EnsureJob(api: ApiServer, i: Inputs, a: Answers) returns (outcome: Outcome)
    requires api.secret.Some?
    modifies api
    ensures var end := Settle(old(api.View()), AtJob(i), a);
      Over(end.1) && api.View() == end.0 && outcome == if end.1.Publish? then Settled(end.1.outcome) else Errored
    ensures api.trail == old(api.trail) + Trail(old(api.View()), AtJob(i), a)
  {
    if !api.creds.Readable? {
      return Errored;
    }
    var key := api.creds.keyHash;
    if api.job.Some? {
      var job := api.job.value;
      if Drifted(job, i, key) {
        api.DeleteJob();
        return Settled(NotReady("Regenerating"));
      }
      match job.status {
        case Complete(log) =>
          if !a.logReadable {
            if a.logExpired {
              api.DeleteJob();
            }
            return Settled(NotReady("LogsUnavailable"));
          }
          if log == "" {
            api.DeleteJob();
            return Settled(NotReady("EmptyOutput"));
          }
          var built := BuildSecret(log, i, key);
          var existing := api.secret.value;
          api.PutSecret(MergeInto(existing, built));
          if a.jobDeleted {
            api.DeleteJob();
          }
          return Settled(IsReady);
        case Failed =>
          return Settled(NotReady("JobFailed"));
        case Running =>
          return Settled(NotReady(a.running));
      }
    }
    if !a.admitted {
      return Settled(NotReady("JobPodAdmissionForbidden"));
    }
    api.CreateJob(Job(i, ConfigDigest(i), key, Running));
    return Settled(NotReady("JobCreated"));
  }

  /** Branch A: the status flips before the Secret is reset, and the stale Job goes last. */
  method RotateEncryptionKey(api: ApiServer, s: ConfigSecret, i: Inputs, key: Digest, a: Answers)
    requires api.secret == Some(s)
    modifies api
    ensures (api.View(), Publish(NotReady("Regenerating"))) == Settle(old(api.View()), FlipRotation(i, key), a)
    ensures api.trail == old(api.trail) + Trail(old(api.View()), FlipRotation(i, key), a)
  {
    hide ConfigDigest, ResetForRotation, AtJobStep, Settle, Trail, Change;
    ghost var w0 := api.View();
    api.UpdateStatus(NotReady("Regenerating"));
    ghost var w1 := api.View();
    api.PutSecret(ResetForRotation(s, i, key));
    ghost var w2 := api.View();
    api.DeleteJob();
    RotationTrail(w0, i, key, a, w1, w2, api.View());
  }

  /** Branch C up to the Job steps, in the same order. */
  method ResetForFullRegen(api: ApiServer, s: ConfigSecret, i: Inputs, key: Digest, a: Answers)
    requires api.secret == Some(s)
    modifies api
    ensures api.secret.Some?
    ensures Settle(old(api.View()), FlipRegen(i, key), a) == Settle(api.View(), AtJob(i), a)
    ensures old(api.trail) + Trail(old(api.View()), FlipRegen(i, key), a) == api.trail + Trail(api.View(), AtJob(i), a)
  {
    hide ConfigDigest, ResetForRegen, AtJobStep, Settle, Trail, Change;
    ghost var w0 := api.View();
    api.UpdateStatus(NotReady("Regenerating"));
    ghost var w1 := api.View();
    api.PutSecret(ResetForRegen(s, i, key));
    ghost var w2 := api.View();
    api.DeleteJob();
    RegenTrail(w0, i, key, a, w1, w2, api.View());
  }

  /** ensureClusterConfig, branch by branch in source order. Undisturbed, it passes through exactly the
      states of the cut version and returns what the cut version is about to publish. */
  method EnsureClusterConfig(api: ApiServer, hosts: string -> string, a: Answers) returns (outcome: Outcome)
    modifies api
    ensures var end := Settle(old(api.View()), Begin(old(api.View()), hosts), a);
      Over(end.1) && api.View() == end.0 && outcome == if end.1.Publish? then Settled(end.1.outcome) else Errored
    ensures api.trail == old(api.trail) + Trail(old(api.View()), Begin(old(api.View()), hosts), a)
  {
    hide AtJobStep, ResetForRotation, ResetForRegen;
    if api.admin.None? {
      return Settled(NotReady("WaitingForAdmin"));
    }
    var i := InputsFor(api.spec, api.admin);
    var secretExists := api.secret.Some?;
    if secretExists && Populated(api.secret.value) {
      if !api.creds.Readable? {
        return Errored;
      }
      var s, key := api.secret.value, api.creds.keyHash;
      if s.keyHash != NoDigest && key != NoDigest && s.keyHash != key {
        RotateEncryptionKey(api, s, i, key, a);
        return Settled(NotReady("Regenerating"));
      }
      if s.configHash != NoDigest && s.configHash == ConfigDigest(i) {
        return Settled(IsReady);
      }
      if s.configHash == NoDigest && s.admin == i.admin {
        api.PutSecret(s.(configHash := ConfigDigest(i)));
        return Settled(IsReady);
      }
      if s.configHash != NoDigest && s.admin != "" && s.admin != i.admin {
        if s.configHash == ConfigDigest(i.(admin := s.admin)) {
          var oldTag := HostTag(hosts, s.admin);
          if Contains(s.data, oldTag) {
            var newXml := ReplaceFirst(s.data, oldTag, HostTag(hosts, i.admin));
            api.PutSecret(s.(data := newXml, admin := i.admin, configHash := ConfigDigest(i)));
            return Settled(IsReady);
          }
        }
      }
      ResetForFullRegen(api, s, i, key, a);
    } else if !secretExists {
      if !api.creds.Readable? {
        return Errored;
      }
      api.PutSecret(BuildSecret("", i, api.creds.keyHash));
    }
    outcome := EnsureJob(api, i, a);
  }

  /** The first write of a phase peeled off. */
  lemma TrailStep(w: World, ph: Phase, a: Answers, w': World, ph': Phase)
    requires !Over(ph) && Perform(w, ph, a) == (w', ph')
    ensures Settle(w, ph, a) == Settle(w', ph', a)
    ensures Trail(w, ph, a) == Change(w, w') + Trail(w', ph', a)
  {
  }

  /** Key rotation unrolled: flip, reset, drop the Job. */
  lemma RotationTrail(w: World, i: Inputs, key: Digest, a: Answers, w1: World, w2: World, w3: World)
    requires w.secret.Some?
    requires w1 == w.(ready := NotReady("Regenerating"))
    requires w2 == w1.(secret := Some(ResetForRotation(w.secret.value, i, key)))
    requires w3 == w2.(job := None)
    ensures Settle(w, FlipRotation(i, key), a) == (w3, Publish(NotReady("Regenerating")))
    ensures Trail(w, FlipRotation(i, key), a) == Change(w, w1) + Change(w1, w2) + Change(w2, w3)
  {
    hide ConfigDigest, ResetForRotation, AtJobStep, Settle, Trail, Change;
    TrailStep(w, FlipRotation(i, key), a, w1, ResetRotation(i, key));
    TrailStep(w1, ResetRotation(i, key), a, w2, DropJobRotation);
    TrailStep(w2, DropJobRotation, a, w3, Publish(NotReady("Regenerating")));
    Published(w3, NotReady("Regenerating"), a);
  }

  lemma Published(w: World, r: Ready, a: Answers)
    ensures Settle(w, Publish(r), a) == (w, Publish(r)) && Trail(w, Publish(r), a) == []
  {
  }

  /** Full regeneration unrolled: flip, reset, drop the Job, and on to the Job steps. */
  lemma RegenTrail(w: World, i: Inputs, key: Digest, a: Answers, w1: World, w2: World, w3: World)
    requires w.secret.Some?
    requires w1 == w.(ready := NotReady("Regenerating"))
    requires w2 == w1.(secret := Some(ResetForRegen(w.secret.value, i, key)))
    requires w3 == w2.(job := None)
    ensures Settle(w, FlipRegen(i, key), a) == Settle(w3, AtJob(i), a)
    ensures Trail(w, FlipRegen(i, key), a) ==
            Change(w, w1) + Change(w1, w2) + Change(w2, w3) + Trail(w3, AtJob(i), a)
  {
    hide ConfigDigest, ResetForRegen, AtJobStep, Settle, Trail, Change;
    TrailStep(w, FlipRegen(i, key), a, w1, ResetRegen(i, key));
    TrailStep(w1, ResetRegen(i, key), a, w2, DropJobRegen(i));
    TrailStep(w2, DropJobRegen(i), a, w3, AtJob(i));
  }
}

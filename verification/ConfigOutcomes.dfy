/** What one undisturbed reconcile of cluster.xml does, by the Secret, the Job and the credentials it finds. */
module ConfigOutcomes {
  import opened Wrappers
  import opened Framing
  import opened Text
  import opened ConfigHash
  import opened ClusterConfig
  import opened ConfigConvergence

  /** A cluster whose reconcile can work: it has an admin, and the credentials can be read. */
  predicate Workable(w: World) {
    w.admin.Some? && w.creds.Readable?
  }

  /** The stored key and the present one are both known, and differ. */
  predicate KeysDiffer(stored: Digest, present: Digest) {
    stored != NoDigest && present != NoDigest && stored != present
  }

  predicate RealData(w: World) {
    w.secret.Some? && w.secret.value.data != "" && w.secret.value.data != "placeholder"
  }

  ghost function Hash(w: World): Digest {
    ConfigDigest(CurrentInputs(w))
  }

  lemma NoWrites(w: World, r: Ready, hosts: string -> string, a: Answers)
    requires Begin(w, hosts) == Publish(r)
    ensures Reconcile(w, hosts, a) == w.(ready := r)
  {
    SettleOver(w, Publish(r), a);
  }

  // ---------- Nothing to work with ----------

  lemma WaitsForAdmin(w: World, hosts: string -> string, a: Answers)
    requires w.admin.None?
    ensures Reconcile(w, hosts, a) == w.(ready := NotReady("WaitingForAdmin"))
  {
    NoWrites(w, NotReady("WaitingForAdmin"), hosts, a);
  }

  /** Credentials that cannot be read end the reconcile before it has written anything. */
  lemma FailsWithoutCredentials(w: World, hosts: string -> string, a: Answers)
    requires w.admin.Some? && !w.creds.Readable?
    ensures Reconcile(w, hosts, a) == w
  {
    SettleOver(w, Idle, a);
    if !Over(Begin(w, hosts)) { SettleOnce(w, Begin(w, hosts), a); }
  }

  // ---------- A Secret with real data ----------

  /** Another key: the data is thrown away with the Job, and the Secret keeps its admin. */
  lemma KeyRotationResets(w: World, hosts: string -> string, a: Answers)
    requires Workable(w) && RealData(w) && KeysDiffer(w.secret.value.keyHash, w.creds.keyHash)
    ensures Reconcile(w, hosts, a) == w.(
      secret := Some(ConfigSecret("placeholder", w.secret.value.admin, w.creds.keyHash, Hash(w))),
      job := None,
      ready := NotReady("Regenerating"))
  {
    hide ConfigDigest, HostTag, Contains, RenameHost, Settle;
    var s, i, key := w.secret.value, CurrentInputs(w), w.creds.keyHash;
    var w1 := w.(ready := NotReady("Regenerating"));
    var w2 := w1.(secret := Some(ResetForRotation(s, i, key)));
    RotationTrail(w, i, key, a, w1, w2, w2.(job := None));
  }

  /** The hash of the present inputs: nothing is written. */
  lemma CurrentDataStays(w: World, hosts: string -> string, a: Answers)
    requires Workable(w) && RealData(w) && !KeysDiffer(w.secret.value.keyHash, w.creds.keyHash)
    requires w.secret.value.configHash == Hash(w)
    ensures Reconcile(w, hosts, a) == w.(ready := IsReady)
  {
    NoWrites(w, IsReady, hosts, a);
  }

  /** No hash yet, and the admin is right: the hash is added. */
  lemma MissingHashIsAdded(w: World, hosts: string -> string, a: Answers)
    requires Workable(w) && RealData(w) && !KeysDiffer(w.secret.value.keyHash, w.creds.keyHash)
    requires w.secret.value.configHash == NoDigest && w.secret.value.admin == w.admin.value.name
    ensures Reconcile(w, hosts, a) == w.(secret := Some(w.secret.value.(configHash := Hash(w))), ready := IsReady)
  {
    Stores(w, w.secret.value.(configHash := Hash(w)), hosts, a);
  }

  lemma Stores(w: World, s: ConfigSecret, hosts: string -> string, a: Answers)
    requires Begin(w, hosts) == StoreSecret(s)
    ensures Reconcile(w, hosts, a) == w.(secret := Some(s), ready := IsReady)
  {
    hide ConfigDigest, Begin, Settle;
    SettleOnce(w, StoreSecret(s), a);
    SettleOver(w.(secret := Some(s)), Publish(IsReady), a);
  }

  /** Only the admin's name has changed since the data was made. */
  ghost predicate AdminMoved(w: World)
    requires w.secret.Some? && w.admin.Some?
  {
    var s := w.secret.value;
    s.admin != "" && s.admin != w.admin.value.name && s.configHash == ConfigDigest(CurrentInputs(w).(admin := s.admin))
  }

  /** Then the first host tag of the former admin is rewritten where it stands. */
  lemma MovedAdminIsRenamed(w: World, hosts: string -> string, a: Answers, pre: string, post: string)
    requires Workable(w) && RealData(w) && !KeysDiffer(w.secret.value.keyHash, w.creds.keyHash)
    requires AdminMoved(w) && Hash(w) != w.secret.value.configHash
    requires var tag := "<host>" + hosts(w.secret.value.admin) + "</host>";
      w.secret.value.data == pre + tag + post && IndexOf(w.secret.value.data, tag) == |pre|
    ensures var xml := pre + ("<host>" + hosts(w.admin.value.name) + "</host>") + post;
      Reconcile(w, hosts, a) ==
        w.(secret := Some(ConfigSecret(xml, w.admin.value.name, w.secret.value.keyHash, Hash(w))), ready := IsReady)
  {
    hide ConfigDigest, IndexOf, Reconcile;
    TagsAgree(w, hosts);
    var s, i := w.secret.value, CurrentInputs(w);
    var tag := HostTag(hosts, s.admin);
    assert s.data[..|pre|] == pre && s.data[|pre| + |tag|..] == post;
    assert Renamed(s, i, hosts).data == pre + HostTag(hosts, i.admin) + post;
    Stores(w, Renamed(s, i, hosts), hosts, a);
  }

  /** Anything else: the data is thrown away, a new Job is asked for, and the key is kept when none is present. */
  lemma OtherDataIsRegenerated(w: World, hosts: string -> string, a: Answers)
    requires Workable(w) && RealData(w) && !KeysDiffer(w.secret.value.keyHash, w.creds.keyHash)
    requires w.secret.value.configHash != Hash(w)
    requires w.secret.value.configHash == NoDigest ==> w.secret.value.admin != w.admin.value.name
    requires AdminMoved(w) ==> !Contains(w.secret.value.data, "<host>" + hosts(w.secret.value.admin) + "</host>")
    ensures var s, key := w.secret.value, w.creds.keyHash;
      Reconcile(w, hosts, a) == w.(
        secret := Some(ConfigSecret("placeholder", w.admin.value.name, if key != NoDigest then key else s.keyHash, Hash(w))),
        job := if a.admitted then Some(Job(CurrentInputs(w), Hash(w), key, Running)) else None,
        ready := NotReady(if a.admitted then "JobCreated" else "JobPodAdmissionForbidden"))
  {
    hide ConfigDigest, HostTag, Contains, RenameHost, Settle;
    var s, i, key := w.secret.value, CurrentInputs(w), w.creds.keyHash;
    assert Begin(w, hosts) == FlipRegen(i, key) by { TagsAgree(w, hosts); }
    var w1 := w.(ready := NotReady("Regenerating"));
    var w2 := w1.(secret := Some(ResetForRegen(s, i, key)));
    var w3 := w2.(job := None);
    RegenTrail(w, i, key, a, w1, w2, w3);
    SettleOnce(w3, AtJob(i), a);
    var (w4, ph) := Perform(w3, AtJob(i), a);
    SettleOver(w4, ph, a);
  }

  lemma TagsAgree(w: World, hosts: string -> string)
    requires w.secret.Some?
    ensures HostTag(hosts, w.secret.value.admin) == "<host>" + hosts(w.secret.value.admin) + "</host>"
  {}

  // ---------- The order of the writes ----------

  /** What is persisted when the condition is flipped first, then the Secret is reset, and then the Job goes; a write that
      changes nothing does not show. */
  function FlippedFirst(w: World, reset: ConfigSecret): seq<World> {
    var flipped := w.(ready := NotReady("Regenerating"));
    var emptied := flipped.(secret := Some(reset));
    (if w.ready == NotReady("Regenerating") then [] else [flipped])
    + [emptied]
    + (if w.job.None? then [] else [emptied.(job := None)])
  }

  lemma KeyRotationFlipsFirst(w: World, hosts: string -> string, a: Answers)
    requires Workable(w) && RealData(w) && KeysDiffer(w.secret.value.keyHash, w.creds.keyHash)
    ensures Trail(w, Begin(w, hosts), a) ==
      FlippedFirst(w, ConfigSecret("placeholder", w.secret.value.admin, w.creds.keyHash, Hash(w)))
  {
    hide ConfigDigest, HostTag, Contains, RenameHost, Settle, Trail;
    var s, i, key := w.secret.value, CurrentInputs(w), w.creds.keyHash;
    var w1 := w.(ready := NotReady("Regenerating"));
    var w2 := w1.(secret := Some(ResetForRotation(s, i, key)));
    RotationTrail(w, i, key, a, w1, w2, w2.(job := None));
    assert w2.secret != w1.secret;
  }

  /** A regeneration does the same, and then creates the Job if its pod is admitted. */
  lemma RegenerationFlipsFirst(w: World, hosts: string -> string, a: Answers)
    requires Workable(w) && RealData(w) && !KeysDiffer(w.secret.value.keyHash, w.creds.keyHash)
    requires w.secret.value.configHash != Hash(w)
    requires w.secret.value.configHash == NoDigest ==> w.secret.value.admin != w.admin.value.name
    requires AdminMoved(w) ==> !Contains(w.secret.value.data, "<host>" + hosts(w.secret.value.admin) + "</host>")
    ensures var key := w.creds.keyHash;
      var reset := ConfigSecret("placeholder", w.admin.value.name, if key != NoDigest then key else w.secret.value.keyHash, Hash(w));
      var emptied := w.(ready := NotReady("Regenerating"), secret := Some(reset));
      Trail(w, Begin(w, hosts), a) == FlippedFirst(w, reset) +
        if a.admitted then [emptied.(job := Some(Job(CurrentInputs(w), Hash(w), key, Running)))] else []
  {
    hide ConfigDigest, HostTag, Contains, RenameHost, Settle, Trail;
    var s, i, key := w.secret.value, CurrentInputs(w), w.creds.keyHash;
    assert Begin(w, hosts) == FlipRegen(i, key) by { TagsAgree(w, hosts); }
    var w1 := w.(ready := NotReady("Regenerating"));
    var w2 := w1.(secret := Some(ResetForRegen(s, i, key)));
    var w3 := w2.(job := None);
    RegenTrail(w, i, key, a, w1, w2, w3);
    assert w2.secret != w1.secret;
    var (w4, ph) := Perform(w3, AtJob(i), a);
    TrailStep(w3, AtJob(i), a, w4, ph);
    Published(w4, ph.outcome, a);
  }

  // ---------- A Secret without real data ----------

  /** The Secret as the Job steps find it: as it is, or a new placeholder for the present inputs and key. */
  ghost function Held(w: World): ConfigSecret
    requires w.creds.Readable?
  {
    if w.secret.Some? then w.secret.value
    else ConfigSecret("placeholder", CurrentInputs(w).admin, w.creds.keyHash, Hash(w))
  }

  /** A Job made for other inputs or under another key; an annotation that is missing proves nothing. */
  ghost predicate MadeForOther(w: World)
    requires w.creds.Readable? && w.job.Some?
  {
    || (w.job.value.configHash != NoDigest && w.job.value.configHash != Hash(w))
    || (w.job.value.keyHash != NoDigest && w.job.value.keyHash != w.creds.keyHash)
  }

  lemma JobPart(w: World, hosts: string -> string, a: Answers)
    requires Workable(w) && !RealData(w)
    ensures Settle(w, Begin(w, hosts), a) == Settle(w.(secret := Some(Held(w))), AtJob(CurrentInputs(w)), a)
  {
    hide ConfigDigest, HostTag, Contains, RenameHost, Settle;
    if w.secret.None? {
      SettleOnce(w, CreatePlaceholder(CurrentInputs(w)), a);
    }
  }

  lemma OneJobWrite(w: World, hosts: string -> string, a: Answers)
    requires Workable(w) && !RealData(w)
    requires Over(AtJobStep(w.(secret := Some(Held(w))), CurrentInputs(w), a).1)
    ensures var (u, ph) := AtJobStep(w.(secret := Some(Held(w))), CurrentInputs(w), a);
      Reconcile(w, hosts, a) == if ph.Publish? then u.(ready := ph.outcome) else u
  {
    hide ConfigDigest, Begin, Settle, Held, AtJobStep;
    JobPart(w, hosts, a);
    var v := w.(secret := Some(Held(w)));
    SettleOnce(v, AtJob(CurrentInputs(w)), a);
    var (u, ph) := AtJobStep(v, CurrentInputs(w), a);
    SettleOver(u, ph, a);
  }

  /** No Job: one is created for the present inputs and key, if its pod is admitted. The inputs are those of the spec and
      of the admin. */
  lemma MissingJobIsCreated(w: World, hosts: string -> string, a: Answers)
    requires Workable(w) && !RealData(w) && w.job.None?
    ensures var i := Inputs(w.spec.image, w.spec.pullSecret, w.admin.value.name, w.spec.packagesHash, w.admin.value.configPort);
      Reconcile(w, hosts, a) == w.(
        secret := Some(if w.secret.Some? then w.secret.value
                       else ConfigSecret("placeholder", w.admin.value.name, w.creds.keyHash, ConfigDigest(i))),
        job := if a.admitted then Some(Job(i, ConfigDigest(i), w.creds.keyHash, Running)) else None,
        ready := NotReady(if a.admitted then "JobCreated" else "JobPodAdmissionForbidden"))
  {
    hide ConfigDigest, Reconcile;
    OneJobWrite(w, hosts, a);
  }

  /** A Job made for other inputs or under another key goes, in whatever state it is, and its output with it. */
  lemma DriftedJobGoes(w: World, hosts: string -> string, a: Answers)
    requires Workable(w) && !RealData(w) && w.job.Some? && MadeForOther(w)
    ensures Reconcile(w, hosts, a) == w.(secret := Some(Held(w)), job := None, ready := NotReady("Regenerating"))
  {
    hide ConfigDigest, Reconcile;
    OneJobWrite(w, hosts, a);
  }

  /** Any other Job stays while it runs, and for good once it has failed. */
  lemma UnfinishedJobStays(w: World, hosts: string -> string, a: Answers)
    requires Workable(w) && !RealData(w) && w.job.Some? && !MadeForOther(w) && !w.job.value.status.Complete?
    ensures Reconcile(w, hosts, a) == w.(
      secret := Some(Held(w)),
      ready := NotReady(if w.job.value.status.Running? then a.running else "JobFailed"))
  {
    hide ConfigDigest, Reconcile;
    OneJobWrite(w, hosts, a);
  }

  /** Of a completed one the log is published as it is, under the annotations of the present inputs and key, and the Job
      goes. */
  lemma CompletedJobIsPublished(w: World, hosts: string -> string, a: Answers)
    requires Workable(w) && !RealData(w) && w.job.Some? && !MadeForOther(w) && w.job.value.status.Complete?
    requires a.logReadable && w.job.value.status.log != "" && w.admin.value.name != ""
    ensures var key := w.creds.keyHash;
      Reconcile(w, hosts, a) == w.(
        secret := Some(ConfigSecret(w.job.value.status.log, w.admin.value.name,
                                    if key != NoDigest then key else Held(w).keyHash, Hash(w))),
        job := if a.jobDeleted then None else w.job,
        ready := IsReady)
  {
    hide ConfigDigest, Settle, Begin;
    JobPart(w, hosts, a);
    var v, i := w.(secret := Some(Held(w))), CurrentInputs(w);
    SettleOnce(v, AtJob(i), a);
    var (u, ph) := AtJobStep(v, i, a);
    SettleOnce(u, DropCompletedJob, a);
    SettleOver(Perform(u, DropCompletedJob, a).0, Publish(IsReady), a);
  }

  /** When the log is empty the Job goes at once; when it cannot be read the Job goes once the grace is over. */
  lemma UnpublishableJob(w: World, hosts: string -> string, a: Answers)
    requires Workable(w) && !RealData(w) && w.job.Some? && !MadeForOther(w) && w.job.value.status.Complete?
    requires !a.logReadable || w.job.value.status.log == ""
    ensures Reconcile(w, hosts, a) == w.(
      secret := Some(Held(w)),
      job := if a.logReadable || a.logExpired then None else w.job,
      ready := NotReady(if a.logReadable then "EmptyOutput" else "LogsUnavailable"))
  {
    hide ConfigDigest, Reconcile;
    OneJobWrite(w, hosts, a);
  }

  // ---------- Every input counts ----------

  /** Image, pull secret, packages, admin and port all reach the hash: it changes with every edit of any of them. */
  lemma EveryEditChangesTheHash(spec: ClusterSpec, admin: AdminNode, spec': ClusterSpec, admin': AdminNode)
    requires WellFormed(InputsFor(spec, Some(admin))) && WellFormed(InputsFor(spec', Some(admin')))
    ensures ConfigDigest(InputsFor(spec, Some(admin))) == ConfigDigest(InputsFor(spec', Some(admin'))) <==>
      spec == spec' && admin == admin'
  {
    ConfigDigestInjective(InputsFor(spec, Some(admin)), InputsFor(spec', Some(admin')));
  }
}

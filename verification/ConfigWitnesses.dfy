/** Runs of the cluster.xml protocol into the failing side of its main results. */
module ConfigWitnesses {
  import opened Wrappers
  import opened Framing
  import opened ConfigHash
  import opened ClusterConfig
  import opened NodeGate
  import opened ConfigProtocol
  import Runs

  const SMOOTH: Answers := Answers(true, false, true, "JobRunning", true)

  /** A cluster reconcile that begins with present objects. */
  function Present(s: System): Event {
    BeginReconcile(|s.past|, |s.past|)
  }

  lemma NothingExecuted(s: System, hosts: string -> string)
    ensures Execute(s, [], hosts) == s
  {
  }

  /** One more event at the end of a run, and the state it leads to. */
  lemma Then(s: System, events: seq<Event>, t: System, e: Event, hosts: string -> string)
    returns (more: seq<Event>, t': System)
    requires t == Execute(s, events, hosts)
    ensures more == events + [e] && t' == Apply(t, e, hosts) && t' == Execute(s, more, hosts)
  {
    Runs.OneMore(Step(hosts), s, events, e);
    more, t' := events + [e], Apply(t, e, hosts);
  }

  ghost function Generated(w: World, log: string): World
    requires w.admin.Some? && w.creds.Readable?
  {
    var i := CurrentInputs(w);
    w.(secret := Some(ConfigSecret(log, i.admin, w.creds.keyHash, ConfigDigest(i))), job := None, ready := IsReady)
  }

  /** Placeholder Secret, Job, completion, population: the undisturbed first generation. */
  lemma FirstGeneration(s: System, log: string, hosts: string -> string) returns (events: seq<Event>, t: System)
    requires Initial(s) && s.now.admin.Some? && s.now.creds.Readable? && log != ""
    ensures t == Execute(s, events, hosts)
    ensures t.phase == Idle && t.now == Generated(s.now, log) && |t.past| == 7
    ensures t.runs == {Run(CurrentInputs(s.now), s.now.creds.keyHash, log)} && t.rollouts == []
  {
    hide ConfigDigest, Execute;
    var i, key := CurrentInputs(s.now), s.now.creds.keyHash;
    NothingExecuted(s, hosts);
    events, t := Then(s, [], s, Present(s), hosts);
    assert t.phase == CreatePlaceholder(i);
    events, t := Then(s, events, t, Write(SMOOTH), hosts);
    assert t.phase == AtJob(i) && t.now.secret == Some(BuildSecret("", i, key));
    events, t := Then(s, events, t, Write(SMOOTH), hosts);
    assert t.now.job == Some(Job(i, ConfigDigest(i), key, Running));
    events, t := Then(s, events, t, Write(SMOOTH), hosts);
    events, t := Then(s, events, t, JobCompletes(log), hosts);
    events, t := Then(s, events, t, Present(t), hosts);
    assert t.phase == AtJob(i);
    events, t := Then(s, events, t, Write(SMOOTH), hosts);
    assert t.phase == DropCompletedJob;
    events, t := Then(s, events, t, Write(SMOOTH), hosts);
    events, t := Then(s, events, t, Write(SMOOTH), hosts);
  }

  /** The failing side of ReadyMeansReal: from every initial state with an admin and readable
      credentials, a genclust run that prints the placeholder text is published as ready. */
  lemma PlaceholderOutputIsPublished(s: System, hosts: string -> string) returns (events: seq<Event>)
    requires Initial(s) && s.now.admin.Some? && s.now.creds.Readable?
    ensures var t := Execute(s, events, hosts);
      t.now.ready == IsReady && t.now.secret.Some? && PrintedPlaceholder(t.now.secret.value, t.runs) && !HasRealXml(t.now)
  {
    hide Execute, ConfigDigest;
    var t: System;
    events, t := FirstGeneration(s, PLACEHOLDER, hosts);
    assert Run(CurrentInputs(s.now), s.now.creds.keyHash, PLACEHOLDER) in t.runs;
  }

  /** After a first generation the spec changes, and the reconcile is cut right after the Secret reset. */
  lemma CutRegeneration(s: System, log: string, spec: ClusterSpec, hosts: string -> string)
    returns (events: seq<Event>, t: System, k: nat)
    requires Initial(s) && s.now.admin.Some? && s.now.creds.Readable?
    requires log != "" && log != PLACEHOLDER && GoodSpec(spec) && spec != s.now.spec
    ensures t == Execute(s, events, hosts) && k < |t.past| && t.past[k] == Generated(s.now, log)
    ensures t.now.secret.Some? && t.now.secret.value.data == PLACEHOLDER
  {
    hide Execute, ConfigDigest, GoodSpec;
    var i, key := CurrentInputs(s.now), s.now.creds.keyHash;
    events, t := FirstGeneration(s, log, hosts);
    k := |t.past|;
    events, t := Then(s, events, t, EditCluster(spec), hosts);
    assert CurrentInputs(t.now) != i;
    InputsWellFormed(s.now.spec, s.now.admin);
    InputsWellFormed(spec, s.now.admin);
    ConfigDigestInjective(i, CurrentInputs(t.now));
    events, t := Then(s, events, t, Present(t), hosts);
    assert t.phase == FlipRegen(CurrentInputs(t.now), key);
    events, t := Then(s, events, t, Write(SMOOTH), hosts);
    events, t := Then(s, events, t, Write(SMOOTH), hosts);
  }

  /** The failing side of NoMixedVersions: when the Secret is read again after the gate and
      a regeneration falls in between, the placeholder's hash is stamped. */
  lemma SecondReadingCanBePlaceholder(s: System, log: string, spec: ClusterSpec, hosts: string -> string)
    returns (events: seq<Event>, r: Rollout)
    requires Initial(s) && s.now.admin.Some? && s.now.creds.Readable?
    requires log != "" && log != PLACEHOLDER && GoodSpec(spec) && spec != s.now.spec
    ensures r in Execute(s, events, hosts).rollouts && r.view.admin.Some?
    ensures r.deployment == Deployment(s.now.spec, Sha256(PLACEHOLDER))
  {
    hide Execute, ConfigDigest, GoodSpec;
    var t: System;
    var k: nat;
    events, t, k := CutRegeneration(s, log, spec, hosts);
    var ready := Generated(s.now, log);
    var g := Ages(k, k, k, |t.past|, k);
    assert ReadView(t, g) == ViewOf(ready) && At(t, g.secretAgain) == t.now;
    assert ClusterConfigStale(ViewOf(ready)) == Fresh;
    assert DeploymentWrite(ViewOf(ready), t.now.secret) == Some(Deployment(ready.spec, Sha256(PLACEHOLDER)));
    r := Rollout(ViewOf(ready), t.now.secret, Deployment(ready.spec, Sha256(PLACEHOLDER)));
    events, t := Then(s, events, t, ReconcileNode(g), hosts);
    assert t.rollouts[|t.rollouts| - 1] == r;
  }
}

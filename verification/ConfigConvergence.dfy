/** With its inputs fixed the cluster.xml protocol comes to rest, from any Secret and any Job. */
module ConfigConvergence {
  import opened Wrappers
  import opened Framing
  import opened Text
  import opened ConfigHash
  import opened ClusterConfig
  import opened NodeGate

  /** Everything the reconciler asks for goes well. */
  const SMOOTH: Answers := Answers(true, false, true, "JobRunning", true)

  /** One undisturbed reconcile, status update included. */
  function Reconcile(w: World, hosts: string -> string, a: Answers): World {
    var (w', ph) := Settle(w, Begin(w, hosts), a);
    if ph.Publish? then w'.(ready := ph.outcome) else w'
  }

  /** How a running genclust Job ends. */
  datatype Ending = Prints(log: string) | Breaks

  function Finish(w: World, e: Ending): World {
    if w.job.Some? && w.job.value.status.Running? then
      w.(job := Some(w.job.value.(status := if e.Prints? then Complete(e.log) else Failed)))
    else w
  }

  /** A running Job ends, then the reconciler runs. */
  function Round(w: World, e: Ending, hosts: string -> string): World {
    Reconcile(Finish(w, e), hosts, SMOOTH)
  }

  function Rounds(w: World, endings: seq<Ending>, hosts: string -> string): World
    decreases |endings|
  {
    if endings == [] then w else Rounds(Round(w, endings[0], hosts), endings[1..], hosts)
  }

  /** The log is cluster.xml: neither empty nor the placeholder text. */
  predicate RealLog(log: string) {
    log != "" && log != PLACEHOLDER
  }

  predicate RealEnding(e: Ending) {
    e.Prints? ==> RealLog(e.log)
  }

  predicate Current(w: World)
    requires w.creds.Readable? && w.job.Some?
  {
    !Drifted(w.job.value, CurrentInputs(w), w.creds.keyHash)
  }

  /** A cluster with an admin and readable credentials; a completed Job that has not drifted
      has printed real xml. */
  predicate Serviceable(w: World) {
    && w.admin.Some? && w.creds.Readable?
    && (w.job.Some? && w.job.value.status.Complete? && Current(w) ==> RealLog(w.job.value.status.log))
  }

  predicate SteadyRest(w: World, hosts: string -> string)
    requires w.creds.Readable?
  {
    w.admin.Some? && HasRealXml(w) && Decide(w.secret.value, CurrentInputs(w), w.creds.keyHash, hosts) == Steady
  }

  predicate FailedRest(w: World)
    requires w.creds.Readable?
  {
    w.admin.Some? && w.secret.Some? && !HasRealXml(w) && w.job.Some? && w.job.value.status.Failed? && Current(w)
  }

  predicate AtRest(w: World, hosts: string -> string)
    requires w.creds.Readable?
  {
    SteadyRest(w, hosts) || FailedRest(w)
  }

  /** How far a world is from rest, in rounds. */
  function Distance(w: World, hosts: string -> string): nat
    requires Serviceable(w)
  {
    if AtRest(w, hosts) then 0
    else if HasRealXml(w) then
      var b := Decide(w.secret.value, CurrentInputs(w), w.creds.keyHash, hosts);
      if b.RotateKey? || (b.Regenerate? && w.job.Some? && !Current(w)) then 3 else if b.Regenerate? then 2 else 1
    else if w.job.None? then 2
    else if Current(w) then 1
    else 3
  }

  lemma SettleOnce(w: World, ph: Phase, a: Answers)
    requires !Over(ph)
    ensures var (w', ph') := Perform(w, ph, a); Settle(w, ph, a) == Settle(w', ph', a)
  {
  }

  lemma SettleOver(w: World, ph: Phase, a: Answers)
    requires Over(ph)
    ensures Settle(w, ph, a) == (w, ph)
  {
  }

  /** The Job steps of one reconcile, from a Secret without real data. */
  lemma JobSteps(w: World, hosts: string -> string)
    requires Serviceable(w) && w.secret.Some? && !HasRealXml(w)
    ensures var a := SMOOTH;
      var (w', ph) := Settle(w, AtJob(CurrentInputs(w)), a);
      && ph.Publish?
      && Serviceable(w'.(ready := ph.outcome))
      && (w.job.None? ==> Distance(w'.(ready := ph.outcome), hosts) == 1)
      && (w.job.Some? && !Current(w) ==> Distance(w'.(ready := ph.outcome), hosts) == 2)
      && (w.job.Some? && Current(w) && w.job.value.status.Running? ==> w' == w)
      && (w.job.Some? && Current(w) && w.job.value.status.Failed? ==> w' == w)
      && (w.job.Some? && Current(w) && w.job.value.status.Complete? ==> SteadyRest(w'.(ready := ph.outcome), hosts))
  {
    hide ConfigDigest, RenameHost, HostTag, Contains, Settle, Preimage;
    var a, i := SMOOTH, CurrentInputs(w);
    SettleOnce(w, AtJob(i), a);
    var (w', ph) := Perform(w, AtJob(i), a);
    if ph.DropCompletedJob? {
      SettleOnce(w', ph, a);
      SettleOver(w'.(job := None), Publish(IsReady), a);
    } else {
      SettleOver(w', ph, a);
    }
  }

  /** From a Secret with real data, by branch. */
  lemma PopulatedSteps(w: World, hosts: string -> string)
    requires Serviceable(w) && HasRealXml(w)
    ensures var w' := Reconcile(w, hosts, SMOOTH);
      Serviceable(w') && match Decide(w.secret.value, CurrentInputs(w), w.creds.keyHash, hosts)
        case Steady => w' == w.(ready := IsReady)
        case Backfill => SteadyRest(w', hosts)
        case RenameAdmin => SteadyRest(w', hosts)
        case RotateKey => Distance(w', hosts) == 2
        case Regenerate => Distance(w', hosts) == 1
  {
    hide ConfigDigest, HostTag, Contains, RenameHost, Settle, Drifted;
    var a, ph := SMOOTH, Begin(w, hosts);
    var s, i, key := w.secret.value, CurrentInputs(w), w.creds.keyHash;
    match Decide(s, i, key, hosts)
    case Steady => SettleOver(w, ph, a);
    case Backfill => StoreSteps(w, s.(configHash := ConfigDigest(i)), hosts);
    case RenameAdmin =>
      RenameIsReal(hosts, s.data, s.admin, i.admin);
      StoreSteps(w, Renamed(s, i, hosts), hosts);
    case RotateKey =>
      var w1 := w.(ready := NotReady("Regenerating"));
      var w2 := w1.(secret := Some(ResetForRotation(s, i, key)));
      var w3 := w2.(job := None);
      RotationTrail(w, i, key, a, w1, w2, w3);
    case Regenerate =>
      var w1 := w.(ready := NotReady("Regenerating"));
      var w2 := w1.(secret := Some(ResetForRegen(s, i, key)));
      var w3 := w2.(job := None);
      RegenTrail(w, i, key, a, w1, w2, w3);
      JobSteps(w3, hosts);
  }

  lemma RenameIsReal(hosts: string -> string, xml: string, oldAdmin: string, newAdmin: string)
    requires Contains(xml, HostTag(hosts, oldAdmin))
    ensures RealLog(RenameHost(hosts, xml, oldAdmin, newAdmin))
  {
    ReplaceFirstKeepsTheRest(xml, HostTag(hosts, oldAdmin), HostTag(hosts, newAdmin));
    assert |HostTag(hosts, newAdmin)| >= 13 && |PLACEHOLDER| == 11;
  }

  lemma StoreSteps(w: World, s: ConfigSecret, hosts: string -> string)
    requires Serviceable(w) && HasRealXml(w) && Begin(w, hosts) == StoreSecret(s)
    requires Populated(s) && s.configHash == ConfigDigest(CurrentInputs(w)) && s.keyHash == w.secret.value.keyHash
    ensures Serviceable(Reconcile(w, hosts, SMOOTH))
    ensures SteadyRest(Reconcile(w, hosts, SMOOTH), hosts)
  {
    hide ConfigDigest, HostTag, Contains, RenameHost, Settle;
    var a := SMOOTH;
    SettleOnce(w, StoreSecret(s), a);
    SettleOver(w.(secret := Some(s)), Publish(IsReady), a);
  }

  /** Every round away from rest brings rest at least one round nearer; at rest it stays at rest. */
  lemma RoundProgress(w: World, e: Ending, hosts: string -> string)
    requires Serviceable(w) && RealEnding(e)
    ensures var w' := Round(w, e, hosts);
      && Serviceable(w')
      && (Distance(w, hosts) > 0 ==> Distance(w', hosts) < Distance(w, hosts))
      && (AtRest(w, hosts) ==> AtRest(w', hosts))
  {
    hide ConfigDigest, Decide, Settle;
    var a, v := SMOOTH, Finish(w, e);
    if HasRealXml(v) {
      PopulatedSteps(v, hosts);
    } else if v.secret.None? {
      var i := CurrentInputs(v);
      var u := v.(secret := Some(BuildSecret("", i, v.creds.keyHash)));
      SettleOnce(v, CreatePlaceholder(i), a);
      JobSteps(u, hosts);
    } else {
      JobSteps(v, hosts);
    }
  }

  /** Convergence: three rounds suffice, whatever the Secret and the Job were. */
  lemma {:induction false} Converges(w: World, endings: seq<Ending>, hosts: string -> string)
    requires Serviceable(w) && forall e :: e in endings ==> RealEnding(e)
    requires |endings| >= Distance(w, hosts)
    ensures Serviceable(Rounds(w, endings, hosts)) && AtRest(Rounds(w, endings, hosts), hosts)
    decreases |endings|
  {
    hide Round, Distance, AtRest, Decide;
    if endings != [] {
      RoundProgress(w, endings[0], hosts);
      ZeroDistance(w, hosts);
      ZeroDistance(Round(w, endings[0], hosts), hosts);
      Converges(Round(w, endings[0], hosts), endings[1..], hosts);
    } else {
      ZeroDistance(w, hosts);
    }
  }

  lemma ZeroDistance(w: World, hosts: string -> string)
    requires Serviceable(w)
    ensures Distance(w, hosts) <= 3
    ensures Distance(w, hosts) == 0 <==> AtRest(w, hosts)
  {
    hide Decide;
    if HasRealXml(w) && Decide(w.secret.value, CurrentInputs(w), w.creds.keyHash, hosts) == Steady {
      assert SteadyRest(w, hosts);
    }
  }

  // ---------- Faults ----------

  /** Where a reconcile stands after so many writes, each with its own answers. */
  function Performed(w: World, ph: Phase, answers: seq<Answers>): (World, Phase)
    decreases |answers|
  {
    if answers == [] then (w, ph)
    else
      var (w', ph') := Perform(w, ph, answers[0]);
      Performed(w', ph', answers[1..])
  }

  /** What it leaves behind when it crashes then. */
  function Cut(w: World, ph: Phase, answers: seq<Answers>): World {
    Performed(w, ph, answers).0
  }

  /** The log of a completed Job is given up. */
  predicate LogLost(a: Answers) {
    !a.logReadable && a.logExpired
  }

  /** A completed Job of the present inputs, whose log is still to be published. */
  predicate Unpublished(w: World)
    requires w.creds.Readable?
  {
    w.job.Some? && Current(w) && w.job.value.status.Complete?
  }

  /** Where a reconcile that began at distance d stands before a write. */
  ghost predicate Fits(w: World, ph: Phase, d: nat, hosts: string -> string)
    requires w.creds.Readable?
  {
    var i, key := CurrentInputs(w), w.creds.keyHash;
    match ph
    case Idle => true
    case Publish(_) => true
    case FlipRotation(j, k) => j == i && k == key && d >= 3 && HasRealXml(w)
    case ResetRotation(j, k) => j == i && k == key && d >= 3 && HasRealXml(w)
    case DropJobRotation => d >= 3
    case FlipRegen(j, k) => j == i && k == key && HasRealXml(w) && d >= (if w.job.Some? && !Current(w) then 3 else 2)
    case ResetRegen(j, k) => j == i && k == key && HasRealXml(w) && d >= (if w.job.Some? && !Current(w) then 3 else 2)
    case DropJobRegen(j) => j == i && d >= 2 && w.secret.Some? && !HasRealXml(w)
    case StoreSecret(s) =>
      HasRealXml(w) && Populated(s) && s.configHash == ConfigDigest(i) && !KeyRotated(s, key)
    case CreatePlaceholder(j) => j == i && !HasRealXml(w) && (Unpublished(w) ==> d <= 1)
    case AtJob(j) => j == i && w.secret.Some? && !HasRealXml(w) && (Unpublished(w) ==> d <= 1)
    case DropCompletedJob => SteadyRest(w, hosts)
  }

  lemma WriteFits(w: World, ph: Phase, d: nat, a: Answers, hosts: string -> string)
    requires Serviceable(w) && Fits(w, ph, d, hosts) && Distance(w, hosts) <= d && !LogLost(a)
    ensures var (w', ph') := Perform(w, ph, a);
      Serviceable(w') && Fits(w', ph', d, hosts) && Distance(w', hosts) <= d
  {
    hide ConfigDigest, HostTag, Contains, RenameHost;
  }

  lemma {:induction false} PerformedFits(w: World, ph: Phase, d: nat, answers: seq<Answers>, hosts: string -> string)
    requires Serviceable(w) && Fits(w, ph, d, hosts) && Distance(w, hosts) <= d
    requires forall a :: a in answers ==> !LogLost(a)
    ensures var (w', ph') := Performed(w, ph, answers);
      Serviceable(w') && Fits(w', ph', d, hosts) && Distance(w', hosts) <= d
    decreases |answers|
  {
    hide Perform, Fits, Distance, LogLost;
    if answers != [] {
      WriteFits(w, ph, d, answers[0], hosts);
      var (w', ph') := Perform(w, ph, answers[0]);
      PerformedFits(w', ph', d, answers[1..], hosts);
    }
  }

  /** Faults do not set back: a reconcile cut after any number of writes, with any answers but a lost log, leaves
      the distance no greater than it was. */
  lemma FaultsDoNotSetBack(w: World, answers: seq<Answers>, hosts: string -> string)
    requires Serviceable(w) && forall a :: a in answers ==> !LogLost(a)
    ensures var w' := Cut(w, Begin(w, hosts), answers);
      Serviceable(w') && Distance(w', hosts) <= Distance(w, hosts)
  {
    PerformedFits(w, Begin(w, hosts), Distance(w, hosts), answers, hosts);
  }

  /** A lost log does: a write, wherever in the reconcile it stands, sets back exactly when it gives up the log of a
      completed Job of the present inputs. */
  lemma OnlyALostLogSetsBack(w: World, before: seq<Answers>, a: Answers, hosts: string -> string)
    requires Serviceable(w) && forall b :: b in before ==> !LogLost(b)
    ensures var (u, ph) := Performed(w, Begin(w, hosts), before);
      var u' := Perform(u, ph, a).0;
      && Serviceable(u) && Serviceable(u')
      && (Distance(u', hosts) > Distance(w, hosts) <==> LogLost(a) && ph.AtJob? && Unpublished(u))
  {
    var d := Distance(w, hosts);
    PerformedFits(w, Begin(w, hosts), d, before, hosts);
    var (u, ph) := Performed(w, Begin(w, hosts), before);
    if !(LogLost(a) && ph.AtJob? && Unpublished(u)) {
      hide Fits, Distance, Performed, Begin;
      WriteFits(u, ph, d, if LogLost(a) then a.(logReadable := true) else a, hosts);
    }
  }

  /** An undisturbed round, a faulty reconcile, or the end of a running Job. */
  datatype Turn = Smooth(e: Ending) | Faulty(answers: seq<Answers>) | Ends(e: Ending)

  predicate GoodTurn(t: Turn) {
    match t
    case Smooth(e) => RealEnding(e)
    case Faulty(answers) => forall a :: a in answers ==> !LogLost(a)
    case Ends(e) => RealEnding(e)
  }

  function Take(w: World, t: Turn, hosts: string -> string): World {
    match t
    case Smooth(e) => Round(w, e, hosts)
    case Faulty(answers) => Cut(w, Begin(w, hosts), answers)
    case Ends(e) => Finish(w, e)
  }

  function Turns(w: World, turns: seq<Turn>, hosts: string -> string): World
    decreases |turns|
  {
    if turns == [] then w else Turns(Take(w, turns[0], hosts), turns[1..], hosts)
  }

  function Smooths(turns: seq<Turn>): nat {
    if turns == [] then 0 else (if turns[0].Smooth? then 1 else 0) + Smooths(turns[1..])
  }

  lemma TurnProgress(w: World, t: Turn, hosts: string -> string)
    requires Serviceable(w) && GoodTurn(t)
    ensures var w' := Take(w, t, hosts);
      && Serviceable(w') && Distance(w', hosts) <= Distance(w, hosts)
      && (t.Smooth? && Distance(w, hosts) > 0 ==> Distance(w', hosts) < Distance(w, hosts))
  {
    match t
    case Smooth(e) =>
      RoundProgress(w, e, hosts);
      ZeroDistance(w, hosts);
      ZeroDistance(Round(w, e, hosts), hosts);
    case Faulty(answers) => FaultsDoNotSetBack(w, answers, hosts);
    case Ends(e) =>
      hide ConfigDigest, Decide;
  }

  /** Convergence under faults: whatever reconciles are cut, refused or repeated in between, as many undisturbed
      rounds as the distance (three at most) bring rest, in any order. */
  lemma {:induction false} ConvergesDespiteFaults(w: World, turns: seq<Turn>, hosts: string -> string)
    requires Serviceable(w) && forall t :: t in turns ==> GoodTurn(t)
    requires Smooths(turns) >= Distance(w, hosts)
    ensures Serviceable(Turns(w, turns, hosts)) && AtRest(Turns(w, turns, hosts), hosts)
    decreases |turns|
  {
    hide Take, Distance, AtRest, GoodTurn;
    ZeroDistance(w, hosts);
    if turns != [] {
      TurnProgress(w, turns[0], hosts);
      ConvergesDespiteFaults(Take(w, turns[0], hosts), turns[1..], hosts);
    }
  }

  // ---------- Rest ----------

  /** The reconcile attempts no write of Secret or Job: nothing changes, and no populated Secret waits for its Job
      to be deleted. */
  predicate Untouched(w: World, ph: Phase, a: Answers)
    decreases Remaining(ph)
  {
    Over(ph) ||
    var (w', ph') := Perform(w, ph, a);
    w' == w && !ph.DropCompletedJob? && Untouched(w', ph', a)
  }

  /** At rest no reconcile writes the Secret or the Job again, and the condition tells which rest it is. */
  lemma RestIsQuiet(w: World, hosts: string -> string, a: Answers)
    requires w.creds.Readable? && AtRest(w, hosts)
    ensures Reconcile(w, hosts, a) == w.(ready := if SteadyRest(w, hosts) then IsReady else NotReady("JobFailed"))
    ensures Trail(w, Begin(w, hosts), a) == [] && Untouched(w, Begin(w, hosts), a)
  {
    hide ConfigDigest, HostTag, Contains, RenameHost, Drifted, MergeInto, Settle;
    if SteadyRest(w, hosts) {
      SettleOver(w, Publish(IsReady), a);
    } else {
      assert Begin(w, hosts) == AtJob(CurrentInputs(w));
      SettleOnce(w, AtJob(CurrentInputs(w)), a);
      SettleOver(w, Publish(NotReady("JobFailed")), a);
    }
  }

  /** Every one of these reconciles writes neither Secret nor Job and reports ready. */
  ghost predicate SteadyFor(w: World, hosts: string -> string, answers: seq<Answers>)
    decreases |answers|
  {
    answers != [] ==>
      && Untouched(w, Begin(w, hosts), answers[0])
      && Settle(w, Begin(w, hosts), answers[0]) == (w, Publish(IsReady))
      && SteadyFor(Reconcile(w, hosts, answers[0]), hosts, answers[1..])
  }

  /** A reconcile that touches nothing and reports ready took its steady branch. */
  lemma QuietMeansSteady(w: World, hosts: string -> string, a: Answers)
    requires w.admin.Some? && w.creds.Readable?
    requires Untouched(w, Begin(w, hosts), a) && Settle(w, Begin(w, hosts), a) == (w, Publish(IsReady))
    ensures SteadyRest(w, hosts)
  {
    hide ConfigDigest, RenameHost, HostTag, Contains;
  }

  /** The two decision procedures agree: on a shared snapshot with an admin and readable credentials the
      node reconciler calls the config fresh exactly when the cluster reconciler, however often it runs
      from here, writes neither Secret nor Job and reports ready. */
  lemma {:induction false} FreshIffSteadyForever(w: World, hosts: string -> string, answers: seq<Answers>)
    requires w.admin.Some? && w.creds.Readable? && answers != []
    ensures ClusterConfigStale(ViewOf(w)) == Fresh <==> SteadyFor(w, hosts, answers)
    decreases |answers|
  {
    hide ConfigDigest, HostTag, Contains, RenameHost, Settle, Untouched;
    if SteadyRest(w, hosts) {
      var r := w.(ready := IsReady);
      RestIsQuiet(w, hosts, answers[0]);
      SettleOver(w, Publish(IsReady), answers[0]);
      if |answers| > 1 {
        FreshIffSteadyForever(r, hosts, answers[1..]);
      }
    } else if SteadyFor(w, hosts, answers) {
      QuietMeansSteady(w, hosts, answers[0]);
    }
  }

  /** The condition on logs is needed: if every genclust run prints the placeholder text, the protocol
      never rests, for any number of rounds. */
  lemma {:induction false} PlaceholderLogsNeverRest(w: World, n: nat, hosts: string -> string)
    requires w.admin.Some? && w.creds.Readable? && w.secret.Some? && !HasRealXml(w)
    requires w.job.Some? ==> w.job.value.status.Running? && Current(w)
    ensures var t := Rounds(w, seq(n, k => Prints(PLACEHOLDER)), hosts);
      t.creds.Readable? && !AtRest(t, hosts)
    decreases n
  {
    hide ConfigDigest, HostTag, Contains, RenameHost, Settle;
    var es := seq(n, k => Prints(PLACEHOLDER));
    if n > 0 {
      var i, a, v := CurrentInputs(w), SMOOTH, Finish(w, es[0]);
      SettleOnce(v, AtJob(i), a);
      var (v1, ph1) := Perform(v, AtJob(i), a);
      if ph1.DropCompletedJob? {
        SettleOnce(v1, ph1, a);
        SettleOver(v1.(job := None), Publish(IsReady), a);
      } else {
        SettleOver(v1, ph1, a);
      }
      assert es[1..] == seq(n - 1, k => Prints(PLACEHOLDER));
      PlaceholderLogsNeverRest(Round(w, es[0], hosts), n - 1, hosts);
    }
  }
}

/** Recovery of failing package downloads: deleting pods after a Secret change, and why the loop ends. */
module PackageRecovery {
  import opened Wrappers
  import opened Framing
  import opened PackageStatus

  // ---------- The gate ----------

  predicate RecoverableReason(reason: string) {
    || reason == "PackageSecretMissing" || reason == "PackageSecretKeyMissing" || reason == "PackageHTTPError"
    || reason == "PackageTLSVerifyFailed" || reason == "PackageClientCertInvalid" || reason == "PackageFetchFailed"
    || reason == "PackageInvalidArchive"
  }

  datatype Condition = Condition(status: string, reason: string)

  predicate IsRecoverableSecretFailure(c: Option<Condition>) {
    c.Some? && c.value.status == "False" && RecoverableReason(c.value.reason)
  }

  /** Of the failures the translator reports, exactly the image pulls are beyond a Secret's reach. */
  lemma OnlyPullsAreUnrecoverable(f: Failure)
    requires (exists w :: ClassifyWaiting(w) == Some(f)) || (exists t :: ClassifyTerminated(t) == Some(f))
    ensures IsRecoverableSecretFailure(Some(Condition("False", f.reason))) <==> f.reason != "PackageImagePullFailed"
  {
    if w :| ClassifyWaiting(w) == Some(f) {
    } else {
      var t :| ClassifyTerminated(t) == Some(f);
    }
  }

  // ---------- The hash of the referenced Secret versions ----------

  /** A referenced Secret's name, followed by its resource version when it exists. */
  function Entry(n: string, versions: map<string, string>): seq<string> {
    if n in versions then [n, versions[n]] else [n]
  }

  function VersionFields(names: seq<string>, versions: map<string, string>): seq<string> {
    if names == [] then [] else Entry(names[0], versions) + VersionFields(names[1..], versions)
  }

  lemma {:induction false} FieldsOfConcat(a: seq<string>, b: seq<string>, versions: map<string, string>)
    ensures VersionFields(a + b, versions) == VersionFields(a, versions) + VersionFields(b, versions)
  {
    if a == [] {
      assert a + b == b;
    } else {
      assert (a + b)[1..] == a[1..] + b;
      FieldsOfConcat(a[1..], b, versions);
    }
  }

  lemma FieldsOfOne(n: string, versions: map<string, string>)
    ensures VersionFields([n], versions) == Entry(n, versions)
  {
    assert VersionFields([n], versions) == Entry(n, versions) + VersionFields([n][1..], versions);
  }

  function SecretsHash(names: seq<string>, versions: map<string, string>): Digest {
    if names == [] then NoDigest else Sha256(Frame(VersionFields(names, versions)))
  }

  method ComputePackageSecretsHash(names: seq<string>, versions: map<string, string>) returns (d: Digest)
    ensures d == SecretsHash(names, versions)
  {
    if |names| == 0 {
      return NoDigest;
    }
    var buffer := "";
    for i := 0 to |names|
      invariant buffer == Frame(VersionFields(names[..i], versions))
    {
      var n := names[i];
      assert names[..i + 1] == names[..i] + [n];
      FieldsOfConcat(names[..i], [n], versions);
      FieldsOfOne(n, versions);
      ghost var fields := VersionFields(names[..i], versions);
      FrameSnoc(fields, n);
      if n !in versions {
        buffer := buffer + n + [NUL];
        continue;
      }
      assert fields + [n, versions[n]] == fields + [n] + [versions[n]];
      FrameSnoc(fields + [n], versions[n]);
      buffer := buffer + n + [NUL];
      buffer := buffer + versions[n] + [NUL];
    }
    assert names[..|names|] == names;
    return Sha256(buffer);
  }

  ghost predicate NulFreeState(names: seq<string>, versions: map<string, string>) {
    forall n :: n in names ==> NulFree(n) && (n in versions ==> NulFree(versions[n]))
  }

  ghost predicate Distinct(names: seq<string>) {
    forall i, j :: 0 <= i < j < |names| ==> names[i] != names[j]
  }

  predicate SameVersions(names: seq<string>, v: map<string, string>, w: map<string, string>) {
    forall n :: n in names ==> (n in v <==> n in w) && (n in v ==> v[n] == w[n])
  }

  /** Two names in a row, one of which has the second name for its resource version while the other Secret is missing:
      the same fields come out when it is the other way round. */
  predicate Swaps(n: string, next: string, v: map<string, string>) {
    (n in v && v[n] == next && next !in v) || (n !in v && next in v && v[next] == next)
  }

  predicate Swappable(names: seq<string>, v: map<string, string>) {
    exists i :: 0 <= i < |names| - 1 && Swaps(names[i], names[i + 1], v)
  }

  lemma {:induction false} FieldsAreNulFree(names: seq<string>, v: map<string, string>)
    requires NulFreeState(names, v)
    ensures forall f :: f in VersionFields(names, v) ==> NulFree(f)
  {
    if names != [] {
      assert names == [names[0]] + names[1..];
      FieldsAreNulFree(names[1..], v);
    }
  }

  lemma {:induction false} SameFieldsFor(names: seq<string>, v: map<string, string>, w: map<string, string>)
    requires SameVersions(names, v, w)
    ensures VersionFields(names, v) == VersionFields(names, w)
  {
    if names != [] {
      assert names == [names[0]] + names[1..];
      SameFieldsFor(names[1..], v, w);
    }
  }

  lemma SameHashIff(names: seq<string>, v: map<string, string>, w: map<string, string>)
    requires NulFreeState(names, v) && NulFreeState(names, w)
    ensures SecretsHash(names, v) == SecretsHash(names, w) <==> VersionFields(names, v) == VersionFields(names, w)
  {
    if SecretsHash(names, v) == SecretsHash(names, w) && names != [] {
      FieldsAreNulFree(names, v);
      FieldsAreNulFree(names, w);
      FrameInjective(VersionFields(names, v), VersionFields(names, w));
    }
  }

  /** Where two states with the same fields differ first, one Secret is missing, and the other's version is the next
      name. */
  lemma {:induction false} FirstDifference(names: seq<string>, v: map<string, string>, w: map<string, string>) returns (i: nat)
    requires VersionFields(names, v) == VersionFields(names, w) && !SameVersions(names, v, w)
    ensures i + 1 < |names| && VersionFields(names[i..], v) == VersionFields(names[i..], w)
    ensures names[i] in v <==> names[i] !in w
    ensures names[i] in v ==> v[names[i]] == names[i + 1]
    ensures names[i] in w ==> w[names[i]] == names[i + 1]
  {
    assert names == [names[0]] + names[1..];
    var n, rest := names[0], names[1..];
    var a, b := VersionFields(rest, v), VersionFields(rest, w);
    assert Entry(n, v) + a == Entry(n, w) + b;
    assert names[0..] == names;
    if n in v && n in w {
      assert (Entry(n, v) + a)[1] == (Entry(n, w) + b)[1];
      assert a == (Entry(n, v) + a)[2..] == (Entry(n, w) + b)[2..] == b;
      i := FirstDifference(rest, v, w);
      assert names[i + 1..] == rest[i..];
      i := i + 1;
    } else if n !in v && n !in w {
      assert a == (Entry(n, v) + a)[1..] == (Entry(n, w) + b)[1..] == b;
      i := FirstDifference(rest, v, w);
      assert names[i + 1..] == rest[i..];
      i := i + 1;
    } else {
      i := 0;
      assert (Entry(n, v) + a)[1] == (Entry(n, w) + b)[1];
    }
  }

  /** A name found twice at the head stands there as a version the second time. */
  lemma RepeatedName(names: seq<string>, v: map<string, string>)
    requires Distinct(names) && names != []
    requires |VersionFields(names, v)| >= 2 && VersionFields(names, v)[1] == names[0]
    ensures names[0] in v && v[names[0]] == names[0]
  {
    var after := names[1..];
    assert after != [] ==> VersionFields(after, v)[0] == after[0] == names[1];
  }

  lemma RestIsDistinct(n: string, rest: seq<string>)
    requires Distinct([n] + rest)
    ensures Distinct(rest)
  {
    assert forall k :: 0 <= k < |rest| ==> ([n] + rest)[k + 1] == rest[k];
  }

  /** A version that takes the next name's place pushes the fields along, until a Secret is missing. */
  lemma {:induction false} PushesAlong(n: string, rest: seq<string>, v: map<string, string>, w: map<string, string>) returns (i: nat)
    requires Distinct([n] + rest) && n in v
    requires [v[n]] + VersionFields(rest, v) == VersionFields(rest, w)
    ensures var names := [n] + rest; i < |rest| && names[i] in v && v[names[i]] == names[i + 1] && names[i + 1] !in v
    decreases |rest|
  {
    var fv, fw := VersionFields(rest, v), VersionFields(rest, w);
    var next, after := rest[0], rest[1..];
    assert fw[0] == next == v[n];
    i := 0;
    if next in v {
      assert fw[1] == next && fw[2] == v[next];
      RepeatedName(rest, w) by { RestIsDistinct(n, rest); }
      assert [v[next]] + VersionFields(after, v) == fw[2..] == VersionFields(after, w);
      assert [next] + after == ([n] + rest)[1..];
      i := PushesAlong(next, after, v, w);
      assert forall k :: 0 <= k <= |after| ==> ([next] + after)[k] == ([n] + rest)[k + 1];
      i := i + 1;
    }
  }

  /** The same for the Secret that is missing here and there elsewhere. */
  lemma PushedAside(n: string, rest: seq<string>, v: map<string, string>, w: map<string, string>)
    requires Distinct([n] + rest) && n !in v && rest != []
    requires VersionFields(rest, v) == [rest[0]] + VersionFields(rest, w)
    ensures Swaps(n, rest[0], v)
  {
    assert VersionFields(rest, v)[1] == VersionFields(rest, w)[0] == rest[0];
    RestIsDistinct(n, rest);
    RepeatedName(rest, v);
  }

  lemma SuffixIsDistinct(names: seq<string>, i: nat)
    requires Distinct(names) && i < |names|
    ensures names[i..] == [names[i]] + names[i + 1..] && Distinct(names[i..])
  {
  }

  lemma FieldsOfFirst(n: string, rest: seq<string>, v: map<string, string>)
    ensures VersionFields([n] + rest, v) == Entry(n, v) + VersionFields(rest, v)
  {
    assert ([n] + rest)[1..] == rest;
  }

  lemma SwapsFromHere(n: string, rest: seq<string>, v: map<string, string>, w: map<string, string>) returns (k: nat)
    requires Distinct([n] + rest) && rest != [] && VersionFields([n] + rest, v) == VersionFields([n] + rest, w)
    requires (n in v <==> n !in w) && (n in v ==> v[n] == rest[0]) && (n in w ==> w[n] == rest[0])
    ensures k < |rest| && Swaps(([n] + rest)[k], ([n] + rest)[k + 1], v)
  {
    hide VersionFields, Distinct;
    FieldsOfFirst(n, rest, v);
    FieldsOfFirst(n, rest, w);
    var fv, fw := VersionFields(rest, v), VersionFields(rest, w);
    k := 0;
    if n in v {
      assert [v[n]] + fv == ([n, v[n]] + fv)[1..] == ([n] + fw)[1..] == fw;
      k := PushesAlong(n, rest, v, w);
    } else {
      assert fv == ([n] + fv)[1..] == ([n, w[n]] + fw)[1..] == [w[n]] + fw;
      PushedAside(n, rest, v, w);
    }
  }

  lemma CollisionSwaps(names: seq<string>, v: map<string, string>, w: map<string, string>)
    requires Distinct(names) && VersionFields(names, v) == VersionFields(names, w) && !SameVersions(names, v, w)
    ensures Swappable(names, v)
  {
    hide VersionFields, Distinct, SameVersions, Swaps;
    var i := FirstDifference(names, v, w);
    SuffixIsDistinct(names, i);
    var k := SwapsFromHere(names[i], names[i + 1..], v, w);
    assert names[i..][k] == names[i + k] && names[i..][k + 1] == names[i + k + 1];
    assert Swaps(names[i + k], names[i + k + 1], v);
  }

  /** The state that hides behind the same hash. */
  function Swapped(n: string, next: string, v: map<string, string>): map<string, string> {
    if n in v then (v - {n})[next := next] else (v - {next})[n := next]
  }

  lemma SwapCollides(names: seq<string>, i: nat, v: map<string, string>)
    requires Distinct(names) && i < |names| - 1 && Swaps(names[i], names[i + 1], v)
    ensures var w := Swapped(names[i], names[i + 1], v);
      VersionFields(names, v) == VersionFields(names, w) && !SameVersions(names, v, w)
  {
    var n, next := names[i], names[i + 1];
    var w := Swapped(n, next, v);
    assert n in names && (n in v <==> n !in w);
    var before, after := names[..i], names[i + 2..];
    assert names == before + ([n, next] + after);
    forall x | x in before || x in after ensures x != n && x != next {}
    SameFieldsFor(before, v, w);
    SameFieldsFor(after, v, w);
    assert VersionFields([n, next], v) == [n, next, next] == VersionFields([n, next], w) by {
      assert [n, next][1..] == [next];
      FieldsOfOne(next, v);
      FieldsOfOne(next, w);
    }
    FieldsOfConcat(before, [n, next] + after, v);
    FieldsOfConcat([n, next], after, v);
    FieldsOfConcat(before, [n, next] + after, w);
    FieldsOfConcat([n, next], after, w);
  }

  /** Some other state of the referenced Secrets has the same hash. */
  ghost predicate Collides(names: seq<string>, v: map<string, string>) {
    exists w :: NulFreeState(names, w) && !SameVersions(names, v, w) && SecretsHash(names, w) == SecretsHash(names, v)
  }

  /** The hash tells a state of the referenced Secrets from every other, except exactly when two names in a row
      can swap. */
  lemma HashCollidesIff(names: seq<string>, v: map<string, string>)
    requires Distinct(names) && NulFreeState(names, v)
    ensures Collides(names, v) <==> Swappable(names, v)
  {
    if Collides(names, v) {
      var w :| NulFreeState(names, w) && !SameVersions(names, v, w) && SecretsHash(names, w) == SecretsHash(names, v);
      SameHashIff(names, v, w);
      CollisionSwaps(names, v, w);
    }
    if Swappable(names, v) {
      var i :| 0 <= i < |names| - 1 && Swaps(names[i], names[i + 1], v);
      SwapCollides(names, i, v);
      var w := Swapped(names[i], names[i + 1], v);
      assert names[i + 1] in names;
      assert NulFreeState(names, w);
      SameHashIff(names, v, w);
    }
  }

  /** No resource version is spelled like a referenced Secret's name. */
  ghost predicate Clean(names: seq<string>, versions: map<string, string>) {
    NulFreeState(names, versions) && forall n :: n in names && n in versions ==> versions[n] !in names
  }

  /** Between such states the hash determines presence and versions. */
  lemma HashDeterminesVersions(names: seq<string>, v: map<string, string>, w: map<string, string>)
    requires Clean(names, v) && Clean(names, w)
    ensures SecretsHash(names, v) == SecretsHash(names, w) <==> SameVersions(names, v, w)
  {
    SameHashIff(names, v, w);
    if SameVersions(names, v, w) {
      SameFieldsFor(names, v, w);
    } else if VersionFields(names, v) == VersionFields(names, w) {
      var i := FirstDifference(names, v, w);
    }
  }

  /** A Secret called like another one's version does no harm unless it comes next in the list and is missing. */
  lemma VersionNamedSecretHides(a: string, rv: string, other: string)
    requires a != rv && NulFree(a) && NulFree(rv) && NulFree(other)
    ensures Collides([a, rv], map[a := rv]) && !Collides([rv, a], map[a := rv])
    ensures other != rv ==> !Collides([a, rv], map[a := rv, rv := other])
  {
    HashCollidesIff([a, rv], map[a := rv]);
    HashCollidesIff([rv, a], map[a := rv]);
    HashCollidesIff([a, rv], map[a := rv, rv := other]);
    assert Swaps([a, rv][0], [a, rv][1], map[a := rv]);
  }

  // ---------- The loop ----------

  /** `observed` is the persisted LastObservedPackageSecretsHash. */
  datatype State = State(names: seq<string>, versions: map<string, string>, observed: Digest)

  /** A reconcile sees some observed hash, possibly an old one; then its status write loses to the optimistic
      lock and does not land. */
  datatype Event =
    | Edit(names: seq<string>, versions: map<string, string>)
    | Reconcile(condition: Option<Condition>, sees: Digest, lands: bool)

  function Hash(s: State): Digest {
    SecretsHash(s.names, s.versions)
  }

  /** The reconcile deletes failing pods. */
  predicate Deletes(s: State, e: Event) {
    e.Reconcile? && IsRecoverableSecretFailure(e.condition) && Hash(s) != NoDigest && Hash(s) != e.sees
  }

  function Step(s: State, e: Event): State {
    match e
    case Edit(names, versions) => s.(names := names, versions := versions)
    case Reconcile(_, _, lands) => if Deletes(s, e) && lands then s.(observed := Hash(s)) else s
  }

  predicate Legal(s: State, e: Event) {
    e.Reconcile? && e.lands ==> e.sees == s.observed
  }

  function Run(s: State, events: seq<Event>): State {
    if events == [] then s else Step(Run(s, events[..|events| - 1]), events[|events| - 1])
  }

  predicate LegalRun(s: State, events: seq<Event>) {
    forall i :: 0 <= i < |events| ==> Legal(Run(s, events[..i]), events[i])
  }

  /** Deletion rounds, edits that change the hash, and rounds whose status write was lost. */
  function Rounds(s: State, events: seq<Event>): nat {
    if events == [] then 0
    else
      var n := |events| - 1;
      Rounds(s, events[..n]) + if Deletes(Run(s, events[..n]), events[n]) then 1 else 0
  }

  function Changes(s: State, events: seq<Event>): nat {
    if events == [] then 0
    else
      var n := |events| - 1;
      Changes(s, events[..n]) + if Hash(Run(s, events[..n])) != Hash(Run(s, events)) then 1 else 0
  }

  function Lost(s: State, events: seq<Event>): nat {
    if events == [] then 0
    else
      var n := |events| - 1;
      Lost(s, events[..n]) + if Deletes(Run(s, events[..n]), events[n]) && !events[n].lands then 1 else 0
  }

  /** The round still owed to the current versions. */
  function Owed(s: State): nat {
    if Hash(s) == s.observed then 0 else 1
  }

  lemma {:induction false} RoundsArePaid(s: State, events: seq<Event>)
    requires LegalRun(s, events)
    ensures Rounds(s, events) + Owed(Run(s, events)) <= Owed(s) + Changes(s, events) + Lost(s, events)
  {
    hide SecretsHash, IsRecoverableSecretFailure;
    if events != [] {
      var n := |events| - 1;
      var before := events[..n];
      assert LegalRun(s, before) by {
        forall i | 0 <= i < n ensures Legal(Run(s, before[..i]), before[i]) {
          assert before[..i] == events[..i];
        }
      }
      assert Legal(Run(s, before), events[n]);
      RoundsArePaid(s, before);
    }
  }

  /** Recovery terminates: every deletion round beyond the first is paid for by a change of the referenced
      Secrets or by a lost status write. With the Secrets fixed and writes landing there is one at most. */
  lemma RecoveryTerminates(s: State, events: seq<Event>)
    requires LegalRun(s, events)
    ensures Rounds(s, events) <= 1 + Changes(s, events) + Lost(s, events)
  {
    RoundsArePaid(s, events);
  }

  /** After a round whose write landed the next round comes only after the hash changed. */
  lemma {:induction false} RoundsAreSeparated(s: State, events: seq<Event>, i: nat, j: nat)
    requires LegalRun(s, events) && i < j < |events|
    requires Deletes(Run(s, events[..i]), events[i]) && events[i].lands
    requires Deletes(Run(s, events[..j]), events[j]) && events[j].lands
    ensures exists k :: i < k <= j && Hash(Run(s, events[..k])) != Hash(Run(s, events[..i]))
  {
    hide SecretsHash, IsRecoverableSecretFailure;
    assert Legal(Run(s, events[..j]), events[j]);
    if forall k :: i < k <= j ==> Hash(Run(s, events[..k])) == Hash(Run(s, events[..i])) {
      ObservedStays(s, events, i, j);
    }
  }

  /** While the hash does not change, the observed hash stays equal to it. */
  lemma {:induction false} ObservedStays(s: State, events: seq<Event>, i: nat, j: nat)
    requires i < j <= |events| && Deletes(Run(s, events[..i]), events[i]) && events[i].lands
    requires forall k :: i < k <= j ==> Hash(Run(s, events[..k])) == Hash(Run(s, events[..i]))
    ensures Run(s, events[..j]).observed == Hash(Run(s, events[..j]))
  {
    hide SecretsHash, IsRecoverableSecretFailure;
    assert events[..j][..j - 1] == events[..j - 1];
    if j > i + 1 {
      ObservedStays(s, events, i, j - 1);
    }
  }

  /** A condition that a Secret edit may cure: False for a missing Secret or key, or for a download or archive error. */
  predicate Curable(c: Option<Condition>) {
    c.Some? && c.value.status == "False" && c.value.reason in {
      "PackageSecretMissing", "PackageSecretKeyMissing", "PackageHTTPError", "PackageTLSVerifyFailed",
      "PackageClientCertInvalid", "PackageFetchFailed", "PackageInvalidArchive"}
  }

  /** Which reconciles of a run delete failing pods, exactly: those under a curable condition, with Secrets referenced
      whose present hash differs from the one they see stamped. One that lands stamps the present hash; every other
      reconcile leaves the state alone. */
  lemma RoundIff(s: State, events: seq<Event>, c: Option<Condition>, sees: Digest, lands: bool)
    ensures var t := Run(s, events);
      var more := events + [Reconcile(c, sees, lands)];
      var round := Curable(c) && t.names != [] && sees != SecretsHash(t.names, t.versions);
      && Rounds(s, more) == Rounds(s, events) + (if round then 1 else 0)
      && Run(s, more) == if round && lands then t.(observed := SecretsHash(t.names, t.versions)) else t
  {
    var more := events + [Reconcile(c, sees, lands)];
    assert more[..|more| - 1] == events;
    hide SecretsHash;
    assert SecretsHash(Run(s, events).names, Run(s, events).versions) == NoDigest <==> Run(s, events).names == [] by {
      HashIsThere(Run(s, events).names, Run(s, events).versions);
    }
  }

  lemma HashIsThere(names: seq<string>, versions: map<string, string>)
    ensures SecretsHash(names, versions) == NoDigest <==> names == []
  {}

  /** Of the verdicts about failing containers exactly the image pulls are left alone: under any other one a landing
      reconcile stamps the present hash whenever Secrets are referenced, and that is a round unless it was stamped. */
  lemma FailedVerdictIsRecovered(s: State, events: seq<Event>, f: Failure)
    requires (exists w :: ClassifyWaiting(w) == Some(f)) || (exists t :: ClassifyTerminated(t) == Some(f))
    ensures var t := Run(s, events);
      var more := events + [Reconcile(Some(Condition("False", f.reason)), t.observed, true)];
      var present := SecretsHash(t.names, t.versions);
      && Run(s, more) == (if f.reason != "PackageImagePullFailed" && t.names != [] then t.(observed := present) else t)
      && (Rounds(s, more) > Rounds(s, events) <==> f.reason != "PackageImagePullFailed" && t.names != [] && t.observed != present)
  {
    OnlyPullsAreUnrecoverable(f);
    RoundIff(s, events, Some(Condition("False", f.reason)), Run(s, events).observed, true);
    hide ClassifyWaiting, ClassifyTerminated, SecretsHash;
  }

  /** Without a failure there is none to recover: a reconcile under no condition, or one that is not False, leaves the
      state as it was and counts no round. */
  lemma HealthyIsLeftAlone(s: State, events: seq<Event>, c: Option<Condition>, sees: Digest, lands: bool)
    requires c.None? || c.value.status != "False"
    ensures var more := events + [Reconcile(c, sees, lands)];
      Run(s, more) == Run(s, events) && Rounds(s, more) == Rounds(s, events)
  {
    RoundIff(s, events, c, sees, lands);
  }

  /** An edit of the packages or of a Secret is no round, and is what the next reconcile sees. */
  lemma EditsAreSeen(s: State, events: seq<Event>, names: seq<string>, versions: map<string, string>)
    ensures var more := events + [Edit(names, versions)];
      && Rounds(s, more) == Rounds(s, events)
      && Run(s, more) == State(names, versions, Run(s, events).observed)
  {
    var more := events + [Edit(names, versions)];
    assert more[..|more| - 1] == events;
    hide SecretsHash;
  }
}

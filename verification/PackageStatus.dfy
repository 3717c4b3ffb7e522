/** The PackagesReady translator: what a node's pods say about the package downloads. */
module PackageStatus {
  import opened Wrappers
  import opened Text
  import opened PodStates
  import opened Sequences
  import opened CurrentReplicaSet

  const FETCH_PREFIX: string := "package-fetch-"

  datatype Failure = Failure(reason: string, detail: string)

  predicate IsFetch(c: ContainerStatus) {
    FETCH_PREFIX <= c.name
  }

  function ClassifyWaiting(w: Option<Waiting>): Option<Failure> {
    if w.None? then None
    else
      var (reason, message) := (w.value.reason, w.value.message);
      if reason == "CreateContainerConfigError" then
        if "secret \"" <= message then Some(Failure("PackageSecretMissing", message))
        else if "couldn't find key" <= message then Some(Failure("PackageSecretKeyMissing", message))
        else Some(Failure("PackageFetchFailed", "CreateContainerConfigError: " + message))
      else if reason == "ImagePullBackOff" || reason == "ErrImagePull" then
        Some(Failure("PackageImagePullFailed", reason + ": " + message))
      else None
  }

  function ClassifyTerminated(t: Option<Terminated>): Option<Failure> {
    if t.None? || t.value.exitCode == 0 then None
    else
      var code := t.value.exitCode;
      var exited := "exited " + Itoa(code);
      if code == 60 then Some(Failure("PackageTLSVerifyFailed", exited + " (TLS verify failed)"))
      else if code == 58 || code == 82 then
        Some(Failure("PackageClientCertInvalid", exited + " (client cert / TLS engine error)"))
      else if code == 22 then Some(Failure("PackageHTTPError", exited + " (HTTP 4xx/5xx)"))
      else if code == 100 then
        Some(Failure("PackageInvalidArchive", exited + " (unzip failed; downloaded artifact is not a valid ZIP)"))
      else Some(Failure("PackageFetchFailed", exited))
  }

  function ClassifyInit(c: ContainerStatus): Option<Failure> {
    var w, t := ClassifyWaiting(c.state.waiting), ClassifyTerminated(c.state.terminated);
    if w.Some? then w
    else if t.Some? then t
    else if c.restartCount > 0 then ClassifyTerminated(c.last.terminated)
    else None
  }

  predicate ExitedZero(c: ContainerStatus) {
    c.state.terminated.Some? && c.state.terminated.value.exitCode == 0
  }

  /** What the translator takes from one init container. */
  datatype Seen = Seen(name: string, failure: Option<Failure>, succeeded: bool)

  function Look(c: ContainerStatus): Seen {
    Seen(c.name, ClassifyInit(c), ExitedZero(c))
  }

  /** The fetch containers of one pod, in order. */
  function Looks(inits: seq<ContainerStatus>): (r: seq<Seen>)
    ensures forall x :: x in r <==> exists c :: c in inits && IsFetch(c) && x == Look(c)
  {
    if inits == [] then []
    else
      var c, before := inits[|inits| - 1], inits[..|inits| - 1];
      assert inits == before + [c];
      Looks(before) + (if IsFetch(c) then [Look(c)] else [])
  }

  /** The fetch containers of a list of pods, in order. */
  function Report(pods: seq<Pod>): (r: seq<Seen>)
    ensures forall x :: x in r <==> exists p :: p in pods && x in Looks(p.inits)
  {
    if pods == [] then []
    else
      var p, before := pods[|pods| - 1], pods[..|pods| - 1];
      assert pods == before + [p];
      Report(before) + Looks(p.inits)
  }

  /** Failed carries the container's name, of which the message's index and URL are functions. */
  datatype Verdict = Unset | Failed(name: string, failure: Failure) | Fetched(count: nat)

  /** The verdict once one more container has been looked at. */
  function Weigh(v: Verdict, x: Seen): Verdict {
    if v.Failed? then v
    else if x.failure.Some? then Failed(x.name, x.failure.value)
    else if !x.succeeded then v
    else if v.Fetched? then Fetched(v.count + 1)
    else Fetched(1)
  }

  function Conclude(r: seq<Seen>): (v: Verdict)
    ensures v.Failed? <==> exists x :: x in r && x.failure.Some?
    ensures v.Fetched? ==> v.count > 0
    ensures v.Unset? <==> forall x :: x in r ==> x.failure.None? && !x.succeeded
  {
    if r == [] then Unset
    else
      assert r == r[..|r| - 1] + [r[|r| - 1]];
      Weigh(Conclude(r[..|r| - 1]), r[|r| - 1])
  }

  lemma {:induction false} FailureSticks(r: seq<Seen>, s: seq<Seen>)
    requires r <= s && Conclude(r).Failed?
    ensures Conclude(s) == Conclude(r)
  {
    if r != s {
      FailureSticks(r, s[..|s| - 1]);
    }
  }

  /** A failed verdict names the first failing container of the report, and a True verdict counts the clean exits. */
  lemma {:induction false} ConcludeIsFirst(r: seq<Seen>, k: nat)
    requires k < |r| && r[k].failure.Some? && forall i :: 0 <= i < k ==> r[i].failure.None?
    ensures Conclude(r) == Failed(r[k].name, r[k].failure.value)
  {
    var head := r[..k + 1];
    assert head[..k] == r[..k];
    assert !Conclude(r[..k]).Failed?;
    FailureSticks(head, r);
  }

  /** podsMatchingPackagesHash. */
  function Matching(pods: seq<Pod>, hash: string): (r: seq<Pod>)
    ensures forall p :: p in r <==> hash != "" && p in pods && p.packagesHash == hash
  {
    if pods == [] || hash == "" then []
    else
      var p := pods[|pods| - 1];
      assert pods == pods[..|pods| - 1] + [p];
      Matching(pods[..|pods| - 1], hash) + (if p.packagesHash == hash then [p] else [])
  }

  /** The containers a verdict is about: fetch containers of live pods of the newest matching ReplicaSet. */
  ghost function Evidence(pods: seq<Pod>, hash: string): seq<Seen> {
    Report(Current(Matching(pods, hash)))
  }

  method PodsMatchingHash(pods: seq<Pod>, hash: string) returns (out: seq<Pod>)
    ensures out == Matching(pods, hash)
  {
    if hash == "" {
      return [];
    }
    out := [];
    for i := 0 to |pods|
      invariant out == Matching(pods[..i], hash)
    {
      assert pods[..i + 1][..i] == pods[..i];
      if pods[i].packagesHash == hash {
        out := out + [pods[i]];
      }
    }
    assert pods[..|pods|] == pods;
  }

  method TranslatePackagesReady(pods: seq<Pod>, hash: string) returns (v: Verdict)
    ensures v == Conclude(Evidence(pods, hash))
  {
    hide Current, Matching, ClassifyInit, ExitedZero, IsFetch, Report, Looks, Conclude, Tally;
    NothingToSee();
    var matching := PodsMatchingHash(pods, hash);
    if |matching| == 0 {
      return Unset;
    }
    var current := CurrentReplicaSetPods(matching);
    if |current| == 0 {
      return Unset;
    }
    var successCount := 0;
    var sawAny := false;
    for i := 0 to |current|
      invariant Tally(Report(current[..i]), successCount, sawAny)
    {
      var inits := current[i].inits;
      ghost var before := Report(current[..i]);
      assert before + [] == before && inits[..0] == [];
      for j := 0 to |inits|
        invariant Tally(before + Looks(inits[..j]), successCount, sawAny)
      {
        var c := inits[j];
        OneMoreLook(current, i, j);
        ghost var r := before + Looks(inits[..j]);
        if !IsFetch(c) {
          assert r + [] == r;
          continue;
        }
        TallyStep(r, Look(c), successCount, sawAny);
        sawAny := true;
        var f := ClassifyInit(c);
        if f.Some? {
          FailureSticks(r + [Look(c)], Report(current));
          return Failed(c.name, f.value);
        }
        if ExitedZero(c) {
          successCount := successCount + 1;
        }
      }
      assert inits[..|inits|] == inits;
      ReportIsPrefix(current, i);
    }
    assert current[..|current|] == current;
    TallyEnds(Report(current), successCount, sawAny);
    if !sawAny {
      return Unset;
    }
    if successCount == 0 {
      return Unset;
    }
    return Fetched(successCount);
  }

  /** The loop counters agree with the verdict so far, which is no failure. */
  ghost predicate Tally(r: seq<Seen>, successes: nat, sawAny: bool) {
    && (sawAny <==> r != [])
    && Conclude(r) == if successes > 0 then Fetched(successes) else Unset
  }

  lemma TallyStep(r: seq<Seen>, x: Seen, successes: nat, sawAny: bool)
    requires Tally(r, successes, sawAny)
    ensures x.failure.Some? ==> Conclude(r + [x]) == Failed(x.name, x.failure.value)
    ensures x.failure.None? ==> Tally(r + [x], if x.succeeded then successes + 1 else successes, true)
  {
    assert (r + [x])[..|r|] == r;
  }

  lemma TallyEnds(r: seq<Seen>, successes: nat, sawAny: bool)
    requires Tally(r, successes, sawAny)
    ensures Conclude(r) == if sawAny && successes > 0 then Fetched(successes) else Unset
  {}

  lemma NothingToSee()
    ensures Current([]) == [] && Report([]) == [] && Looks([]) == []
    ensures Conclude([]) == Unset && Tally([], 0, false)
  {
    UidsOfNone();
  }

  lemma OneMoreLook(pods: seq<Pod>, i: nat, j: nat)
    requires i < |pods| && j < |pods[i].inits|
    ensures var inits := pods[i].inits;
      var c, next := inits[j], Report(pods[..i]) + Looks(inits[..j + 1]);
      next == Report(pods[..i]) + Looks(inits[..j]) + (if IsFetch(c) then [Look(c)] else []) && next <= Report(pods)
  {
    var inits := pods[i].inits;
    assert inits[..j + 1][..j] == inits[..j];
    LooksIsPrefix(inits, j + 1);
    ReportIsPrefix(pods, i);
  }

  lemma {:induction false} LooksIsPrefix(inits: seq<ContainerStatus>, j: nat)
    requires j <= |inits|
    ensures Looks(inits[..j]) <= Looks(inits)
    decreases |inits| - j
  {
    if j < |inits| {
      assert inits[..j + 1][..j] == inits[..j];
      LooksIsPrefix(inits, j + 1);
    } else {
      assert inits[..j] == inits;
    }
  }

  lemma {:induction false} ReportIsPrefix(pods: seq<Pod>, i: nat)
    requires i < |pods|
    ensures Report(pods[..i + 1]) == Report(pods[..i]) + Looks(pods[i].inits)
    ensures Report(pods[..i + 1]) <= Report(pods)
    decreases |pods| - i
  {
    assert pods[..i + 1][..i] == pods[..i];
    if i + 1 < |pods| {
      ReportIsPrefix(pods, i + 1);
    } else {
      assert pods[..i + 1] == pods;
    }
  }

  // ---------- What a verdict means ----------

  /** A pod the translator listens to: live, of the expected hash, owned by the leading ReplicaSet. */
  ghost predicate Counts(pods: seq<Pod>, hash: string, p: Pod) {
    && p in pods && hash != "" && p.packagesHash == hash
    && var m := Matching(pods, hash);
      exists w :: OwnerOf(p) == Some(w) && Leads(m, Uids(m), w)
  }

  lemma CountsIsCurrent(pods: seq<Pod>, hash: string, p: Pod)
    ensures p in Current(Matching(pods, hash)) <==> Counts(pods, hash, p)
  {
    hide PodsOf, Precedes, Newest;
    var m := Matching(pods, hash);
    if Uids(m) != {} {
      var x := LeaderExists(m, Uids(m));
      CurrentIs(m, x);
      forall w | Leads(m, Uids(m), w) ensures w == x { LeaderIsUnique(m, Uids(m), w, x); }
    } else {
      CurrentOfNone(m);
    }
  }

  /** The container has finished, with exit code zero. */
  predicate EndedWell(c: ContainerStatus) {
    c.state.terminated.Some? && c.state.terminated.value.exitCode == 0
  }

  /** PackagesReady turns True exactly when no fetch container of a counting pod is a classified failure and
      at least one has exited zero; it turns False exactly when one is. */
  lemma VerdictMeaning(pods: seq<Pod>, hash: string)
    ensures var v := Conclude(Evidence(pods, hash));
      && (v.Failed? <==>
           exists p, c :: Counts(pods, hash, p) && c in p.inits && IsFetch(c) && ClassifyInit(c).Some?)
      && (v.Fetched? <==>
           && (forall p, c :: Counts(pods, hash, p) && c in p.inits && IsFetch(c) ==> ClassifyInit(c).None?)
           && (exists p, c :: Counts(pods, hash, p) && c in p.inits && IsFetch(c) && EndedWell(c)))
  {
    hide Current, Matching, ClassifyInit, Counts;
    assert forall c :: ExitedZero(c) <==> EndedWell(c);
    hide ExitedZero, EndedWell;
    forall p ensures p in Current(Matching(pods, hash)) <==> Counts(pods, hash, p) { CountsIsCurrent(pods, hash, p); }
    var r := Evidence(pods, hash);
    forall p, c | Counts(pods, hash, p) && c in p.inits && IsFetch(c) ensures Look(c) in r {
      assert Look(c) in Looks(p.inits);
    }
    forall x | x in r
      ensures exists p, c :: Counts(pods, hash, p) && c in p.inits && IsFetch(c) && x == Look(c)
    {
      var p :| p in Current(Matching(pods, hash)) && x in Looks(p.inits);
      var c :| c in p.inits && IsFetch(c) && x == Look(c);
    }
  }

  // ---------- What a verdict does not depend on ----------

  lemma {:induction false} MatchingOfConcat(a: seq<Pod>, b: seq<Pod>, hash: string)
    ensures Matching(a + b, hash) == Matching(a, hash) + Matching(b, hash)
  {
    if b == [] {
      assert a + b == a;
    } else {
      assert (a + b)[..|a + b| - 1] == a + b[..|b| - 1];
      MatchingOfConcat(a, b[..|b| - 1], hash);
    }
  }

  lemma {:induction false} PodsOfConcat(a: seq<Pod>, b: seq<Pod>, u: string)
    ensures PodsOf(a + b, u) == PodsOf(a, u) + PodsOf(b, u)
  {
    if b == [] {
      assert a + b == a;
    } else {
      assert (a + b)[..|a + b| - 1] == a + b[..|b| - 1];
      PodsOfConcat(a, b[..|b| - 1], u);
    }
  }

  lemma {:induction false} NewestIsReached(pods: seq<Pod>, bound: nat)
    requires forall p :: p in pods ==> p.created <= bound
    ensures Newest(pods) <= bound
  {
    if pods != [] {
      assert pods[|pods| - 1] in pods;
      NewestIsReached(pods[..|pods| - 1], bound);
    }
  }

  /** Taking out a pod whose ReplicaSet does not lead changes no choice. */
  lemma NonLeadingPod(pre: seq<Pod>, p: Pod, post: seq<Pod>, w: string)
    requires var m := pre + [p] + post; Leads(m, Uids(m), w) && OwnerOf(p) != Some(w)
    ensures Current(pre + post) == Current(pre + [p] + post)
  {
    hide PodsOf, Newest, Current, OwnerOf;
    var m, n := pre + [p] + post, pre + post;
    forall u ensures PodsOf(m, u) == PodsOf(pre, u) + PodsOf([p], u) + PodsOf(post, u)
      && PodsOf(n, u) == PodsOf(pre, u) + PodsOf(post, u)
    {
      PodsOfConcat(pre + [p], post, u);
      PodsOfConcat(pre, [p], u);
      PodsOfConcat(pre, post, u);
    }
    NoMembers(PodsOf([p], w));
    assert PodsOf(n, w) == PodsOf(m, w);
    forall v | v in Uids(n) && v != w ensures Precedes(n, w, v) {
      assert PodsOf(n, v)[0] in PodsOf(m, v);
      assert v in Uids(m);
      assert Precedes(m, w, v);
      NewestIsReached(PodsOf(n, v), Newest(PodsOf(m, v)));
    }
    assert Leads(n, Uids(n), w);
    CurrentIs(n, w);
    CurrentIs(m, w);
  }

  lemma MatchingAround(pre: seq<Pod>, p: Pod, post: seq<Pod>, hash: string)
    ensures Matching(pre + [p] + post, hash) ==
      Matching(pre, hash) + (if hash != "" && p.packagesHash == hash then [p] else []) + Matching(post, hash)
    ensures Matching(pre + post, hash) == Matching(pre, hash) + Matching(post, hash)
  {
    MatchingOfConcat(pre + [p], post, hash);
    MatchingOfConcat(pre, [p], hash);
    MatchingOfConcat(pre, post, hash);
    assert [p][..0] == [];
    NoMembers(Matching([], hash));
  }

  lemma CountsMeans(pods: seq<Pod>, hash: string, p: Pod, w: string)
    requires p in pods && hash != "" && p.packagesHash == hash && !Counts(pods, hash, p)
    requires var m := Matching(pods, hash); Leads(m, Uids(m), w)
    ensures OwnerOf(p) != Some(w)
  {
    hide OwnerOf, Matching;
  }

  /** Pods that do not count could as well not exist: a deleted pod, one of another hash, one without a
      ReplicaSet or of an older one leaves the evidence, hence the verdict, as it was. */
  lemma OtherPodsDoNotMatter(pre: seq<Pod>, p: Pod, post: seq<Pod>, hash: string)
    requires !Counts(pre + [p] + post, hash, p)
    ensures Evidence(pre + [p] + post, hash) == Evidence(pre + post, hash)
  {
    hide PodsOf, Newest, Current, OwnerOf, Report, Matching, Counts, Leads, Uids;
    var a, b := Matching(pre, hash), Matching(post, hash);
    MatchingAround(pre, p, post, hash);
    if hash == "" || p.packagesHash != hash {
      assert a + [] + b == a + b;
    } else {
      var m := a + [p] + b;
      assert p in pre + [p] + post;
      if Uids(m) == {} {
        UidsShrink(a, p, b);
        CurrentOfNone(m);
        CurrentOfNone(a + b);
      } else {
        var w := LeaderExists(m, Uids(m));
        CountsMeans(pre + [p] + post, hash, p, w);
        NonLeadingPod(a, p, b, w);
      }
    }
  }

  lemma UidsShrink(pre: seq<Pod>, p: Pod, post: seq<Pod>)
    ensures Uids(pre + post) <= Uids(pre + [p] + post)
  {
    hide PodsOf;
    forall u | u in Uids(pre + post) ensures u in Uids(pre + [p] + post) {
      PodsOfConcat(pre + [p], post, u);
      PodsOfConcat(pre, [p], u);
      PodsOfConcat(pre, post, u);
    }
  }

  // ---------- What a failure means ----------

  /** The exit code that counts: of the finished container, or of the last run of one that was restarted. */
  predicate ExitedWith(c: ContainerStatus, code: int) {
    if c.state.terminated.Some? && c.state.terminated.value.exitCode != 0 then c.state.terminated.value.exitCode == code
    else c.restartCount > 0 && c.last.terminated.Some? && c.last.terminated.value.exitCode == code
  }

  /** The kubelet refuses to start the container for this reason. */
  predicate WaitsFor(c: ContainerStatus, reason: string) {
    c.state.waiting.Some? && c.state.waiting.value.reason == reason
  }

  predicate WaitsForGood(c: ContainerStatus) {
    WaitsFor(c, "CreateContainerConfigError") || WaitsFor(c, "ImagePullBackOff") || WaitsFor(c, "ErrImagePull")
  }

  /** A container fails exactly when it waits for good, or has exited with a code other than zero, now or before its
      last restart. */
  lemma FailsIff(c: ContainerStatus)
    ensures ClassifyInit(c).Some? <==> WaitsForGood(c) || exists code :: code != 0 && ExitedWith(c, code)
  {
    if c.state.terminated.Some? { assert ExitedWith(c, c.state.terminated.value.exitCode) || c.state.terminated.value.exitCode == 0; }
    if c.restartCount > 0 && c.last.terminated.Some? && ClassifyInit(c).Some? && !WaitsForGood(c) {
      assert exists code :: code != 0 && ExitedWith(c, code) by {
        var code := if c.state.terminated.Some? && c.state.terminated.value.exitCode != 0
          then c.state.terminated.value.exitCode else c.last.terminated.value.exitCode;
        assert ExitedWith(c, code);
      }
    }
  }

  /** A failure that waits is told by the kubelet's message, whatever the exit codes. */
  lemma WaitingReason(c: ContainerStatus)
    requires WaitsForGood(c)
    ensures var f, message := ClassifyInit(c).value, c.state.waiting.value.message;
      if WaitsFor(c, "CreateContainerConfigError") then
        && (f.reason == "PackageSecretMissing" <==> "secret \"" <= message)
        && (f.reason == "PackageSecretKeyMissing" <==> "couldn't find key" <= message)
        && (f.reason in {"PackageSecretMissing", "PackageSecretKeyMissing"} ==> f.detail == message)
        && (f.reason !in {"PackageSecretMissing", "PackageSecretKeyMissing"} ==>
              f == Failure("PackageFetchFailed", "CreateContainerConfigError: " + message))
      else f == Failure("PackageImagePullFailed", c.state.waiting.value.reason + ": " + message)
  {
    var message := c.state.waiting.value.message;
    assert !("secret \"" <= message && "couldn't find key" <= message) by {
      if "secret \"" <= message { assert message[0] == 's'; }
    }
  }

  /** What the detail adds to the exit codes of curl and unzip that it knows. */
  function Hint(code: int): string {
    match code
    case 60 => " (TLS verify failed)"
    case 58 => " (client cert / TLS engine error)"
    case 82 => " (client cert / TLS engine error)"
    case 22 => " (HTTP 4xx/5xx)"
    case 100 => " (unzip failed; downloaded artifact is not a valid ZIP)"
    case _ => ""
  }

  /** Any other failure is told by the exit code: each reason stands for its codes, and the detail names the code. */
  lemma ExitReason(c: ContainerStatus, code: int)
    requires !WaitsForGood(c) && code != 0 && ExitedWith(c, code)
    ensures ClassifyInit(c).Some?
    ensures var f := ClassifyInit(c).value;
      && (f.reason == "PackageTLSVerifyFailed" <==> code == 60)
      && (f.reason == "PackageClientCertInvalid" <==> code == 58 || code == 82)
      && (f.reason == "PackageHTTPError" <==> code == 22)
      && (f.reason == "PackageInvalidArchive" <==> code == 100)
      && (f.reason == "PackageFetchFailed" <==> code !in {60, 58, 82, 22, 100})
      && f.detail == "exited " + Itoa(code) + Hint(code)
  {
    var t := if c.state.terminated.Some? && c.state.terminated.value.exitCode != 0 then c.state.terminated else c.last.terminated;
    assert t.Some? && t.value.exitCode == code;
    TerminatedReason(t.value);
    TerminatedDetail(t.value);
    assert ClassifyWaiting(c.state.waiting).None?;
    hide ClassifyTerminated, Itoa, ClassifyWaiting;
  }

  lemma TerminatedReason(t: Terminated)
    requires t.exitCode != 0
    ensures ClassifyTerminated(Some(t)).Some?
    ensures var r := ClassifyTerminated(Some(t)).value.reason;
      && (r == "PackageTLSVerifyFailed" <==> t.exitCode == 60)
      && (r == "PackageClientCertInvalid" <==> t.exitCode == 58 || t.exitCode == 82)
      && (r == "PackageHTTPError" <==> t.exitCode == 22)
      && (r == "PackageInvalidArchive" <==> t.exitCode == 100)
      && (r == "PackageFetchFailed" <==> t.exitCode !in {60, 58, 82, 22, 100})
  {
    hide Itoa;
  }

  lemma TerminatedDetail(t: Terminated)
    requires t.exitCode != 0
    ensures ClassifyTerminated(Some(t)).value.detail == "exited " + Itoa(t.exitCode) + Hint(t.exitCode)
  {
    hide Itoa;
  }

  /** The verdict over it all: a failed verdict is about a counting pod's fetch container of that name, with that
      container's failure, and no fetch container that stands before it in any counting pod's turn fails. */
  lemma FailedVerdictMeaning(pods: seq<Pod>, hash: string)
    requires Conclude(Evidence(pods, hash)).Failed?
    ensures var v := Conclude(Evidence(pods, hash));
      exists p, c :: Counts(pods, hash, p) && c in p.inits && IsFetch(c) && c.name == v.name && ClassifyInit(c) == Some(v.failure)
  {
    hide Current, Matching, ClassifyInit, Counts, ExitedZero;
    var r := Evidence(pods, hash);
    FailedIsSeen(r);
    var v := Conclude(r);
    var x :| x in r && x.failure == Some(v.failure) && x.name == v.name;
    var p :| p in Current(Matching(pods, hash)) && x in Looks(p.inits);
    CountsIsCurrent(pods, hash, p);
    var c :| c in p.inits && IsFetch(c) && x == Look(c);
  }

  lemma {:induction false} FailedIsSeen(r: seq<Seen>)
    requires Conclude(r).Failed?
    ensures exists x :: x in r && x.failure == Some(Conclude(r).failure) && x.name == Conclude(r).name
  {
    var before, last := r[..|r| - 1], r[|r| - 1];
    assert r == before + [last];
    if Conclude(before).Failed? {
      FailedIsSeen(before);
    }
  }

  /** A True verdict counts the fetch containers seen that exited zero. */
  lemma {:induction false} FetchedCounts(r: seq<Seen>)
    requires forall x :: x in r ==> x.failure.None?
    ensures var n := |Filter(r, Succeeds)|; Conclude(r) == if n == 0 then Unset else Fetched(n)
  {
    if r != [] {
      var before, last := r[..|r| - 1], r[|r| - 1];
      assert r == before + [last];
      FetchedCounts(before);
    }
  }

  predicate Succeeds(x: Seen) {
    x.succeeded
  }
}

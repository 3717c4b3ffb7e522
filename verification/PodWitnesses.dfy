/** Pod updates that the package watch drops although a verdict changes: each breaks one condition of
    `PodWatches.DroppedPackageUpdate`, or changes the share or the wording that it leaves open. */
module PodWitnesses {
  import opened Wrappers
  import opened Text
  import opened PodStates
  import opened PodMessages
  import opened Sequences
  import opened CurrentReplicaSet
  import opened PackageStatus
  import opened PodSignature
  import opened PodWatches

  // ---------- One pod ----------

  lemma MatchingOfOne(p: Pod, hash: string)
    ensures Matching([p], hash) == if hash != "" && p.packagesHash == hash then [p] else []
  {
    assert [p][..0] == [];
    NoMembers(Matching([], hash));
  }

  lemma PodsOfOne(p: Pod, u: string)
    ensures PodsOf([p], u) == if OwnerOf(p) == Some(u) then [p] else []
  {
    assert [p][..0] == [];
    NoMembers(PodsOf([], u));
  }

  /** The one live pod leads. */
  lemma OnePodLeads(p: Pod, u: string)
    requires OwnerOf(p) == Some(u)
    ensures Leads([p], Uids([p]), u) && Current([p]) == [p]
  {
    hide PodsOf, Current, Precedes, Newest, OwnerOf;
    forall v ensures PodsOf([p], v) == if v == u then [p] else [] { PodsOfOne(p, v); }
    assert Uids([p]) == {u};
    CurrentIs([p], u);
  }

  lemma ReportOfOne(p: Pod)
    ensures Report([p]) == Looks(p.inits)
  {
    assert [p][..0] == [];
    NoMembers(Report([]));
  }

  /** The verdict over one live pod is the verdict over its own containers. */
  lemma OneLivePod(p: Pod, u: string, hash: string)
    requires OwnerOf(p) == Some(u) && p.packagesHash == hash != ""
    ensures Conclude(Evidence([p], hash)) == Conclude(Looks(p.inits))
  {
    hide Matching, Report, Current, Looks, Conclude, OwnerOf;
    MatchingOfOne(p, hash);
    OnePodLeads(p, u);
    ReportOfOne(p);
  }

  /** A pod that does not count, or has no fetch container, leaves the verdict unset. */
  lemma NoVerdict(p: Pod, hash: string)
    requires OwnerOf(p).None? || p.packagesHash != hash || Looks(p.inits) == []
    ensures Conclude(Evidence([p], hash)) == Unset
  {
    hide PodsOf, Matching, Report, Current, Looks, Precedes, Newest, OwnerOf;
    var c := Current(Matching([p], hash));
    forall q | q in c ensures Looks(q.inits) == [] { CountsIsCurrent([p], hash, q); }
    NoMembers(Report(c));
  }

  // ---------- Dropped updates of PackagesReady ----------

  /** A list of quiet statuses compared with one holding the same statuses goes unnoticed. */
  lemma QuietUpdate(old_: Pod, new_: Pod)
    requires UniqueNames(old_.inits) && forall c :: c in new_.inits ==> c in old_.inits
    requires forall c :: c in old_.inits ==> !Fails(c, true)
    requires old_.containers == new_.containers
    ensures !PackageWatch(old_, new_)
  {
    hide Fails, UniqueNames;
    NoMembers(Entries(old_.inits, true));
    NoMembers(Entries(new_.inits, true));
    forall c | c in new_.inits ensures c.name in IndexByName(old_.inits) && EqualStatus(IndexByName(old_.inits)[c.name], c) {
      var k :| 0 <= k < |old_.inits| && old_.inits[k] == c;
      IndexIsExact(old_.inits, k);
    }
  }

  /** The watch does not look at the deletion stamp, the owners or the hash: a change of theirs that takes a pod out
      of the count goes unnoticed, whatever the pod's containers say. */
  lemma MetadataChangesAreDropped(p: Pod, deleting: bool, owners: seq<OwnerRef>, hash: string, newHash: string)
    requires UniqueNames(p.inits) && Conclude(Evidence([p], hash)) != Unset
    requires var q := p.(deleting := deleting, owners := owners, packagesHash := newHash);
      OwnerOf(q).None? || newHash != hash
    ensures var q := p.(deleting := deleting, owners := owners, packagesHash := newHash);
      !PackageWatch(p, q) && Conclude(Evidence([q], hash)) == Unset
  {
    hide UniqueNames, Evidence, Conclude, OwnerOf;
    var q := p.(deleting := deleting, owners := owners, packagesHash := newHash);
    NoVerdict(q, hash);
    forall c | c in q.inits ensures c.name in IndexByName(p.inits) && EqualStatus(IndexByName(p.inits)[c.name], c) {
      var k :| 0 <= k < |p.inits| && p.inits[k] == c;
      IndexIsExact(p.inits, k);
    }
  }

  /** A revision without the managed-by label goes unnoticed whatever its containers say, and still counts. */
  lemma UnlabelledUpdatesAreDropped(p: Pod, q: Pod, u: string, hash: string)
    requires OwnerOf(p) == Some(u) && p.packagesHash == hash != ""
    requires SameMetadata(p, q) && !q.managed
    ensures !PackageWatch(p, q)
    ensures Conclude(Evidence([p], hash)) == OwnVerdict(p) && Conclude(Evidence([q], hash)) == OwnVerdict(q)
  {
    SameOwner(p, q);
    hide OwnerOf, Evidence, Conclude, Looks;
    OneLivePod(p, u, hash);
    OneLivePod(q, u, hash);
  }

  /** Finished fetches that disappear from the status list go unnoticed. */
  lemma VanishedFetchesAreDropped(p: Pod, hash: string)
    requires UniqueNames(p.inits) && Conclude(Evidence([p], hash)) != Unset
    requires forall c :: c in p.inits ==> !Fails(c, true)
    ensures var q := p.(inits := []);
      !PackageWatch(p, q) && Conclude(Evidence([q], hash)) == Unset
  {
    hide UniqueNames, Evidence, Conclude, PackageWatch;
    var q := p.(inits := []);
    QuietUpdate(p, q);
    NoMembers(Looks(q.inits));
    NoVerdict(q, hash);
  }

  // ---------- Order ----------

  function Exit(code: int): ContainerState {
    ContainerState(None, None, Some(Terminated(code, "", "")))
  }

  /** Runs now, after one earlier failure. */
  function Restarted(name: string, code: int): ContainerStatus {
    ContainerStatus(name, "", ContainerState(None, Some(7), None), Exit(code), 1)
  }

  lemma LooksOfTwo(a: ContainerStatus, b: ContainerStatus)
    requires IsFetch(a) && IsFetch(b) && ClassifyInit(a).Some?
    ensures Conclude(Looks([a, b])) == Failed(a.name, ClassifyInit(a).value)
  {
    hide ClassifyInit, Conclude;
    assert [a, b][..1] == [a] && [a][..0] == [];
    NoMembers(Looks([]));
    assert Looks([a]) == [] + [Look(a)];
    assert Looks([a, b]) == [Look(a)] + [Look(b)] == [Look(a), Look(b)];
    ConcludeIsFirst([Look(a), Look(b)], 0);
  }

  lemma RestartedFails(suffix: string, code: int)
    requires code != 0
    ensures var c := Restarted(FETCH_PREFIX + suffix, code);
      IsFetch(c) && !Fails(c, true) && ClassifyInit(c).Some? && c.name == FETCH_PREFIX + suffix
  {}

  /** In every counting pod two failing fetches may swap places unnoticed: the same failures, but the first one is
      reported. */
  lemma ReorderedFetchesAreDropped(p: Pod, u: string, hash: string, i: string, j: string, x: int, y: int)
    requires OwnerOf(p) == Some(u) && p.packagesHash == hash != "" && i != j && x != 0 && y != 0
    ensures var a, b := Restarted(FETCH_PREFIX + i, x), Restarted(FETCH_PREFIX + j, y);
      var old_, new_ := p.(inits := [a, b]), p.(inits := [b, a]);
      && ClassifyInit(a).Some? && ClassifyInit(b).Some? && a.name != b.name
      && !PackageWatch(old_, new_)
      && Conclude(Evidence([old_], hash)) == Failed(a.name, ClassifyInit(a).value)
      && Conclude(Evidence([new_], hash)) == Failed(b.name, ClassifyInit(b).value)
  {
    hide Evidence, Conclude, PackageWatch, ClassifyInit, Fails, IsFetch, Restarted;
    var a, b := Restarted(FETCH_PREFIX + i, x), Restarted(FETCH_PREFIX + j, y);
    RestartedFails(i, x);
    RestartedFails(j, y);
    assert a.name[|FETCH_PREFIX|..] == i && b.name[|FETCH_PREFIX|..] == j;
    QuietUpdate(p.(inits := [a, b]), p.(inits := [b, a]));
    OneLivePod(p.(inits := [a, b]), u, hash);
    OneLivePod(p.(inits := [b, a]), u, hash);
    LooksOfTwo(a, b);
    LooksOfTwo(b, a);
  }

  // ---------- The wording of Degraded ----------

  /** A container in its crash loop, which last ended with this code and left no message. */
  function Crashing(name: string, image: string, code: int): ContainerStatus {
    ContainerStatus(name, image, ContainerState(Some(Waiting("CrashLoopBackOff", "")), None, None), Exit(code), 1)
  }

  lemma CrashingEntry(name: string, image: string, code: int)
    ensures var c := Crashing(name, image, code);
      Entries([c], false) == [Entry(name, "CrashLoopBackOff", "CrashLoopBackOff (exit " + Itoa(code) + ")")]
  {
    var c := Crashing(name, image, code);
    assert [c][..0] == [] && Entries([], false) == [];
    assert !PullReason("CrashLoopBackOff");
  }

  /** In every live pod without failing init containers the last exit of a crash-looping container may change
      unnoticed while the Degraded message names it. */
  lemma CrashDetailIsDropped(p: Pod, u: string, name: string, image: string, x: int, y: int)
    requires OwnerOf(p) == Some(u) && UniqueNames(p.inits) && x != y
    requires forall c :: c in p.inits ==> !Fails(c, true)
    ensures var old_, new_ := p.(containers := [Crashing(name, image, x)]), p.(containers := [Crashing(name, image, y)]);
      && !PackageWatch(old_, new_)
      && Degradation([old_]).Some? && Degradation([new_]).Some? && Degradation([old_]) != Degradation([new_])
  {
    hide Entries, UniqueNames, Fails, OwnerOf, Crashing, Current, Message;
    var old_, new_ := p.(containers := [Crashing(name, image, x)]), p.(containers := [Crashing(name, image, y)]);
    CrashingEntry(name, image, x);
    CrashingEntry(name, image, y);
    NoMembers(Entries(p.inits, true));
    RenderOfSame(Entries(old_.containers, false), Entries(new_.containers, false));
    forall c | c in p.inits ensures c.name in IndexByName(p.inits) && EqualStatus(IndexByName(p.inits)[c.name], c) {
      var k :| 0 <= k < |p.inits| && p.inits[k] == c;
      IndexIsExact(p.inits, k);
    }
    SameOwner(p, old_);
    SameOwner(p, new_);
    OneBlame(old_, u);
    OneBlame(new_, u);
    var a, b := FirstBlame(old_).value, FirstBlame(new_).value;
    SameWording(a, b);
    DifferentExits(x, y);
  }

  lemma DifferentExits(x: int, y: int)
    requires x != y
    ensures "CrashLoopBackOff (exit " + Itoa(x) + ")" != "CrashLoopBackOff (exit " + Itoa(y) + ")"
  {
    var head := "CrashLoopBackOff (exit ";
    var a, b := head + Itoa(x) + ")", head + Itoa(y) + ")";
    assert a[|head|..|a| - 1] == Itoa(x) && b[|head|..|b| - 1] == Itoa(y);
    if Itoa(x) == Itoa(y) { ItoaInjective(x, y); }
  }

  lemma OneBlame(p: Pod, u: string)
    requires OwnerOf(p) == Some(u) && FirstBlame(p).Some?
    ensures Degradation([p]) == Some(Message(FirstBlame(p).value))
  {
    hide FirstBlame, OwnerOf, Current;
    OnePodLeads(p, u);
    assert [p][..0] == [] && PodFailure([]) == None;
  }
}

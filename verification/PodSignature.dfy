/** The failure signature of a pod, its parse, and the pod-failure translator it stands for. */
module PodSignature {
  import opened Wrappers
  import opened Text
  import opened Framing
  import opened PodStates
  import opened CurrentReplicaSet
  import opened PackageStatus
  import opened PodMessages

  predicate PullReason(r: string) {
    || r == "ImagePullBackOff" || r == "ErrImagePull" || r == "ErrImageNeverPull"
    || r == "InvalidImageName" || r == "RegistryUnavailable"
  }

  predicate HardReason(r: string) {
    || PullReason(r)
    || r == "CreateContainerConfigError" || r == "CreateContainerError"
    || r == "RunContainerError" || r == "CrashLoopBackOff"
  }

  /** Whether classifyContainerFailure finds a failure. */
  predicate Fails(c: ContainerStatus, isInit: bool) {
    || (c.state.waiting.Some? && HardReason(c.state.waiting.value.reason))
    || (isInit && c.state.terminated.Some? && c.state.terminated.value.exitCode != 0)
  }

  function CrashDetail(last: Option<Terminated>): string {
    if last.None? then "CrashLoopBackOff"
    else if Summary(last.value.message) != "" then "CrashLoopBackOff (" + Summary(last.value.message) + ")"
    else "CrashLoopBackOff (exit " + Itoa(last.value.exitCode) + ")"
  }

  function ExitDetail(t: Terminated): string {
    "exited " + Itoa(t.exitCode) + " (" + (if Summary(t.message) != "" then Summary(t.message) else t.reason) + ")"
  }

  /** classifyContainerFailure: the cause it words. */
  function Detail(c: ContainerStatus, isInit: bool): Option<string> {
    var w, t := c.state.waiting, c.state.terminated;
    if w.Some? && PullReason(w.value.reason) then
      Some(Normalize(w.value.reason) + ": cannot pull image " + Quote(c.image))
    else if w.Some? && w.value.reason == "CrashLoopBackOff" then Some(CrashDetail(c.last.terminated))
    else if w.Some? && HardReason(w.value.reason) then Some(JoinReasonDetail(w.value.reason, w.value.message))
    else if isInit && t.Some? && t.value.exitCode != 0 then Some(ExitDetail(t.value))
    else None
  }

  lemma DetailMeansFailure(c: ContainerStatus, isInit: bool)
    ensures Fails(c, isInit) <==> Detail(c, isInit).Some?
  {
    hide CrashDetail, ExitDetail, JoinReasonDetail, Normalize;
  }

  function Normalize(r: string): string {
    if r == "ErrImagePull" then "ImagePullBackOff" else r
  }

  function Token(c: ContainerStatus): string {
    if c.state.waiting.Some? then Normalize(c.state.waiting.value.reason)
    else if c.state.terminated.Some? then "exit" + Itoa(c.state.terminated.value.exitCode)
    else ""
  }

  /** A failing container; the signature shows name and token only. */
  datatype Entry = Entry(name: string, token: string, detail: string)

  function EntryOf(c: ContainerStatus, isInit: bool): Entry {
    Entry(c.name, Token(c), match Detail(c, isInit) case Some(d) => d case None => "")
  }

  /** The failing containers of one list, in order. */
  function Entries(s: seq<ContainerStatus>, isInit: bool): (r: seq<Entry>)
    ensures forall e :: e in r <==> exists c :: c in s && Fails(c, isInit) && e == EntryOf(c, isInit)
  {
    if s == [] then []
    else
      var c, before := s[|s| - 1], s[..|s| - 1];
      assert s == before + [c];
      Entries(before, isInit) + (if Fails(c, isInit) then [EntryOf(c, isInit)] else [])
  }

  /** The same containers fail in the same way; the details may differ. */
  predicate Same(r: seq<Entry>, s: seq<Entry>) {
    |r| == |s| && forall k :: 0 <= k < |r| ==> r[k].name == s[k].name && r[k].token == s[k].token
  }

  function Render(r: seq<Entry>): string {
    if r == [] then ""
    else r[0].name + ['='] + (r[0].token + [';'] + Render(r[1..]))
  }

  function Signature(p: Pod): string {
    Render(Entries(p.inits, true)) + ['#'] + Render(Entries(p.containers, false))
  }

  lemma {:induction false} RenderSnoc(r: seq<Entry>, e: Entry)
    ensures Render(r + [e]) == Render(r) + e.name + ['='] + e.token + [';']
  {
    if r == [] {
      assert [e][1..] == [] && r + [e] == [e];
      assert Render([e]) == e.name + ['='] + (e.token + [';'] + "");
    } else {
      assert (r + [e])[1..] == r[1..] + [e];
      RenderSnoc(r[1..], e);
      assert Render(r + [e]) ==
        r[0].name + ['='] + (r[0].token + [';'] + (Render(r[1..]) + e.name + ['='] + e.token + [';']));
    }
  }

  method WriteFailing(b: string, s: seq<ContainerStatus>, isInit: bool) returns (out: string)
    ensures out == b + Render(Entries(s, isInit))
  {
    hide Fails, Token, Detail;
    out := b;
    assert Render([]) == "";
    for i := 0 to |s|
      invariant out == b + Render(Entries(s[..i], isInit))
    {
      var c := s[i];
      assert s[..i + 1][..i] == s[..i];
      if !Fails(c, isInit) {
        assert Entries(s[..i + 1], isInit) == Entries(s[..i], isInit);
        continue;
      }
      RenderSnoc(Entries(s[..i], isInit), EntryOf(c, isInit));
      out := out + c.name + ['='] + Token(c) + [';'];
      assert out == b + (Render(Entries(s[..i], isInit)) + c.name + ['='] + Token(c) + [';']);
    }
    assert s[..|s|] == s;
  }

  method PodFailureSignature(p: Pod) returns (out: string)
    ensures out == Signature(p)
  {
    out := WriteFailing("", p.inits, true);
    out := WriteFailing(out + ['#'], p.containers, false);
  }

  // ---------- Parsing the signature back ----------

  /** Container names are DNS labels, so they hold none of the signature's punctuation. */
  predicate PlainName(n: string) {
    '=' !in n && ';' !in n && '#' !in n
  }

  predicate WellFormedPod(p: Pod) {
    && (forall c :: c in p.inits + p.containers ==> WellFormedStatus(c) && PlainName(c.name))
    && UniqueNames(p.inits) && UniqueNames(p.containers)
  }

  predicate PlainEntries(r: seq<Entry>) {
    forall e :: e in r ==> PlainName(e.name) && ';' !in e.token && '#' !in e.token
  }

  lemma FailingTokenIsPlain(c: ContainerStatus, isInit: bool)
    requires WellFormedStatus(c) && Fails(c, isInit)
    ensures ';' !in Token(c) && '#' !in Token(c)
  {
    if c.state.waiting.Some? {
      HardReasonIsLetters(c.state.waiting.value.reason);
    }
  }

  /** No reason of the fixed table is empty, starts like an exit token or holds punctuation. */
  lemma HardReasonIsLetters(r: string)
    requires HardReason(r)
    ensures Letters(r) && Letters(Normalize(r))
  {
    PullReasonsAreLetters();
    OtherReasonsAreLetters();
    hide Letters;
  }

  lemma PullReasonsAreLetters()
    ensures Letters("ImagePullBackOff") && Letters("ErrImagePull") && Letters("ErrImageNeverPull")
    ensures Letters("InvalidImageName") && Letters("RegistryUnavailable")
  {}

  lemma OtherReasonsAreLetters()
    ensures Letters("CreateContainerConfigError") && Letters("CreateContainerError")
    ensures Letters("RunContainerError") && Letters("CrashLoopBackOff")
  {}

  predicate Letters(r: string) {
    r != "" && r[0] != 'e' && forall i :: 0 <= i < |r| ==> 'A' <= r[i] <= 'z'
  }

  lemma EntriesArePlain(s: seq<ContainerStatus>, isInit: bool)
    requires forall c :: c in s ==> WellFormedStatus(c) && PlainName(c.name)
    ensures PlainEntries(Entries(s, isInit))
  {
    forall e | e in Entries(s, isInit) ensures PlainName(e.name) && ';' !in e.token && '#' !in e.token {
      var c :| c in s && Fails(c, isInit) && e == EntryOf(c, isInit);
      FailingTokenIsPlain(c, isInit);
    }
  }

  lemma {:induction false} RenderHasNoHash(r: seq<Entry>)
    requires PlainEntries(r)
    ensures '#' !in Render(r)
  {
    if r != [] {
      RenderHasNoHash(r[1..]);
    }
  }

  lemma {:induction false} RenderInjective(r: seq<Entry>, s: seq<Entry>)
    requires PlainEntries(r) && PlainEntries(s) && Render(r) == Render(s)
    ensures Same(r, s)
  {
    if r == [] || s == [] {
      assert |Render(r)| == |Render(s)|;
    } else {
      HeadsAgreeAt('=', r[0].name, s[0].name, r[0].token + [';'] + Render(r[1..]), s[0].token + [';'] + Render(s[1..]));
      HeadsAgreeAt(';', r[0].token, s[0].token, Render(r[1..]), Render(s[1..]));
      RenderInjective(r[1..], s[1..]);
      assert r == [r[0]] + r[1..] && s == [s[0]] + s[1..];
    }
  }

  lemma {:induction false} RenderOfSame(r: seq<Entry>, s: seq<Entry>)
    requires Same(r, s)
    ensures Render(r) == Render(s)
  {
    if r != [] {
      RenderOfSame(r[1..], s[1..]);
    }
  }

  /** The signature can be parsed back: it is equal exactly when the same containers fail in the same way. */
  lemma SignatureParses(p: Pod, q: Pod)
    requires WellFormedPod(p) && WellFormedPod(q)
    ensures Signature(p) == Signature(q) <==>
      Same(Entries(p.inits, true), Entries(q.inits, true)) && Same(Entries(p.containers, false), Entries(q.containers, false))
  {
    hide Fails, Token, Detail, Render, UniqueNames, WellFormedStatus, PlainName, PlainEntries, Same;
    EntriesArePlain(p.inits, true);
    EntriesArePlain(q.inits, true);
    EntriesArePlain(p.containers, false);
    EntriesArePlain(q.containers, false);
    var a, b := Entries(p.inits, true), Entries(q.inits, true);
    var c, d := Entries(p.containers, false), Entries(q.containers, false);
    RenderHasNoHash(a);
    RenderHasNoHash(b);
    if Signature(p) == Signature(q) {
      HeadsAgreeAt('#', Render(a), Render(b), Render(c), Render(d));
      RenderInjective(a, b);
      RenderInjective(c, d);
    }
    if Same(a, b) && Same(c, d) {
      RenderOfSame(a, b);
      RenderOfSame(c, d);
    }
  }

  /** A token determines the failure up to the two names of one image-pull failure. */
  lemma TokenMeaning(c: ContainerStatus, d: ContainerStatus, isInit: bool)
    requires WellFormedStatus(c) && WellFormedStatus(d) && Fails(c, isInit) && Fails(d, isInit)
    ensures Token(c) == Token(d) <==>
      || (c.state.waiting.Some? && d.state.waiting.Some?
          && Normalize(c.state.waiting.value.reason) == Normalize(d.state.waiting.value.reason))
      || (c.state.terminated.Some? && d.state.terminated.Some?
          && c.state.terminated.value.exitCode == d.state.terminated.value.exitCode)
  {
    if c.state.terminated.Some? && d.state.terminated.Some? && Token(c) == Token(d) {
      assert Token(c)[4..] == Itoa(c.state.terminated.value.exitCode);
      assert Token(d)[4..] == Itoa(d.state.terminated.value.exitCode);
      ItoaInjective(c.state.terminated.value.exitCode, d.state.terminated.value.exitCode);
    }
    assert c.state.terminated.Some? ==> Token(c)[0] == 'e';
    assert d.state.terminated.Some? ==> Token(d)[0] == 'e';
    assert c.state.waiting.Some? ==> Token(c)[0] != 'e';
    assert d.state.waiting.Some? ==> Token(d)[0] != 'e';
  }

  // ---------- The translator ----------

  /** The container the Degraded overlay names. */
  datatype Blame = Blame(isInit: bool, entry: Entry)

  /** The text of the Degraded condition. */
  function Message(b: Blame): string {
    (if b.isInit then "init container " else "container ") + Quote(b.entry.name) + ": " + b.entry.detail
  }

  /** The init entries that are not package fetches; those belong to PackagesReady. */
  function Others(r: seq<Entry>): seq<Entry> {
    if r == [] then []
    else Others(r[..|r| - 1]) + (if FETCH_PREFIX <= r[|r| - 1].name then [] else [r[|r| - 1]])
  }

  function FirstBlame(p: Pod): Option<Blame> {
    var inits, others := Others(Entries(p.inits, true)), Entries(p.containers, false);
    if inits != [] then Some(Blame(true, inits[0]))
    else if others != [] then Some(Blame(false, others[0]))
    else None
  }

  /** The first blame of a list of pods. */
  function PodFailure(pods: seq<Pod>): Option<Blame> {
    if pods == [] then None
    else if PodFailure(pods[..|pods| - 1]).Some? then PodFailure(pods[..|pods| - 1])
    else FirstBlame(pods[|pods| - 1])
  }

  /** What translatePodFailure reports, None when nothing fails. */
  ghost function Degradation(pods: seq<Pod>): Option<string> {
    match PodFailure(Current(pods))
    case Some(b) => Some(Message(b))
    case None => None
  }

  method FirstFailing(s: seq<ContainerStatus>, isInit: bool, skipFetches: bool) returns (found: Option<Entry>)
    ensures var r := if skipFetches then Others(Entries(s, isInit)) else Entries(s, isInit);
      found == if r == [] then None else Some(r[0])
  {
    hide Fails, Token, Detail;
    for i := 0 to |s|
      invariant var r := if skipFetches then Others(Entries(s[..i], isInit)) else Entries(s[..i], isInit); r == []
    {
      var c := s[i];
      EntryComesNext(s, i, isInit);
      if skipFetches && FETCH_PREFIX <= c.name {
        continue;
      }
      DetailMeansFailure(c, isInit);
      var detail := Detail(c, isInit);
      if detail.Some? {
        return Some(Entry(c.name, Token(c), detail.value));
      }
    }
    assert s[..|s|] == s;
    return None;
  }

  /** The next failing container comes right after the entries so far. */
  lemma EntryComesNext(s: seq<ContainerStatus>, i: nat, isInit: bool)
    requires i < |s|
    ensures var before, e := Entries(s[..i], isInit), EntryOf(s[i], isInit);
      var more := if Fails(s[i], isInit) then [e] else [];
      && Entries(s[..i + 1], isInit) == before + more && before + more <= Entries(s, isInit)
      && Others(before + more) == Others(before) + (if FETCH_PREFIX <= e.name then [] else more)
      && Others(before + more) <= Others(Entries(s, isInit))
  {
    hide Fails, Token, Detail;
    assert s[..i + 1][..i] == s[..i];
    EntriesPrefix(s, i + 1, isInit);
    var before, e := Entries(s[..i], isInit), EntryOf(s[i], isInit);
    assert (before + [e])[..|before|] == before;
    assert before + [] == before && Others(before) + [] == Others(before);
    OthersPrefix(Entries(s[..i + 1], isInit), Entries(s, isInit));
  }

  lemma {:induction false} EntriesPrefix(s: seq<ContainerStatus>, i: nat, isInit: bool)
    requires i <= |s|
    ensures Entries(s[..i], isInit) <= Entries(s, isInit)
    decreases |s| - i
  {
    hide Fails, EntryOf;
    if i < |s| {
      assert s[..i + 1][..i] == s[..i];
      EntriesPrefix(s, i + 1, isInit);
    } else {
      assert s[..i] == s;
    }
  }

  lemma {:induction false} OthersPrefix(r: seq<Entry>, s: seq<Entry>)
    requires r <= s
    ensures Others(r) <= Others(s)
  {
    if r != s {
      OthersPrefix(r, s[..|s| - 1]);
    }
  }

  lemma {:induction false} FailurePrefix(pods: seq<Pod>, i: nat)
    requires i <= |pods| && PodFailure(pods[..i]).Some?
    ensures PodFailure(pods) == PodFailure(pods[..i])
    decreases |pods| - i
  {
    if i < |pods| {
      assert pods[..i + 1][..i] == pods[..i];
      FailurePrefix(pods, i + 1);
    } else {
      assert pods[..i] == pods;
    }
  }

  method TranslatePodFailure(pods: seq<Pod>) returns (message: Option<string>)
    ensures message == Degradation(pods)
  {
    hide Entries, Others, Current;
    var current := CurrentReplicaSetPods(pods);
    for i := 0 to |current|
      invariant PodFailure(current[..i]) == None
    {
      assert current[..i + 1][..i] == current[..i];
      var e := FirstFailing(current[i].inits, true, true);
      if e.Some? {
        FailurePrefix(current, i + 1);
        return Some(Message(Blame(true, e.value)));
      }
      e := FirstFailing(current[i].containers, false, false);
      if e.Some? {
        FailurePrefix(current, i + 1);
        return Some(Message(Blame(false, e.value)));
      }
    }
    assert current[..|current|] == current;
    return None;
  }

  lemma {:induction false} OthersOfSame(r: seq<Entry>, s: seq<Entry>)
    requires Same(r, s)
    ensures Same(Others(r), Others(s))
  {
    if r != [] {
      OthersOfSame(r[..|r| - 1], s[..|s| - 1]);
    }
  }

  /** Two pods blame the same container for the same reason; how the reason is worded may differ. */
  predicate SameBlame(a: Option<Blame>, b: Option<Blame>) {
    && a.Some? == b.Some?
    && (a.Some? ==>
          && a.value.isInit == b.value.isInit
          && a.value.entry.name == b.value.entry.name && a.value.entry.token == b.value.entry.token)
  }

  /** Equal signatures blame the same container for the same reason, and say the same about it exactly when its
      detail is the same. */
  lemma SameSignatureSameBlame(p: Pod, q: Pod)
    requires WellFormedPod(p) && WellFormedPod(q) && Signature(p) == Signature(q)
    ensures SameBlame(FirstBlame(p), FirstBlame(q))
    ensures FirstBlame(p).Some? ==>
      var a, b := FirstBlame(p).value, FirstBlame(q).value;
      Message(a) == Message(b) <==> a.entry.detail == b.entry.detail
  {
    hide Entries, Others, Signature;
    SignatureParses(p, q);
    OthersOfSame(Entries(p.inits, true), Entries(q.inits, true));
    if FirstBlame(p).Some? {
      SameWording(FirstBlame(p).value, FirstBlame(q).value);
    }
  }

  lemma SameWording(a: Blame, b: Blame)
    requires a.isInit == b.isInit && a.entry.name == b.entry.name
    ensures Message(a) == Message(b) <==> a.entry.detail == b.entry.detail
  {
    var head := (if a.isInit then "init container " else "container ") + Quote(a.entry.name) + ": ";
    assert Message(a) == head + a.entry.detail && Message(b) == head + b.entry.detail;
    assert Message(a)[|head|..] == a.entry.detail && Message(b)[|head|..] == b.entry.detail;
  }

  /** What the detail is worded from: the status as the watches compare it, and the image. */
  lemma SameStatusSameDetail(c: ContainerStatus, d: ContainerStatus, isInit: bool)
    requires WellFormedStatus(c) && WellFormedStatus(d) && EqualStatus(c, d) && c.image == d.image
    ensures Detail(c, isInit) == Detail(d, isInit)
  {
    hide PullReason, HardReason, CrashDetail, ExitDetail, JoinReasonDetail;
    EqualStateMeansSameVisible(c.state, d.state);
    EqualStateMeansSameVisible(c.last, d.last);
    assert c.state.waiting == Visible(c.state).waiting && d.state.waiting == Visible(d.state).waiting;
    assert c.state.terminated == Visible(c.state).terminated && d.state.terminated == Visible(d.state).terminated;
    assert c.last.terminated == Visible(c.last).terminated && d.last.terminated == Visible(d.last).terminated;
  }
}

/** Publication of converted keystores: what one reconcile computes from its sources, and when it writes. */
module ConvertKeystore {
  import opened Wrappers
  import opened DataFraming
  import opened Framing
  import opened Ordering
  import opened Sorting

  const ENCODING_VERSION: string := "v2"

  /** One requested conversion; cert is "" when no certificate variable is asked for. */
  datatype Item = Item(keyName: string, fromSecret: string, cert: string)

  /** A source Secret; "" stands for an absent or empty key. */
  datatype Source = Source(crt: string, key: string)

  datatype Read = Read(keyName: string, cert: string, crt: string, key: string)

  /** PKCS#12 encoding: whether a pair converts is fixed, which bytes come out is not. `bytes` gives the
      bytes of the k-th conversion of this reconcile. */
  datatype Encoder = Encoder(converts: (string, string) -> bool, bytes: nat -> string)

  datatype Failure = NotConverted(keyName: string) | Collision(name: string, first: string, second: string)

  /** The published Secret with its two hash annotations. */
  datatype Output = Output(data: map<string, string>, inputHash: Digest, outputHash: Digest)

  datatype Condition = Condition(holds: bool, reason: string, converted: int)

  // ---------- Reading the sources ----------

  datatype SourceState = Usable | SecretMissing | KeysMissing

  function StateOf(i: Item, sources: map<string, Source>): SourceState {
    if i.fromSecret !in sources then SecretMissing
    else if sources[i.fromSecret].crt == "" || sources[i.fromSecret].key == "" then KeysMissing
    else Usable
  }

  predicate AllUsable(items: seq<Item>, sources: map<string, Source>) {
    forall i :: i in items ==> StateOf(i, sources) == Usable
  }

  function ReadOf(i: Item, sources: map<string, Source>): Read
    requires StateOf(i, sources) == Usable
  {
    Read(i.keyName, i.cert, sources[i.fromSecret].crt, sources[i.fromSecret].key)
  }

  function ReadsOf(items: seq<Item>, sources: map<string, Source>): seq<Read>
    requires AllUsable(items, sources)
  {
    seq(|items|, k requires 0 <= k < |items| => ReadOf(items[k], sources))
  }

  // ---------- Converting ----------

  /** The maps and the list that the conversion loop fills. */
  datatype Collected = Collected(desired: map<string, string>, producedBy: map<string, string>, failures: seq<Failure>)

  const NOTHING: Collected := Collected(map[], map[], [])

  /** addKey: the first producer of a name keeps it. */
  function AddKey(c: Collected, name: string, item: string, value: string): Collected {
    if name in c.producedBy then c.(failures := c.failures + [Collision(name, c.producedBy[name], item)])
    else Collected(c.desired[name := value], c.producedBy[name := item], c.failures)
  }

  function Convert(c: Collected, r: Read, k: nat, enc: Encoder): Collected {
    if !enc.converts(r.crt, r.key) then c.(failures := c.failures + [NotConverted(r.keyName)])
    else
      var c' := AddKey(c, r.keyName, r.keyName, enc.bytes(k));
      if r.keyName in c.producedBy || r.cert == "" then c'
      else AddKey(c', r.cert, r.keyName, r.crt)
  }

  /** The state of the loop after its first k reads. */
  function Collect(rs: seq<Read>, k: nat, enc: Encoder): Collected
    requires k <= |rs|
  {
    if k == 0 then NOTHING else Convert(Collect(rs, k - 1, enc), rs[k - 1], k - 1, enc)
  }

  function CollectAll(rs: seq<Read>, enc: Encoder): Collected {
    Collect(rs, |rs|, enc)
  }

  // ---------- Hashing ----------

  function ReadFields(rs: seq<Read>): seq<string> {
    if rs == [] then []
    else [rs[0].keyName, rs[0].cert, rs[0].crt, rs[0].key] + ReadFields(rs[1..])
  }

  function InputDigest(version: string, rs: seq<Read>): Digest {
    Sha256(Frame([ENCODING_VERSION, version] + ReadFields(rs)))
  }

  // ---------- Deciding and writing ----------

  ghost predicate NeedsWrite(o: Option<Output>, desired: map<string, string>, inputHash: Digest) {
    o.None? || o.value.inputHash != inputHash || o.value.data.Keys != desired.Keys
    || o.value.outputHash != DataDigest(o.value.data)
  }

  ghost function Published(o: Option<Output>, desired: map<string, string>, inputHash: Digest): Option<Output> {
    if NeedsWrite(o, desired, inputHash) then Some(Output(desired, inputHash, DataDigest(desired))) else o
  }

  /** Whether a reconcile of these items writes the output Secret. */
  ghost predicate Writes(o: Option<Output>, items: seq<Item>, sources: map<string, Source>, version: string, enc: Encoder) {
    AllUsable(items, sources) &&
    var rs := ReadsOf(items, sources);
    CollectAll(rs, enc).desired != map[] && NeedsWrite(o, CollectAll(rs, enc).desired, InputDigest(version, rs))
  }

  /** Steps 2 to 8 for items already in sorted order. */
  ghost function Reconciled(o: Option<Output>, items: seq<Item>, sources: map<string, Source>, version: string, enc: Encoder)
    : Option<Output>
  {
    if !AllUsable(items, sources) then o
    else
      var c := CollectAll(ReadsOf(items, sources), enc);
      if c.desired == map[] then o
      else Published(o, c.desired, InputDigest(version, ReadsOf(items, sources)))
  }

  /** The first source that cannot be used, in item order. */
  function FirstUnusable(items: seq<Item>, sources: map<string, Source>): SourceState {
    if items == [] then Usable
    else if StateOf(items[0], sources) != Usable then StateOf(items[0], sources)
    else FirstUnusable(items[1..], sources)
  }

  function ConditionOf(items: seq<Item>, sources: map<string, Source>, enc: Encoder): Condition {
    if !AllUsable(items, sources) then
      Condition(false, if FirstUnusable(items, sources) == KeysMissing then "SourceKeysMissing" else "SourceSecretMissing", 0)
    else
      var c := CollectAll(ReadsOf(items, sources), enc);
      if c.desired == map[] then Condition(false, "ConversionFailed", 0)
      else if c.failures != [] then Condition(false, "PartiallyReady", |items| - |c.failures|)
      else Condition(true, "Ready", |c.desired|)
  }

  lemma {:induction false} FirstUnusableIff(items: seq<Item>, sources: map<string, Source>)
    ensures FirstUnusable(items, sources) == Usable <==> AllUsable(items, sources)
  {
    if items != [] {
      assert items == [items[0]] + items[1..];
      FirstUnusableIff(items[1..], sources);
    }
  }

  // ---------- What the conversion loop computes ----------

  /** Every output name an item may claim. */
  function Names(r: Read): seq<string> {
    if r.cert == "" then [r.keyName] else [r.keyName, r.cert]
  }

  function AllNames(rs: seq<Read>): seq<string> {
    if rs == [] then [] else AllNames(rs[..|rs| - 1]) + Names(rs[|rs| - 1])
  }

  ghost predicate Distinct(s: seq<string>) {
    forall i, j :: 0 <= i < j < |s| ==> s[i] != s[j]
  }

  /** Each item adds one failure at most, so the converted count is never negative. */
  lemma {:induction false} FailuresBounded(rs: seq<Read>, k: nat, enc: Encoder)
    requires k <= |rs|
    ensures |Collect(rs, k, enc).failures| <= k
    ensures Collect(rs, k, enc).desired.Keys == Collect(rs, k, enc).producedBy.Keys
  {
    if k > 0 {
      FailuresBounded(rs, k - 1, enc);
    }
  }

  lemma {:induction false} CollectPrefix(rs: seq<Read>, k: nat, n: nat, enc: Encoder)
    requires k <= n <= |rs|
    ensures Collect(rs[..n], k, enc) == Collect(rs, k, enc)
  {
    if k > 0 {
      CollectPrefix(rs, k - 1, n, enc);
    }
  }

  lemma DistinctConcat(a: seq<string>, b: seq<string>)
    ensures Distinct(a + b) <==> Distinct(a) && Distinct(b) && forall x :: x in a ==> x !in b
  {
    var c := a + b;
    if Distinct(c) {
      forall i, j | 0 <= i < j < |a| ensures a[i] != a[j] { assert c[i] == a[i] && c[j] == a[j]; }
      forall i, j | 0 <= i < j < |b| ensures b[i] != b[j] { assert c[|a| + i] == b[i] && c[|a| + j] == b[j]; }
      forall i, j | 0 <= i < |a| && 0 <= j < |b| ensures a[i] != b[j] {
        assert c[i] == a[i] && c[|a| + j] == b[j];
      }
    }
    if Distinct(a) && Distinct(b) && forall x :: x in a ==> x !in b {
      forall i, j | 0 <= i < j < |c| ensures c[i] != c[j] {
        assert i < |a| ==> c[i] in a;
        assert j >= |a| ==> c[j] in b;
      }
    }
  }

  /** No failure exactly when every pair converts and all output names are distinct; then exactly those
      names are published. */
  lemma {:induction false} NoFailureIff(rs: seq<Read>, enc: Encoder)
    ensures var c := CollectAll(rs, enc);
      && (c.failures == [] <==> (forall r :: r in rs ==> enc.converts(r.crt, r.key)) && Distinct(AllNames(rs)))
      && (c.failures == [] ==> forall x :: x in c.producedBy <==> x in AllNames(rs))
  {
    if rs == [] {
      return;
    }
    var n := |rs| - 1;
    var init, r := rs[..n], rs[n];
    NoFailureIff(init, enc);
    CollectPrefix(rs, n, n, enc);
    assert rs == init + [r];
    DistinctConcat(AllNames(init), Names(r));
    ConvertFailsIff(Collect(rs, n, enc), r, n, enc);
    hide Convert, Distinct, Names;
  }

  /** A conversion adds no failure exactly when the pair converts and its names are new and different. */
  lemma ConvertFailsIff(c: Collected, r: Read, k: nat, enc: Encoder)
    ensures var d := Convert(c, r, k, enc);
      && (d.failures == [] <==>
           c.failures == [] && enc.converts(r.crt, r.key) && Distinct(Names(r)) && forall x :: x in Names(r) ==> x !in c.producedBy)
      && (d.failures == [] ==> forall x :: x in d.producedBy <==> x in c.producedBy || x in Names(r))
  {
    hide Collect;
    var names := Names(r);
    assert names[0] == r.keyName && (r.cert != "" ==> names[1] == r.cert);
  }

  /** Read m makes a claim on this name: its pair converts, and the name is its key name, or its certificate name with
      the key name still free. */
  predicate Claims(rs: seq<Read>, m: nat, name: string, enc: Encoder)
    requires m < |rs|
    decreases m
  {
    var r := rs[m];
    enc.converts(r.crt, r.key) && (name == r.keyName || (r.cert != "" && name == r.cert && !Claimed(rs, m, r.keyName, enc)))
  }

  /** Some read before the n-th makes a claim on it. */
  predicate Claimed(rs: seq<Read>, n: nat, name: string, enc: Encoder)
    requires n <= |rs|
    decreases n, 0
  {
    exists m: nat :: m < n && Claims(rs, m, name, enc)
  }

  /** The first of the first n reads that claims the name. */
  predicate First(rs: seq<Read>, n: nat, j: nat, name: string, enc: Encoder)
    requires n <= |rs|
  {
    j < n && Claims(rs, j, name, enc) && !Claimed(rs, j, name, enc)
  }

  /** What a read publishes under a name it claims: the keystore under its key name, the certificate otherwise. */
  function ValueUnder(rs: seq<Read>, j: nat, name: string, enc: Encoder): string
    requires j < |rs|
  {
    if name == rs[j].keyName then enc.bytes(j) else rs[j].crt
  }

  lemma ClaimedSnoc(rs: seq<Read>, n: nat, name: string, enc: Encoder)
    requires n < |rs|
    ensures Claimed(rs, n + 1, name, enc) <==> Claimed(rs, n, name, enc) || Claims(rs, n, name, enc)
  {
    hide Claims;
  }

  lemma {:induction false} FirstExists(rs: seq<Read>, n: nat, name: string, enc: Encoder)
    requires n <= |rs|
    ensures Claimed(rs, n, name, enc) <==> exists j: nat :: First(rs, n, j, name, enc)
  {
    hide Claims;
    if n > 0 {
      FirstExists(rs, n - 1, name, enc);
      ClaimedSnoc(rs, n - 1, name, enc);
      if Claimed(rs, n - 1, name, enc) {
        var j: nat :| First(rs, n - 1, j, name, enc);
        assert First(rs, n, j, name, enc);
      } else if Claims(rs, n - 1, name, enc) {
        assert First(rs, n, n - 1, name, enc);
      }
    }
  }

  /** What is collected under a name from the first n reads: something exactly when one of them claims it, and then the
      value and the producer of the first that does. */
  ghost predicate FirstWins(rs: seq<Read>, n: nat, name: string, c: Collected, enc: Encoder)
    requires n <= |rs|
  {
    && (name in c.desired <==> Claimed(rs, n, name, enc)) && (name in c.producedBy <==> name in c.desired)
    && forall j: nat :: First(rs, n, j, name, enc) ==>
         name in c.desired && c.desired[name] == ValueUnder(rs, j, name, enc) && c.producedBy[name] == rs[j].keyName
  }

  /** The first producer wins, for every name, whatever fails. */
  lemma {:induction false} FirstProducerWins(rs: seq<Read>, n: nat, name: string, enc: Encoder)
    requires n <= |rs|
    ensures FirstWins(rs, n, name, Collect(rs, n, enc), enc)
  {
    if n > 0 {
      var c, r := Collect(rs, n - 1, enc), rs[n - 1];
      assert Collect(rs, n, enc) == Convert(c, r, n - 1, enc);
      hide *;
      FirstProducerWins(rs, n - 1, name, enc);
      FirstProducerWins(rs, n - 1, r.keyName, enc);
      FirstStillWins(rs, n - 1, name, c, enc);
    }
  }

  lemma FirstStillWins(rs: seq<Read>, k: nat, name: string, c: Collected, enc: Encoder)
    requires k < |rs| && FirstWins(rs, k, name, c, enc) && FirstWins(rs, k, rs[k].keyName, c, enc)
    ensures FirstWins(rs, k + 1, name, Convert(c, rs[k], k, enc), enc)
  {
    ClaimedSnoc(rs, k, name, enc);
    ConvertClaims(rs, k, c, name, enc);
    hide Convert, Claims, Claimed, First, ValueUnder;
    forall j: nat | First(rs, k + 1, j, name, enc)
      ensures j <= k && (j < k ==> First(rs, k, j, name, enc))
      ensures j == k ==> Claims(rs, k, name, enc) && !Claimed(rs, k, name, enc)
    {
      FirstOfFewer(rs, k + 1, j, name, enc);
    }
  }

  lemma FirstOfFewer(rs: seq<Read>, n: nat, j: nat, name: string, enc: Encoder)
    requires 0 < n <= |rs| && First(rs, n, j, name, enc)
    ensures j < n && (j < n - 1 ==> First(rs, n - 1, j, name, enc))
    ensures j == n - 1 ==> Claims(rs, n - 1, name, enc) && !Claimed(rs, n - 1, name, enc)
  {
    hide Claims, Claimed;
  }

  /** One conversion: it keeps what is there and adds what it claims of the rest. */
  lemma ConvertClaims(rs: seq<Read>, k: nat, c: Collected, name: string, enc: Encoder)
    requires k < |rs|
    requires (name in c.producedBy <==> Claimed(rs, k, name, enc)) && (name in c.desired <==> name in c.producedBy)
    requires rs[k].keyName in c.producedBy <==> Claimed(rs, k, rs[k].keyName, enc)
    ensures var d := Convert(c, rs[k], k, enc);
      && (name in d.desired <==> name in c.desired || Claims(rs, k, name, enc)) && (name in d.producedBy <==> name in d.desired)
      && (name in c.desired ==> d.desired[name] == c.desired[name] && d.producedBy[name] == c.producedBy[name])
      && (name !in c.desired && Claims(rs, k, name, enc) ==>
            d.desired[name] == ValueUnder(rs, k, name, enc) && d.producedBy[name] == rs[k].keyName)
  {
    hide Claimed, Collect;
  }

  /** What went wrong with read m: its pair does not convert, or a claim of its came second, behind the first producer's
      or behind its own key name. */
  ghost predicate Fault(rs: seq<Read>, m: nat, f: Failure, enc: Encoder)
    requires m < |rs|
  {
    var r := rs[m];
    if !enc.converts(r.crt, r.key) then f == NotConverted(r.keyName)
    else if Claimed(rs, m, r.keyName, enc) then exists j: nat :: First(rs, m, j, r.keyName, enc) && f == Collision(r.keyName, rs[j].keyName, r.keyName)
    else if r.cert == "" then false
    else if r.cert == r.keyName then f == Collision(r.cert, r.keyName, r.keyName)
    else exists j: nat :: First(rs, m, j, r.cert, enc) && f == Collision(r.cert, rs[j].keyName, r.keyName)
  }

  lemma CollectStep(rs: seq<Read>, n: nat, enc: Encoder)
    requires 0 < n <= |rs|
    ensures Collect(rs, n, enc) == Convert(Collect(rs, n - 1, enc), rs[n - 1], n - 1, enc)
  {}

  ghost predicate Faulted(rs: seq<Read>, n: nat, f: Failure, enc: Encoder)
    requires n <= |rs|
  {
    exists m: nat :: m < n && Fault(rs, m, f, enc)
  }

  lemma FaultedSnoc(rs: seq<Read>, n: nat, f: Failure, enc: Encoder)
    requires 0 < n <= |rs|
    ensures Faulted(rs, n, f, enc) <==> Faulted(rs, n - 1, f, enc) || Fault(rs, n - 1, f, enc)
  {
    hide Fault;
  }

  lemma NothingFaulted(rs: seq<Read>, f: Failure, enc: Encoder)
    ensures f !in Collect(rs, 0, enc).failures && !Faulted(rs, 0, f, enc)
  {}

  /** The failures are exactly the faults, and each names the first producer and the item that lost. */
  lemma {:induction false} FailuresAreFaults(rs: seq<Read>, n: nat, f: Failure, enc: Encoder)
    requires n <= |rs|
    ensures f in Collect(rs, n, enc).failures <==> Faulted(rs, n, f, enc)
  {
    hide *;
    if n == 0 {
      NothingFaulted(rs, f, enc);
    } else {
      CollectStep(rs, n, enc);
      FailuresAreFaults(rs, n - 1, f, enc);
      ConvertFaults(rs, n - 1, f, enc);
      FaultedSnoc(rs, n, f, enc);
    }
  }

  lemma ConvertFaults(rs: seq<Read>, k: nat, f: Failure, enc: Encoder)
    requires k < |rs|
    ensures var c := Collect(rs, k, enc);
      f in Convert(c, rs[k], k, enc).failures <==> f in c.failures || Fault(rs, k, f, enc)
  {
    var c, r := Collect(rs, k, enc), rs[k];
    FirstExists(rs, k, r.keyName, enc);
    FirstExists(rs, k, r.cert, enc);
    FirstProducerWins(rs, k, r.keyName, enc);
    FirstProducerWins(rs, k, r.cert, enc);
    FirstIsUnique(rs, k, r.keyName, enc);
    FirstIsUnique(rs, k, r.cert, enc);
    hide Collect, Claimed, Claims, First;
  }

  /** So is what a reconcile writes: it holds exactly the claimed names, each under its first producer's value. */
  lemma WrittenIsClaimed(o: Option<Output>, items: seq<Item>, sources: map<string, Source>, version: string, enc: Encoder, name: string)
    requires Writes(o, items, sources, version, enc)
    ensures var rs := ReadsOf(items, sources);
      var o1 := Reconciled(o, items, sources, version, enc);
      && o1.Some? && (name in o1.value.data <==> Claimed(rs, |rs|, name, enc))
      && forall j: nat :: First(rs, |rs|, j, name, enc) ==> name in o1.value.data && o1.value.data[name] == ValueUnder(rs, j, name, enc)
  {
    var rs := ReadsOf(items, sources);
    FirstProducerWins(rs, |rs|, name, enc);
    hide DataDigest, InputDigest, Collect, Claimed, First, ValueUnder;
  }

  lemma FirstIsUnique(rs: seq<Read>, n: nat, name: string, enc: Encoder)
    requires n <= |rs|
    ensures forall i: nat, j: nat :: First(rs, n, i, name, enc) && First(rs, n, j, name, enc) ==> i == j
  {
    hide Claims;
  }

  /** Without failures every item's two variables hold its own conversion and its own certificate. */
  lemma {:induction false} PublishedValues(rs: seq<Read>, k: nat, j: nat, enc: Encoder)
    requires j < k <= |rs| && Collect(rs, k, enc).failures == []
    ensures var d := Collect(rs, k, enc).desired;
      && rs[j].keyName in d && d[rs[j].keyName] == enc.bytes(j)
      && (rs[j].cert != "" ==> rs[j].cert in d && d[rs[j].cert] == rs[j].crt)
  {
    FailuresBounded(rs, k - 1, enc);
    var c := Collect(rs, k - 1, enc);
    assert Collect(rs, k, enc) == Convert(c, rs[k - 1], k - 1, enc);
    ConvertPublishes(c, rs[k - 1], k - 1, enc);
    if j < k - 1 {
      PublishedValues(rs, k - 1, j, enc);
    }
    hide Collect, Convert;
  }

  /** A conversion without failure adds its own values and keeps those that are there. */
  lemma ConvertPublishes(c: Collected, r: Read, k: nat, enc: Encoder)
    requires c.desired.Keys == c.producedBy.Keys
    ensures var d := Convert(c, r, k, enc);
      d.failures == [] ==>
        && c.failures == []
        && (forall x :: x in c.desired ==> x in d.desired && d.desired[x] == c.desired[x])
        && r.keyName in d.desired && d.desired[r.keyName] == enc.bytes(k)
        && (r.cert != "" ==> r.cert in d.desired && d.desired[r.cert] == r.crt)
  {
    hide Collect;
  }

  /** Two collections that differ in the encoded bytes only. */
  ghost predicate SameButBytes(c: Collected, d: Collected) {
    c.desired.Keys == d.desired.Keys && c.producedBy == d.producedBy && c.failures == d.failures
  }

  /** What comes out of the encoder changes no name, no producer and no failure. */
  lemma {:induction false} BytesDoNotMatter(rs: seq<Read>, k: nat, e1: Encoder, e2: Encoder)
    requires k <= |rs| && e1.converts == e2.converts
    ensures SameButBytes(Collect(rs, k, e1), Collect(rs, k, e2))
  {
    hide Convert;
    if k > 0 {
      assert Collect(rs, k, e1) == Convert(Collect(rs, k - 1, e1), rs[k - 1], k - 1, e1);
      assert Collect(rs, k, e2) == Convert(Collect(rs, k - 1, e2), rs[k - 1], k - 1, e2);
      hide Collect, SameButBytes;
      BytesDoNotMatter(rs, k - 1, e1, e2);
      ConvertIgnoresBytes(Collect(rs, k - 1, e1), Collect(rs, k - 1, e2), rs[k - 1], k - 1, e1, e2);
    }
  }

  lemma ConvertIgnoresBytes(a: Collected, b: Collected, r: Read, k: nat, e1: Encoder, e2: Encoder)
    requires e1.converts == e2.converts
    requires SameButBytes(a, b)
    ensures SameButBytes(Convert(a, r, k, e1), Convert(b, r, k, e2))
  {
    hide Collect;
  }

  // ---------- Publication without churn ----------

  lemma WrittenOnce(o: Option<Output>, items: seq<Item>, sources: map<string, Source>, version: string, e1: Encoder, e2: Encoder)
    requires e1.converts == e2.converts
    ensures var o1 := Reconciled(o, items, sources, version, e1);
      Reconciled(o1, items, sources, version, e2) == o1 && !Writes(o1, items, sources, version, e2)
  {
    hide DataDigest, InputDigest, Collect;
    if AllUsable(items, sources) {
      var rs := ReadsOf(items, sources);
      BytesDoNotMatter(rs, |rs|, e1, e2);
      var d1, d2 := CollectAll(rs, e1).desired, CollectAll(rs, e2).desired;
      assert d1.Keys == {} <==> d1 == map[];
      assert d2.Keys == {} <==> d2 == map[];
    }
  }

  ghost function Repeatedly(o: Option<Output>, items: seq<Item>, sources: map<string, Source>, version: string, encs: seq<Encoder>)
    : Option<Output>
    decreases |encs|
  {
    if encs == [] then o
    else Repeatedly(Reconciled(o, items, sources, version, encs[0]), items, sources, version, encs[1..])
  }

  /** No churn: once reconciled, unchanged inputs and an untouched Secret are never written again, whatever
      bytes the encoder produces in however many reconciles. */
  lemma {:induction false} NoChurn(o: Option<Output>, items: seq<Item>, sources: map<string, Source>, version: string, first: Encoder, encs: seq<Encoder>)
    requires forall e :: e in encs ==> e.converts == first.converts
    ensures var o1 := Reconciled(o, items, sources, version, first);
      && Repeatedly(o1, items, sources, version, encs) == o1
      && forall e :: e in encs ==> !Writes(o1, items, sources, version, e)
    decreases |encs|
  {
    hide Reconciled, Writes;
    if encs != [] {
      WrittenOnce(o, items, sources, version, first, encs[0]);
      NoChurn(o, items, sources, version, first, encs[1..]);
    }
  }

  // ---------- Healing ----------

  /** Tampering is seen, exactly: of a published output that needs no write, every edit of the data forces one if and
      only if the data is not ambiguous. */
  lemma EditsAreSeenIff(o: Output, desired: map<string, string>, inputHash: Digest)
    requires !NeedsWrite(Some(o), desired, inputHash)
    ensures (forall edited :: edited != o.data ==> NeedsWrite(Some(o.(data := edited)), desired, inputHash))
      <==> !Ambiguous(o.data)
  {
    DigestCollidesIff(o.data);
    hide DataDigest, Ambiguous;
    if Collides(o.data) {
      var other: map<string, string> :| other.Keys == o.data.Keys && other != o.data && DataDigest(other) == DataDigest(o.data);
      assert !NeedsWrite(Some(o.(data := other)), desired, inputHash);
    }
  }

  /** So it is when nothing holds a NUL. */
  lemma TamperingForcesWrite(o: Output, desired: map<string, string>, inputHash: Digest, edited: map<string, string>)
    requires !NeedsWrite(Some(o), desired, inputHash) && NulFreeData(o.data)
    ensures NeedsWrite(Some(o.(data := edited)), desired, inputHash) <==> edited != o.data
  {
    NulFreeIsUnambiguous(o.data);
    EditsAreSeenIff(o, desired, inputHash);
  }

  /** And over reconciles: whatever is published or kept under usable sources, every later edit of it is overwritten by
      the next reconcile of the same inputs if and only if the data is not ambiguous. */
  lemma EditsAreHealedIff(o: Option<Output>, items: seq<Item>, sources: map<string, Source>, version: string, e1: Encoder, e2: Encoder)
    requires e1.converts == e2.converts
    requires AllUsable(items, sources) && CollectAll(ReadsOf(items, sources), e1).desired != map[]
    ensures var o1 := Reconciled(o, items, sources, version, e1);
      && o1.Some?
      && ((forall edited :: edited != o1.value.data ==> Writes(Some(o1.value.(data := edited)), items, sources, version, e2))
          <==> !Ambiguous(o1.value.data))
  {
    WrittenOnce(o, items, sources, version, e1, e2);
    var rs := ReadsOf(items, sources);
    BytesDoNotMatter(rs, |rs|, e1, e2);
    hide DataDigest, InputDigest, Ambiguous, CollectAll;
    var o1 := Reconciled(o, items, sources, version, e1);
    var d1, d2 := CollectAll(rs, e1).desired, CollectAll(rs, e2).desired;
    assert d1.Keys == d2.Keys && d2 != map[] by {
      assert d1.Keys == {} <==> d1 == map[];
    }
    EditsAreSeenIff(o1.value, d2, InputDigest(version, rs));
    hide NeedsWrite;
    forall edited: map<string, string>
      ensures var e := Some(o1.value.(data := edited));
        Writes(e, items, sources, version, e2) <==> NeedsWrite(e, d2, InputDigest(version, rs))
    {}
  }

  const PAIR: Item := Item("a", "source", "b")

  /** The sources of one pair whose certificate holds the framing bytes of a key. */
  function NulSources(q: string, r: string, key: string): map<string, Source> {
    map["source" := Source(q + [NUL] + "b" + [NUL] + r, key)]
  }

  lemma CollectPair(rs: seq<Read>, enc: Encoder)
    requires |rs| == 1 && rs[0].keyName == "a" && rs[0].cert == "b" && enc.converts(rs[0].crt, rs[0].key)
    ensures CollectAll(rs, enc).desired == map["a" := enc.bytes(0), "b" := rs[0].crt]
  {
    assert Collect(rs, 0, enc) == NOTHING;
    assert "a" != "b";
  }

  lemma NulFramesCollide(p: string, q: string, r: string)
    ensures var n := [NUL];
      DataDigest(map["a" := p, "b" := q + n + "b" + n + r]) == DataDigest(map["a" := p + n + "b" + n + q, "b" := r])
  {
    var x, y := q + Separator("b") + r, p + Separator("b") + q;
    var published, edited := map["a" := p, "b" := x], map["a" := y, "b" := r];
    assert published.Keys == {"a", "b"} && edited.Keys == {"a", "b"};
    var keys := Listing({"a", "b"});
    assert keys == ["a", "b"] by {
      assert Increasing(["a", "b"]);
      IncreasingIsUnique(keys, ["a", "b"]);
    }
    var window, sep := p + Separator("b") + x, Separator("b");
    assert window == y + sep + r;
    assert window[..|y|] == y && window[|y|..|y| + |sep|] == sep && window[|y| + |sep|..] == r;
    assert Moved(published, "a", "b", |y|) == edited;
    MovedCollides(keys, published, 0, |y|);
    assert q + [NUL] + "b" + [NUL] + r == x && p + [NUL] + "b" + [NUL] + q == y;
  }

  /** Ambiguous outputs are published, from any sources of this form: the edit that moves the boundary between the two
      values is never healed. */
  lemma NulHidesTampering(q: string, r: string, key: string, version: string, enc: Encoder)
    requires key != "" && enc.converts(q + [NUL] + "b" + [NUL] + r, key)
    ensures var sources := NulSources(q, r, key);
      var o := Reconciled(None, [PAIR], sources, version, enc);
      && o.Some?
      && var edited := map["a" := enc.bytes(0) + [NUL] + "b" + [NUL] + q, "b" := r];
        edited != o.value.data && !Writes(Some(o.value.(data := edited)), [PAIR], sources, version, enc)
  {
    hide DataDigest, InputDigest, CollectAll;
    var sources, x := NulSources(q, r, key), q + [NUL] + "b" + [NUL] + r;
    var rs := ReadsOf([PAIR], sources);
    assert x != "" && rs[0] == Read("a", "b", x, key);
    CollectPair(rs, enc);
    var p := enc.bytes(0);
    var data, edited := map["a" := p, "b" := x], map["a" := p + [NUL] + "b" + [NUL] + q, "b" := r];
    assert data["a"] != edited["a"] by { assert |data["a"]| < |edited["a"]|; }
    assert data.Keys == edited.Keys;
    assert data != map[] by { assert "a" in data; }
    NulFramesCollide(p, q, r);
  }

  ghost predicate NulFreeReads(version: string, rs: seq<Read>) {
    NulFree(version) && forall r :: r in rs ==> NulFree(r.keyName) && NulFree(r.cert) && NulFree(r.crt) && NulFree(r.key)
  }

  lemma {:induction false} ReadFieldsInjective(a: seq<Read>, b: seq<Read>)
    requires ReadFields(a) == ReadFields(b)
    ensures a == b
  {
    if a != [] && b != [] {
      var fa, fb := ReadFields(a), ReadFields(b);
      assert fa[0] == fb[0] && fa[1] == fb[1] && fa[2] == fb[2] && fa[3] == fb[3];
      assert fa[4..] == ReadFields(a[1..]) && fb[4..] == ReadFields(b[1..]);
      ReadFieldsInjective(a[1..], b[1..]);
      assert a == [a[0]] + a[1..] && b == [b[0]] + b[1..];
    }
  }

  lemma {:induction false} ReadFieldsNulFree(version: string, rs: seq<Read>)
    requires NulFreeReads(version, rs)
    ensures forall f :: f in ReadFields(rs) ==> NulFree(f)
  {
    if rs != [] {
      ReadFieldsNulFree(version, rs[1..]);
    }
  }

  /** The input hash changes with the Curity version, any source byte, any name, and the number of items. */
  lemma InputDigestInjective(v: string, a: seq<Read>, w: string, b: seq<Read>)
    requires NulFreeReads(v, a) && NulFreeReads(w, b)
    ensures InputDigest(v, a) == InputDigest(w, b) <==> v == w && a == b
  {
    var fa, fb := [ENCODING_VERSION, v] + ReadFields(a), [ENCODING_VERSION, w] + ReadFields(b);
    if Frame(fa) == Frame(fb) {
      ReadFieldsNulFree(v, a);
      ReadFieldsNulFree(w, b);
      assert NulFree(ENCODING_VERSION);
      FrameInjective(fa, fb);
      assert fa[1] == fb[1] && fa[2..] == ReadFields(a) && fb[2..] == ReadFields(b);
      ReadFieldsInjective(a, b);
    }
  }

  /** Changed inputs and key sets force a rewrite, and the rewritten output is quiet again. */
  lemma ChangedInputsForceWrite(o: Output, items: seq<Item>, sources: map<string, Source>, version: string, enc: Encoder,
                                oldVersion: string, oldReads: seq<Read>)
    requires AllUsable(items, sources) && CollectAll(ReadsOf(items, sources), enc).desired != map[]
    requires NulFreeReads(oldVersion, oldReads) && NulFreeReads(version, ReadsOf(items, sources))
    requires o.inputHash == InputDigest(oldVersion, oldReads)
    requires oldVersion != version || oldReads != ReadsOf(items, sources)
          || o.data.Keys != CollectAll(ReadsOf(items, sources), enc).desired.Keys
    ensures var rs := ReadsOf(items, sources);
      var d := CollectAll(rs, enc).desired;
      Reconciled(Some(o), items, sources, version, enc) == Some(Output(d, InputDigest(version, rs), DataDigest(d)))
  {
    hide DataDigest, InputDigest, Collect;
    InputDigestInjective(oldVersion, oldReads, version, ReadsOf(items, sources));
  }

  // ---------- Correct publication ----------

  /** A non-empty output is never emptied, nor removed, while conversions are asked for. */
  lemma NeverWiped(o: Option<Output>, items: seq<Item>, sources: map<string, Source>, version: string, enc: Encoder)
    requires o.Some? && o.value.data != map[]
    ensures var o1 := Reconciled(o, items, sources, version, enc); o1.Some? && o1.value.data != map[]
  {
    hide DataDigest, InputDigest, Collect;
  }

  /** Ready=True exactly when every source is there, every pair converts and all output names are
      distinct; then exactly those names are published. The reported count is never negative. */
  lemma ReadyIff(items: seq<Item>, sources: map<string, Source>, enc: Encoder)
    requires items != []
    ensures ConditionOf(items, sources, enc).holds <==>
      && AllUsable(items, sources)
      && (forall r :: r in ReadsOf(items, sources) ==> enc.converts(r.crt, r.key))
      && Distinct(AllNames(ReadsOf(items, sources)))
    ensures ConditionOf(items, sources, enc).holds ==>
      forall x :: x in CollectAll(ReadsOf(items, sources), enc).desired <==> x in AllNames(ReadsOf(items, sources))
    ensures ConditionOf(items, sources, enc).converted >= 0
  {
    if AllUsable(items, sources) {
      var rs := ReadsOf(items, sources);
      NoFailureIff(rs, enc);
      FailuresBounded(rs, |rs|, enc);
      var c := CollectAll(rs, enc);
      assert rs[|rs| - 1].keyName in Names(rs[|rs| - 1]);
      assert rs[|rs| - 1].keyName in AllNames(rs);
      assert c.failures == [] ==> rs[|rs| - 1].keyName in c.desired;
    }
  }

  /** The sources can be used exactly when every item's Secret is there with a certificate and a key. */
  predicate Complete(items: seq<Item>, sources: map<string, Source>) {
    forall i :: i in items ==>
      i.fromSecret in sources && sources[i.fromSecret].crt != "" && sources[i.fromSecret].key != ""
  }

  /** The condition's reason and count, case by case: the first item whose source is missing or incomplete; no pair
      converts; some item failed; or all is well. */
  lemma ReasonMeaning(items: seq<Item>, sources: map<string, Source>, enc: Encoder)
    requires items != []
    ensures AllUsable(items, sources) <==> Complete(items, sources)
    ensures var c := ConditionOf(items, sources, enc);
      && (!Complete(items, sources) ==> !c.holds && c.converted == 0 && forall k ::
            0 <= k < |items| && !Complete([items[k]], sources) && Complete(items[..k], sources) ==>
              c.reason == if items[k].fromSecret in sources then "SourceKeysMissing" else "SourceSecretMissing")
      && (Complete(items, sources) ==>
            var rs := ReadsOf(items, sources);
            var all := CollectAll(rs, enc);
            if forall r :: r in rs ==> !enc.converts(r.crt, r.key) then c == Condition(false, "ConversionFailed", 0)
            else if all.failures != [] then c == Condition(false, "PartiallyReady", |items| - |all.failures|)
            else c == Condition(true, "Ready", |all.desired|))
  {
    hide Collect, Convert;
    assert AllUsable(items, sources) <==> Complete(items, sources);
    if !Complete(items, sources) {
      forall k | 0 <= k < |items| && !Complete([items[k]], sources) && Complete(items[..k], sources)
        ensures FirstUnusable(items, sources) == StateOf(items[k], sources) != Usable
      {
        assert items[k] in [items[k]];
        FirstUnusableIs(items, sources, k);
      }
    } else {
      NothingPublishedIff(ReadsOf(items, sources), |items|, enc);
    }
  }

  lemma {:induction false} FirstUnusableIs(items: seq<Item>, sources: map<string, Source>, k: nat)
    requires k < |items| && StateOf(items[k], sources) != Usable && Complete(items[..k], sources)
    ensures FirstUnusable(items, sources) == StateOf(items[k], sources)
  {
    if k > 0 {
      assert items[..k][0] in items[..k];
      assert items[1..][..k - 1] == items[..k][1..];
      FirstUnusableIs(items[1..], sources, k - 1);
    }
  }

  /** Nothing is published exactly when no pair converts: the first that does finds its name free. */
  lemma {:induction false} NothingPublishedIff(rs: seq<Read>, n: nat, enc: Encoder)
    requires n <= |rs|
    ensures Collect(rs, n, enc).desired == map[] <==> forall m :: 0 <= m < n ==> !enc.converts(rs[m].crt, rs[m].key)
    ensures n == |rs| ==>
      (Collect(rs, n, enc).desired == map[] <==> forall r :: r in rs ==> !enc.converts(r.crt, r.key))
  {
    if n > 0 {
      NothingPublishedIff(rs, n - 1, enc);
      FailuresBounded(rs, n - 1, enc);
      var c, r := Collect(rs, n - 1, enc), rs[n - 1];
      assert c.desired == map[] ==> c.producedBy.Keys == {};
      assert enc.converts(r.crt, r.key) ==> r.keyName in Convert(c, r, n - 1, enc).desired || c.desired != map[];
      assert r.keyName in c.producedBy ==> r.keyName in c.desired;
    }
  }

  // ---------- Spec order ----------

  function KeyNameOf(i: Item): string {
    i.keyName
  }

  /** With unique key names two reconciles of the same list in any two orders publish the same keys from the
      same producers and set the same condition. */
  lemma SpecOrderDoesNotMatter(a: seq<Item>, b: seq<Item>, spec: seq<Item>, other: seq<Item>,
                               sources: map<string, Source>, enc: Encoder)
    requires IsSortOf(a, spec, KeyNameOf) && IsSortOf(b, other, KeyNameOf)
    requires multiset(spec) == multiset(other) && UniqueKeys(spec, KeyNameOf)
    ensures AllUsable(a, sources) == AllUsable(b, sources)
    ensures AllUsable(a, sources) ==>
      CollectAll(ReadsOf(a, sources), enc) == CollectAll(ReadsOf(b, sources), enc)
    ensures ConditionOf(a, sources, enc) == ConditionOf(b, sources, enc)
  {
    OrderDoesNotMatter(a, b, spec, other, KeyNameOf);
  }
}

/** The code of ensureConvertedKeystores, with its loops and its maps, against the specification. */
module KeystoreReconciler {
  import opened Wrappers
  import opened Framing
  import opened Ordering
  import opened Sorting
  import opened ConvertKeystore
  import opened DataFraming

  /** `desired`, `producedBy` and `failures` as the addKey closure fills them. */
  class Collector {
    var desired: map<string, string>
    var producedBy: map<string, string>
    var failures: seq<Failure>

    constructor ()
      ensures View() == NOTHING
    {
      desired, producedBy, failures := map[], map[], [];
    }

    function View(): Collected
      reads this
    {
      Collected(desired, producedBy, failures)
    }

    method AddKeyOf(name: string, item: string, value: string) returns (added: bool)
      modifies this
      ensures View() == AddKey(old(View()), name, item, value)
      ensures added <==> name !in old(producedBy)
    {
      if name in producedBy {
        failures := failures + [Collision(name, producedBy[name], item)];
        return false;
      }
      producedBy := producedBy[name := item];
      desired := desired[name := value];
      return true;
    }

    method Fail(f: Failure)
      modifies this
      ensures View() == old(View()).(failures := old(failures) + [f])
    {
      failures := failures + [f];
    }
  }

  /** The cluster-owned output Secret; `writes` counts the times it was written. */
  class Store {
    const sources: map<string, Source>
    var output: Option<Output>
    var writes: nat

    constructor (s: map<string, Source>, o: Option<Output>)
      ensures sources == s && output == o && writes == 0
    {
      sources, output, writes := s, o, 0;
    }

    method Write(o: Output)
      modifies this
      ensures output == Some(o) && writes == old(writes) + 1
    {
      output, writes := Some(o), writes + 1;
    }
  }

  lemma {:induction false} FlattenSnoc(keys: seq<string>, k: string, data: map<string, string>)
    requires k in data && forall x :: x in keys ==> x in data
    ensures Flatten(keys + [k], data) == Flatten(keys, data) + [k, data[k]]
  {
    if keys == [] {
      assert [] + [k] == [k] && [k][1..] == [];
      assert Flatten([k], data) == [k, data[k]] + Flatten([], data);
    } else {
      assert (keys + [k])[1..] == keys[1..] + [k];
      FlattenSnoc(keys[1..], k, data);
    }
  }

  /** hashConvertKeystoreData: sort the keys, then feed key NUL value NUL. */
  method HashConvertKeystoreData(data: map<string, string>) returns (d: Digest)
    ensures d == DataDigest(data)
  {
    var keys := SortKeys(data.Keys);
    IncreasingIsUnique(keys, Listing(data.Keys));
    var buffer := "";
    for k := 0 to |keys|
      invariant forall x :: x in keys[..k] ==> x in data
      invariant buffer == Frame(Flatten(keys[..k], data))
    {
      assert keys[k] in keys;
      assert keys[..k + 1] == keys[..k] + [keys[k]];
      FlattenSnoc(keys[..k], keys[k], data);
      FrameSnoc(Flatten(keys[..k], data), keys[k]);
      FrameSnoc(Flatten(keys[..k], data) + [keys[k]], data[keys[k]]);
      assert Flatten(keys[..k], data) + [keys[k]] + [data[keys[k]]] == Flatten(keys[..k + 1], data);
      buffer := buffer + keys[k] + [NUL];
      buffer := buffer + data[keys[k]] + [NUL];
    }
    assert keys[..|keys|] == keys;
    return Sha256(buffer);
  }

  lemma {:induction false} ReadFieldsSnoc(rs: seq<Read>, r: Read)
    ensures ReadFields(rs + [r]) == ReadFields(rs) + [r.keyName, r.cert, r.crt, r.key]
  {
    if rs == [] {
      assert [] + [r] == [r] && [r][1..] == [];
      assert ReadFields([r]) == [r.keyName, r.cert, r.crt, r.key] + ReadFields([]);
    } else {
      assert (rs + [r])[1..] == rs[1..] + [r];
      ReadFieldsSnoc(rs[1..], r);
    }
  }

  /** Four fields appended, one at a time. */
  lemma FrameSnocFour(fields: seq<string>, a: string, b: string, c: string, d: string)
    ensures Frame(fields + [a, b, c, d]) == Frame(fields) + a + [NUL] + b + [NUL] + c + [NUL] + d + [NUL]
  {
    FrameSnoc(fields, a);
    FrameSnoc(fields + [a], b);
    FrameSnoc(fields + [a] + [b], c);
    FrameSnoc(fields + [a] + [b] + [c], d);
    assert fields + [a] + [b] + [c] + [d] == fields + [a, b, c, d];
  }

  method HashInputs(version: string, rs: seq<Read>) returns (d: Digest)
    ensures d == InputDigest(version, rs)
  {
    var buffer := ENCODING_VERSION + [NUL] + version + [NUL];
    FrameSnoc([], ENCODING_VERSION);
    FrameSnoc([ENCODING_VERSION], version);
    assert [] + [ENCODING_VERSION] == [ENCODING_VERSION];
    assert [ENCODING_VERSION] + [version] == [ENCODING_VERSION, version] + ReadFields(rs[..0]);
    for k := 0 to |rs|
      invariant buffer == Frame([ENCODING_VERSION, version] + ReadFields(rs[..k]))
    {
      var r := rs[k];
      assert rs[..k + 1] == rs[..k] + [r];
      ReadFieldsSnoc(rs[..k], r);
      FrameSnocFour([ENCODING_VERSION, version] + ReadFields(rs[..k]), r.keyName, r.cert, r.crt, r.key);
      assert [ENCODING_VERSION, version] + ReadFields(rs[..k]) + [r.keyName, r.cert, r.crt, r.key]
          == [ENCODING_VERSION, version] + ReadFields(rs[..k + 1]);
      buffer := buffer + r.keyName + [NUL] + r.cert + [NUL] + r.crt + [NUL] + r.key + [NUL];
    }
    assert rs[..|rs|] == rs;
    return Sha256(buffer);
  }

  /** The conversion loop. */
  method ConvertAll(rs: seq<Read>, enc: Encoder) returns (c: Collector)
    ensures fresh(c) && c.View() == CollectAll(rs, enc)
  {
    c := new Collector();
    for k := 0 to |rs|
      invariant fresh(c) && c.View() == Collect(rs, k, enc)
    {
      var r := rs[k];
      if !enc.converts(r.crt, r.key) {
        c.Fail(NotConverted(r.keyName));
        continue;
      }
      var added := c.AddKeyOf(r.keyName, r.keyName, enc.bytes(k));
      if !added {
        continue;
      }
      if r.cert != "" {
        var _ := c.AddKeyOf(r.cert, r.keyName, r.crt);
      }
    }
  }

  lemma {:induction false} FirstUnusableAt(items: seq<Item>, sources: map<string, Source>, k: nat)
    requires k < |items| && StateOf(items[k], sources) != Usable
    requires forall j :: 0 <= j < k ==> StateOf(items[j], sources) == Usable
    ensures FirstUnusable(items, sources) == StateOf(items[k], sources)
  {
    if k > 0 {
      assert items[1..][k - 1] == items[k];
      FirstUnusableAt(items[1..], sources, k - 1);
    }
  }

  /** Reads every source, or names the first problem. */
  method ReadSources(items: seq<Item>, sources: map<string, Source>) returns (rs: seq<Read>, problem: Option<string>)
    ensures problem.None? <==> AllUsable(items, sources)
    ensures AllUsable(items, sources) ==> rs == ReadsOf(items, sources) && |rs| == |items|
    ensures forall enc :: problem.Some? ==> ConditionOf(items, sources, enc) == Condition(false, problem.value, 0)
  {
    rs := [];
    for k := 0 to |items|
      invariant forall j :: 0 <= j < k ==> StateOf(items[j], sources) == Usable
      invariant rs == seq(k, j requires 0 <= j < k && StateOf(items[j], sources) == Usable => ReadOf(items[j], sources))
    {
      var item := items[k];
      if item.fromSecret !in sources {
        FirstUnusableAt(items, sources, k);
        assert !AllUsable(items, sources) by { assert item in items; }
        return rs, Some("SourceSecretMissing");
      }
      var source := sources[item.fromSecret];
      if source.crt == "" || source.key == "" {
        FirstUnusableAt(items, sources, k);
        assert !AllUsable(items, sources) by { assert item in items; }
        return rs, Some("SourceKeysMissing");
      }
      rs := rs + [Read(item.keyName, item.cert, source.crt, source.key)];
    }
    return rs, None;
  }

  /** ensureConvertedKeystores. When no conversion is asked for the condition goes, and the output is emptied once with
      its hashes removed. */
  method EnsureConvertedKeystores(store: Store, spec: seq<Item>, version: string, enc: Encoder)
    returns (condition: Option<Condition>)
    modifies store
    ensures spec == [] ==>
      && condition == None
      && store.output == (if old(store.output).Some? && old(store.output).value.data != map[]
                          then Some(Output(map[], NoDigest, NoDigest)) else old(store.output))
    ensures spec != [] ==> (exists items ::
      && IsSortOf(items, spec, KeyNameOf)
      && store.output == Reconciled(old(store.output), items, store.sources, version, enc)
      && condition == Some(ConditionOf(items, store.sources, enc))
      && (store.writes > old(store.writes) <==> Writes(old(store.output), items, store.sources, version, enc)))
    ensures store.writes <= old(store.writes) + 1
  {
    hide IsSortOf, CollectAll, StateOf, DataDigest, InputDigest, ReadsOf;
    if spec == [] {
      if store.output.Some? && store.output.value.data != map[] {
        store.Write(Output(map[], NoDigest, NoDigest));
      }
      return None;
    }
    var items := SortBy(spec, KeyNameOf);
    var rs, problem := ReadSources(items, store.sources);
    if problem.Some? {
      return Some(Condition(false, problem.value, 0));
    }
    var inputHash := HashInputs(version, rs);
    var c := ConvertAll(rs, enc);
    if c.desired == map[] {
      return Some(Condition(false, "ConversionFailed", 0));
    }
    var needWrite := true;
    if store.output.Some? {
      var existing := store.output.value;
      var existingHash := HashConvertKeystoreData(existing.data);
      needWrite := existing.inputHash != inputHash || existing.data.Keys != c.desired.Keys || existing.outputHash != existingHash;
    }
    if needWrite {
      var outputHash := HashConvertKeystoreData(c.desired);
      store.Write(Output(c.desired, inputHash, outputHash));
    }
    if c.failures != [] {
      return Some(Condition(false, "PartiallyReady", |rs| - |c.failures|));
    }
    return Some(Condition(true, "Ready", |c.desired|));
  }
}

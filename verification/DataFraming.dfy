/** The hash of a Secret's data, key by key in sorted order, and exactly which contents it cannot tell apart. */
module DataFraming {
  import opened Framing
  import opened Ordering

  function Flatten(keys: seq<string>, data: map<string, string>): seq<string>
    requires forall k :: k in keys ==> k in data
  {
    if keys == [] then [] else [keys[0], data[keys[0]]] + Flatten(keys[1..], data)
  }

  /** hashConvertKeystoreData: the sorted keys with their values. */
  ghost function DataDigest(data: map<string, string>): Digest {
    Sha256(Frame(Flatten(Listing(data.Keys), data)))
  }

  // ---------- Ambiguous contents ----------

  predicate OccursAt(sub: string, s: string, at: nat) {
    at + |sub| <= |s| && s[at..at + |sub|] == sub
  }

  /** What stands between two values. */
  function Separator(key: string): string {
    [NUL] + key + [NUL]
  }

  /** The separator can be read at a second place, in or around one of the two values it stands between. */
  ghost predicate AmbiguousPair(value: string, key: string, next: string) {
    exists at: nat :: at != |value| && OccursAt(Separator(key), value + Separator(key) + next, at)
  }

  ghost predicate AmbiguousAt(keys: seq<string>, data: map<string, string>, i: nat)
    requires forall k :: k in keys ==> k in data
  {
    i < |keys| - 1 && AmbiguousPair(data[keys[i]], keys[i + 1], data[keys[i + 1]])
  }

  ghost predicate Ambiguous(data: map<string, string>) {
    var keys := Listing(data.Keys); exists i :: AmbiguousAt(keys, data, i)
  }

  /** The framed entries. */
  function Body(keys: seq<string>, data: map<string, string>): string
    requires forall k :: k in keys ==> k in data
  {
    Frame(Flatten(keys, data))
  }

  lemma BodyOfFirst(keys: seq<string>, data: map<string, string>)
    requires keys != [] && forall k :: k in keys ==> k in data
    ensures Body(keys, data) == keys[0] + [NUL] + data[keys[0]] + [NUL] + Body(keys[1..], data)
  {
    var rest := Flatten(keys[1..], data);
    assert Flatten(keys, data) == [keys[0]] + ([data[keys[0]]] + rest);
    FrameOfConcat([keys[0]], [data[keys[0]]] + rest);
    FrameOfConcat([data[keys[0]]], rest);
  }

  lemma {:induction false} BodyOfConcat(a: seq<string>, b: seq<string>, data: map<string, string>)
    requires forall k :: k in a + b ==> k in data
    ensures (forall k :: k in a ==> k in data) && (forall k :: k in b ==> k in data)
    ensures Body(a + b, data) == Body(a, data) + Body(b, data)
  {
    if a == [] {
      assert a + b == b;
    } else {
      assert (a + b)[1..] == a[1..] + b;
      assert forall k :: k in a || k in b ==> k in a + b;
      BodyOfConcat(a[1..], b, data);
      hide Body;
      BodyOfFirst(a + b, data);
      BodyOfFirst(a, data);
    }
  }

  /** A value, its terminating NUL, and the entries that follow. */
  function Tail(value: string, keys: seq<string>, data: map<string, string>): string
    requires forall k :: k in keys ==> k in data
  {
    value + [NUL] + Body(keys, data)
  }

  lemma TailOfFirst(value: string, keys: seq<string>, data: map<string, string>)
    requires keys != [] && forall k :: k in keys ==> k in data
    ensures Tail(value, keys, data) == value + Separator(keys[0]) + Tail(data[keys[0]], keys[1..], data)
  {
    BodyOfFirst(keys, data);
  }

  /** Of two equal strings, a middle part of one that ends within a first part of the other occurs in it. */
  lemma Reads(a: string, b: string, c: string, x: string, y: string)
    requires a + b + c == x + y && |a| + |b| <= |x|
    ensures OccursAt(b, x, |a|)
  {
    var s := x + y;
    assert b == (a + b + c)[|a|..|a| + |b|] == s[|a|..|a| + |b|];
    assert x == s[..|x|];
  }

  /** What is left when the longer first part has lost what the shorter one and the separator cover. */
  lemma Strip(reach: string, sep: string, rest: string, v: string, other: string)
    requires reach + sep + rest == v + sep + other && |reach| >= |v|
    ensures (reach + sep)[|v| + |sep|..] + rest == other
  {
    var n := |v| + |sep|;
    assert (reach + sep)[n..] + rest == (reach + sep + rest)[n..];
    assert other == (v + sep + other)[n..];
  }

  lemma SeparatorWithin(reach: string, v: string, key: string, next: string, y: string, z: string)
    requires reach + Separator(key) + y == v + Separator(key) + (next + z)
    requires |reach| <= |v| + |next| && |reach| != |v|
    ensures AmbiguousPair(v, key, next)
  {
    var sep := Separator(key);
    assert v + sep + (next + z) == v + sep + next + z;
    Reads(reach, sep, y, v + sep + next, z);
  }

  /** A value that reaches too far pushes the boundaries along, until one of them comes to lie within the next
      value. `over` is what the boundaries before reach over by. */
  lemma {:induction false} PushesAlong(over: string, a: string, v: string, keys: seq<string>, d: map<string, string>, e: map<string, string>)
    returns (i: nat)
    requires forall k :: k in keys ==> k in d && k in e
    requires over + Tail(a, keys, e) == Tail(v, keys, d) && |over + a| > |v|
    ensures i < |keys| && AmbiguousPair(if i == 0 then v else d[keys[i - 1]], keys[i], d[keys[i]])
    decreases |keys|
  {
    assert keys != [] by { KeysRemain(over + a, v, keys, d, e); }
    TailOfFirst(v, keys, d);
    TailOfFirst(a, keys, e);
    var k, rest, reach := keys[0], keys[1..], over + a;
    var y, z := Tail(e[k], rest, e), Tail(d[k], rest, d);
    assert z == d[k] + ([NUL] + Body(rest, d));
    var sep := Separator(k);
    hide Tail, AmbiguousPair, Separator, Body;
    assert reach + sep + y == v + sep + z;
    if |reach| <= |v| + |d[k]| {
      i := 0;
      SeparatorWithin(reach, v, k, d[k], y, [NUL] + Body(rest, d));
    } else {
      Strip(reach, sep, y, v, z);
      i := PushesAlong((reach + sep)[|v| + |sep|..], e[k], d[k], rest, d, e);
      i := i + 1;
    }
  }

  lemma KeysRemain(reach: string, v: string, keys: seq<string>, d: map<string, string>, e: map<string, string>)
    requires forall k :: k in keys ==> k in d && k in e
    requires |reach| + 1 + |Body(keys, e)| == |v| + 1 + |Body(keys, d)| && |reach| != |v|
    ensures keys != []
  {}

  /** Two contents with the same framed entries: where they differ first, or later, the one is ambiguous. */
  lemma {:induction false} FirstDifference(keys: seq<string>, d: map<string, string>, e: map<string, string>) returns (i: nat)
    requires forall k :: k in keys ==> k in d && k in e
    requires Body(keys, d) == Body(keys, e) && exists k :: k in keys && d[k] != e[k]
    ensures AmbiguousAt(keys, d, i)
  {
    var k, rest := keys[0], keys[1..];
    assert keys == [k] + rest;
    BodyOfFirst(keys, d);
    BodyOfFirst(keys, e);
    hide Body;
    HeadAway(k + [NUL], Tail(d[k], rest, d), Tail(e[k], rest, e)) by {
      assert Body(keys, d) == k + [NUL] + Tail(d[k], rest, d);
      assert Body(keys, e) == k + [NUL] + Tail(e[k], rest, e);
    }
    hide AmbiguousPair;
    if |e[k]| > |d[k]| {
      assert "" + Tail(e[k], rest, e) == Tail(e[k], rest, e) && "" + e[k] == e[k];
      hide Tail;
      i := PushesAlong("", e[k], d[k], rest, d, e);
    } else if |e[k]| < |d[k]| {
      KeysRemain(e[k], d[k], rest, d, e);
      TailOfFirst(d[k], rest, d);
      TailOfFirst(e[k], rest, e);
      i := 0;
      var next := rest[0];
      SeparatorWithin(e[k], d[k], next, d[next], Tail(e[next], rest[1..], e), [NUL] + Body(rest[1..], d)) by {
        assert d[next] + ([NUL] + Body(rest[1..], d)) == Tail(d[next], rest[1..], d);
      }
    } else {
      SameHeads(d[k], e[k], [NUL] + Body(rest, d), [NUL] + Body(rest, e)) by {
        assert Tail(d[k], rest, d) == d[k] + ([NUL] + Body(rest, d));
        assert Tail(e[k], rest, e) == e[k] + ([NUL] + Body(rest, e));
      }
      HeadAway([NUL], Body(rest, d), Body(rest, e));
      i := FirstDifference(rest, d, e);
      i := i + 1;
    }
  }

  lemma HeadAway(head: string, a: string, b: string)
    requires head + a == head + b
    ensures a == b
  {
    assert a == (head + a)[|head|..] == (head + b)[|head|..] == b;
  }

  lemma SameHeads(x: string, y: string, a: string, b: string)
    requires x + a == y + b && |x| == |y|
    ensures x == y && a == b
  {
    assert x == (x + a)[..|x|] == (y + b)[..|y|] == y;
    assert a == (x + a)[|x|..] == (y + b)[|y|..] == b;
  }

  /** The boundary between the values of two keys, moved to another place where the separator occurs. */
  function Moved(data: map<string, string>, k: string, l: string, at: nat): map<string, string>
    requires k in data && l in data && OccursAt(Separator(l), data[k] + Separator(l) + data[l], at)
  {
    var window := data[k] + Separator(l) + data[l];
    data[k := window[..at]][l := window[at + |Separator(l)|..]]
  }

  lemma {:induction false} BodyDependsOnKeys(keys: seq<string>, d: map<string, string>, e: map<string, string>)
    requires forall k :: k in keys ==> k in d && k in e && d[k] == e[k]
    ensures Body(keys, d) == Body(keys, e)
  {
    if keys != [] {
      BodyDependsOnKeys(keys[1..], d, e);
      BodyOfFirst(keys, d);
      BodyOfFirst(keys, e);
    }
  }

  lemma BodyOfTwo(k: string, l: string, data: map<string, string>)
    requires k in data && l in data
    ensures Body([k, l], data) == k + [NUL] + (data[k] + Separator(l) + data[l]) + [NUL]
  {
    BodyOfFirst([k, l], data);
    BodyOfFirst([l], data);
    assert [k, l][1..] == [l] && [l][1..] == [];
    assert Body([], data) == "";
  }

  lemma BodyInParts(before: seq<string>, k: string, l: string, after: seq<string>, data: map<string, string>)
    requires (forall x :: x in before ==> x in data) && (forall x :: x in after ==> x in data) && k in data && l in data
    ensures Body(before + ([k, l] + after), data) ==
      Body(before, data) + (k + [NUL] + (data[k] + Separator(l) + data[l]) + [NUL] + Body(after, data))
  {
    hide Body, Separator;
    BodyOfConcat(before, [k, l] + after, data);
    BodyOfConcat([k, l], after, data);
    BodyOfTwo(k, l, data);
  }

  lemma MovedKeepsWindow(data: map<string, string>, k: string, l: string, at: nat)
    requires k in data && l in data && k != l && OccursAt(Separator(l), data[k] + Separator(l) + data[l], at)
    ensures var e := Moved(data, k, l, at);
      e[k] + Separator(l) + e[l] == data[k] + Separator(l) + data[l] && |e[k]| == at
  {
    hide Separator;
  }

  lemma MovedCollides(keys: seq<string>, data: map<string, string>, i: nat, at: nat)
    requires Increasing(keys) && (forall k :: k in keys ==> k in data) && i + 1 < |keys|
    requires OccursAt(Separator(keys[i + 1]), data[keys[i]] + Separator(keys[i + 1]) + data[keys[i + 1]], at)
    ensures Body(keys, Moved(data, keys[i], keys[i + 1], at)) == Body(keys, data)
  {
    var k, l := keys[i], keys[i + 1];
    var e := Moved(data, k, l, at);
    var before, after := keys[..i], keys[i + 2..];
    NotElsewhere(keys, i);
    MovedKeepsWindow(data, k, l, at);
    assert keys == before + ([k, l] + after);
    hide Body, Increasing, Separator, OccursAt;
    forall x | x in keys ensures x in e {}
    forall x | x in before || x in after ensures x in keys && e[x] == data[x] {}
    BodyDependsOnKeys(before, data, e);
    BodyDependsOnKeys(after, data, e);
    hide Moved;
    BodyInParts(before, k, l, after, data);
    BodyInParts(before, k, l, after, e);
  }

  lemma NotElsewhere(keys: seq<string>, i: nat)
    requires Increasing(keys) && i + 1 < |keys|
    ensures keys[i] != keys[i + 1]
    ensures forall k :: k in keys[..i] || k in keys[i + 2..] ==> k != keys[i] && k != keys[i + 1]
  {
    LessTotal(keys[i], keys[i]);
    LessTotal(keys[i + 1], keys[i + 1]);
    forall k | k in keys[..i] || k in keys[i + 2..] ensures k != keys[i] && k != keys[i + 1] {
      var j :| 0 <= j < |keys| && keys[j] == k && (j < i || j > i + 1);
    }
  }

  /** Another content under the same keys has the same hash. */
  ghost predicate Collides(data: map<string, string>) {
    exists other: map<string, string> :: other.Keys == data.Keys && other != data && DataDigest(other) == DataDigest(data)
  }

  /** Which contents the hash cannot tell from every other content under the same keys. */
  lemma DigestCollidesIff(data: map<string, string>)
    ensures Collides(data) <==> Ambiguous(data)
  {
    var keys := Listing(data.Keys);
    hide AmbiguousPair;
    if Collides(data) {
      var other: map<string, string> :| other.Keys == data.Keys && other != data && DataDigest(other) == DataDigest(data);
      var k :| k in data.Keys && data[k] != other[k];
      var i := FirstDifference(keys, data, other);
    }
    if i :| AmbiguousAt(keys, data, i) {
      AmbiguousCollides(data, i);
    }
  }

  lemma AmbiguousCollides(data: map<string, string>, i: nat)
    requires AmbiguousAt(Listing(data.Keys), data, i)
    ensures Collides(data)
  {
    var keys := Listing(data.Keys);
    var k, l := keys[i], keys[i + 1];
    var at: nat :| at != |data[k]| && OccursAt(Separator(l), data[k] + Separator(l) + data[l], at);
    MovedCollides(keys, data, i, at);
    NotElsewhere(keys, i);
    var other := Moved(data, k, l, at);
    assert other.Keys == data.Keys;
    assert |other[k]| == at;
    assert DataDigest(other) == DataDigest(data);
  }

  ghost predicate NulFreeData(data: map<string, string>) {
    forall k :: k in data ==> NulFree(k) && NulFree(data[k])
  }

  /** Without NULs in the way the separator is found in one place only. */
  lemma NulFreePair(v: string, key: string, next: string)
    requires NulFree(v) && NulFree(key) && NulFree(next)
    ensures !AmbiguousPair(v, key, next)
  {
    var sep := Separator(key);
    var window := v + sep + next;
    forall j | 0 <= j < |window| ensures window[j] == NUL ==> j == |v| || j == |v| + |key| + 1 {
      if j < |v| {
        assert window[j] == v[j] && v[j] in v;
      } else if j > |v| + |key| + 1 {
        assert window[j] == next[j - |v| - |sep|] && window[j] in next;
      } else if |v| < j < |v| + |key| + 1 {
        assert window[j] == key[j - |v| - 1] && window[j] in key;
      }
    }
    forall at: nat | OccursAt(sep, window, at) ensures at == |v| {
      assert window[at] == window[at..at + |sep|][0] == NUL;
      assert window[at + |key| + 1] == window[at..at + |sep|][|key| + 1] == NUL;
    }
  }

  lemma NulFreeIsUnambiguous(data: map<string, string>)
    requires NulFreeData(data)
    ensures !Ambiguous(data)
  {
    hide AmbiguousPair;
    var keys := Listing(data.Keys);
    forall i: nat ensures !AmbiguousAt(keys, data, i) {
      if i + 1 < |keys| {
        assert keys[i] in data && keys[i + 1] in data;
        NulFreePair(data[keys[i]], keys[i + 1], data[keys[i + 1]]);
      }
    }
  }
}

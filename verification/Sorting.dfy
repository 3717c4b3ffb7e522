/** sort.Slice by a string key: an unstable sort promises a permutation in non-decreasing order, no more. */
module Sorting {
  import opened Ordering

  ghost predicate Ordered<T>(s: seq<T>, key: T -> string) {
    forall i, j :: 0 <= i < j < |s| ==> !Less(key(s[j]), key(s[i]))
  }

  /** r is what sort.Slice may leave of s. */
  ghost predicate IsSortOf<T>(r: seq<T>, s: seq<T>, key: T -> string) {
    multiset(r) == multiset(s) && Ordered(r, key)
  }

  ghost predicate UniqueKeys<T>(s: seq<T>, key: T -> string) {
    forall i, j :: 0 <= i < j < |s| ==> key(s[i]) != key(s[j])
  }

  /** Every element occurs once, and its key identifies it. */
  ghost predicate KeysIdentify<T(!new)>(m: multiset<T>, key: T -> string) {
    && (forall x :: x in m ==> m[x] == 1)
    && forall x, y :: x in m && y in m && key(x) == key(y) ==> x == y
  }

  lemma {:induction false} UniqueMeansIdentify<T(!new)>(s: seq<T>, key: T -> string)
    requires UniqueKeys(s, key)
    ensures KeysIdentify(multiset(s), key)
  {
    if s != [] {
      var rest := s[1..];
      assert s == [s[0]] + rest;
      assert UniqueKeys(rest, key) by {
        forall i, j | 0 <= i < j < |rest| ensures key(rest[i]) != key(rest[j]) {
          assert s[i + 1] == rest[i] && s[j + 1] == rest[j];
        }
      }
      UniqueMeansIdentify(rest, key);
      forall x | x in rest ensures key(x) != key(s[0]) {
        var j :| 0 <= j < |rest| && rest[j] == x;
        assert s[j + 1] == x;
      }
      assert multiset(s) == multiset{s[0]} + multiset(rest);
    }
  }

  lemma SameHead<T(!new)>(a: seq<T>, b: seq<T>, key: T -> string)
    requires Ordered(a, key) && Ordered(b, key) && a != [] && b != []
    requires a[0] in b && b[0] in a
    requires KeysIdentify(multiset(a), key)
    ensures a[0] == b[0]
  {
    var i :| 0 <= i < |b| && b[i] == a[0];
    var j :| 0 <= j < |a| && a[j] == b[0];
    LessTotal(key(a[0]), key(b[0]));
  }

  /** When keys identify the elements there is only one sort. */
  lemma {:induction false} SortIsUnique<T(!new)>(a: seq<T>, b: seq<T>, key: T -> string)
    requires multiset(a) == multiset(b) && KeysIdentify(multiset(a), key)
    requires Ordered(a, key) && Ordered(b, key)
    ensures a == b
  {
    hide Less, Ordered, KeysIdentify;
    assert |a| == |multiset(a)| == |multiset(b)| == |b|;
    if a != [] {
      assert a[0] in multiset(b) && b[0] in multiset(a);
      SameHead(a, b, key);
      assert a == [a[0]] + a[1..] && b == [b[0]] + b[1..];
      assert multiset(a) == multiset{a[0]} + multiset(a[1..]);
      assert multiset(b) == multiset{a[0]} + multiset(b[1..]);
      IdentifyTail(multiset(a), a[0], multiset(a[1..]), key);
      OrderedTail(a, key);
      OrderedTail(b, key);
      assert multiset(a[1..]) == multiset(a) - multiset{a[0]} == multiset(b[1..]);
      SortIsUnique(a[1..], b[1..], key);
    }
  }

  lemma IdentifyTail<T(!new)>(m: multiset<T>, x: T, t: multiset<T>, key: T -> string)
    requires KeysIdentify(m, key) && m == multiset{x} + t
    ensures KeysIdentify(t, key)
  {
    forall y | y in t ensures t[y] == 1 {
      assert y in m && m[y] == t[y] + (if y == x then 1 else 0);
    }
    assert forall y :: y in t ==> y in m;
  }

  /** Sorting forgets the order of the list it is given. */
  lemma OrderDoesNotMatter<T(!new)>(a: seq<T>, b: seq<T>, s: seq<T>, t: seq<T>, key: T -> string)
    requires IsSortOf(a, s, key) && IsSortOf(b, t, key)
    requires multiset(s) == multiset(t) && UniqueKeys(s, key)
    ensures a == b
  {
    UniqueMeansIdentify(s, key);
    SortIsUnique(a, b, key);
  }

  lemma OrderedTail<T>(a: seq<T>, key: T -> string)
    requires a != [] && Ordered(a, key)
    ensures Ordered(a[1..], key)
  {
    forall i, j | 0 <= i < j < |a[1..]| ensures !Less(key(a[1..][j]), key(a[1..][i])) {
      assert a[1..][i] == a[i + 1] && a[1..][j] == a[j + 1];
    }
  }

  function InsertBy<T>(s: seq<T>, x: T, key: T -> string): seq<T> {
    if s == [] || Less(key(x), key(s[0])) then [x] + s
    else [s[0]] + InsertBy(s[1..], x, key)
  }

  lemma {:induction false} InsertBySorts<T>(s: seq<T>, x: T, key: T -> string)
    requires Ordered(s, key)
    ensures multiset(InsertBy(s, x, key)) == multiset(s) + multiset{x}
    ensures Ordered(InsertBy(s, x, key), key)
    decreases |s|
  {
    if s != [] {
      var head, rest := s[0], s[1..];
      assert s == [head] + rest;
      if Less(key(x), key(head)) {
        forall j | 0 <= j < |s| ensures !Less(key(s[j]), key(x)) {
          if Less(key(s[j]), key(x)) {
            LessTransitive(key(s[j]), key(x), key(head));
            LessTotal(key(head), key(head));
          }
        }
      } else {
        OrderedTail(s, key);
        InsertBySorts(rest, x, key);
        var r := InsertBy(rest, x, key);
        forall j | 0 <= j < |r| ensures !Less(key(r[j]), key(head)) {
          assert r[j] in multiset(r);
          if r[j] != x {
            var k :| 0 <= k < |rest| && rest[k] == r[j];
            assert s[k + 1] == r[j];
          }
        }
      }
    }
  }

  /** Callers learn no more than sort.Slice promises. */
  method SortBy<T>(s: seq<T>, key: T -> string) returns (r: seq<T>)
    ensures IsSortOf(r, s, key)
  {
    r := [];
    for k := 0 to |s|
      invariant Ordered(r, key) && multiset(r) == multiset(s[..k])
    {
      InsertBySorts(r, s[k], key);
      assert s[..k + 1] == s[..k] + [s[k]];
      r := InsertBy(r, s[k], key);
    }
    assert s[..|s|] == s;
  }
}

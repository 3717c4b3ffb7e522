/** String order, and the sorted listing of a set that sort.Strings yields on map keys. */
module Ordering {

  predicate Less(a: string, b: string) {
    b != "" && (a == "" || a[0] < b[0] || (a[0] == b[0] && Less(a[1..], b[1..])))
  }

  /** The strings agree up to k, and the first one is smaller there. */
  predicate SmallerAt(a: string, b: string, k: nat) {
    k < |a| && k < |b| && a[..k] == b[..k] && a[k] < b[k]
  }

  lemma SmallerLater(a: string, b: string, k: nat)
    requires a != "" && b != "" && a[0] == b[0]
    ensures SmallerAt(a, b, k + 1) <==> SmallerAt(a[1..], b[1..], k)
  {
    if k + 1 <= |a| && k + 1 <= |b| {
      assert a[..k + 1] == [a[0]] + a[1..][..k] && b[..k + 1] == [b[0]] + b[1..][..k];
    }
  }

  /** One string comes before another when it is cut short of it, or smaller where they first differ. */
  lemma {:induction false} LessIsLexicographic(a: string, b: string)
    ensures Less(a, b) <==> a < b || exists k: nat :: SmallerAt(a, b, k)
  {
    if a != "" && b != "" {
      assert a == [a[0]] + a[1..] && b == [b[0]] + b[1..];
      if a[0] == b[0] {
        LessIsLexicographic(a[1..], b[1..]);
        if k: nat :| SmallerAt(a[1..], b[1..], k) { SmallerLater(a, b, k); }
        if k: nat :| SmallerAt(a, b, k) { SmallerLater(a, b, k - 1); }
      } else {
        assert forall k: nat :: 0 < k <= |a| && k <= |b| ==> a[..k][0] != b[..k][0];
        assert SmallerAt(a, b, 0) <==> a[0] < b[0];
      }
    }
  }

  lemma {:induction false} LessTotal(a: string, b: string)
    ensures a == b || Less(a, b) || Less(b, a)
    ensures !(Less(a, b) && Less(b, a)) && !Less(a, a)
  {
    if a != "" && b != "" {
      assert a == [a[0]] + a[1..] && b == [b[0]] + b[1..];
      LessTotal(a[1..], b[1..]);
      LessTotal(a[1..], a[1..]);
    } else if a != "" {
      LessTotal(a[1..], a[1..]);
    }
  }

  lemma {:induction false} LessTransitive(a: string, b: string, c: string)
    requires Less(a, b) && Less(b, c)
    ensures Less(a, c)
  {
    if a != "" && a[0] == b[0] && b[0] == c[0] {
      LessTransitive(a[1..], b[1..], c[1..]);
    }
  }

  /** Strictly increasing. */
  predicate Increasing(s: seq<string>) {
    forall i, j :: 0 <= i < j < |s| ==> Less(s[i], s[j])
  }

  function Insert(s: seq<string>, k: string): seq<string> {
    if s == [] then [k]
    else if Less(k, s[0]) then [k] + s
    else [s[0]] + Insert(s[1..], k)
  }

  lemma {:induction false} InsertIncreasing(s: seq<string>, k: string)
    requires Increasing(s) && k !in s
    ensures Increasing(Insert(s, k))
    ensures forall x :: x in Insert(s, k) <==> x == k || x in s
  {
    if s != [] {
      assert s == [s[0]] + s[1..];
      if Less(k, s[0]) {
        forall j | 0 <= j < |s| ensures Less(k, s[j]) {
          if j > 0 { LessTransitive(k, s[0], s[j]); }
        }
      } else {
        InsertIncreasing(s[1..], k);
        LessTotal(k, s[0]);
        var r := Insert(s[1..], k);
        forall j | 0 <= j < |r| ensures Less(s[0], r[j]) {
          assert r[j] in r;
        }
      }
    }
  }

  lemma TailMembers(s: seq<string>)
    requires Increasing(s) && s != []
    ensures forall x :: x in s[1..] <==> x in s && x != s[0]
  {
    assert s == [s[0]] + s[1..];
    LessTotal(s[0], s[0]);
    forall j | 0 <= j < |s[1..]| ensures s[1..][j] != s[0] {
      assert Less(s[0], s[j + 1]);
    }
  }

  /** A set has one increasing listing only. */
  lemma {:induction false} IncreasingIsUnique(s: seq<string>, t: seq<string>)
    requires Increasing(s) && Increasing(t)
    requires forall x :: x in s <==> x in t
    ensures s == t
  {
    assert s != [] ==> s[0] in s;
    assert t != [] ==> t[0] in t;
    if s != [] {
      assert s[0] in t;
      assert t[0] in s;
      LessTotal(s[0], t[0]);
      assert s[0] == t[0] by {
        var i :| 0 <= i < |t| && t[i] == s[0];
        var j :| 0 <= j < |s| && s[j] == t[0];
      }
      TailMembers(s);
      TailMembers(t);
      IncreasingIsUnique(s[1..], t[1..]);
      assert s == [s[0]] + s[1..] && t == [t[0]] + t[1..];
    }
  }

  /** sort.Strings over the keys of a map, picked in any order. */
  method SortKeys(keys: set<string>) returns (s: seq<string>)
    ensures Increasing(s) && forall x :: x in s <==> x in keys
  {
    s := [];
    var rest := keys;
    while rest != {}
      invariant rest <= keys && Increasing(s)
      invariant forall x :: x in s <==> x in keys && x !in rest
      decreases rest
    {
      var k :| k in rest;
      InsertIncreasing(s, k);
      s := Insert(s, k);
      rest := rest - {k};
    }
  }

  /** The increasing listing of a set exists. */
  lemma {:induction false} ListingExists(keys: set<string>) returns (s: seq<string>)
    ensures Increasing(s) && forall x :: x in s <==> x in keys
    decreases keys
  {
    if keys == {} {
      s := [];
    } else {
      var k :| k in keys;
      var r := ListingExists(keys - {k});
      InsertIncreasing(r, k);
      s := Insert(r, k);
    }
  }

  /** The one increasing listing of a set. */
  ghost function Listing(keys: set<string>): (s: seq<string>)
    ensures Increasing(s) && forall x :: x in s <==> x in keys
  {
    assert exists s :: Increasing(s) && forall x :: x in s <==> x in keys by { var s := ListingExists(keys); }
    var s :| Increasing(s) && forall x :: x in s <==> x in keys;
    s
  }
}

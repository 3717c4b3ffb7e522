/** Sequence facts shared by the models. */
module Sequences {

  lemma NoMembers<T>(s: seq<T>)
    requires forall x :: x !in s
    ensures s == []
  {
    if s != [] {
      var x := SomeMember(s);
    }
  }

  lemma SomeMember<T>(s: seq<T>) returns (x: T)
    requires s != []
    ensures x in s
  {
    x := s[0];
  }

  lemma SameMembers<T(!new)>(a: seq<T>, b: seq<T>)
    requires multiset(a) == multiset(b)
    ensures forall x :: x in a <==> x in b
  {
    forall x ensures x in a <==> x in b {
      assert x in a <==> x in multiset(a);
    }
  }

  /** The elements of s that satisfy p, in order. */
  function Filter<T(!new)>(s: seq<T>, p: T -> bool): (r: seq<T>)
    ensures forall x :: x in r <==> x in s && p(x)
    ensures |r| <= |s|
  {
    if s == [] then []
    else
      var x, before := s[|s| - 1], s[..|s| - 1];
      assert s == before + [x];
      Filter(before, p) + if p(x) then [x] else []
  }

  lemma FilterSnoc<T(!new)>(s: seq<T>, i: nat, p: T -> bool)
    requires i < |s|
    ensures Filter(s[..i + 1], p) == Filter(s[..i], p) + if p(s[i]) then [s[i]] else []
  {
    assert s[..i + 1][..i] == s[..i];
  }

  lemma {:induction false} FilterOfFilter<T(!new)>(s: seq<T>, p: T -> bool, q: T -> bool, r: T -> bool)
    requires forall x :: r(x) <==> p(x) && q(x)
    ensures Filter(Filter(s, p), q) == Filter(s, r)
  {
    if s != [] {
      var x, before := s[|s| - 1], s[..|s| - 1];
      FilterOfFilter(before, p, q, r);
      var f := Filter(before, p);
      assert f + [] == f;
      assert (f + [x])[..|f|] == f;
    }
  }

  lemma {:induction false} FilterSplits<T(!new)>(s: seq<T>, p: T -> bool, q: T -> bool)
    requires forall x :: p(x) <==> !q(x)
    ensures multiset(Filter(s, p)) + multiset(Filter(s, q)) == multiset(s)
  {
    if s != [] {
      FilterSplits(s[..|s| - 1], p, q);
      assert s == s[..|s| - 1] + [s[|s| - 1]];
    }
  }

  lemma {:induction false} FilterKeepsAll<T(!new)>(s: seq<T>, p: T -> bool)
    requires forall x :: x in s ==> p(x)
    ensures Filter(s, p) == s
  {
    if s != [] {
      var before := s[..|s| - 1];
      assert s == before + [s[|s| - 1]];
      FilterKeepsAll(before, p);
    }
  }

  /** r is found in s at increasing positions. */
  predicate Embeds<T(==)>(r: seq<T>, s: seq<T>, at: seq<nat>) {
    && |at| == |r|
    && (forall k :: 0 <= k < |r| ==> at[k] < |s| && r[k] == s[at[k]])
    && forall j, k :: 0 <= j < k < |at| ==> at[j] < at[k]
  }

  lemma {:induction false} FilterEmbeds<T(!new)>(s: seq<T>, p: T -> bool) returns (at: seq<nat>)
    ensures Embeds(Filter(s, p), s, at)
  {
    if s == [] {
      at := [];
    } else {
      at := FilterEmbeds(s[..|s| - 1], p);
      if p(s[|s| - 1]) {
        at := at + [|s| - 1];
      }
    }
  }

  // ---------- The first and the last of a kind ----------

  predicate NoneOf<T>(s: seq<T>, p: T -> bool) {
    forall k :: 0 <= k < |s| ==> !p(s[k])
  }

  predicate FirstOf<T>(s: seq<T>, p: T -> bool, i: nat) {
    i < |s| && p(s[i]) && NoneOf(s[..i], p)
  }

  predicate LastOf<T>(s: seq<T>, p: T -> bool, i: nat) {
    i < |s| && p(s[i]) && NoneOf(s[i + 1..], p)
  }

  lemma NoneSnoc<T>(s: seq<T>, p: T -> bool)
    requires s != []
    ensures var n := |s| - 1; NoneOf(s, p) <==> NoneOf(s[..n], p) && !p(s[n])
  {}

  lemma FirstSnoc<T>(s: seq<T>, p: T -> bool, i: nat)
    requires s != [] && FirstOf(s, p, i)
    ensures var n := |s| - 1; if i < n then FirstOf(s[..n], p, i) && s[..n][i] == s[i] else i == n && NoneOf(s[..n], p)
  {
    if i < |s| - 1 { assert s[..|s| - 1][..i] == s[..i]; }
  }

  lemma LastSnoc<T>(s: seq<T>, p: T -> bool, i: nat)
    requires s != [] && LastOf(s, p, i)
    ensures var n := |s| - 1; if i < n then LastOf(s[..n], p, i) && !p(s[n]) else i == n && p(s[n])
  {
    if i < |s| - 1 {
      var n := |s| - 1;
      assert s[i + 1..][n - i - 1] == s[n];
      var rest := s[..n][i + 1..];
      forall k | 0 <= k < |rest| ensures !p(rest[k]) {
        assert rest[k] == s[i + 1..][k];
      }
    }
  }

  lemma NoneCons<T>(s: seq<T>, p: T -> bool)
    requires s != []
    ensures NoneOf(s, p) <==> !p(s[0]) && NoneOf(s[1..], p)
  {
    assert s == [s[0]] + s[1..];
  }

  lemma FirstCons<T>(s: seq<T>, p: T -> bool, i: nat)
    requires s != [] && FirstOf(s, p, i)
    ensures if i > 0 then !p(s[0]) && FirstOf(s[1..], p, i - 1) && s[1..][i - 1] == s[i] else p(s[0])
  {
    if i > 0 {
      assert s[..i][0] == s[0];
      var before := s[1..][..i - 1];
      forall k | 0 <= k < |before| ensures !p(before[k]) {
        assert before[k] == s[..i][k + 1];
      }
    }
  }

  /** A list has a first one of a kind, or none. */
  lemma {:induction false} FirstOrNone<T>(s: seq<T>, p: T -> bool)
    ensures NoneOf(s, p) <==> !exists i: nat :: FirstOf(s, p, i)
  {
    if !NoneOf(s, p) {
      var n := |s| - 1;
      if NoneOf(s[..n], p) {
        assert FirstOf(s, p, n);
      } else {
        FirstOrNone(s[..n], p);
        var i: nat :| FirstOf(s[..n], p, i);
        assert s[..n][..i] == s[..i];
        assert FirstOf(s, p, i);
      }
    }
  }
}

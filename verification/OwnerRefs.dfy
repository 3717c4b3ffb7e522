/** The canonical controller reference from a node to its cluster. */
module OwnerRefs {
  import opened Wrappers

  const CLUSTER_API: string := "curity.io/v1alpha1"
  const CLUSTER_KIND: string := "IdentityServerCluster"

  /** Controller and BlockOwnerDeletion may be nil in the API; None is nil. */
  datatype OwnerRef = OwnerRef(
    apiVersion: string, kind: string, name: string, uid: nat,
    controller: Option<bool>, blockOwnerDeletion: Option<bool>)

  function Canonical(name: string, uid: nat): OwnerRef {
    OwnerRef(CLUSTER_API, CLUSTER_KIND, name, uid, Some(true), Some(true))
  }

  predicate NamesACluster(r: OwnerRef) {
    r.apiVersion == CLUSTER_API && r.kind == CLUSTER_KIND
  }

  /** ownerRefMatches, asked only of references to a cluster. */
  predicate Matches(got: OwnerRef, want: OwnerRef) {
    && got.uid == want.uid && got.name == want.name
    && got.controller == Some(true) && got.blockOwnerDeletion == Some(true)
  }

  function Select(refs: seq<OwnerRef>, p: OwnerRef -> bool): seq<OwnerRef> {
    if refs == [] then [] else (if p(refs[0]) then [refs[0]] else []) + Select(refs[1..], p)
  }

  function ClusterRefs(refs: seq<OwnerRef>): seq<OwnerRef> {
    Select(refs, NamesACluster)
  }

  function OtherRefs(refs: seq<OwnerRef>): seq<OwnerRef> {
    Select(refs, r => !NamesACluster(r))
  }

  /** The references to keep: every foreign one, and the first match of `want` if none was kept before. */
  function Kept(refs: seq<OwnerRef>, want: OwnerRef, kept: bool): seq<OwnerRef> {
    if refs == [] then []
    else if !NamesACluster(refs[0]) then [refs[0]] + Kept(refs[1..], want, kept)
    else if !kept && Matches(refs[0], want) then [refs[0]] + Kept(refs[1..], want, true)
    else Kept(refs[1..], want, kept)
  }

  predicate HasMatch(refs: seq<OwnerRef>, want: OwnerRef) {
    exists k :: 0 <= k < |refs| && NamesACluster(refs[k]) && Matches(refs[k], want)
  }

  function Owned(refs: seq<OwnerRef>, want: OwnerRef): seq<OwnerRef> {
    Kept(refs, want, false) + (if HasMatch(refs, want) then [] else [want])
  }

  lemma {:induction false} SelectConcat(a: seq<OwnerRef>, b: seq<OwnerRef>, p: OwnerRef -> bool)
    ensures Select(a + b, p) == Select(a, p) + Select(b, p)
  {
    if a == [] {
      assert a + b == b;
    } else {
      assert (a + b)[1..] == a[1..] + b;
      SelectConcat(a[1..], b, p);
    }
  }

  /** Kept loses no foreign reference, and keeps one cluster reference at most: a match. */
  lemma {:induction false} KeptShape(refs: seq<OwnerRef>, want: OwnerRef, kept: bool)
    requires NamesACluster(want) && Matches(want, want)
    ensures OtherRefs(Kept(refs, want, kept)) == OtherRefs(refs)
    ensures ClusterRefs(Kept(refs, want, kept)) == if !kept && HasMatch(refs, want) then [want] else []
  {
    if refs != [] {
      var head, rest := refs[0], refs[1..];
      var k := Kept(rest, want, kept || (NamesACluster(head) && Matches(head, want)));
      KeptShape(rest, want, kept || (NamesACluster(head) && Matches(head, want)));
      assert HasMatch(refs, want) <==> (NamesACluster(head) && Matches(head, want)) || HasMatch(rest, want) by {
        assert refs == [head] + rest;
      }
      assert ([head] + k)[1..] == k;
    }
  }

  /** What ensureClusterOwnerRef leaves: one cluster reference, the canonical one, and every other
      reference in its old order. */
  lemma OwnedIsCanonical(refs: seq<OwnerRef>, name: string, uid: nat)
    ensures var r := Owned(refs, Canonical(name, uid));
      ClusterRefs(r) == [Canonical(name, uid)] && OtherRefs(r) == OtherRefs(refs)
  {
    var want := Canonical(name, uid);
    KeptShape(refs, want, false);
    var tail: seq<OwnerRef> := if HasMatch(refs, want) then [] else [want];
    SelectConcat(Kept(refs, want, false), tail, NamesACluster);
    SelectConcat(Kept(refs, want, false), tail, r => !NamesACluster(r));
  }

  /** Nothing changes exactly when the references were already in that shape. */
  lemma {:induction false} OwnedUnchangedIff(refs: seq<OwnerRef>, name: string, uid: nat)
    ensures Owned(refs, Canonical(name, uid)) == refs <==> ClusterRefs(refs) == [Canonical(name, uid)]
  {
    var want := Canonical(name, uid);
    OwnedIsCanonical(refs, name, uid);
    if ClusterRefs(refs) == [want] {
      SelectedOccurs(refs, want, NamesACluster);
      KeptAll(refs, want, false);
    }
  }

  lemma {:induction false} SelectedOccurs(refs: seq<OwnerRef>, r: OwnerRef, p: OwnerRef -> bool)
    requires r in Select(refs, p)
    ensures r in refs && p(r)
  {
    if r !in (if p(refs[0]) then [refs[0]] else []) {
      SelectedOccurs(refs[1..], r, p);
    }
  }

  lemma {:induction false} KeptAll(refs: seq<OwnerRef>, want: OwnerRef, kept: bool)
    requires NamesACluster(want) && Matches(want, want)
    requires ClusterRefs(refs) == if kept then [] else [want]
    ensures Kept(refs, want, kept) == refs
  {
    if refs != [] {
      assert refs == [refs[0]] + refs[1..];
      if NamesACluster(refs[0]) {
        assert ClusterRefs(refs)[0] == refs[0];
        assert ClusterRefs(refs[1..]) == ClusterRefs(refs)[1..];
        KeptAll(refs[1..], want, true);
      } else {
        assert ClusterRefs(refs) == ClusterRefs(refs[1..]);
        KeptAll(refs[1..], want, kept);
      }
    }
  }

  /** A second reconcile finds nothing to patch. */
  lemma OwnedIdempotent(refs: seq<OwnerRef>, name: string, uid: nat)
    ensures var want := Canonical(name, uid); Owned(Owned(refs, want), want) == Owned(refs, want)
  {
    OwnedIsCanonical(refs, name, uid);
    OwnedUnchangedIff(Owned(refs, Canonical(name, uid)), name, uid);
  }

  class Node {
    var ownerReferences: seq<OwnerRef>

    constructor (refs: seq<OwnerRef>)
      ensures ownerReferences == refs
    {
      ownerReferences := refs;
    }
  }

  lemma {:induction false} KeptSnoc(refs: seq<OwnerRef>, r: OwnerRef, want: OwnerRef)
    requires NamesACluster(want)
    ensures Kept(refs + [r], want, false) == Kept(refs, want, false) +
            (if !NamesACluster(r) || (!HasMatch(refs, want) && Matches(r, want)) then [r] else [])
  {
    KeptSnocFrom(refs, r, want, false);
  }

  lemma {:induction false} KeptSnocFrom(refs: seq<OwnerRef>, r: OwnerRef, want: OwnerRef, kept: bool)
    ensures Kept(refs + [r], want, kept) == Kept(refs, want, kept) +
            (if !NamesACluster(r) || (!kept && !HasMatch(refs, want) && Matches(r, want)) then [r] else [])
  {
    if refs == [] {
      assert [] + [r] == [r] && [r][1..] == [];
    } else {
      var head := refs[0];
      assert (refs + [r])[1..] == refs[1..] + [r];
      assert HasMatch(refs, want) <==> (NamesACluster(head) && Matches(head, want)) || HasMatch(refs[1..], want) by {
        assert refs == [head] + refs[1..];
      }
      KeptSnocFrom(refs[1..], r, want, kept || (NamesACluster(head) && Matches(head, want)));
    }
  }

  /** ensureClusterOwnerRef: one pass over the references, and the answer whether a patch is needed. */
  method EnsureClusterOwnerRef(node: Node, clusterName: string, clusterUid: nat) returns (changed: bool)
    modifies node
    ensures node.ownerReferences == Owned(old(node.ownerReferences), Canonical(clusterName, clusterUid))
    ensures changed <==> node.ownerReferences != old(node.ownerReferences)
  {
    var want := Canonical(clusterName, clusterUid);
    var refs := node.ownerReferences;
    var filtered: seq<OwnerRef> := [];
    var kept := false;
    for k := 0 to |refs|
      invariant filtered == Kept(refs[..k], want, false)
      invariant kept <==> HasMatch(refs[..k], want)
      invariant node.ownerReferences == refs
    {
      var r := refs[k];
      KeptSnoc(refs[..k], r, want);
      assert refs[..k + 1] == refs[..k] + [r];
      assert HasMatch(refs[..k + 1], want) <==> HasMatch(refs[..k], want) || (NamesACluster(r) && Matches(r, want)) by {
        assert refs[..k + 1][k] == r;
        if HasMatch(refs[..k], want) {
          var j :| 0 <= j < k && NamesACluster(refs[..k][j]) && Matches(refs[..k][j], want);
          assert refs[..k + 1][j] == refs[..k][j];
        }
        if HasMatch(refs[..k + 1], want) {
          var j :| 0 <= j < k + 1 && NamesACluster(refs[..k + 1][j]) && Matches(refs[..k + 1][j], want);
          assert j < k ==> refs[..k][j] == refs[..k + 1][j];
        }
      }
      if NamesACluster(r) {
        if !kept && Matches(r, want) {
          filtered := filtered + [r];
          kept := true;
        }
        continue;
      }
      filtered := filtered + [r];
    }
    assert refs[..|refs|] == refs;
    if !kept {
      filtered := filtered + [want];
    }
    assert filtered == Owned(refs, want);
    changed := refs != filtered;
    if changed {
      node.ownerReferences := filtered;
    }
  }
}

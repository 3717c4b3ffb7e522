/** The inputs of cluster.xml and the hash that stands for them in annotations. */
module ConfigHash {
  import opened Framing
  import opened Text

  const DEFAULT_CONFIG_PORT: nat := 6789

  /** What computeClusterConfigHash reads: image, pull secret, admin node, packages hash, config port. */
  datatype Inputs = Inputs(image: string, pullSecret: string, admin: string, packagesHash: string, configPort: nat)

  /** No field carries a NUL, and the packages hash is not mistakable for the port suffix
      (it is empty or a hexadecimal digest). */
  ghost predicate WellFormed(i: Inputs) {
    && NulFree(i.image) && NulFree(i.pullSecret) && NulFree(i.admin) && NulFree(i.packagesHash)
    && !("cfgport=" <= i.packagesHash)
  }

  /** The bytes that are hashed; packages and port are appended only when they differ from the default. */
  function Preimage(i: Inputs): string {
    "v1" + [NUL] + i.image + [NUL] + i.pullSecret + [NUL] + i.admin
    + (if i.packagesHash != "" then [NUL] + i.packagesHash else "")
    + (if i.configPort != DEFAULT_CONFIG_PORT then [NUL] + "cfgport=" + Decimal(i.configPort) else "")
  }

  function ConfigDigest(i: Inputs): (d: Digest)
    ensures d != NoDigest
  {
    Sha256(Preimage(i))
  }

  ghost function PortSuffix(i: Inputs): seq<string> {
    if i.configPort != DEFAULT_CONFIG_PORT then ["cfgport=" + Decimal(i.configPort)] else []
  }

  ghost function OptionalFields(i: Inputs): seq<string> {
    (if i.packagesHash != "" then [i.packagesHash] else []) + PortSuffix(i)
  }

  ghost function Fields(i: Inputs): seq<string> {
    ["v1", i.image, i.pullSecret, i.admin] + OptionalFields(i)
  }

  /** The pre-image, closed by the NUL it leaves out at its end, is the frame of its fields. */
  lemma PreimageIsFramed(i: Inputs)
    ensures Preimage(i) + [NUL] == Frame(Fields(i))
  {
    var head := ["v1", i.image, i.pullSecret, i.admin];
    var pkg: seq<string> := if i.packagesHash != "" then [i.packagesHash] else [];
    FrameOfConcat(head, OptionalFields(i));
    FrameOfConcat(pkg, PortSuffix(i));
    FrameOfFour("v1", i.image, i.pullSecret, i.admin);
    var h := "v1" + [NUL] + i.image + [NUL] + i.pullSecret + [NUL] + i.admin;
    var p := if i.packagesHash != "" then [NUL] + i.packagesHash else "";
    var q := if i.configPort != DEFAULT_CONFIG_PORT then [NUL] + "cfgport=" + Decimal(i.configPort) else "";
    assert Preimage(i) == h + p + q;
    assert Frame(head) == h + [NUL];
    assert p + [NUL] == [NUL] + Frame(pkg);
    assert q + [NUL] == [NUL] + Frame(PortSuffix(i));
    Rotate(h, p, q, Frame(pkg), Frame(PortSuffix(i)));
  }

  lemma Rotate(h: string, p: string, q: string, fp: string, fq: string)
    requires p + [NUL] == [NUL] + fp && q + [NUL] == [NUL] + fq
    ensures h + p + q + [NUL] == h + [NUL] + (fp + fq)
  {
    calc {
      h + p + q + [NUL];
      h + p + (q + [NUL]);
      h + (p + [NUL]) + fq;
      h + [NUL] + (fp + fq);
    }
  }

  lemma OptionalFieldsInjective(i: Inputs, j: Inputs)
    requires WellFormed(i) && WellFormed(j)
    requires OptionalFields(i) == OptionalFields(j)
    ensures i.packagesHash == j.packagesHash && i.configPort == j.configPort
  {
    var oi, oj := OptionalFields(i), OptionalFields(j);
    var pi, pj := "cfgport=" + Decimal(i.configPort), "cfgport=" + Decimal(j.configPort);
    assert "cfgport=" <= pi && "cfgport=" <= pj;
    assert pi[8..] == Decimal(i.configPort) && pj[8..] == Decimal(j.configPort);
    assert oi != [] ==> oi[0] == oj[0];
    if i.configPort != DEFAULT_CONFIG_PORT && j.configPort != DEFAULT_CONFIG_PORT {
      assert oi[|oi| - 1] == pi && oj[|oj| - 1] == pj;
      DecimalInjective(i.configPort, j.configPort);
    }
  }

  /** Equal config hashes mean equal inputs: no two well-formed specs share a hash. */
  lemma ConfigDigestInjective(i: Inputs, j: Inputs)
    requires WellFormed(i) && WellFormed(j)
    ensures ConfigDigest(i) == ConfigDigest(j) <==> i == j
  {
    if ConfigDigest(i) == ConfigDigest(j) {
      PreimageIsFramed(i);
      PreimageIsFramed(j);
      FrameInjective(Fields(i), Fields(j));
      assert Fields(i)[1] == Fields(j)[1] && Fields(i)[2] == Fields(j)[2] && Fields(i)[3] == Fields(j)[3];
      assert OptionalFields(i) == Fields(i)[4..] && OptionalFields(j) == Fields(j)[4..];
      OptionalFieldsInjective(i, j);
    }
  }

  /** The admin is an object's name and the packages hash is empty or hexadecimal, so neither holds a NUL or is
      mistakable for the port suffix. Image and pull secret are free text. */
  ghost predicate Legal(i: Inputs) {
    && NulFree(i.admin) && !("cfgport=" <= i.admin)
    && NulFree(i.packagesHash) && !("cfgport=" <= i.packagesHash)
  }

  /** A NUL that can be read as the end of another field: one in a value, or the one before the packages hash. */
  predicate HasMovableNul(i: Inputs) {
    NUL in i.image || NUL in i.pullSecret || i.packagesHash != ""
  }

  /** The place of the NUL that moves. */
  predicate MovesAt(i: Inputs, k: nat) {
    if NUL in i.image then k < |i.image| && i.image[k] == NUL
    else NUL in i.pullSecret ==> k < |i.pullSecret| && i.pullSecret[k] == NUL
  }

  /** The spec that reads it so. */
  function Misread(i: Inputs, k: nat): Inputs
    requires MovesAt(i, k)
  {
    if NUL in i.image then i.(image := i.image[..k], pullSecret := i.image[k + 1..] + [NUL] + i.pullSecret)
    else if NUL in i.pullSecret then
      i.(image := i.image + [NUL] + i.pullSecret[..k], pullSecret := i.pullSecret[k + 1..])
    else Inputs(i.image + [NUL] + i.pullSecret, i.admin, i.packagesHash, "", i.configPort)
  }

  lemma SameJoin(i: Inputs, j: Inputs)
    requires i.image + [NUL] + i.pullSecret == j.image + [NUL] + j.pullSecret
    requires i.admin == j.admin && i.packagesHash == j.packagesHash && i.configPort == j.configPort
    ensures Preimage(i) == Preimage(j)
  {
    var head := "v1" + [NUL];
    assert head + i.image + [NUL] + i.pullSecret == head + (i.image + [NUL] + i.pullSecret);
    assert head + j.image + [NUL] + j.pullSecret == head + (j.image + [NUL] + j.pullSecret);
  }

  /** Every spec with such a NUL shares its hash with the one that moves the boundary. */
  lemma NulBreaksConfigDigest(i: Inputs, k: nat)
    requires HasMovableNul(i) && MovesAt(i, k)
    ensures Misread(i, k) != i && ConfigDigest(Misread(i, k)) == ConfigDigest(i)
  {
    var j := Misread(i, k);
    assert |j.image| != |i.image|;
    hide Preimage, Decimal;
    if NUL in i.image {
      assert i.image + [NUL] + i.pullSecret == j.image + [NUL] + j.pullSecret;
      SameJoin(i, j);
    } else if NUL in i.pullSecret {
      assert i.image + [NUL] + i.pullSecret == j.image + [NUL] + j.pullSecret;
      SameJoin(i, j);
    }
  }

  /** NUL-free fields are told apart from any list of at least as many. */
  lemma {:induction false} FrameDetermines(a: seq<string>, b: seq<string>)
    requires (forall f :: f in a ==> NulFree(f)) && |a| <= |b| && Frame(a) == Frame(b)
    ensures a == b
    decreases |a|
  {
    if a == [] {
      assert |Frame(b)| == 0;
    } else {
      var x, y := a[0], b[0];
      var s, t := x + [NUL] + Frame(a[1..]), y + [NUL] + Frame(b[1..]);
      assert s == t;
      assert x in a;
      assert s[..|x|] == x && t[..|y|] == y && t[|y|] == NUL;
      forall k | 0 <= k < |x| ensures s[k] != NUL { assert s[k] == x[k] && x[k] in x; }
      var more := y[if |x| < |y| then |x| + 1 else 0..];
      if |x| < |y| {
        assert Frame(a[1..]) == s[|x| + 1..] == t[|x| + 1..] == more + [NUL] + Frame(b[1..]);
        var c := [more] + b[1..];
        assert c[1..] == b[1..] && Frame(c) == more + [NUL] + Frame(b[1..]);
        FrameDetermines(a[1..], c);
      } else {
        assert Frame(a[1..]) == s[|x| + 1..] == t[|x| + 1..] == Frame(b[1..]);
        FrameDetermines(a[1..], b[1..]);
        assert a == [x] + a[1..] && b == [y] + b[1..];
      }
    }
  }

  /** What follows the last NUL of two equal strings is equal. */
  lemma LastsAgree(a: string, b: string, before: string, other: string)
    requires NulFree(a) && NulFree(b) && before + [NUL] + a == other + [NUL] + b
    ensures a == b
  {
    var s, t := before + [NUL] + a, other + [NUL] + b;
    forall k | |before| < k < |s| ensures s[k] != NUL { assert s[k] == a[k - |before| - 1] && s[k] in a; }
    forall k | |other| < k < |t| ensures t[k] != NUL { assert t[k] == b[k - |other| - 1] && t[k] in b; }
    assert s[|before|] == NUL == t[|other|];
    assert a == s[|before| + 1..] == t[|other| + 1..] == b;
  }

  /** Some other legal spec has the same hash. */
  ghost predicate Shared(i: Inputs) {
    exists j :: Legal(j) && j != i && ConfigDigest(j) == ConfigDigest(i)
  }

  /** A port of one's own does not pass for an admin. */
  lemma PortIsNoAdmin(i: Inputs, j: Inputs)
    requires Legal(i) && Legal(j) && i.packagesHash == "" && Preimage(i) == Preimage(j)
    ensures OptionalFields(i) == [] || OptionalFields(j) != []
  {
    if OptionalFields(i) != [] && OptionalFields(j) == [] {
      var hi := "v1" + [NUL] + i.image + [NUL] + i.pullSecret + [NUL] + i.admin;
      var hj := "v1" + [NUL] + j.image + [NUL] + j.pullSecret;
      var port := "cfgport=" + Decimal(i.configPort);
      assert Preimage(i) == hi + [NUL] + port && Preimage(j) == hj + [NUL] + j.admin;
      assert NulFree(port) && "cfgport=" <= port;
      LastsAgree(port, j.admin, hi, hj);
    }
  }

  lemma PlainIsUnique(i: Inputs, j: Inputs)
    requires Legal(i) && Legal(j) && !HasMovableNul(i) && Preimage(i) == Preimage(j)
    ensures i == j
  {
    PreimageIsFramed(i);
    PreimageIsFramed(j);
    PortIsNoAdmin(i, j);
    hide Preimage, Frame;
    assert |Fields(i)| <= |Fields(j)|;
    FrameDetermines(Fields(i), Fields(j));
    assert Fields(i)[1] == Fields(j)[1] && Fields(i)[2] == Fields(j)[2] && Fields(i)[3] == Fields(j)[3];
    assert OptionalFields(i) == Fields(i)[4..] && OptionalFields(j) == Fields(j)[4..];
    OptionalFieldsInjective(i, j);
  }

  /** Against specs whose image or pull secret may hold NULs: the hash is a spec's own exactly when it has no NUL that
      can move. */
  lemma ConfigDigestSharedIff(i: Inputs)
    requires Legal(i)
    ensures Shared(i) <==> HasMovableNul(i)
  {
    if HasMovableNul(i) {
      var k := MovingPlace(i);
      NulBreaksConfigDigest(i, k);
      assert Legal(Misread(i, k));
    } else {
      forall j | Legal(j) && ConfigDigest(j) == ConfigDigest(i) ensures j == i { PlainIsUnique(i, j); }
    }
  }

  lemma MovingPlace(i: Inputs) returns (k: nat)
    ensures MovesAt(i, k)
  {
    k := 0;
    if NUL in i.image {
      k :| k < |i.image| && i.image[k] == NUL;
    } else if NUL in i.pullSecret {
      k :| k < |i.pullSecret| && i.pullSecret[k] == NUL;
    }
  }
}

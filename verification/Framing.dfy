/** Digests are collision-free: a digest is its own pre-image. What remains to be proved is that the
    byte strings fed to SHA-256 determine the fields they were built from. */
module Framing {

  /** The value of a hash annotation; `NoDigest` is the empty string or a missing key. */
  datatype Digest = NoDigest | Sha256(preimage: string)

  const NUL: char := '\0'

  ghost predicate NulFree(s: string) {
    NUL !in s
  }

  /** Writes every field followed by one NUL byte, as the hashing loops do. */
  function Frame(fields: seq<string>): string {
    if fields == [] then "" else fields[0] + [NUL] + Frame(fields[1..])
  }

  /** Two heads free of a separator, followed by it in equal strings, are equal, and so are the rests. */
  lemma HeadsAgreeAt(sep: char, a: string, b: string, restA: string, restB: string)
    requires sep !in a && sep !in b
    requires a + [sep] + restA == b + [sep] + restB
    ensures a == b && restA == restB
  {
    var s, t := a + [sep] + restA, b + [sep] + restB;
    assert s[|a|] == sep && t[|b|] == sep;
    forall k | 0 <= k < |a| ensures s[k] != sep {
      assert s[k] == a[k] && a[k] in a;
    }
    forall k | 0 <= k < |b| ensures t[k] != sep {
      assert t[k] == b[k] && b[k] in b;
    }
    assert a == s[..|a|] && b == t[..|b|];
    assert restA == s[|a| + 1..] && restB == t[|b| + 1..];
  }

  lemma HeadsAgree(a: string, b: string, restA: string, restB: string)
    requires NulFree(a) && NulFree(b)
    requires a + [NUL] + restA == b + [NUL] + restB
    ensures a == b && restA == restB
  {
    HeadsAgreeAt(NUL, a, b, restA, restB);
  }

  /** NUL-framing can be parsed back: NUL-free fields are recovered from the framed bytes. */
  lemma {:induction false} FrameInjective(a: seq<string>, b: seq<string>)
    requires forall f :: f in a ==> NulFree(f)
    requires forall f :: f in b ==> NulFree(f)
    requires Frame(a) == Frame(b)
    ensures a == b
  {
    if a == [] || b == [] {
      assert |Frame(a)| == |Frame(b)|;
    } else {
      HeadsAgree(a[0], b[0], Frame(a[1..]), Frame(b[1..]));
      FrameInjective(a[1..], b[1..]);
      assert a == [a[0]] + a[1..] && b == [b[0]] + b[1..];
    }
  }

  lemma {:induction false} FrameOfConcat(a: seq<string>, b: seq<string>)
    ensures Frame(a + b) == Frame(a) + Frame(b)
  {
    if a == [] {
      assert a + b == b;
    } else {
      assert (a + b)[1..] == a[1..] + b;
      FrameOfConcat(a[1..], b);
      assert Frame(a + b) == a[0] + [NUL] + (Frame(a[1..]) + Frame(b));
    }
  }

  /** Appending one more field to a framed buffer. */
  lemma FrameSnoc(fields: seq<string>, f: string)
    ensures Frame(fields + [f]) == Frame(fields) + f + [NUL]
  {
    FrameOfConcat(fields, [f]);
  }

  lemma FrameOfFour(a: string, b: string, c: string, d: string)
    ensures Frame([a, b, c, d]) == a + [NUL] + b + [NUL] + c + [NUL] + d + [NUL]
  {
    assert [a, b, c, d] == [a, b] + [c, d] && [a, b] == [a] + [b] && [c, d] == [c] + [d];
    FrameOfConcat([a, b], [c, d]);
    FrameOfConcat([a], [b]);
    FrameOfConcat([c], [d]);
  }
}

/** The string operations of the Go library that the reconcilers lean on. */
module Text {

  /** strings.Index: the first position at which sub occurs, or -1. */
  function IndexOf(s: string, sub: string): (k: int)
    ensures -1 <= k <= |s|
    ensures k >= 0 ==> k + |sub| <= |s| && s[k..k + |sub|] == sub
  {
    if sub <= s then
      assert s[0..|sub|] == sub;
      0
    else if s == "" then -1
    else
      var k := IndexOf(s[1..], sub);
      if k < 0 then -1
      else
        assert s[k + 1..k + 1 + |sub|] == s[1..][k..k + |sub|];
        k + 1
  }

  /** strings.Contains. */
  predicate Contains(s: string, sub: string) {
    IndexOf(s, sub) >= 0
  }

  /** strings.Replace with n = 1: only the first occurrence is rewritten. */
  function ReplaceFirst(s: string, old_: string, new_: string): string {
    var k := IndexOf(s, old_);
    if k < 0 then s else s[..k] + new_ + s[k + |old_|..]
  }

  /** IndexOf finds the first occurrence: no earlier position holds one. */
  lemma {:induction false} IndexOfIsFirst(s: string, sub: string, p: nat)
    requires p + |sub| <= |s| && s[p..p + |sub|] == sub
    ensures 0 <= IndexOf(s, sub) <= p
  {
    if p == 0 {
      assert s[..|sub|] == sub;
    } else if !(sub <= s) {
      assert s[1..][p - 1..p - 1 + |sub|] == s[p..p + |sub|];
      IndexOfIsFirst(s[1..], sub, p - 1);
    }
  }

  /** After a replacement the new text occurs, framed by exactly the bytes that framed the old text. */
  lemma ReplaceFirstKeepsTheRest(s: string, old_: string, new_: string)
    requires Contains(s, old_)
    ensures exists pre, post :: s == pre + old_ + post && ReplaceFirst(s, old_, new_) == pre + new_ + post
    ensures Contains(ReplaceFirst(s, old_, new_), new_)
  {
    var k := IndexOf(s, old_);
    var pre, post := s[..k], s[k + |old_|..];
    assert s == pre + old_ + post;
    var r := ReplaceFirst(s, old_, new_);
    assert r == pre + new_ + post;
    assert r[k..k + |new_|] == new_;
    IndexOfIsFirst(r, new_, k);
  }

  /** strconv.Itoa on the non-negative range. */
  function Decimal(n: nat): (s: string)
    ensures |s| > 0
    ensures forall c :: c in s ==> '0' <= c <= '9'
  {
    var d := ['0' + (n % 10) as char];
    if n < 10 then d else Decimal(n / 10) + d
  }

  /** The number that a row of digits denotes. */
  function ValueOf(s: string): int {
    if s == "" then 0 else 10 * ValueOf(s[..|s| - 1]) + (s[|s| - 1] as int - '0' as int)
  }

  lemma {:induction false} DecimalValue(n: nat)
    ensures ValueOf(Decimal(n)) == n
  {
    var d := Decimal(n);
    assert d[|d| - 1] as int - '0' as int == n % 10;
    if n < 10 {
      assert d[..|d| - 1] == "";
    } else {
      assert d[..|d| - 1] == Decimal(n / 10);
      DecimalValue(n / 10);
    }
  }

  lemma DecimalInjective(m: nat, n: nat)
    requires Decimal(m) == Decimal(n)
    ensures m == n
  {
    DecimalValue(m);
    DecimalValue(n);
  }

  /** strconv.Itoa. */
  function Itoa(n: int): (s: string)
    ensures |s| > 0
    ensures forall c :: c in s ==> c == '-' || '0' <= c <= '9'
  {
    if n < 0 then "-" + Decimal(-n) else Decimal(n)
  }

  lemma ItoaInjective(m: int, n: int)
    requires Itoa(m) == Itoa(n)
    ensures m == n
  {
    var a, b := Itoa(m), Itoa(n);
    assert a[0] in a && b[0] in b;
    assert n >= 0 ==> b[0] in Decimal(n);
    assert m >= 0 ==> a[0] in Decimal(m);
    if m < 0 {
      assert a[1..] == Decimal(-m) && b[1..] == Decimal(-n);
      DecimalInjective(-m, -n);
    } else {
      DecimalInjective(m, n);
    }
  }

  /** unicode.IsSpace. */
  predicate IsSpace(c: char) {
    || '\t' <= c <= '\r' || c == ' ' || c == '\U{85}' || c == '\U{A0}' || c == '\U{1680}'
    || '\U{2000}' <= c <= '\U{200A}' || c == '\U{2028}' || c == '\U{2029}' || c == '\U{202F}'
    || c == '\U{205F}' || c == '\U{3000}'
  }

  /** strings.TrimSpace. */
  function TrimSpace(s: string): (t: string)
    ensures t != "" ==> !IsSpace(t[0]) && !IsSpace(t[|t| - 1])
    ensures (s != "" ==> !IsSpace(s[0]) && !IsSpace(s[|s| - 1])) ==> t == s
    ensures t == "" <==> forall c :: c in s ==> IsSpace(c)
    ensures forall c :: c in t ==> c in s
  {
    if s == "" then ""
    else if IsSpace(s[0]) then
      assert s == [s[0]] + s[1..];
      TrimSpace(s[1..])
    else if IsSpace(s[|s| - 1]) then
      assert s == s[..|s| - 1] + [s[|s| - 1]];
      TrimSpace(s[..|s| - 1])
    else s
  }

  /** Nothing but blanks is lost, and only at the ends. */
  lemma {:induction false} TrimSpaceCutsBlanks(s: string) returns (i: nat, j: nat)
    ensures i <= j <= |s| && TrimSpace(s) == s[i..j]
    ensures forall k :: 0 <= k < i || j <= k < |s| ==> IsSpace(s[k])
  {
    i, j := 0, |s|;
    hide IsSpace;
    if s != "" && IsSpace(s[0]) {
      i, j := TrimSpaceCutsBlanks(s[1..]);
      assert s[1..][i..j] == s[i + 1..j + 1] && forall k :: 0 < k < |s| ==> s[1..][k - 1] == s[k];
      i, j := i + 1, j + 1;
    } else if s != "" && IsSpace(s[|s| - 1]) {
      i, j := TrimSpaceCutsBlanks(s[..|s| - 1]);
      assert s[..|s| - 1][i..j] == s[i..j];
    }
  }

  /** strings.Split on one character: there is always at least one field. */
  function Split(s: string, sep: char): (fields: seq<string>)
    ensures fields != []
    ensures forall f :: f in fields ==> sep !in f
  {
    if s == "" then [""]
    else
      var rest := Split(s[1..], sep);
      if s[0] == sep then [""] + rest
      else [[s[0]] + rest[0]] + rest[1..]
  }

  function Join(fields: seq<string>, sep: char): string
    requires fields != []
  {
    if |fields| == 1 then fields[0] else fields[0] + [sep] + Join(fields[1..], sep)
  }

  lemma {:induction false} SplitStep(f: string, rest: string, sep: char)
    requires sep !in f
    ensures Split(f + [sep] + rest, sep) == [f] + Split(rest, sep)
    ensures Split(f, sep) == [f]
  {
    if f == "" {
      assert f + [sep] + rest == [sep] + rest;
    } else {
      assert f == [f[0]] + f[1..];
      assert (f + [sep] + rest)[1..] == f[1..] + [sep] + rest;
      SplitStep(f[1..], rest, sep);
    }
  }

  /** Splitting undoes joining. */
  lemma {:induction false} SplitOfJoin(fields: seq<string>, sep: char)
    requires fields != [] && forall f :: f in fields ==> sep !in f
    ensures Split(Join(fields, sep), sep) == fields
  {
    assert fields == [fields[0]] + fields[1..];
    if |fields| == 1 {
      SplitStep(fields[0], "", sep);
    } else {
      SplitOfJoin(fields[1..], sep);
      SplitStep(fields[0], Join(fields[1..], sep), sep);
    }
  }
}

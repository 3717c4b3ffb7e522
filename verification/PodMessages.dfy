/** The texts shown about failing containers: quoting, cutting, and the summary of a log tail. */
module PodMessages {
  import opened Sequences
  import opened Text

  /** truncateMessage. */
  function Truncate(s: string, max: nat): (t: string)
    ensures |t| <= max + 1
  {
    if |s| > max then s[..max] + "\U{2026}" else s
  }

  /** %q, on text that holds nothing to escape. */
  function Quote(s: string): string {
    "\"" + s + "\""
  }

  /** joinReasonDetail. */
  function JoinReasonDetail(reason: string, message: string): string {
    var m := TrimSpace(message);
    if m == "" then reason else reason + " (" + Truncate(m, 200) + ")"
  }

  const CAUSED_BY: string := "Caused by:"

  /** A blank line or a stack frame. */
  predicate IsFrame(line: string) {
    line == "" || "at " <= line || "..." <= line
  }

  /** What the scan of the trimmed lines keeps: the last cause, the first exception, the first other line. */
  datatype Found = Found(causedBy: string, exception: string, other: string)

  function Take(f: Found, line: string): Found {
    if IsFrame(line) then f
    else if CAUSED_BY <= line then f.(causedBy := line)
    else if f.exception == "" && (Contains(line, "Exception") || Contains(line, "Error")) then f.(exception := line)
    else if f.other == "" then f.(other := line)
    else f
  }

  function Scan(lines: seq<string>): Found {
    if lines == [] then Found("", "", "")
    else Take(Scan(lines[..|lines| - 1]), TrimSpace(lines[|lines| - 1]))
  }

  /** isJavaThrowableName. */
  predicate IsThrowable(s: string) {
    s != "" && ' ' !in s && '\t' !in s && '.' in s && (Contains(s, "Exception") || Contains(s, "Error"))
  }

  /** The part after the last dot or dollar. */
  function SimpleName(s: string): (t: string)
    ensures forall c :: c in t ==> c in s
  {
    if s == "" then ""
    else if s[|s| - 1] == '.' || s[|s| - 1] == '$' then ""
    else
      assert s == s[..|s| - 1] + [s[|s| - 1]];
      SimpleName(s[..|s| - 1]) + [s[|s| - 1]]
  }

  /** What a line says: the message after the name of a throwable, or the simple name of one, or the line. */
  function Said(s: string): (t: string)
    ensures forall c :: c in t ==> c in s
  {
    var i := IndexOf(s, ": ");
    var message := if i > 0 && IsThrowable(s[..i]) then TrimSpace(s[i + 2..]) else "";
    if message != "" then message
    else if IsThrowable(s) then SimpleName(s)
    else s
  }

  /** humanizeJavaMessage. */
  function Humanize(line: string): (t: string)
    ensures forall c :: c in t ==> c in line
  {
    var s := TrimSpace(line);
    Said(TrimSpace(if CAUSED_BY <= s then s[|CAUSED_BY|..] else s))
  }

  function Summary(raw: string): (t: string)
    ensures |t| <= 257
  {
    var f := Scan(Split(raw, '\n'));
    if f.causedBy != "" then Truncate(Humanize(f.causedBy), 256)
    else if f.exception != "" then Truncate(Humanize(f.exception), 256)
    else if f.other != "" then Truncate(f.other, 256)
    else Truncate(TrimSpace(raw), 256)
  }

  method SummarizeTerminationMessage(raw: string) returns (t: string)
    ensures t == Summary(raw)
  {
    hide IsFrame, TrimSpace, Contains;
    var causedBy, exception, other := "", "", "";
    var lines := Split(raw, '\n');
    for i := 0 to |lines|
      invariant Found(causedBy, exception, other) == Scan(lines[..i])
    {
      assert lines[..i + 1][..i] == lines[..i];
      var line := TrimSpace(lines[i]);
      if IsFrame(line) {
        continue;
      }
      if CAUSED_BY <= line {
        causedBy := line;
      } else if exception == "" && (Contains(line, "Exception") || Contains(line, "Error")) {
        exception := line;
      } else if other == "" {
        other := line;
      }
    }
    assert lines[..|lines|] == lines;
    if causedBy != "" {
      return Truncate(Humanize(causedBy), 256);
    }
    if exception != "" {
      return Truncate(Humanize(exception), 256);
    }
    if other != "" {
      return Truncate(other, 256);
    }
    return Truncate(TrimSpace(raw), 256);
  }

  predicate OnlyFrames(lines: seq<string>) {
    forall line :: line in lines ==> IsFrame(TrimSpace(line))
  }

  lemma {:induction false} ScanFindsLines(lines: seq<string>)
    requires forall line :: line in lines ==> '\n' !in line
    ensures var f := Scan(lines);
      && '\n' !in f.causedBy && '\n' !in f.exception && '\n' !in f.other
      && (OnlyFrames(lines) <==> f == Found("", "", ""))
  {
    hide IsFrame, Contains;
    if lines != [] {
      var before, last := lines[..|lines| - 1], lines[|lines| - 1];
      assert lines == before + [last];
      ScanFindsLines(before);
      assert OnlyFrames(lines) <==> OnlyFrames(before) && IsFrame(TrimSpace(last));
      assert TrimSpace(last) == "" ==> IsFrame(TrimSpace(last)) by { BlankIsFrame(); }
    }
  }

  lemma BlankIsFrame()
    ensures IsFrame("")
  {}

  /** The summary is one line, as it promises to be, unless the log holds nothing but stack frames and the cut text
      spans a line break. */
  lemma SummaryIsOneLine(raw: string)
    ensures '\n' !in Summary(raw) <==>
      !(OnlyFrames(Split(raw, '\n')) && '\n' in Truncate(TrimSpace(raw), 256))
  {
    hide TrimSpace, Humanize;
    ScanFindsLines(Split(raw, '\n'));
    var f := Scan(Split(raw, '\n'));
    forall s: string | '\n' !in s ensures '\n' !in Truncate(s, 256) {}
    assert '\n' !in Humanize(f.causedBy) && '\n' !in Humanize(f.exception);
  }

  // ---------- Which line is shown ----------

  predicate IsCause(line: string) {
    "Caused by:" <= line
  }

  predicate NamesAnError(line: string) {
    Contains(line, "Exception") || Contains(line, "Error")
  }

  /** Neither blank nor a stack frame. */
  predicate Speaks(line: string) {
    line != "" && !("at " <= line) && !("..." <= line)
  }

  /** A line as it is scanned names a cause, names an error, says anything at all. */
  predicate Causes(line: string) {
    IsCause(TrimSpace(line))
  }

  predicate Errs(line: string) {
    Speaks(TrimSpace(line)) && NamesAnError(TrimSpace(line))
  }

  predicate Talks(line: string) {
    Speaks(TrimSpace(line))
  }

  lemma CauseSpeaks(line: string)
    ensures IsCause(line) ==> Speaks(line)
    ensures Speaks(line) <==> !IsFrame(line)
  {
    if IsCause(line) { assert line[0] == 'C'; }
  }

  lemma TakeStep(f: Found, line: string)
    ensures (IsCause(line) || Speaks(line)) ==> line != ""
    ensures Take(f, line) ==
      if IsCause(line) then f.(causedBy := line)
      else if !Speaks(line) then f
      else if NamesAnError(line) && f.exception == "" then f.(exception := line)
      else if f.other == "" then f.(other := line)
      else f
  {
    hide Contains;
    CauseSpeaks(line);
  }

  lemma {:induction false} ScanKeepsLastCause(lines: seq<string>)
    ensures NoneOf(lines, Causes) <==> Scan(lines).causedBy == ""
    ensures forall i: nat :: LastOf(lines, Causes, i) ==> Scan(lines).causedBy == TrimSpace(lines[i])
  {
    hide TrimSpace, Take, IsCause, Speaks, NamesAnError;
    if lines == [] {
      NothingScanned();
    } else {
      var n := |lines| - 1;
      ScanKeepsLastCause(lines[..n]);
      TakeStep(Scan(lines[..n]), TrimSpace(lines[n]));
      NoneSnoc(lines, Causes);
      forall i: nat | LastOf(lines, Causes, i) ensures i < |lines| && Scan(lines).causedBy == TrimSpace(lines[i]) {
        LastSnoc(lines, Causes, i);
      }
    }
  }

  lemma NothingScanned()
    ensures Scan([]) == Found("", "", "")
  {}

  lemma {:induction false} ScanKeepsFirstError(lines: seq<string>)
    requires NoneOf(lines, Causes)
    ensures NoneOf(lines, Errs) <==> Scan(lines).exception == ""
    ensures forall i: nat :: FirstOf(lines, Errs, i) ==> Scan(lines).exception == TrimSpace(lines[i])
  {
    hide TrimSpace, Take, IsCause, Speaks, NamesAnError;
    if lines == [] {
      NothingScanned();
    } else {
      var n := |lines| - 1;
      NoneSnoc(lines, Causes);
      NoneSnoc(lines, Errs);
      ScanKeepsFirstError(lines[..n]);
      TakeStep(Scan(lines[..n]), TrimSpace(lines[n]));
      forall i: nat | FirstOf(lines, Errs, i) ensures i < |lines| && Scan(lines).exception == TrimSpace(lines[i]) {
        FirstSnoc(lines, Errs, i);
      }
    }
  }

  lemma {:induction false} ScanKeepsFirstWord(lines: seq<string>)
    requires NoneOf(lines, Causes) && NoneOf(lines, Errs)
    ensures NoneOf(lines, Talks) <==> Scan(lines).other == ""
    ensures forall i: nat :: FirstOf(lines, Talks, i) ==> Scan(lines).other == TrimSpace(lines[i])
  {
    hide TrimSpace, Take, IsCause, Speaks, NamesAnError;
    if lines == [] {
      NothingScanned();
    } else {
      var n := |lines| - 1;
      NoneSnoc(lines, Causes);
      NoneSnoc(lines, Errs);
      NoneSnoc(lines, Talks);
      ScanKeepsFirstWord(lines[..n]);
      TakeStep(Scan(lines[..n]), TrimSpace(lines[n]));
      forall i: nat | FirstOf(lines, Talks, i) ensures i < |lines| && Scan(lines).other == TrimSpace(lines[i]) {
        FirstSnoc(lines, Talks, i);
      }
    }
  }

  /** The last cause of a stack trace is what is shown, cut to 256 characters. */
  lemma LastCauseIsShown(raw: string, i: nat)
    requires LastOf(Split(raw, '\n'), Causes, i)
    ensures Summary(raw) == Truncate(Humanize(TrimSpace(Split(raw, '\n')[i])), 256)
  {
    hide TrimSpace, Humanize, Split, Scan;
    ScanKeepsLastCause(Split(raw, '\n'));
  }

  /** Without one it is the first line that names an exception or error. */
  lemma FirstErrorIsShown(raw: string, i: nat)
    requires NoneOf(Split(raw, '\n'), Causes) && FirstOf(Split(raw, '\n'), Errs, i)
    ensures Summary(raw) == Truncate(Humanize(TrimSpace(Split(raw, '\n')[i])), 256)
  {
    hide TrimSpace, Humanize, Split, Scan, Contains;
    ScanKeepsLastCause(Split(raw, '\n'));
    ScanKeepsFirstError(Split(raw, '\n'));
  }

  /** Without one it is the first line that is no stack frame, word for word. */
  lemma FirstWordIsShown(raw: string, i: nat)
    requires NoneOf(Split(raw, '\n'), Causes) && NoneOf(Split(raw, '\n'), Errs) && FirstOf(Split(raw, '\n'), Talks, i)
    ensures Summary(raw) == Truncate(TrimSpace(Split(raw, '\n')[i]), 256)
  {
    hide TrimSpace, Humanize, Split, Scan, Contains;
    ScanKeepsLastCause(Split(raw, '\n'));
    ScanKeepsFirstError(Split(raw, '\n'));
    ScanKeepsFirstWord(Split(raw, '\n'));
  }

  // ---------- What a Java line is reduced to ----------

  lemma BlankAfterColon(s: string)
    requires IndexOf(s, ": ") >= 0
    ensures IndexOf(s, ": ") + 2 <= |s| && s[IndexOf(s, ": ") + 1] == ' '
  {
    var k := IndexOf(s, ": ");
    assert s[k..k + 2][1] == ' ';
  }

  /** The first colon and space follow the name. */
  lemma ColonAfterName(name: string, message: string)
    requires ' ' !in name
    ensures IndexOf(name + ": " + message, ": ") == |name|
    ensures IndexOf(name, ": ") == -1
  {
    var s := name + ": " + message;
    assert s[|name|..|name| + 2] == ": ";
    IndexOfIsFirst(s, ": ", |name|);
    BlankAfterColon(s);
    if IndexOf(name, ": ") >= 0 {
      BlankAfterColon(name);
    }
  }

  lemma CauseIsTrimmed(s: string)
    requires s != "" && TrimSpace(s) == s
    ensures TrimSpace(CAUSED_BY + " " + s) == CAUSED_BY + " " + s
    ensures TrimSpace(" " + s) == s
  {
    var line := CAUSED_BY + " " + s;
    assert line[0] == 'C' && line[|line| - 1] == s[|s| - 1];
    assert (" " + s)[1..] == s;
  }

  /** A line that does not begin with the words before a cause is taken as it is, and those words do not matter. */
  lemma PlainLine(s: string)
    requires s != "" && TrimSpace(s) == s && !(CAUSED_BY <= s)
    ensures Humanize(CAUSED_BY + " " + s) == Humanize(s) == Said(s)
  {
    CauseIsTrimmed(s);
    hide TrimSpace, Said;
    var line := CAUSED_BY + " " + s;
    assert line[..|CAUSED_BY|] == CAUSED_BY && line[|CAUSED_BY|..] == " " + s;
  }

  lemma NotACause(name: string, rest: string)
    requires ' ' !in name && '.' in name
    ensures !(CAUSED_BY <= name + ": " + rest) && !(CAUSED_BY <= name)
  {
    var s := name + ": " + rest;
    assert CAUSED_BY[6] == ' ' && forall k :: 0 <= k <= 6 ==> CAUSED_BY[k] != ':';
    if |name| > 6 {
      assert s[6] == name[6] != ' ';
    } else {
      assert s[|name|] == ':';
    }
  }

  /** Of "name: message" after a dotted class name that mentions an exception or error the message is shown. */
  lemma MessageIsShown(name: string, message: string)
    requires ' ' !in name && '\t' !in name && '.' in name && NamesAnError(name)
    requires !IsSpace(name[0]) && message != "" && TrimSpace(message) == message
    ensures Humanize(name + ": " + message) == message
    ensures Humanize(CAUSED_BY + " " + (name + ": " + message)) == message
  {
    var s := name + ": " + message;
    TrimmedPair(name, message);
    assert IsThrowable(name);
    hide *;
    NotACause(name, message);
    PlainLine(s);
    SaidAfterName(name, message);
  }

  lemma TrimmedPair(name: string, message: string)
    requires name != "" && !IsSpace(name[0]) && message != "" && TrimSpace(message) == message
    ensures TrimSpace(name + ": " + message) == name + ": " + message
  {
    hide TrimSpace, IsSpace;
    var s := name + ": " + message;
    assert s[0] == name[0] && s[|s| - 1] == message[|message| - 1];
  }

  lemma SaidAfterName(name: string, message: string)
    requires ' ' !in name && IsThrowable(name) && message != "" && TrimSpace(message) == message
    ensures Said(name + ": " + message) == message
  {
    ColonAfterName(name, message);
    hide IsThrowable, TrimSpace, IndexOf, SimpleName;
    var s := name + ": " + message;
    assert s[..|name|] == name && s[|name| + 2..] == message;
    assert name != "" by { NoNameIsEmpty(); }
  }

  lemma NoNameIsEmpty()
    ensures !IsThrowable("")
  {}

  /** Of such a name alone only its last part is shown, after a dot or a dollar. */
  lemma ClassIsShown(s: string, path: string, sep: char, simple: string)
    requires ' ' !in s && '\t' !in s && '.' in s && NamesAnError(s) && TrimSpace(s) == s
    requires s == path + [sep] + simple && sep in ['.', '$'] && '.' !in simple && '$' !in simple
    ensures Humanize(s) == simple
    ensures Humanize(CAUSED_BY + " " + s) == simple
  {
    assert IsThrowable(s);
    ColonAfterName(s, "");
    NotACause(s, "");
    SimpleNameIs(path, sep, simple);
    hide IsThrowable, TrimSpace, IndexOf, SimpleName, Humanize;
    PlainLine(s);
  }

  lemma {:induction false} SimpleNameIs(path: string, sep: char, simple: string)
    requires sep in ['.', '$'] && '.' !in simple && '$' !in simple
    ensures SimpleName(path + [sep] + simple) == simple
  {
    var s := path + [sep] + simple;
    if simple != "" {
      var n := |simple| - 1;
      assert s[..|s| - 1] == path + [sep] + simple[..n];
      SimpleNameIs(path, sep, simple[..n]);
      assert simple == simple[..n] + [simple[n]];
    }
  }

  /** Any other text is shown as it is: without a colon and a space, or after a first part that is no such name. */
  lemma OtherTextIsKept(s: string, first: string)
    requires TrimSpace(s) == s && !(CAUSED_BY <= s)
    requires var i := IndexOf(s, ": "); first == if i < 0 then s else s[..i]
    requires ' ' in first || '\t' in first || '.' !in first || !NamesAnError(first)
    ensures Humanize(s) == s
  {
    hide IndexOf, TrimSpace;
    if IndexOf(s, ": ") >= 0 {
      BlankAfterColon(s);
    }
  }
}

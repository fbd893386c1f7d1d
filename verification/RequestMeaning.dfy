/** What a request head says, as a text: a request line, field lines and an empty
    line.  The parser's verdict on any octets is read off that text alone. */
module RequestMeaning {
  import opened Basics
  import opened HttpFields
  import opened HttpParse
  import opened RequestHead

  const CRLF := "\r\n"

  // ---- Lines ------------------------------------------------------------------------------

  /** A text without a line end, and without a NUL. */
  predicate IsLine(line: string) {
    !HasNul(line) && forall i :: 0 <= i < |line| - 1 ==> !(line[i] == '\r' && line[i + 1] == '\n')
  }

  /** No line of `s` is complete. */
  ghost predicate NoLineEnd(s: string) {
    forall line, rest :: IsLine(line) ==> s != line + CRLF + rest
  }

  lemma {:induction false} CrlfAt(line: string, rest: string)
    requires IsLine(line)
    ensures FindCrlf(line + CRLF + rest) == Some(|line|)
  {
    var s := line + CRLF + rest;
    if line == "" {
      assert s[0] == '\r' && s[1] == '\n';
    } else {
      assert s[0] == line[0] && s[1..] == line[1..] + CRLF + rest;
      assert !HasNul(line[1..]) by {
        forall i | 0 <= i < |line[1..]| ensures line[1..][i] != '\0' { assert line[1..][i] == line[i + 1]; }
      }
      CrlfAt(line[1..], rest);
      if |line| > 1 { assert s[1] == line[1]; } else { assert s[1] == '\r'; }
    }
  }

  lemma {:induction false} CrlfCut(s: string)
    requires FindCrlf(s).Some?
    ensures var n := FindCrlf(s).value;
            IsLine(s[..n]) && s == s[..n] + CRLF + s[n + 2..]
  {
    var n := FindCrlf(s).value;
    if n > 0 {
      CrlfCut(s[1..]);
      var t := s[1..];
      assert s[..n] == [s[0]] + t[..n - 1];
      assert s[n + 2..] == t[n + 1..];
      assert t == t[..n - 1] + CRLF + t[n + 1..];
      assert s == [s[0]] + t;
      var line := s[..n];
      assert forall i :: 1 <= i < n ==> line[i] == t[..n - 1][i - 1];
      if n > 1 { assert s[1] == line[1]; }
    } else {
      assert s == "" + CRLF + s[2..];
    }
  }

  lemma NoCrlf(s: string)
    ensures FindCrlf(s).None? <==> NoLineEnd(s)
  {
    hide FindCrlf, IsLine;
    if FindCrlf(s).Some? { CrlfCut(s); }
    if line, rest :| IsLine(line) && s == line + CRLF + rest { CrlfAt(line, rest); }
  }

  /** Empty lines in front of the request line. */
  function Blanks(k: nat): string { if k == 0 then "" else CRLF + Blanks(k - 1) }

  lemma {:induction false} SkipsBlanks(k: nat, s: string)
    requires |s| < 2 || s[0] != '\r' || s[1] != '\n'
    ensures LeadingCrlf(Blanks(k) + s) == |Blanks(k)|
  {
    var t := Blanks(k) + s;
    if k == 0 {
      assert t == s;
    } else {
      SkipsBlanks(k - 1, s);
      assert t[0] == '\r' && t[1] == '\n' && t[2..] == Blanks(k - 1) + s;
    }
  }

  lemma {:induction false} BlanksSkipped(s: string) returns (k: nat)
    ensures s[..LeadingCrlf(s)] == Blanks(k)
    ensures var t := s[LeadingCrlf(s)..]; |t| < 2 || t[0] != '\r' || t[1] != '\n'
  {
    if |s| >= 2 && s[0] == '\r' && s[1] == '\n' {
      var j := BlanksSkipped(s[2..]);
      k := j + 1;
      var n := LeadingCrlf(s[2..]);
      assert s[..n + 2] == CRLF + s[2..][..n];
      assert s[n + 2..] == s[2..][n..];
    } else {
      k := 0;
      assert s[0..] == s;
    }
  }

  // ---- The request line -------------------------------------------------------------------

  predicate IsWord(w: string) { w != "" && ' ' !in w && !HasCtl(w, false) }

  /** Method, target and version, one space between them. */
  ghost predicate SaysRequest(line: string, version: string) {
    !HasCtl(version, true) && exists m, t :: IsWord(m) && IsWord(t) && line == m + " " + t + " " + version
  }

  lemma RequestSplits(line: CString, m: string, t: string, version: CString, advance: nat)
    requires IsWord(m) && IsWord(t) && !HasCtl(version, true) && line == m + " " + t + " " + version
    ensures SplitRequestLine(line, advance) == LineParsed(advance, version)
  {
    hide CharIndex, HasCtl;
    var tail := t + " " + version;
    assert line == m + [' '] + tail;
    IndexIs(m, ' ', tail);
    assert line[|m| + 1..] == tail && line[..|m|] == m;
    assert tail == t + [' '] + version;
    IndexIs(t, ' ', version);
    assert tail[|t| + 1..] == version && tail[..|t|] == t;
  }

  lemma SplitsRequest(line: CString, advance: nat)
    requires SplitRequestLine(line, advance).LineParsed?
    ensures SaysRequest(line, SplitRequestLine(line, advance).version)
  {
    hide CharIndex, HasCtl;
    var a := CharIndex(line, ' ');
    var tail := line[a + 1..];
    var b := CharIndex(tail, ' ');
    var m, t, v := line[..a], tail[..b], tail[b + 1..];
    assert IsWord(m) && IsWord(t);
    assert line == m + " " + t + " " + v;
  }

  /** SplitRequestLine() reads exactly the request lines. */
  lemma RequestLineIs(line: CString, advance: nat)
    ensures forall v: string :: SaysRequest(line, v) ==>
              SplitRequestLine(line, advance).LineParsed? && SplitRequestLine(line, advance).version == v
    ensures SplitRequestLine(line, advance).LineParsed? ==>
              SaysRequest(line, SplitRequestLine(line, advance).version)
  {
    forall v: string | SaysRequest(line, v)
      ensures SplitRequestLine(line, advance).LineParsed? && SplitRequestLine(line, advance).version == v
    {
      hide SplitRequestLine, IsWord, HasCtl;
      var m, t :| IsWord(m) && IsWord(t) && line == m + " " + t + " " + v;
      assert forall i :: 0 <= i < |v| ==> v[i] == line[|m| + |t| + 2 + i];
      RequestSplits(line, m, t, v, advance);
    }
    if SplitRequestLine(line, advance).LineParsed? { SplitsRequest(line, advance); }
  }

  // ---- Field lines ------------------------------------------------------------------------

  datatype Field = Field(name: string, value: string)

  /** A token, a colon, and a value with optional white space around it. */
  ghost predicate SaysField(line: string, f: Field) {
    && IsToken(f.name) && IsTrimmed(f.value, IsOws) && !HasCtl(f.value, true)
    && exists a, b :: AllAre(a, IsOws) && AllAre(b, IsOws) && line == f.name + ":" + a + f.value + b
  }

  lemma TokenHasNoColon(s: string)
    requires IsToken(s)
    ensures ':' !in s && s != "" && !IsOws(s[0])
  {
    assert !IsTchar(':') && !IsTchar(' ') && !IsTchar('\t');
  }

  lemma FieldSplits(line: string, f: Field, a: string, b: string, advance: nat)
    requires IsToken(f.name) && IsTrimmed(f.value, IsOws) && !HasCtl(f.value, true)
    requires AllAre(a, IsOws) && AllAre(b, IsOws)
    requires line == f.name + ":" + a + f.value + b && !HasNul(f.name) && !HasNul(f.value)
    ensures SplitHeaderLine(line, advance) == HeaderField(advance, f.name, f.value)
  {
    hide CharIndex, HasCtl, IsToken, Trim, IsTrimmed, AllAre;
    TokenHasNoColon(f.name);
    var raw := a + f.value + b;
    assert line == f.name + [':'] + raw;
    IndexIs(f.name, ':', raw);
    assert line[0] == f.name[0] && line[|f.name| + 1..] == raw && line[..|f.name|] == f.name;
    TrimOf(a, f.value, b, IsOws);
  }

  lemma SplitsField(line: string, advance: nat)
    requires SplitHeaderLine(line, advance).HeaderField?
    ensures var r := SplitHeaderLine(line, advance); SaysField(line, Field(r.key, r.value))
  {
    hide CharIndex, HasCtl, IsToken, Trim, IsTrimmed, AllAre;
    var colon := CharIndex(line, ':');
    var raw := line[colon + 1..];
    var a, b := TrimParts(raw, IsOws);
    assert line == line[..colon] + ":" + raw;
    assert line == line[..colon] + ":" + a + TrimOws(raw) + b;
  }

  /** SplitHeaderLine() reads exactly the field lines. */
  lemma FieldLineIs(line: CString, advance: nat)
    ensures forall f: Field :: SaysField(line, f) ==>
              SplitHeaderLine(line, advance).HeaderField? &&
              SplitHeaderLine(line, advance).key == f.name && SplitHeaderLine(line, advance).value == f.value
    ensures SplitHeaderLine(line, advance).HeaderField? ==>
              SaysField(line, Field(SplitHeaderLine(line, advance).key, SplitHeaderLine(line, advance).value))
    ensures SplitHeaderLine(line, advance).HeaderEnd? <==> line == ""
    ensures !SplitHeaderLine(line, advance).HeaderPartial?
  {
    forall f: Field | SaysField(line, f)
      ensures SplitHeaderLine(line, advance).HeaderField? &&
              SplitHeaderLine(line, advance).key == f.name && SplitHeaderLine(line, advance).value == f.value
    {
      FieldIsSplit(line, f, advance);
    }
    hide IsToken, TrimOws, HasCtl, CharIndex, SaysField;
    if SplitHeaderLine(line, advance).HeaderField? { SplitsField(line, advance); }
  }

  lemma FieldIsSplit(line: CString, f: Field, advance: nat)
    requires SaysField(line, f)
    ensures SplitHeaderLine(line, advance).HeaderField? &&
            SplitHeaderLine(line, advance).key == f.name && SplitHeaderLine(line, advance).value == f.value
  {
    hide SplitHeaderLine, IsToken, IsTrimmed, AllAre, HasCtl;
    var a, b :| AllAre(a, IsOws) && AllAre(b, IsOws) && line == f.name + ":" + a + f.value + b;
    assert forall i :: 0 <= i < |f.name| ==> f.name[i] == line[i];
    assert forall i :: 0 <= i < |f.value| ==> f.value[i] == line[|f.name| + 1 + |a| + i];
    FieldSplits(line, f, a, b, advance);
  }
}

/** The incremental line parser the management API reads requests with.  Octets
    are characters; the parser searches with strstr(), so it never sees past a
    NUL octet. */
module HttpParse {
  import opened Basics
  import opened HttpFields

  datatype LineResult =
    | LineError
    | LinePartial
    | LineParsed(advance: nat, version: CString)

  datatype HeaderResult =
    | HeaderError
    | HeaderPartial
    | HeaderEnd(advance: nat)
    | HeaderField(advance: nat, key: CString, value: CString)

  /** strstr(s, "\r\n"), as an offset. */
  function FindCrlf(s: string): (r: Option<nat>)
    ensures r.Some? ==> r.value + 2 <= |s| && !HasNul(s[..r.value])
  {
    if s == "" || s[0] == '\0' then None
    else if |s| >= 2 && s[0] == '\r' && s[1] == '\n' then Some(0)
    else
      var r := FindCrlf(s[1..]);
      if r.None? then None
      else
        assert s[..r.value + 1] == [s[0]] + s[1..][..r.value];
        Some(r.value + 1)
  }

  /** The octets of the empty lines in front of a request line. */
  function LeadingCrlf(s: string): (k: nat)
    ensures k <= |s|
  {
    if |s| >= 2 && s[0] == '\r' && s[1] == '\n' then 2 + LeadingCrlf(s[2..]) else 0
  }

  predicate HasCtl(s: string, allowTab: bool) {
    exists i :: 0 <= i < |s| && ((s[i] < ' ' && !(allowTab && s[i] == '\t')) || s[i] == (0x7f as char))
  }

  predicate IsTchar(c: char) { IsAlnum(c) || c in "!#$%&'*+-.^_`|~" }

  predicate IsToken(s: string) {
    s != "" && forall i :: 0 <= i < |s| ==> IsTchar(s[i])
  }

  /** The three fields of a complete request line. */
  function SplitRequestLine(line: CString, advance: nat): (r: LineResult)
    ensures r.LineParsed? ==> r.advance == advance
    ensures !r.LinePartial?
  {
    var a := CharIndex(line, ' ');
    if a == |line| then LineError
    else
      var tail := line[a + 1..];
      var b := CharIndex(tail, ' ');
      if b == |tail| then LineError
      else
        var version := tail[b + 1..];
        if a == 0 || b == 0 then LineError
        else if HasCtl(line[..a], false) || HasCtl(tail[..b], false) || HasCtl(version, true)
        then LineError
        else LineParsed(advance, version)
  }

  /** http_parse() */
  function RequestLine(s: string): (r: LineResult)
    ensures r.LineParsed? ==> 1 <= r.advance <= |s|
  {
    var skip := LeadingCrlf(s);
    var crlf := FindCrlf(s[skip..]);
    if crlf.None? then LinePartial
    else SplitRequestLine(s[skip..][..crlf.value], skip + crlf.value + 2)
  }

  /** A header line without its line break, which ends at `advance`. */
  function SplitHeaderLine(line: string, advance: nat): (r: HeaderResult)
    ensures r.HeaderEnd? || r.HeaderField? ==> r.advance == advance
  {
    if line == "" then HeaderEnd(advance)
    else if line[0] == ' ' || line[0] == '\t' then HeaderError
    else
      var colon := CharIndex(line, ':');
      if colon == |line| || !IsToken(line[..colon]) then HeaderError
      else
        var value := TrimOws(line[colon + 1..]);
        if HasCtl(value, true) then HeaderError else HeaderField(advance, line[..colon], value)
  }

  /** http_parsehdr() */
  function HeaderLine(s: string): (r: HeaderResult)
    ensures r.HeaderEnd? || r.HeaderField? ==> 1 <= r.advance <= |s|
  {
    var crlf := FindCrlf(s);
    if crlf.None? then HeaderPartial else SplitHeaderLine(s[..crlf.value], crlf.value + 2)
  }

  // ---- What more octets can and cannot change -------------------------------

  lemma {:induction false} FindCrlfStable(s: string, t: string)
    ensures FindCrlf(s).Some? ==> FindCrlf(s + t) == FindCrlf(s)
    ensures FindCrlf(s).None? && HasNul(s) ==> FindCrlf(s + t).None?
  {
    if s != "" && s[0] != '\0' && !(|s| >= 2 && s[0] == '\r' && s[1] == '\n') {
      assert (s + t)[1..] == s[1..] + t;
      FindCrlfStable(s[1..], t);
      if HasNul(s) {
        var i :| 0 <= i < |s| && s[i] == '\0';
        assert s[1..][i - 1] == '\0';
      }
    }
  }

  lemma {:induction false} LeadingCrlfStable(s: string, t: string)
    requires FindCrlf(s[LeadingCrlf(s)..]).Some? || HasNul(s[LeadingCrlf(s)..])
    ensures LeadingCrlf(s + t) == LeadingCrlf(s)
    decreases |s|
  {
    if |s| >= 2 && s[0] == '\r' && s[1] == '\n' {
      assert (s + t)[2..] == s[2..] + t;
      assert s[2..][LeadingCrlf(s[2..])..] == s[LeadingCrlf(s)..];
      LeadingCrlfStable(s[2..], t);
    } else {
      assert s[0..] == s;
    }
  }

  lemma LineAfterMore(s: string, t: string)
    requires FindCrlf(s[LeadingCrlf(s)..]).Some? || HasNul(s[LeadingCrlf(s)..])
    ensures LeadingCrlf(s + t) == LeadingCrlf(s)
    ensures FindCrlf((s + t)[LeadingCrlf(s)..]) == FindCrlf(s[LeadingCrlf(s)..])
  {
    LeadingCrlfStable(s, t);
    assert (s + t)[LeadingCrlf(s)..] == s[LeadingCrlf(s)..] + t;
    FindCrlfStable(s[LeadingCrlf(s)..], t);
  }

  /** A request line already decided stays decided whatever follows. */
  lemma RequestLineDecided(s: string, t: string)
    requires RequestLine(s) != LinePartial
    ensures RequestLine(s + t) == RequestLine(s)
  {
    var k := LeadingCrlf(s);
    LineAfterMore(s, t);
    var n := FindCrlf(s[k..]).value;
    assert (s + t)[k..][..n] == s[k..][..n];
  }

  /** A NUL in front of the line end keeps it undecided whatever follows. */
  lemma RequestLineStuck(s: string, t: string)
    requires RequestLine(s) == LinePartial && HasNul(s)
    ensures RequestLine(s + t) == LinePartial
  {
    NoNulInLeadingCrlf(s);
    LineAfterMore(s, t);
  }

  lemma {:induction false} NoNulInLeadingCrlf(s: string)
    ensures HasNul(s) <==> HasNul(s[LeadingCrlf(s)..])
  {
    if |s| >= 2 && s[0] == '\r' && s[1] == '\n' {
      NoNulInLeadingCrlf(s[2..]);
      assert s[2..][LeadingCrlf(s[2..])..] == s[LeadingCrlf(s)..];
      assert forall i :: 2 <= i < |s| ==> s[2..][i - 2] == s[i];
    } else {
      assert s[0..] == s;
    }
  }

  lemma HeaderLineStable(s: string, t: string)
    ensures HeaderLine(s) != HeaderPartial ==> HeaderLine(s + t) == HeaderLine(s)
    ensures HeaderLine(s) == HeaderPartial && HasNul(s) ==> HeaderLine(s + t) == HeaderPartial
  {
    hide FindCrlf, TrimOws, HasCtl, IsToken, CharIndex;
    FindCrlfStable(s, t);
    if FindCrlf(s).Some? {
      assert (s + t)[..FindCrlf(s).value] == s[..FindCrlf(s).value];
    }
  }
}

/** Scanners over single HTTP field values: the Connection token list, the Host
    value, and the decimal Content-Length.  A field value reaches them as a C
    string, so every scanner reads through `At`, whose precondition says that
    nothing past the terminating NUL is ever read. */
module HttpFields {
  import opened Basics

  /** strcasecmp(a, b) == 0 */
  predicate EqualsIgnoreCase(a: string, b: string) {
    |a| == |b| && forall i :: 0 <= i < |a| ==> ToLower(a[i]) == ToLower(b[i])
  }

  // ---- Connection: comma-separated token list -----------------------------

  predicate IsOws(c: char) { c == ' ' || c == '\t' }

  function TrimOws(s: string): string { Trim(s, IsOws) }

  predicate IsClose(e: string) { EqualsIgnoreCase(TrimOws(e), "close") }

  /** Some list element, trimmed of optional whitespace, is "close". */
  ghost predicate ListHasClose(s: string) {
    exists i :: 0 <= i < |Elements(s)| && IsClose(Elements(s)[i])
  }

  lemma {:induction false} ListHasCloseSplit(s: string)
    ensures var k := CharIndex(s, ',');
            ListHasClose(s) <==>
            IsClose(s[..k]) || (k < |s| && ListHasClose(s[k + 1..]))
  {
    hide IsClose, CharIndex, Elements;
    var k := CharIndex(s, ',');
    ElementsSplit(s);
    var all := Elements(s);
    assert IsClose(s[..k]) ==> IsClose(all[0]);
    if k < |s| {
      var rest := Elements(s[k + 1..]);
      assert forall i :: 0 <= i < |rest| ==> all[i + 1] == rest[i];
      assert forall i :: 0 < i < |all| && IsClose(all[i]) ==> IsClose(rest[i - 1]);
    }
  }

  lemma ElementsSplit(s: string)
    ensures var k := CharIndex(s, ',');
            Elements(s) == [s[..k]] + if k < |s| then Elements(s[k + 1..]) else []
  {
    hide CharIndex;
    if CharIndex(s, ',') == |s| { assert s[..|s|] == s; }
  }

  lemma CommaIndexUnique(s: string, k: nat)
    requires k <= |s| && (k < |s| ==> s[k] == ',')
    requires forall i :: 0 <= i < k ==> s[i] != ','
    ensures CharIndex(s, ',') == k
  {
  }

  /** Leading optional whitespace and empty elements do not matter. */
  lemma ListHasCloseSkip(s: string)
    requires s != "" && (IsOws(s[0]) || s[0] == ',')
    ensures ListHasClose(s) <==> ListHasClose(s[1..])
  {
    hide IsClose, ListHasClose;
    ListHasCloseSplit(s);
    if s[0] == ',' {
      CommaIndexUnique(s, 0);
      EmptyIsNotClose();
      assert s[..0] == "";
    } else {
      var k := CharIndex(s, ',');
      CommaIndexUnique(s[1..], k - 1);
      ListHasCloseSplit(s[1..]);
      assert s[..k][1..] == s[1..][..k - 1];
      CloseSkip(s[..k]);
      if k < |s| { assert s[k + 1..] == s[1..][k..]; }
    }
  }

  lemma EmptyIsNotClose()
    ensures !IsClose("")
  {
    assert TrimOws("") == "";
  }

  lemma CloseSkip(s: string)
    requires s != "" && IsOws(s[0])
    ensures IsClose(s) <==> IsClose(s[1..])
  {
    hide EqualsIgnoreCase, TrimEnd;
  }

  lemma CloseToken(tok: string, end: nat)
    requires end <= |tok| && (forall i :: end <= i < |tok| ==> IsOws(tok[i]))
    requires end > 0 ==> !IsOws(tok[0]) && !IsOws(tok[end - 1])
    requires end == 0 ==> tok == ""
    ensures IsClose(tok) <==> EqualsIgnoreCase(tok[..end], "close")
  {
    hide Trim, EqualsIgnoreCase;
    TrimIs(tok, IsOws, 0, end);
    assert tok[0..end] == tok[..end];
  }

  /** One list element, [start, p) with its last non-blank before `end`. */
  lemma ListHasCloseToken(value: string, start: nat, end: nat, p: nat)
    requires start <= end <= p <= |value|
    requires p < |value| ==> value[p] == ','
    requires forall i :: start <= i < p ==> value[i] != ','
    requires forall i :: end <= i < p ==> IsOws(value[i])
    requires start < end ==> !IsOws(value[start]) && !IsOws(value[end - 1])
    requires start == end ==> start == p
    ensures ListHasClose(value[start..]) <==>
            EqualsIgnoreCase(value[start..end], "close") || ListHasClose(value[p..])
  {
    hide ListHasClose, CharIndex, IsClose, EqualsIgnoreCase;
    var t := value[start..];
    CommaIndexUnique(t, p - start);
    ListHasCloseSplit(t);
    var tok := t[..p - start];
    CloseToken(tok, end - start);
    assert tok[..end - start] == value[start..end];
    if p < |value| {
      assert t[p - start + 1..] == value[p..][1..];
      ListHasCloseSkip(value[p..]);
    } else {
      assert value[p..] == "";
      NoCloseInEmpty();
    }
  }

  lemma NoCloseInEmpty()
    ensures !ListHasClose("")
  {
    hide IsClose;
    EmptyIsNotClose();
    assert Elements("") == [""];
  }

  /** connection_has_close() */
  method ConnectionHasClose(value: CString) returns (found: bool)
    ensures found <==> ListHasClose(value)
  {
    hide ListHasClose;
    var p := 0;
    assert value[p..] == value;
    while At(value, p) != '\0'
      invariant p <= |value|
      invariant ListHasClose(value) <==> ListHasClose(value[p..])
      invariant p == 0 || p == |value| || value[p] == ','
      decreases |value| - p
    {
      var next := SkipEmpty(value, p);
      var start := next;
      p := SkipToComma(value, start);
      var end := p;
      while end > start && (value[end - 1] == ' ' || value[end - 1] == '\t')
        invariant start <= end <= p
        invariant forall i :: end <= i < p ==> IsOws(value[i])
      {
        end := end - 1;
      }
      ListHasCloseToken(value, start, end, p);
      if end - start == 5 && EqualsIgnoreCase(value[start..end], "close") {
        return true;
      }
    }
    assert value[p..] == "";
    NoCloseInEmpty();
    return false;
  }

  /** Blanks in front of an element, and elements that are empty, do not matter. */
  method SkipEmpty(value: CString, from: nat) returns (p: nat)
    requires from < |value|
    ensures from <= p <= |value|
    ensures p < |value| ==> !IsOws(value[p]) && value[p] != ','
    ensures p == from ==> value[p] != ','
    ensures ListHasClose(value[from..]) <==> ListHasClose(value[p..])
  {
    hide ListHasClose;
    p := from;
    while At(value, p) == ' ' || At(value, p) == '\t' || At(value, p) == ','
      invariant from <= p <= |value|
      invariant ListHasClose(value[from..]) <==> ListHasClose(value[p..])
      decreases |value| - p
    {
      ListHasCloseSkip(value[p..]);
      assert value[p..][1..] == value[p + 1..];
      p := p + 1;
    }
  }

  method SkipToComma(value: CString, from: nat) returns (p: nat)
    requires from <= |value|
    ensures from <= p <= |value| && (p < |value| ==> value[p] == ',')
    ensures forall i :: from <= i < p ==> value[i] != ','
  {
    p := from;
    while At(value, p) != '\0' && At(value, p) != ','
      invariant from <= p <= |value|
      invariant forall i :: from <= i < p ==> value[i] != ','
      decreases |value| - p
    {
      p := p + 1;
    }
  }

  // ---- Host: uri-host [ ":" port ] -----------------------------------------

  /** unreserved / sub-delims */
  predicate IsHostChar(c: char) {
    IsAlnum(c) || c in "-._~!$&'()*+,;="
  }

  /** What inet_pton(AF_INET6, ...) can accept at all: fewer than
      INET6_ADDRSTRLEN characters, all of them hex digits, ':' or '.'. */
  ghost predicate Inet6Text(pton: string -> bool) {
    forall t :: pton(t) ==>
      |t| < INET6_ADDRSTRLEN &&
      forall i :: 0 <= i < |t| ==> IsHexDigit(t[i]) || t[i] == ':' || t[i] == '.'
  }

  const INET6_ADDRSTRLEN := 46

  /** reg-name = *( unreserved / pct-encoded / sub-delims ) */
  predicate IsRegName(h: string) {
    h == "" ||
    (IsHostChar(h[0]) && IsRegName(h[1..])) ||
    (|h| >= 3 && h[0] == '%' && IsHexDigit(h[1]) && IsHexDigit(h[2]) && IsRegName(h[3..]))
  }

  /** IPvFuture = "v" 1*HEXDIG "." 1*( unreserved / sub-delims / ":" ) */
  ghost predicate IsIpvFuture(s: string) {
    |s| > 0 && (s[0] == 'v' || s[0] == 'V') &&
    exists d :: IpvFutureAt(s, d)
  }

  ghost predicate IpvFutureAt(s: string, d: int) {
    2 <= d < |s| - 1 && (forall i :: 1 <= i < d ==> IsHexDigit(s[i])) && s[d] == '.' &&
    forall i :: d < i < |s| ==> s[i] == ':' || IsHostChar(s[i])
  }

  ghost predicate IsIpLiteral(h: string, pton: string -> bool) {
    |h| >= 2 && h[0] == '[' && h[|h| - 1] == ']' &&
    (IsIpvFuture(h[1..|h| - 1]) || pton(h[1..|h| - 1]))
  }

  /** The optional ":" port that follows a host. */
  predicate IsPortPart(t: string) {
    t == "" || (t[0] == ':' && AllDigits(t[1..]))
  }

  /** Host = uri-host [ ":" port ], uri-host = IP-literal / IPv4address /
      reg-name; every IPv4address is a reg-name. */
  ghost predicate IsHost(s: string, pton: string -> bool) {
    exists k :: HostSplitAt(s, k, pton)
  }

  ghost predicate HostSplitAt(s: string, k: int, pton: string -> bool) {
    0 <= k <= |s| && IsPortPart(s[k..]) &&
    (IsIpLiteral(s[..k], pton) || IsRegName(s[..k]))
  }

  /** A reg-name prefix followed by a port part. */
  ghost predicate RegNameThenPort(t: string) {
    exists k :: RegNameSplitAt(t, k)
  }

  ghost predicate RegNameSplitAt(t: string, k: int) {
    0 <= k <= |t| && IsRegName(t[..k]) && IsPortPart(t[k..])
  }

  lemma RegNameStop(t: string)
    requires t == "" || !(IsHostChar(t[0]) || t[0] == '%')
    ensures RegNameThenPort(t) <==> IsPortPart(t)
  {
    if IsPortPart(t) {
      assert t[0..] == t;
      assert RegNameSplitAt(t, 0);
    }
    if k :| RegNameSplitAt(t, k) {
      assert k > 0 ==> t[..k][0] == t[0];
      assert t[0..] == t;
    }
  }

  lemma RegNameChar(t: string)
    requires t != "" && IsHostChar(t[0])
    ensures RegNameThenPort(t) <==> RegNameThenPort(t[1..])
  {
    if k :| RegNameSplitAt(t[1..], k) {
      assert t[..k + 1][1..] == t[1..][..k];
      assert t[k + 1..] == t[1..][k..];
      assert RegNameSplitAt(t, k + 1);
    }
    if k :| RegNameSplitAt(t, k) {
      assert k > 0 by { assert t[0..] == t; }
      assert t[..k][1..] == t[1..][..k - 1];
      assert t[k..] == t[1..][k - 1..];
      assert RegNameSplitAt(t[1..], k - 1);
    }
  }

  lemma PctSplits(t: string, k: int)
    requires |t| >= 3 && t[0] == '%' && IsHexDigit(t[1]) && IsHexDigit(t[2]) && RegNameSplitAt(t[3..], k)
    ensures RegNameSplitAt(t, k + 3)
  {
    hide IsHexDigit, IsPortPart;
    assert t[..k + 3][3..] == t[3..][..k];
    assert t[k + 3..] == t[3..][k..];
  }

  lemma SplitsAfterPct(t: string, k: int)
    requires t != "" && t[0] == '%' && RegNameSplitAt(t, k)
    ensures 3 <= k <= |t| && IsHexDigit(t[1]) && IsHexDigit(t[2]) && RegNameSplitAt(t[3..], k - 3)
  {
    assert k > 0 by { assert t[0..] == t; }
    hide IsHexDigit, IsPortPart;
    var h := t[..k];
    assert |h| >= 3 && h[1] == t[1] && h[2] == t[2];
    assert h[3..] == t[3..][..k - 3];
    assert t[k..] == t[3..][k - 3..];
  }

  lemma RegNamePct(t: string)
    requires t != "" && t[0] == '%'
    ensures RegNameThenPort(t) <==>
            |t| >= 3 && IsHexDigit(t[1]) && IsHexDigit(t[2]) && RegNameThenPort(t[3..])
  {
    hide IsHexDigit, RegNameSplitAt;
    if |t| >= 3 && IsHexDigit(t[1]) && IsHexDigit(t[2]) && RegNameThenPort(t[3..]) {
      var k :| RegNameSplitAt(t[3..], k);
      PctSplits(t, k);
    }
    if k :| RegNameSplitAt(t, k) { SplitsAfterPct(t, k); }
  }

  /** ip_literal_is_valid(): the text between the brackets. */
  method IpLiteralIsValid(s: CString, pton: string -> bool) returns (ok: bool)
    requires Inet6Text(pton)
    ensures ok <==> IsIpvFuture(s) || pton(s)
  {
    if |s| > 0 && (s[0] == 'v' || s[0] == 'V') {
      var p := 1;
      while p < |s| && IsHexDigit(s[p])
        invariant 1 <= p <= |s|
        invariant forall i :: 1 <= i < p ==> IsHexDigit(s[i])
      {
        p := p + 1;
      }
      assert forall d :: IpvFutureAt(s, d) ==> d == p;
      if p == 1 || p >= |s| || s[p] != '.' || p + 1 >= |s| {
        return false;
      }
      var q := p + 1;
      while q < |s|
        invariant p < q <= |s|
        invariant forall i :: p < i < q ==> s[i] == ':' || IsHostChar(s[i])
      {
        if s[q] != ':' && !IsHostChar(s[q]) {
          return false;
        }
        q := q + 1;
      }
      assert IpvFutureAt(s, p);
      return true;
    }
    if |s| >= INET6_ADDRSTRLEN {
      return false;
    }
    return pton(s);
  }

  lemma IpLiteralHasNoBracket(s: string, pton: string -> bool)
    requires Inet6Text(pton)
    requires IsIpvFuture(s) || pton(s)
    ensures forall i :: 0 <= i < |s| ==> s[i] != ']'
  {
    if IsIpvFuture(s) {
      var d :| IpvFutureAt(s, d);
    }
  }

  lemma BracketedHostSplit(s: string, e: nat, k: nat, pton: string -> bool)
    requires Inet6Text(pton)
    requires e < |s| && s[0] == '[' && s[e] == ']'
    requires forall i :: 0 <= i < e ==> s[i] != ']'
    requires HostSplitAt(s, k, pton)
    ensures k == e + 1 && (IsIpvFuture(s[1..e]) || pton(s[1..e]))
  {
    assert s[0..] == s;
    assert k > 0;
    assert s[..k][0] == '[';
    var mid := s[..k][1..k - 1];
    IpLiteralHasNoBracket(mid, pton);
    assert s[..k][k - 1] == s[k - 1] == ']';
    assert forall i :: 1 <= i < k - 1 ==> mid[i - 1] == s[i];
    assert e == k - 1;
    assert mid == s[1..e];
  }

  /** A bracketed host can only end at the first ']'. */
  lemma BracketedHost(s: string, e: nat, pton: string -> bool)
    requires Inet6Text(pton)
    requires e < |s| && s[0] == '[' && s[e] == ']'
    requires forall i :: 0 <= i < e ==> s[i] != ']'
    ensures IsHost(s, pton) <==>
            (IsIpvFuture(s[1..e]) || pton(s[1..e])) && IsPortPart(s[e + 1..])
  {
    if (IsIpvFuture(s[1..e]) || pton(s[1..e])) && IsPortPart(s[e + 1..]) {
      assert s[..e + 1][1..e] == s[1..e];
      assert HostSplitAt(s, e + 1, pton);
    }
    if k :| HostSplitAt(s, k, pton) {
      BracketedHostSplit(s, e, k, pton);
    }
  }

  lemma UnclosedBracket(s: string, pton: string -> bool)
    requires s != "" && s[0] == '['
    requires forall i :: 0 <= i < |s| ==> s[i] != ']'
    ensures !IsHost(s, pton)
  {
    forall k ensures !HostSplitAt(s, k, pton) {
      assert s[0..] == s;
      assert 0 < k <= |s| ==> s[..k][0] == '[' && s[..k][k - 1] == s[k - 1];
    }
  }

  lemma UnbracketedHost(s: string, pton: string -> bool)
    requires s == "" || s[0] != '['
    ensures IsHost(s, pton) <==> RegNameThenPort(s)
  {
    if k :| HostSplitAt(s, k, pton) {
      assert RegNameSplitAt(s, k);
    }
    if k :| RegNameSplitAt(s, k) {
      assert HostSplitAt(s, k, pton);
    }
  }

  /** strchr(s, c) */
  method IndexOf(s: CString, c: char) returns (i: nat)
    ensures i <= |s| && (i < |s| ==> s[i] == c)
    ensures forall j :: 0 <= j < i ==> s[j] != c
  {
    i := 0;
    while i < |s| && s[i] != c
      invariant i <= |s|
      invariant forall j :: 0 <= j < i ==> s[j] != c
    {
      i := i + 1;
    }
  }

  /** The tail of host_is_valid(): an optional port, then the end. */
  method PortPartIsValid(s: CString, at: nat) returns (ok: bool)
    requires at <= |s|
    ensures ok <==> IsPortPart(s[at..])
  {
    var p := at;
    if At(s, p) == ':' {
      p := p + 1;
      while IsDigit(At(s, p))
        invariant at < p <= |s|
        invariant AllDigits(s[at + 1..p])
        decreases |s| - p
      {
        assert s[at + 1..p + 1] == s[at + 1..p] + [s[p]];
        p := p + 1;
      }
      ghost var t := s[at..];
      assert t[1..] == s[at + 1..];
      if p < |s| { assert t[1..][p - at - 1] == s[p]; }
      else { assert s[at + 1..p] == t[1..]; }
    }
    return At(s, p) == '\0';
  }

  /** The scan of host_is_valid() over a registered name. */
  method SkipRegName(s: CString) returns (ok: bool, p: nat)
    ensures p <= |s|
    ensures if ok then RegNameThenPort(s) <==> IsPortPart(s[p..]) else !RegNameThenPort(s)
  {
    hide RegNameThenPort;
    p := 0;
    assert s[0..] == s;
    while At(s, p) != '\0' && At(s, p) != ':'
      invariant p <= |s|
      invariant RegNameThenPort(s) <==> RegNameThenPort(s[p..])
      decreases |s| - p
    {
      ghost var t := s[p..];
      if At(s, p) == '%' {
        RegNamePct(t);
        if !IsHexDigit(At(s, p + 1)) || !IsHexDigit(At(s, p + 2)) {
          return false, p;
        }
        assert t[3..] == s[p + 3..];
        p := p + 3;
        continue;
      }
      if !IsHostChar(At(s, p)) {
        RegNameStop(t);
        return false, p;
      }
      RegNameChar(t);
      assert t[1..] == s[p + 1..];
      p := p + 1;
    }
    RegNameStop(s[p..]);
    ok := true;
  }

  /** host_is_valid() */
  method HostIsValid(s: CString, pton: string -> bool) returns (ok: bool)
    requires Inet6Text(pton)
    ensures ok <==> IsHost(s, pton)
  {
    hide IsHost, RegNameThenPort, IsPortPart, IsIpvFuture;
    var p := 0;
    if At(s, 0) == '[' {
      var end := IndexOf(s, ']');
      if end == |s| {
        UnclosedBracket(s, pton);
        return false;
      }
      BracketedHost(s, end, pton);
      var valid := IpLiteralIsValid(s[1..end], pton);
      if !valid {
        return false;
      }
      p := end + 1;
    } else {
      UnbracketedHost(s, pton);
      var named, k := SkipRegName(s);
      if !named {
        return false;
      }
      p := k;
    }
    ok := PortPartIsValid(s, p);
  }

  // ---- Content-Length ------------------------------------------------------

  const ULONG_MAX := 0xFFFF_FFFF_FFFF_FFFF

  /** The isdigit()/strtoul() reading of a Content-Length value: 1*DIGIT no
      larger than ULONG_MAX, and nothing else. */
  function ContentLength(value: string): (r: Option<nat>)
    ensures r.Some? ==> r.value <= ULONG_MAX
  {
    if value != "" && AllDigits(value) && DigitsValue(value) <= ULONG_MAX
    then Some(DigitsValue(value)) else None
  }

  /** strtoul(value, &endptr, 10), guarded by isdigit(value[0]); a value past
      ULONG_MAX is ERANGE. */
  method ParseContentLength(value: CString) returns (r: Option<nat>)
    ensures r == ContentLength(value)
  {
    if !IsDigit(At(value, 0)) {
      return None;
    }
    var p, n, range := 0, 0, false;
    while IsDigit(At(value, p))
      invariant p <= |value|
      invariant AllDigits(value[..p])
      invariant range <==> DigitsValue(value[..p]) > ULONG_MAX
      invariant !range ==> n == DigitsValue(value[..p])
      decreases |value| - p
    {
      assert value[..p + 1][..p] == value[..p];
      if !range {
        n := n * 10 + (value[p] - '0') as nat;
        range := n > ULONG_MAX;
      }
      p := p + 1;
    }
    if At(value, p) != '\0' || range {
      assert p == |value| ==> value[..p] == value;
      return None;
    }
    assert value[..p] == value;
    return Some(n);
  }
}

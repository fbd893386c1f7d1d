/** json_marshal_string(): quoting, in two passes over the string's octets. */
module JsonString {
  import opened Basics
  import opened JsonEmit

  predicate IsCont(c: char) { 0x80 as char <= c <= 0xBF as char }

  /** utf8_decode(): the length of the well-formed sequence at the front, or 0. */
  function Utf8Len(s: string): (n: nat)
    ensures n <= |s| && n <= 4
    ensures s != "" && s[0] < 0x80 as char ==> n == 1
  {
    if s == "" then 0
    else if s[0] < 0x80 as char then 1
    else if 0xC2 as char <= s[0] <= 0xDF as char then
      if |s| >= 2 && IsCont(s[1]) then 2 else 0
    else if 0xE0 as char <= s[0] <= 0xEF as char then
      if |s| >= 3 && IsCont(s[1]) && IsCont(s[2]) &&
         (s[0] == 0xE0 as char ==> s[1] >= 0xA0 as char) && (s[0] == 0xED as char ==> s[1] <= 0x9F as char)
      then 3 else 0
    else if 0xF0 as char <= s[0] <= 0xF4 as char then
      if |s| >= 4 && IsCont(s[1]) && IsCont(s[2]) && IsCont(s[3]) &&
         (s[0] == 0xF0 as char ==> s[1] >= 0x90 as char) && (s[0] == 0xF4 as char ==> s[1] <= 0x8F as char)
      then 4 else 0
    else 0
  }

  predicate IsUtf8(s: string)
    decreases |s|
  {
    s == "" || (Utf8Len(s) > 0 && IsUtf8(s[Utf8Len(s)..]))
  }

  /** One octet as JSON string content. */
  function Escape(c: char): (e: string)
    ensures 1 <= |e| <= 6
    ensures c >= 0x80 as char ==> e == [c]
  {
    if c == '"' then "\\\""
    else if c == '\\' then "\\\\"
    else if c == 0x08 as char then "\\b"
    else if c == 0x0C as char then "\\f"
    else if c == '\n' then "\\n"
    else if c == '\r' then "\\r"
    else if c == '\t' then "\\t"
    else if c < ' ' then "\\u00" + [HexDigit(c as nat / 16), HexDigit(c as nat % 16)]
    else [c]
  }

  function EscapeAll(s: string): string {
    if s == "" then "" else EscapeAll(s[..|s| - 1]) + Escape(s[|s| - 1])
  }

  function Quote(s: string): string { "\"" + EscapeAll(s) + "\"" }

  lemma {:induction false} EscapeAllConcat(s: string, t: string)
    ensures EscapeAll(s + t) == EscapeAll(s) + EscapeAll(t)
    decreases |t|
  {
    hide Escape;
    if t == "" {
      assert s + t == s;
    } else {
      EscapeAllConcat(s, t[..|t| - 1]);
      assert (s + t)[..|s + t| - 1] == s + t[..|t| - 1];
    }
  }

  lemma {:induction false} EscapeAllHigh(s: string)
    requires forall i :: 0 <= i < |s| ==> s[i] >= 0x80 as char
    ensures EscapeAll(s) == s
  {
    hide Escape;
    if s != "" {
      EscapeAllHigh(s[..|s| - 1]);
    }
  }

  lemma Utf8LenHigh(s: string)
    requires s != "" && s[0] >= 0x80 as char
    ensures forall i :: 0 <= i < Utf8Len(s) ==> s[i] >= 0x80 as char
  {
  }

  /** The counting pass of one well-formed sequence. */
  lemma CountSequence(s: string, i: nat, n: nat)
    requires i < |s| && n == Utf8Len(s[i..]) && n > 0
    ensures i + n <= |s|
    ensures EscapeAll(s[..i + n]) == EscapeAll(s[..i]) + EscapeAll(s[i..i + n])
    ensures s[i] < 0x80 as char ==> EscapeAll(s[i..i + n]) == Escape(s[i])
    ensures s[i] >= 0x80 as char ==> |EscapeAll(s[i..i + n])| == n
    ensures IsUtf8(s[i..]) <==> IsUtf8(s[i + n..])
  {
    hide Escape;
    assert s[..i + n] == s[..i] + s[i..i + n];
    EscapeAllConcat(s[..i], s[i..i + n]);
    assert s[i..][n..] == s[i + n..];
    if s[i] >= 0x80 as char {
      Utf8LenHigh(s[i..]);
      assert forall k :: 0 <= k < n ==> s[i..i + n][k] == s[i..][k];
      EscapeAllHigh(s[i..i + n]);
    } else {
      assert s[i..i + n] == [s[i]];
      assert EscapeAll([s[i]]) == EscapeAll("") + Escape(s[i]);
    }
  }

  lemma EscapeAllPrefix(s: string, i: nat)
    requires i <= |s|
    ensures |EscapeAll(s[..i])| <= |EscapeAll(s)|
  {
    assert s == s[..i] + s[i..];
    EscapeAllConcat(s[..i], s[i..]);
  }

  /** The counting pass: the quoted length, or -1 when the string has no JSON
      form or its length no int form. */
  method CountQuoted(s: string) returns (need: int)
    ensures need == if IsUtf8(s) && |Quote(s)| <= INT_MAX then |Quote(s)| else -1
  {
    hide EscapeAll, Escape, Utf8Len, IsUtf8;
    need := 2;
    var i := 0;
    assert s[..0] == "" && s[0..] == s;
    EmptyFacts();
    while i < |s|
      invariant 0 <= i <= |s|
      invariant need == 2 + |EscapeAll(s[..i])| <= INT_MAX
      invariant IsUtf8(s) <==> IsUtf8(s[i..])
      decreases |s| - i
    {
      var c := s[i];
      var n := Utf8Len(s[i..]);
      if n == 0 {
        NotUtf8(s[i..]);
        return -1;
      }
      CountSequence(s, i, n);
      need := need + (if c < 0x80 as char then |Escape(c)| else n);
      i := i + n;
      if need > INT_MAX {
        EscapeAllPrefix(s, i);
        return -1;
      }
    }
    assert s[..i] == s && s[i..] == "";
  }

  lemma EmptyFacts()
    ensures EscapeAll("") == "" && IsUtf8("")
  {
  }

  lemma NotUtf8(s: string)
    requires s != "" && Utf8Len(s) == 0
    ensures !IsUtf8(s)
  {
  }

  /** Store an octet run at `pos` as far as it fits. */
  method Store(buf: array<char>, off: nat, cap: nat, pos: nat, s: string)
    requires off + cap <= buf.Length
    modifies buf
    ensures Put(buf, off, cap, pos, s)
    ensures forall i :: 0 <= i < buf.Length && !(off + pos <= i < off + cap) ==> buf[i] == old(buf[i])
  {
    forall i | 0 <= i < |s| && pos + i < cap {
      buf[off + pos + i] := s[i];
    }
  }

  /** json_marshal_string() */
  method MarshalString(buf: array<char>, off: nat, cap: nat, s: string) returns (r: int)
    requires off + cap <= buf.Length
    modifies buf
    ensures r == if IsUtf8(s) && |Quote(s)| <= INT_MAX then |Quote(s)| else -1
    ensures r >= 0 ==> Put(buf, off, cap, 0, Quote(s))
    ensures forall i :: 0 <= i < buf.Length && !(off <= i < off + cap) ==> buf[i] == old(buf[i])
  {
    hide EscapeAll, Escape, IsUtf8;
    r := CountQuoted(s);
    if r < 0 || cap == 0 {
      return;
    }
    StoreQuoted(buf, off, cap, s);
    var end := if r < cap then r else cap - 1;
    label before:
    buf[off + end] := '\0';
    assert Put(buf, off, cap, 0, Quote(s)) by {
      forall i | 0 <= i < |Quote(s)| && 0 + i < cap - 1 ensures buf[off + 0 + i] == Quote(s)[i] {
        assert old@before(buf[off + 0 + i]) == Quote(s)[i];
      }
    }
  }

  /** The writing pass. */
  method StoreQuoted(buf: array<char>, off: nat, cap: nat, s: string)
    requires off + cap <= buf.Length
    modifies buf
    ensures Put(buf, off, cap, 0, Quote(s))
    ensures forall i :: 0 <= i < buf.Length && !(off <= i < off + cap) ==> buf[i] == old(buf[i])
  {
    hide Escape;
    Store(buf, off, cap, 0, "\"");
    var pos := 1;
    assert s[..0] == "";
    for i := 0 to |s|
      invariant pos == 1 + |EscapeAll(s[..i])|
      invariant Put(buf, off, cap, 0, "\"" + EscapeAll(s[..i]))
      invariant forall k :: 0 <= k < buf.Length && !(off <= k < off + cap) ==> buf[k] == old(buf[k])
    {
      assert s[..i + 1][..i] == s[..i];
      assert "\"" + EscapeAll(s[..i + 1]) == ("\"" + EscapeAll(s[..i])) + Escape(s[i]);
      StoreMore(buf, off, cap, "\"" + EscapeAll(s[..i]), pos, Escape(s[i]));
      pos := pos + |Escape(s[i])|;
    }
    assert s[..|s|] == s;
    StoreMore(buf, off, cap, "\"" + EscapeAll(s), pos, "\"");
  }

  method StoreMore(buf: array<char>, off: nat, cap: nat, ghost text: string, pos: nat, s: string)
    requires off + cap <= buf.Length && pos == |text| && Put(buf, off, cap, 0, text)
    modifies buf
    ensures Put(buf, off, cap, 0, text + s)
    ensures forall i :: 0 <= i < buf.Length && !(off <= i < off + cap) ==> buf[i] == old(buf[i])
  {
    Store(buf, off, cap, pos, s);
    assert Put(buf, off, cap, 0, text) by {
      forall i | 0 <= i < |text| && 0 + i < cap - 1 ensures buf[off + 0 + i] == text[i] {
        assert old(buf[off + 0 + i]) == text[i];
      }
    }
    PutConcat(buf, off, cap, 0, text, s);
  }
}

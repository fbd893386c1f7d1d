/** A reader of JSON texts, written from RFC 8259.  Texts are sequences of octets. */
module JsonReader {
  import opened Basics

  datatype Json =
    | JNull
    | JBool(b: bool)
    | JNumber(text: string)
    | JString(s: string)
    | JArray(items: seq<Json>)
    | JObject(members: seq<Member>)

  datatype Member = Member(key: string, value: Json)

  datatype Read<T> = Fail | Done(value: T, rest: string)

  // ---- White space (section 2) and numbers (section 6) ------------------------------------

  predicate IsWs(c: char) { c == ' ' || c == '\t' || c == '\n' || c == '\r' }

  function SkipWs(s: string): (r: string)
    ensures |r| <= |s|
  {
    if s != "" && IsWs(s[0]) then SkipWs(s[1..]) else s
  }

  predicate IsNumberChar(c: char) { IsDigit(c) || c == '-' || c == '+' || c == '.' || c == 'e' || c == 'E' }

  function DigitRun(s: string): (n: nat)
    ensures n <= |s|
  {
    if s != "" && IsDigit(s[0]) then 1 + DigitRun(s[1..]) else 0
  }

  function DropSign(s: string, plus: bool): (r: string)
    ensures |r| <= |s|
  {
    if s != "" && (s[0] == '-' || (plus && s[0] == '+')) then s[1..] else s
  }

  /** number = [ minus ] int [ frac ] [ exp ] */
  predicate IsNumber(s: string) {
    var t := DropSign(s, false);
    var n := DigitRun(t);
    n >= 1 && (t[0] == '0' ==> n == 1) && IsFraction(t[n..])
  }

  predicate IsFraction(s: string) {
    if s != "" && s[0] == '.' then
      var n := DigitRun(s[1..]);
      n >= 1 && IsExponent(s[1 + n..])
    else IsExponent(s)
  }

  predicate IsExponent(s: string) {
    s == "" ||
    ((s[0] == 'e' || s[0] == 'E') &&
     var t := DropSign(s[1..], true);
     t != "" && DigitRun(t) == |t|)
  }

  function NumberRun(s: string): (n: nat)
    ensures n <= |s|
  {
    if s != "" && IsNumberChar(s[0]) then 1 + NumberRun(s[1..]) else 0
  }

  // ---- Strings (section 7) ------------------------------------------------------------------

  /** The code unit of four hexadecimal digits. */
  function CodeUnit(s: string): (u: Option<nat>)
    ensures u.Some? ==> u.value < 0x10000 && |s| >= 4
  {
    if |s| < 4 || !IsHexDigit(s[0]) || !IsHexDigit(s[1]) || !IsHexDigit(s[2]) || !IsHexDigit(s[3]) then None
    else
      Some(HexDigitValue(s[0]) * 4096 + HexDigitValue(s[1]) * 256 + HexDigitValue(s[2]) * 16 + HexDigitValue(s[3]))
  }

  /** The UTF-8 octets of a code point, section 3 of RFC 3629. */
  function Utf8(cp: nat): string
    requires cp < 0x110000
  {
    if cp < 0x80 then [cp as char]
    else if cp < 0x800 then [(0xC0 + cp / 64) as char, (0x80 + cp % 64) as char]
    else if cp < 0x10000 then
      [(0xE0 + cp / 4096) as char, (0x80 + cp / 64 % 64) as char, (0x80 + cp % 64) as char]
    else
      [(0xF0 + cp / 262144) as char, (0x80 + cp / 4096 % 64) as char, (0x80 + cp / 64 % 64) as char,
       (0x80 + cp % 64) as char]
  }

  function ShortEscape(c: char): (r: string)
    ensures |r| <= 1
  {
    match c
    case '"' => "\"" case '\\' => "\\" case '/' => "/" case 'b' => [8 as char] case 'f' => [12 as char]
    case 'n' => [10 as char] case 'r' => [13 as char] case 't' => [9 as char] case _ => ""
  }

  function Prepend(p: string, r: Read<string>): Read<string> {
    if r.Fail? then Fail else Done(p + r.value, r.rest)
  }

  /** The octets of a string from behind its opening quote, and what follows the
      closing one. */
  function ReadChars(s: string): (r: Read<string>)
    ensures r.Done? ==> |r.rest| < |s|
    decreases |s|
  {
    if s == "" || s[0] < ' ' then Fail
    else if s[0] == '"' then Done("", s[1..])
    else if s[0] != '\\' then Prepend([s[0]], ReadChars(s[1..]))
    else if |s| == 1 then Fail
    else if ShortEscape(s[1]) != "" then Prepend(ShortEscape(s[1]), ReadChars(s[2..]))
    else if s[1] != 'u' || CodeUnit(s[2..]).None? then Fail
    else
      var hi := CodeUnit(s[2..]).value;
      if hi < 0xD800 || hi >= 0xE000 then Prepend(Utf8(hi), ReadChars(s[6..]))
      else if hi >= 0xDC00 || |s| < 12 || s[6] != '\\' || s[7] != 'u' || CodeUnit(s[8..]).None? then Fail
      else
        var lo := CodeUnit(s[8..]).value;
        if lo < 0xDC00 || lo >= 0xE000 then Fail
        else Prepend(Utf8(0x10000 + (hi - 0xD800) * 1024 + (lo - 0xDC00)), ReadChars(s[12..]))
  }

  function ReadString(s: string): (r: Read<string>)
    ensures r.Done? ==> |r.rest| < |s|
  {
    if s != "" && s[0] == '"' then ReadChars(s[1..]) else Fail
  }

  // ---- Values (sections 3 to 5) ---------------------------------------------------------------

  function ReadValue(s: string): (r: Read<Json>)
    ensures r.Done? ==> |r.rest| < |s|
    decreases |s|, 0
  {
    var t := SkipWs(s);
    if t == "" then Fail
    else if t[0] == '"' then
      var r := ReadString(t);
      if r.Fail? then Fail else Done(JString(r.value), r.rest)
    else if t[0] == '{' then
      var u := SkipWs(t[1..]);
      if u != "" && u[0] == '}' then Done(JObject([]), u[1..])
      else
        var r := ReadMembers(u);
        if r.Fail? then Fail else Done(JObject(r.value), r.rest)
    else if t[0] == '[' then
      var u := SkipWs(t[1..]);
      if u != "" && u[0] == ']' then Done(JArray([]), u[1..])
      else
        var r := ReadItems(u);
        if r.Fail? then Fail else Done(JArray(r.value), r.rest)
    else if "true" <= t then Done(JBool(true), t[4..])
    else if "false" <= t then Done(JBool(false), t[5..])
    else if "null" <= t then Done(JNull, t[4..])
    else
      var n := NumberRun(t);
      if n > 0 && IsNumber(t[..n]) then Done(JNumber(t[..n]), t[n..]) else Fail
  }

  /** Elements up to the closing bracket. */
  function ReadItems(s: string): (r: Read<seq<Json>>)
    ensures r.Done? ==> |r.rest| < |s|
    decreases |s|, 1
  {
    var v := ReadValue(s);
    if v.Fail? then Fail
    else
      var t := SkipWs(v.rest);
      if t == "" then Fail
      else if t[0] == ']' then Done([v.value], t[1..])
      else if t[0] != ',' then Fail
      else
        var more := ReadItems(t[1..]);
        if more.Fail? then Fail else Done([v.value] + more.value, more.rest)
  }

  function ReadMember(s: string): (r: Read<Member>)
    ensures r.Done? ==> |r.rest| < |s|
    decreases |s|, 1
  {
    var k := ReadString(SkipWs(s));
    if k.Fail? then Fail
    else
      var t := SkipWs(k.rest);
      if t == "" || t[0] != ':' then Fail
      else
        var v := ReadValue(t[1..]);
        if v.Fail? then Fail else Done(Member(k.value, v.value), v.rest)
  }

  /** Members up to the closing brace. */
  function ReadMembers(s: string): (r: Read<seq<Member>>)
    ensures r.Done? ==> |r.rest| < |s|
    decreases |s|, 2
  {
    var m := ReadMember(s);
    if m.Fail? then Fail
    else
      var t := SkipWs(m.rest);
      if t == "" then Fail
      else if t[0] == '}' then Done([m.value], t[1..])
      else if t[0] != ',' then Fail
      else
        var more := ReadMembers(t[1..]);
        if more.Fail? then Fail else Done([m.value] + more.value, more.rest)
  }
}

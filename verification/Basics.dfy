/** Characters, C strings, decimal numerals and optional values. */
module Basics {

  datatype Option<+T> = None | Some(value: T)

  /** A C string: its NUL terminator is the one just past the last character. */
  type CString = s: string | forall i :: 0 <= i < |s| ==> s[i] != '\0' witness ""

  function At(s: CString, i: nat): char
    requires i <= |s|
  {
    if i == |s| then '\0' else s[i]
  }

  predicate IsDigit(c: char) { '0' <= c <= '9' }

  predicate IsHexDigit(c: char) {
    IsDigit(c) || 'a' <= c <= 'f' || 'A' <= c <= 'F'
  }

  predicate IsLetter(c: char) { 'a' <= c <= 'z' || 'A' <= c <= 'Z' }

  predicate IsAlnum(c: char) { IsDigit(c) || IsLetter(c) }

  function ToLower(c: char): char {
    if 'A' <= c <= 'Z' then c - 'A' + 'a' else c
  }

  predicate HasNul(s: string) { exists i :: 0 <= i < |s| && s[i] == '\0' }

  function HexDigit(n: nat): (c: char)
    requires n < 16
    ensures IsHexDigit(c)
  {
    if n < 10 then '0' + n as char else 'a' + (n - 10) as char
  }

  function HexDigitValue(c: char): (n: nat)
    requires IsHexDigit(c)
    ensures n < 16
  {
    if c <= '9' then c as nat - '0' as nat
    else if c <= 'F' then c as nat - 'A' as nat + 10
    else c as nat - 'a' as nat + 10
  }

  lemma HexDigitReads(n: nat)
    requires n < 16
    ensures HexDigitValue(HexDigit(n)) == n
  {
  }

  /** Where `c` first stands in `s`, or |s|. */
  function CharIndex(s: string, c: char): (k: nat)
    ensures k <= |s| && (k < |s| ==> s[k] == c)
    ensures forall i :: 0 <= i < k ==> s[i] != c
  {
    if s == "" || s[0] == c then 0 else 1 + CharIndex(s[1..], c)
  }

  /** The elements of a list, split at every comma; never empty. */
  lemma {:induction false} IndexIs(a: string, c: char, b: string)
    requires c !in a
    ensures CharIndex(a + [c] + b, c) == |a|
  {
    var s := a + [c] + b;
    if a != "" {
      IndexIs(a[1..], c, b);
      assert s[1..] == a[1..] + [c] + b;
    }
  }

  function Elements(s: string): seq<string>
    decreases |s|
  {
    var k := CharIndex(s, ',');
    if k == |s| then [s] else [s[..k]] + Elements(s[k + 1..])
  }

  function CommaJoined(ss: seq<string>): string {
    if ss == [] then "" else if |ss| == 1 then ss[0] else ss[0] + "," + CommaJoined(ss[1..])
  }

  /** The elements are what was joined. */
  lemma {:induction false} ElementsOf(ss: seq<string>)
    requires ss != [] && forall i :: 0 <= i < |ss| ==> ',' !in ss[i]
    ensures Elements(CommaJoined(ss)) == ss
  {
    hide CharIndex;
    var s := CommaJoined(ss);
    if |ss| == 1 {
      assert CharIndex(s, ',') == |s|;
      assert ss == [s];
    } else {
      ElementsOf(ss[1..]);
      var rest := CommaJoined(ss[1..]);
      assert s == ss[0] + [','] + rest;
      IndexIs(ss[0], ',', rest);
      assert s[..|ss[0]|] == ss[0] && s[|ss[0]| + 1..] == rest;
      assert ss == [ss[0]] + ss[1..];
    }
  }

  predicate AllDigits(s: string) { forall i :: 0 <= i < |s| ==> IsDigit(s[i]) }

  /** The number a digit string denotes. */
  function DigitsValue(s: string): nat
    requires AllDigits(s)
  {
    if s == "" then 0
    else DigitsValue(s[..|s| - 1]) * 10 + (s[|s| - 1] - '0') as nat
  }

  /** str(n) in Python, "%d" in C. */
  function Decimal(n: nat): (s: string)
    ensures s != "" && AllDigits(s)
  {
    if n < 10 then ['0' + n as char] else Decimal(n / 10) + ['0' + (n % 10) as char]
  }

  lemma {:induction false} DecimalValue(n: nat)
    ensures DigitsValue(Decimal(n)) == n
  {
    var s := Decimal(n);
    if n < 10 {
      assert s[..0] == "";
    } else {
      DecimalValue(n / 10);
      assert s[..|s| - 1] == Decimal(n / 10);
    }
  }

  lemma DecimalInjective(a: nat, b: nat)
    requires Decimal(a) == Decimal(b)
    ensures a == b
  {
    hide Decimal, DigitsValue;
    DecimalValue(a);
    DecimalValue(b);
  }

  // ---- Trimming -----------------------------------------------------------------------

  function TrimStart(s: string, space: char -> bool): (r: string)
    ensures |r| <= |s| && r == s[|s| - |r|..]
    ensures r != "" ==> !space(r[0])
  {
    if s != "" && space(s[0]) then TrimStart(s[1..], space) else s
  }

  function TrimEnd(s: string, space: char -> bool): (r: string)
    ensures |r| <= |s| && r == s[..|r|]
    ensures r != "" ==> !space(r[|r| - 1])
  {
    if s != "" && space(s[|s| - 1]) then TrimEnd(s[..|s| - 1], space) else s
  }

  function Trim(s: string, space: char -> bool): string {
    TrimEnd(TrimStart(s, space), space)
  }

  /** What the scan from the front finds. */
  lemma {:induction false} TrimStartIs(s: string, space: char -> bool, start: nat)
    requires start <= |s| && (forall i :: 0 <= i < start ==> space(s[i]))
    requires start < |s| ==> !space(s[start])
    ensures TrimStart(s, space) == s[start..]
  {
    if start > 0 {
      TrimStartIs(s[1..], space, start - 1);
      assert s[1..][start - 1..] == s[start..];
    }
  }

  /** What the scan from the back finds. */
  lemma {:induction false} TrimEndIs(s: string, space: char -> bool, end: nat)
    requires end <= |s| && (forall i :: end <= i < |s| ==> space(s[i]))
    requires end > 0 ==> !space(s[end - 1])
    ensures TrimEnd(s, space) == s[..end]
  {
    if end < |s| { TrimEndIs(s[..|s| - 1], space, end); }
  }

  /** The two scans together. */
  lemma TrimIs(s: string, space: char -> bool, start: nat, end: nat)
    requires start <= end <= |s|
    requires forall i :: 0 <= i < start ==> space(s[i])
    requires forall i :: end <= i < |s| ==> space(s[i])
    requires start < end ==> !space(s[start]) && !space(s[end - 1])
    requires start == end ==> start == |s|
    ensures Trim(s, space) == s[start..end]
  {
    hide TrimStart, TrimEnd;
    TrimStartIs(s, space, start);
    var t := s[start..];
    assert forall i :: 0 <= i < |t| ==> t[i] == s[start + i];
    TrimEndIs(t, space, end - start);
    assert t[..end - start] == s[start..end];
  }

  predicate AllAre(s: string, space: char -> bool) { forall i :: 0 <= i < |s| ==> space(s[i]) }

  lemma {:induction false} StartTrimmed(s: string, space: char -> bool)
    ensures AllAre(s[..|s| - |TrimStart(s, space)|], space)
  {
    if s != "" && space(s[0]) {
      StartTrimmed(s[1..], space);
      var n := |s| - |TrimStart(s, space)|;
      assert s[..n] == [s[0]] + s[1..][..n - 1];
    }
  }

  lemma {:induction false} EndTrimmed(s: string, space: char -> bool)
    ensures AllAre(s[|TrimEnd(s, space)|..], space)
  {
    if s != "" && space(s[|s| - 1]) {
      var n := |s| - 1;
      EndTrimmed(s[..n], space);
      var k := |TrimEnd(s, space)|;
      assert s[k..] == s[..n][k..] + [s[n]];
    }
  }

  predicate IsTrimmed(s: string, space: char -> bool) { s != "" ==> !space(s[0]) && !space(s[|s| - 1]) }

  /** What trimming takes away. */
  lemma TrimParts(s: string, space: char -> bool) returns (a: string, b: string)
    ensures AllAre(a, space) && AllAre(b, space) && IsTrimmed(Trim(s, space), space) && s == a + Trim(s, space) + b
  {
    hide TrimStart, TrimEnd, AllAre;
    var t := TrimStart(s, space);
    var r := TrimEnd(t, space);
    a, b := s[..|s| - |t|], t[|r|..];
    StartTrimmed(s, space);
    EndTrimmed(t, space);
    Reassemble(s, t, r);
    if r != "" { assert r[0] == t[0]; }
  }

  lemma Reassemble(s: string, t: string, r: string)
    requires |t| <= |s| && t == s[|s| - |t|..] && |r| <= |t| && r == t[..|r|]
    ensures s == s[..|s| - |t|] + r + t[|r|..]
  {
    assert t == r + t[|r|..];
  }

  /** And trimming takes away just that. */
  lemma TrimOf(a: string, v: string, b: string, space: char -> bool)
    requires AllAre(a, space) && AllAre(b, space) && IsTrimmed(v, space)
    ensures Trim(a + v + b, space) == v
  {
    hide Trim;
    var s := a + v + b;
    if v == "" {
      TrimEmpty(s, space);
      assert forall i :: 0 <= i < |s| ==> s[i] == if i < |a| then a[i] else b[i - |a|];
    } else {
      assert forall i :: 0 <= i < |a| ==> s[i] == a[i];
      assert forall i :: |a| + |v| <= i < |s| ==> s[i] == b[i - |a| - |v|];
      assert s[|a|] == v[0] && s[|a| + |v| - 1] == v[|v| - 1];
      TrimIs(s, space, |a|, |a| + |v|);
      assert s[|a|..|a| + |v|] == v;
    }
  }

  lemma TrimKeeps(s: string, space: char -> bool)
    ensures forall c :: c in Trim(s, space) ==> c in s
  {
    hide TrimStart, TrimEnd;
    var t := TrimStart(s, space);
    var r := TrimEnd(t, space);
    forall i | 0 <= i < |r| ensures r[i] in s {
      assert r[i] == t[i] == s[i + |s| - |t|];
    }
  }

  lemma {:induction false} TrimStartEmpty(s: string, space: char -> bool)
    ensures TrimStart(s, space) == "" <==> forall i :: 0 <= i < |s| ==> space(s[i])
  {
    if s != "" && space(s[0]) {
      TrimStartEmpty(s[1..], space);
      assert forall i :: 1 <= i < |s| ==> s[i] == s[1..][i - 1];
    }
  }

  lemma {:induction false} TrimEndEmpty(s: string, space: char -> bool)
    ensures TrimEnd(s, space) == "" <==> forall i :: 0 <= i < |s| ==> space(s[i])
  {
    if s != "" && space(s[|s| - 1]) {
      TrimEndEmpty(s[..|s| - 1], space);
      assert forall i :: 0 <= i < |s| - 1 ==> s[i] == s[..|s| - 1][i];
    }
  }

  /** Nothing is left exactly when there was nothing but space. */
  lemma TrimEmpty(s: string, space: char -> bool)
    ensures Trim(s, space) == "" <==> forall i :: 0 <= i < |s| ==> space(s[i])
  {
    hide TrimStart, TrimEnd;
    TrimStartEmpty(s, space);
    TrimEndEmpty(TrimStart(s, space), space);
  }

  // ---- Machine integers -----------------------------------------------------------------

  const INT64_MAX := 0x7FFF_FFFF_FFFF_FFFF

  function MinOf(a: int, b: int): int { if a < b then a else b }

  lemma MulAtLeast(d: int, m: int)
    requires d >= 1 && m > 0
    ensures d * m >= m
  {
  }

  /** Quotient and remainder are unique. */
  lemma ModUnique(x: int, k: int, m: int, r: int)
    requires m > 0 && 0 <= r < m && x == k * m + r
    ensures x % m == r
  {
    var q := x / m;
    assert (k - q) * m == x % m - r;
    if k > q { MulAtLeast(k - q, m); }
    if k < q { MulAtLeast(q - k, m); }
  }

  // ---- Sequences ------------------------------------------------------------------------

  lemma Snoc<T>(s: seq<T>)
    requires s != []
    ensures s == s[..|s| - 1] + [s[|s| - 1]]
  {
  }

  // ---- The order of strings -------------------------------------------------------------

  /** Code point by code point, a prefix first. */
  predicate LexLe(a: string, b: string) {
    a == "" || (b != "" && (a[0] < b[0] || (a[0] == b[0] && LexLe(a[1..], b[1..]))))
  }

  lemma {:induction false} LexTotal(a: string, b: string)
    ensures LexLe(a, b) || LexLe(b, a)
  {
    if a != "" && b != "" && a[0] == b[0] { LexTotal(a[1..], b[1..]); }
  }

  lemma {:induction false} LexTransitive(a: string, b: string, c: string)
    requires LexLe(a, b) && LexLe(b, c)
    ensures LexLe(a, c)
  {
    if a != "" && a[0] == b[0] == c[0] { LexTransitive(a[1..], b[1..], c[1..]); }
  }

  lemma {:induction false} LexReflexive(a: string)
    ensures LexLe(a, a)
  {
    if a != "" { LexReflexive(a[1..]); }
  }

  lemma {:induction false} LexAntisymmetric(a: string, b: string)
    requires LexLe(a, b) && LexLe(b, a)
    ensures a == b
  {
    if a != "" {
      LexAntisymmetric(a[1..], b[1..]);
      assert a == [a[0]] + a[1..] && b == [b[0]] + b[1..];
    }
  }

  /** A string stands before everything it is a proper prefix of. */
  lemma {:induction false} PrefixFirst(a: string, b: string)
    requires a <= b && a != b
    ensures !LexLe(b, a)
  {
    if a != "" { PrefixFirst(a[1..], b[1..]); }
  }
}

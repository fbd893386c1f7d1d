/** Well-formed UTF-8 is what code points encode to. */
module Utf8Meaning {
  import opened Basics
  import opened JsonString
  import opened JsonReader

  /** A Unicode scalar value: no surrogate. */
  predicate IsScalar(cp: nat) { cp < 0xD800 || 0xE000 <= cp < 0x110000 }

  predicate AllScalars(cps: seq<nat>) { forall i :: 0 <= i < |cps| ==> IsScalar(cps[i]) }

  function Encode(cps: seq<nat>): string
    requires AllScalars(cps)
  {
    if cps == [] then "" else Utf8(cps[0]) + Encode(cps[1..])
  }

  /** The sequence at the front of a text has the length of what is encoded there. */
  lemma EncodedLength(cp: nat, rest: string)
    requires IsScalar(cp)
    ensures Utf8Len(Utf8(cp) + rest) == |Utf8(cp)| > 0
  {
    var s := Utf8(cp) + rest;
    assert forall i :: 0 <= i < |Utf8(cp)| ==> s[i] == Utf8(cp)[i];
    if 0x10000 <= cp {
      FourOctets(cp);
    } else if 0x800 <= cp {
      ThreeOctets(cp);
    }
  }

  lemma ThreeOctets(cp: nat)
    requires 0x800 <= cp < 0x10000 && IsScalar(cp)
    ensures cp / 4096 == 0 ==> cp / 64 % 64 >= 0x20
    ensures cp / 4096 == 13 ==> cp / 64 % 64 < 0x20
    ensures cp / 4096 < 16
  {
    var q := cp / 64;
    assert q / 64 == cp / 4096;
  }

  lemma FourOctets(cp: nat)
    requires 0x10000 <= cp < 0x110000
    ensures cp / 262144 == 0 ==> cp / 4096 % 64 >= 0x10
    ensures cp / 262144 == 4 ==> cp / 4096 % 64 < 0x10
    ensures cp / 262144 <= 4
  {
    var q := cp / 4096;
    assert q / 64 == cp / 262144;
  }

  function Low(c: char): int { c as int - 0x80 }

  lemma TwoEncode(s: string) returns (cp: nat)
    requires Utf8Len(s) == 2
    ensures IsScalar(cp) && s[..2] == Utf8(cp)
  {
    var a := s[0] as int;
    cp := (a - 0xC0) * 64 + Low(s[1]);
    Split(a - 0xC0, Low(s[1]));
  }

  lemma ThreeEncode(s: string) returns (cp: nat)
    requires Utf8Len(s) == 3
    ensures IsScalar(cp) && s[..3] == Utf8(cp)
  {
    var a := s[0] as int;
    var q := (a - 0xE0) * 64 + Low(s[1]);
    cp := q * 64 + Low(s[2]);
    Split(a - 0xE0, Low(s[1]));
    Split(q, Low(s[2]));
    assert cp / 4096 == cp / 64 / 64;
  }

  lemma FourEncode(s: string) returns (cp: nat)
    requires Utf8Len(s) == 4
    ensures IsScalar(cp) && s[..4] == Utf8(cp)
  {
    var a := s[0] as int;
    var q := (a - 0xF0) * 64 + Low(s[1]);
    var r := q * 64 + Low(s[2]);
    cp := r * 64 + Low(s[3]);
    Split(a - 0xF0, Low(s[1]));
    Split(q, Low(s[2]));
    Split(r, Low(s[3]));
    assert cp / 4096 == cp / 64 / 64 && cp / 262144 == cp / 64 / 64 / 64;
  }

  lemma OneEncodes(s: string)
    requires Utf8Len(s) == 1
    ensures s[0] < 0x80 as char && s[..1] == Utf8(s[0] as nat)
  {
  }

  /** And every such sequence encodes some code point. */
  lemma LengthEncodes(s: string) returns (cp: nat)
    requires Utf8Len(s) > 0
    ensures IsScalar(cp) && s[..Utf8Len(s)] == Utf8(cp)
  {
    hide Utf8Len, Utf8;
    var n := Utf8Len(s);
    if n == 1 {
      OneEncodes(s);
      cp := s[0] as nat;
    } else if n == 2 {
      cp := TwoEncode(s);
    } else if n == 3 {
      cp := ThreeEncode(s);
    } else {
      cp := FourEncode(s);
    }
  }

  lemma Split(q: nat, r: nat)
    requires r < 64
    ensures (q * 64 + r) / 64 == q && (q * 64 + r) % 64 == r
  {
  }

  lemma {:induction false} EncodedIsUtf8(cps: seq<nat>)
    requires AllScalars(cps)
    ensures IsUtf8(Encode(cps))
  {
    hide Utf8Len, Utf8;
    if cps != [] {
      EncodedIsUtf8(cps[1..]);
      var rest := Encode(cps[1..]);
      EncodedLength(cps[0], rest);
      assert (Utf8(cps[0]) + rest)[|Utf8(cps[0])|..] == rest;
    }
  }

  lemma {:induction false} Utf8IsEncoded(s: string) returns (cps: seq<nat>)
    requires IsUtf8(s)
    ensures AllScalars(cps) && Encode(cps) == s
    decreases |s|
  {
    hide Utf8Len, Utf8;
    if s == "" {
      cps := [];
    } else {
      var n := Utf8Len(s);
      var cp := LengthEncodes(s);
      var more := Utf8IsEncoded(s[n..]);
      cps := [cp] + more;
      assert cps[1..] == more && s == s[..n] + s[n..];
    }
  }

  /** A string is accepted exactly when it encodes some code points. */
  lemma Utf8Iff(s: string)
    ensures IsUtf8(s) <==> exists cps :: AllScalars(cps) && Encode(cps) == s
  {
    hide IsUtf8, Encode;
    if IsUtf8(s) { var cps := Utf8IsEncoded(s); }
    if cps :| AllScalars(cps) && Encode(cps) == s { EncodedIsUtf8(cps); }
  }
}

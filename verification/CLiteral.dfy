/** String literals in generated C: the generator's escaping, and the first
    translation phases of a C11 compiler that must undo it.  Octets are
    characters below 256. */
module CLiteral {
  import opened Basics

  type Octets = s: string | forall i :: 0 <= i < |s| ==> s[i] < 256 as char witness ""

  function Octal(d: nat): char
    requires d < 8
  {
    '0' + d as char
  }

  /** One octet of _c_string_literal(). */
  function Piece(c: char): (p: string)
    requires c < 256 as char
    ensures p != ""
  {
    if c == '\\' then "\\\\"
    else if c == '"' then "\\\""
    else if c == '\n' then "\\n"
    else if c == '\r' then "\\r"
    else if c == '\t' then "\\t"
    else if c == '?' then "\\?"
    else if ' ' <= c <= '~' then [c]
    else ['\\', Octal(c as nat / 64), Octal(c as nat / 8 % 8), Octal(c as nat % 8)]
  }

  function Literal(s: Octets): string {
    if s == "" then "" else Piece(s[0]) + Literal(s[1..])
  }

  /** _c_string_literal(): the literal's content and its length constant. */
  method CStringLiteral(s: Octets) returns (text: string, length: nat)
    ensures text == Literal(s) && length == |s|
  {
    hide Piece;
    text := "";
    for i := 0 to |s|
      invariant text + Literal(s[i..]) == Literal(s)
    {
      assert s[i..][1..] == s[i + 1..];
      assert Literal(s[i..]) == Piece(s[i]) + Literal(s[i + 1..]);
      text := text + Piece(s[i]);
    }
    length := |s|;
  }

  // ---- Translation phases 1 and 2 (section 5.1.1.2 of ISO C11) --------------------

  /** The character a trigraph ??c stands for, section 5.2.1.1 of ISO C11. */
  function Trigraph(c: char): (r: string)
    ensures |r| <= 1
  {
    match c
    case '=' => "#" case '/' => "\\" case '\'' => "^" case '(' => "["
    case ')' => "]" case '!' => "|" case '<' => "{" case '>' => "}"
    case '-' => "~" case _ => ""
  }

  function Trigraphs(t: string): string
    decreases |t|
  {
    if t == "" then ""
    else if |t| >= 3 && t[0] == '?' && t[1] == '?' && Trigraph(t[2]) != "" then Trigraph(t[2]) + Trigraphs(t[3..])
    else [t[0]] + Trigraphs(t[1..])
  }

  /** Lines ending in a backslash are joined. */
  function Splices(t: string): string
    decreases |t|
  {
    if t == "" then ""
    else if |t| >= 2 && t[0] == '\\' && t[1] == '\n' then Splices(t[2..])
    else [t[0]] + Splices(t[1..])
  }

  // ---- Escape sequences (section 6.4.4.4 of ISO C11) --------------------------------

  predicate IsOctal(c: char) { '0' <= c <= '7' }

  function Simple(c: char): (r: string) {
    match c
    case '\'' => "'" case '"' => "\"" case '?' => "?" case '\\' => "\\"
    case 'a' => [7 as char] case 'b' => [8 as char] case 'f' => [12 as char] case 'n' => "\n"
    case 'r' => "\r" case 't' => "\t" case 'v' => [11 as char] case _ => ""
  }

  /** How many octal digits an octal escape takes: up to three. */
  function OctalRun(t: string): (n: nat)
    ensures n <= 3 && n <= |t|
  {
    if |t| == 0 || !IsOctal(t[0]) then 0
    else if |t| == 1 || !IsOctal(t[1]) then 1
    else if |t| == 2 || !IsOctal(t[2]) then 2
    else 3
  }

  function OctalValue(t: string): nat
    requires forall i :: 0 <= i < |t| ==> IsOctal(t[i])
  {
    if t == "" then 0
    else
      assert IsOctal(t[|t| - 1]);
      OctalValue(t[..|t| - 1]) * 8 + (t[|t| - 1] as nat - '0' as nat)
  }

  /** How many digits a hexadecimal escape takes: all there are. */
  function HexRun(t: string): (n: nat)
    ensures n <= |t| && forall i :: 0 <= i < n ==> IsHexDigit(t[i])
  {
    if t == "" || !IsHexDigit(t[0]) then 0 else 1 + HexRun(t[1..])
  }

  function HexValue(t: string): nat
    requires forall i :: 0 <= i < |t| ==> IsHexDigit(t[i])
  {
    if t == "" then 0
    else
      var c := t[|t| - 1];
      assert IsHexDigit(c);
      HexValue(t[..|t| - 1]) * 16 + HexDigitValue(c)
  }

  datatype Lexed = Bad | Lexed(value: string, rest: string)

  /** The octets of a string literal from just past its opening quote, and the
      text after its closing one.  Universal character names are not modelled
      and refused. */
  function LexString(t: string): Lexed
    decreases |t|
  {
    if t == "" || t[0] == '\n' then Bad
    else if t[0] == '"' then Lexed("", t[1..])
    else if t[0] != '\\' then Then([t[0]], LexString(t[1..]))
    else if |t| == 1 then Bad
    else if Simple(t[1]) != "" then Then(Simple(t[1]), LexString(t[2..]))
    else if t[1] == 'x' then
      var n := HexRun(t[2..]);
      if n == 0 || HexValue(t[2..][..n]) >= 256 then Bad
      else Then([HexValue(t[2..][..n]) as char], LexString(t[2 + n..]))
    else
      var n := OctalRun(t[1..]);
      if n == 0 then Bad
      else
        assert forall i :: 0 <= i < n ==> IsOctal(t[1..][..n][i]);
        var v := OctalValue(t[1..][..n]);
        if v >= 256 then Bad
        else Then([v as char], LexString(t[1 + n..]))
  }

  function Then(c: string, r: Lexed): Lexed {
    if r.Bad? then Bad else Lexed(c + r.value, r.rest)
  }

  // ---- The round trip -----------------------------------------------------------------

  /** No newline, and no question mark next to another, ever appears. */
  predicate Quiet(t: string) {
    (forall i :: 0 <= i < |t| ==> t[i] != '\n') &&
    forall i :: 0 <= i < |t| - 1 ==> !(t[i] == '?' && t[i + 1] == '?')
  }

  lemma PieceQuiet(c: char)
    requires c < 256 as char
    ensures Quiet(Piece(c)) && Piece(c)[0] != '?'
  {
  }

  lemma {:induction false} LiteralQuiet(s: Octets)
    ensures Quiet(Literal(s)) && (Literal(s) != "" ==> Literal(s)[0] != '?')
  {
    hide Piece;
    if s != "" {
      LiteralQuiet(s[1..]);
      PieceQuiet(s[0]);
      var a, b := Piece(s[0]), Literal(s[1..]);
      forall i | 0 <= i < |a + b| - 1 ensures !((a + b)[i] == '?' && (a + b)[i + 1] == '?') {
        if i + 1 < |a| {
          assert (a + b)[i] == a[i] && (a + b)[i + 1] == a[i + 1];
        } else if i + 1 == |a| {
          assert (a + b)[i + 1] == b[0];
        } else {
          assert (a + b)[i] == b[i - |a|] && (a + b)[i + 1] == b[i - |a| + 1];
        }
      }
    }
  }

  /** Phase 1 passes over quiet text that is closed by a quote. */
  lemma {:induction false} TrigraphsQuiet(t: string, rest: string)
    requires Quiet(t)
    ensures Trigraphs(t + "\"" + rest) == t + "\"" + Trigraphs(rest)
    decreases |t|
  {
    var all := t + "\"" + rest;
    if t == "" {
      assert all == ['"'] + rest;
      assert all[1..] == rest;
    } else {
      assert all[1..] == t[1..] + "\"" + rest;
      assert Quiet(t[1..]) by {
        forall i | 0 <= i < |t[1..]| - 1 ensures !(t[1..][i] == '?' && t[1..][i + 1] == '?') {
          assert t[i + 1] == t[1..][i] && t[i + 2] == t[1..][i + 1];
        }
      }
      TrigraphsQuiet(t[1..], rest);
      assert !(all[0] == '?' && all[1] == '?') by {
        if |t| > 1 { assert all[1] == t[1]; }
      }
    }
  }

  lemma {:induction false} SplicesQuiet(t: string, rest: string)
    requires Quiet(t)
    ensures Splices(t + "\"" + rest) == t + "\"" + Splices(rest)
    decreases |t|
  {
    var all := t + "\"" + rest;
    if t == "" {
      assert all == ['"'] + rest;
      assert all[1..] == rest;
    } else {
      assert all[1..] == t[1..] + "\"" + rest;
      assert Quiet(t[1..]) by {
        forall i | 0 <= i < |t[1..]| - 1 ensures !(t[1..][i] == '?' && t[1..][i + 1] == '?') {
          assert t[i + 1] == t[1..][i] && t[i + 2] == t[1..][i + 1];
        }
      }
      SplicesQuiet(t[1..], rest);
      assert all[1] != '\n' by {
        if |t| > 1 { assert all[1] == t[1]; }
      }
    }
  }

  lemma LexPlain(c: char, rest: string)
    requires c != '\\' && c != '"' && c != '\n'
    ensures LexString([c] + rest) == Then([c], LexString(rest))
  {
    assert ([c] + rest)[1..] == rest;
  }

  lemma LexSimple(e: char, rest: string)
    requires Simple(e) != ""
    ensures LexString(['\\', e] + rest) == Then(Simple(e), LexString(rest))
  {
    hide Simple;
    assert (['\\', e] + rest)[2..] == rest;
  }

  /** The three forms a piece can have. */
  lemma PieceForms(c: char)
    requires c < 256 as char
    ensures var s := Piece(c);
            || (s == [c] && c != '\\' && c != '"' && c != '\n')
            || (|s| == 2 && s[0] == '\\' && Simple(s[1]) == [c])
            || s == ['\\', Octal(c as nat / 64), Octal(c as nat / 8 % 8), Octal(c as nat % 8)]
  {
  }

  /** An escape is read back as the octet it stands for, whatever follows: in
      particular an octal escape absorbs no digit behind it. */
  lemma LexPiece(c: char, rest: string)
    requires c < 256 as char
    ensures LexString(Piece(c) + rest) == Then([c], LexString(rest))
  {
    hide Piece, LexString, Simple;
    PieceForms(c);
    var s := Piece(c);
    if s == [c] {
      LexPlain(c, rest);
    } else if |s| == 2 {
      assert s == ['\\', s[1]];
      LexSimple(s[1], rest);
    } else {
      LexOctal(c as nat, rest);
    }
  }

  lemma OctalDigits(n: nat)
    requires n < 256
    ensures var ds := [Octal(n / 64), Octal(n / 8 % 8), Octal(n % 8)];
            (forall i :: 0 <= i < 3 ==> IsOctal(ds[i])) && OctalValue(ds) == n
  {
    var ds := [Octal(n / 64), Octal(n / 8 % 8), Octal(n % 8)];
    assert ds[..2] == [ds[0], ds[1]] && ds[..2][..1] == [ds[0]] && ds[..2][..1][..0] == [];
    assert OctalValue(ds[..2][..1]) == n / 64;
    assert OctalValue(ds[..2]) == n / 64 * 8 + n / 8 % 8;
  }

  lemma OctalEscape(t: string, n: nat)
    requires |t| >= 4 && t[0] == '\\' && n < 256
    requires forall i :: 1 <= i < 4 ==> IsOctal(t[i])
    requires OctalValue([t[1], t[2], t[3]]) == n
    ensures LexString(t) == Then([n as char], LexString(t[4..]))
  {
    hide OctalValue, HexRun, HexValue;
    assert OctalRun(t[1..]) == 3;
    assert t[1..][..3] == [t[1], t[2], t[3]];
    assert Simple(t[1]) == "" && t[1] != 'x';
  }

  lemma LexOctal(n: nat, rest: string)
    requires n < 256
    ensures var t := ['\\', Octal(n / 64), Octal(n / 8 % 8), Octal(n % 8)] + rest;
            LexString(t) == Then([n as char], LexString(rest))
  {
    hide LexString, OctalValue;
    var t := ['\\', Octal(n / 64), Octal(n / 8 % 8), Octal(n % 8)] + rest;
    OctalDigits(n);
    assert t[1] == Octal(n / 64) && t[2] == Octal(n / 8 % 8) && t[3] == Octal(n % 8) && t[4..] == rest;
    OctalEscape(t, n);
  }

  lemma {:induction false} LexLiteral(s: Octets, rest: string)
    ensures LexString(Literal(s) + "\"" + rest) == Lexed(s, rest)
  {
    hide Piece, LexString;
    if s == "" {
      assert Literal(s) + "\"" + rest == "\"" + rest;
      LexClose(rest);
    } else {
      LexLiteral(s[1..], rest);
      assert Literal(s) + "\"" + rest == Piece(s[0]) + (Literal(s[1..]) + "\"" + rest);
      LexPiece(s[0], Literal(s[1..]) + "\"" + rest);
      assert [s[0]] + s[1..] == s;
    }
  }

  lemma LexClose(rest: string)
    ensures LexString("\"" + rest) == Lexed("", rest)
  {
    assert ("\"" + rest)[1..] == rest;
  }

  /** A compiler reads the emitted literal back as exactly the given octets, so
      the length constant beside it always matches, and resumes right behind
      the closing quote. */
  lemma LiteralRoundTrip(s: Octets, rest: string)
    ensures LexString(Splices(Trigraphs(Literal(s) + "\"" + rest))) == Lexed(s, Splices(Trigraphs(rest)))
  {
    hide *;
    LiteralQuiet(s);
    TrigraphsQuiet(Literal(s), rest);
    SplicesQuiet(Literal(s), Trigraphs(rest));
    LexLiteral(s, Splices(Trigraphs(rest)));
  }
}

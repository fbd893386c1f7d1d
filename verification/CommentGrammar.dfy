/** The scan of a line by the forms a line of C can begin with. */
module CommentGrammar {
  import opened Basics
  import opened CommentMask

  /** How a line outside comments goes on. */
  datatype Form =
    | Nothing
    | Plain(c: char, rest: string)
    | LineComment(text: string)
    | BlockComment(text: string, rest: string)
    | OpenComment(text: string)
    | Literal(quote: char, pieces: seq<string>, rest: string)
    | OpenLiteral(quote: char, pieces: seq<string>, last: string)

  /** No comment ends in or right behind it. */
  predicate NoClose(text: string) { forall i :: 0 <= i < |text| - 1 ==> !(text[i] == '*' && text[i + 1] == '/') }

  /** One character of a literal, or an escape of two. */
  predicate IsPiece(s: string, quote: char) {
    (|s| == 1 && s[0] != '\\' && s[0] != quote) || (|s| == 2 && s[0] == '\\')
  }

  predicate AllPieces(ss: seq<string>, quote: char) { forall i :: 0 <= i < |ss| ==> IsPiece(ss[i], quote) }

  function Joined(ss: seq<string>): string { if ss == [] then "" else ss[0] + Joined(ss[1..]) }

  function FormText(f: Form): string {
    match f
    case Nothing => ""
    case Plain(c, rest) => [c] + rest
    case LineComment(text) => "//" + text
    case BlockComment(text, rest) => "/*" + text + "*/" + rest
    case OpenComment(text) => "/*" + text
    case Literal(quote, pieces, rest) => [quote] + Joined(pieces) + [quote] + rest
    case OpenLiteral(quote, pieces, last) => [quote] + Joined(pieces) + last
  }

  predicate IsQuote(c: char) { c == '"' || c == '\'' }

  predicate FormOk(f: Form) {
    match f
    case Nothing => true
    case Plain(c, rest) => !IsQuote(c) && (c == '/' ==> rest == "" || (rest[0] != '/' && rest[0] != '*'))
    case LineComment(_) => true
    case BlockComment(text, _) => NoClose(text)
    case OpenComment(text) => NoClose(text)
    case Literal(quote, pieces, _) => IsQuote(quote) && AllPieces(pieces, quote)
    case OpenLiteral(quote, pieces, last) => IsQuote(quote) && AllPieces(pieces, quote) && (last == "" || last == "\\")
  }

  // ---- What each form does ------------------------------------------------------------------

  /** A comment ends at the first end there is. */
  lemma {:induction false} Closes(text: string, rest: string)
    requires NoClose(text)
    ensures Scan(text + "*/" + rest, Inside) == Scan(rest, Code)
    decreases |text|
  {
    var s := text + "*/" + rest;
    if text == "" {
      assert s == "*/" + rest && s[2..] == rest;
    } else {
      assert s[1..] == text[1..] + "*/" + rest;
      assert s[1] == if |text| > 1 then text[1] else '*';
      Closes(text[1..], rest);
    }
  }

  lemma {:induction false} StaysOpen(text: string)
    requires NoClose(text)
    ensures Scan(text, Inside)
  {
    if text != "" { StaysOpen(text[1..]); }
  }

  lemma PieceSkips(piece: string, quote: char, rest: string)
    requires IsPiece(piece, quote)
    ensures Scan(piece + rest, Quoted(quote)) == Scan(rest, Quoted(quote))
  {
    assert (piece + rest)[|piece|..] == rest;
  }

  lemma {:induction false} PiecesSkip(ss: seq<string>, quote: char, rest: string)
    requires AllPieces(ss, quote)
    ensures Scan(Joined(ss) + rest, Quoted(quote)) == Scan(rest, Quoted(quote))
  {
    hide Scan, IsPiece;
    if ss == [] {
      assert "" + rest == rest;
    } else {
      PiecesSkip(ss[1..], quote, rest);
      PieceSkips(ss[0], quote, Joined(ss[1..]) + rest);
      assert Joined(ss) + rest == ss[0] + (Joined(ss[1..]) + rest);
    }
  }

  lemma QuoteOpens(quote: char, rest: string)
    requires IsQuote(quote)
    ensures Scan([quote] + rest, Code) == Scan(rest, Quoted(quote))
  {
    assert ([quote] + rest)[1..] == rest;
  }

  lemma QuoteCloses(quote: char, rest: string)
    requires quote != '\\'
    ensures Scan([quote] + rest, Quoted(quote)) == Scan(rest, Code)
  {
    assert ([quote] + rest)[1..] == rest;
  }

  lemma CommentOpens(rest: string)
    ensures Scan("/*" + rest, Code) == Scan(rest, Inside)
  {
    assert ("/*" + rest)[2..] == rest;
  }

  lemma PlainSkips(c: char, rest: string)
    requires FormOk(Plain(c, rest))
    ensures Scan([c] + rest, Code) == Scan(rest, Code)
  {
    var s := [c] + rest;
    assert s[1..] == rest && (rest != "" ==> s[1] == rest[0]);
  }

  lemma Endings(text: string, quote: char)
    ensures !Scan("", Code) && !Scan("//" + text, Code)
    ensures !Scan("", Quoted(quote)) && !Scan("\\", Quoted(quote))
  {
  }

  /** Only an open comment is open at the end of the line, and every other form goes
      on with what follows it. */
  lemma FormScans(f: Form)
    requires FormOk(f)
    ensures Leaves(FormText(f), false) ==
            match f {
              case Nothing => false
              case Plain(_, rest) => Leaves(rest, false)
              case LineComment(_) => false
              case BlockComment(_, rest) => Leaves(rest, false)
              case OpenComment(_) => true
              case Literal(_, _, rest) => Leaves(rest, false)
              case OpenLiteral(_, _, _) => false
            }
  {
    hide Joined, Scan;
    Endings(if f.LineComment? then f.text else "", if f.OpenLiteral? then f.quote else '"');
    match f
    case Nothing =>
    case Plain(c, rest) => PlainSkips(c, rest);
    case LineComment(_) =>
    case BlockComment(text, rest) =>
      CommentOpens(text + "*/" + rest);
      Closes(text, rest);
      assert FormText(f) == "/*" + (text + "*/" + rest);
    case OpenComment(text) =>
      CommentOpens(text);
      StaysOpen(text);
    case Literal(quote, pieces, rest) =>
      QuoteOpens(quote, Joined(pieces) + ([quote] + rest));
      PiecesSkip(pieces, quote, [quote] + rest);
      QuoteCloses(quote, rest);
      assert FormText(f) == [quote] + (Joined(pieces) + ([quote] + rest));
    case OpenLiteral(quote, pieces, last) =>
      QuoteOpens(quote, Joined(pieces) + last);
      PiecesSkip(pieces, quote, last);
      assert FormText(f) == [quote] + (Joined(pieces) + last);
  }

  /** The same behind the start of a comment left open by the line before. */
  lemma InsideScans(text: string, rest: string)
    requires NoClose(text)
    ensures Leaves(text, true) && Leaves(text + "*/" + rest, true) == Leaves(rest, false)
  {
    StaysOpen(text);
    Closes(text, rest);
  }

  // ---- Every line has a form ----------------------------------------------------------------

  lemma {:induction false} CommentParts(s: string) returns (closed: bool, text: string, rest: string)
    ensures NoClose(text) && s == if closed then text + "*/" + rest else text
    decreases |s|
  {
    if |s| >= 2 && s[0] == '*' && s[1] == '/' {
      closed, text, rest := true, "", s[2..];
      assert s == "" + "*/" + s[2..];
    } else if s == "" {
      closed, text, rest := false, "", "";
    } else {
      var t;
      closed, t, rest := CommentParts(s[1..]);
      text := [s[0]] + t;
      assert s == [s[0]] + s[1..];
      if |t| > 0 { assert s[1] == t[0]; }
      assert forall i :: 1 <= i < |text| ==> text[i] == t[i - 1];
    }
  }

  lemma {:induction false} LiteralParts(s: string, quote: char)
    returns (closed: bool, pieces: seq<string>, rest: string)
    requires quote != '\\'
    ensures AllPieces(pieces, quote)
    ensures if closed then s == Joined(pieces) + [quote] + rest
            else s == Joined(pieces) + rest && (rest == "" || rest == "\\")
    decreases |s|
  {
    if s == "" || s == "\\" {
      closed, pieces, rest := false, [], s;
    } else if s[0] == quote {
      closed, pieces, rest := true, [], s[1..];
    } else {
      var n := if s[0] == '\\' then 2 else 1;
      var more;
      closed, more, rest := LiteralParts(s[n..], quote);
      pieces := [s[..n]] + more;
      assert pieces[1..] == more && s == s[..n] + s[n..];
    }
  }

  lemma CommentForm(s: string) returns (f: Form)
    ensures FormOk(f) && FormText(f) == "/*" + s
  {
    hide NoClose;
    var closed, text, rest := CommentParts(s);
    f := if closed then BlockComment(text, rest) else OpenComment(text);
    assert "/*" + (text + "*/" + rest) == "/*" + text + "*/" + rest;
  }

  lemma LiteralForm(quote: char, s: string) returns (f: Form)
    requires IsQuote(quote)
    ensures FormOk(f) && FormText(f) == [quote] + s
  {
    hide Joined, AllPieces;
    var closed, pieces, rest := LiteralParts(s, quote);
    f := if closed then Literal(quote, pieces, rest) else OpenLiteral(quote, pieces, rest);
    assert [quote] + (Joined(pieces) + [quote] + rest) == [quote] + Joined(pieces) + [quote] + rest;
    assert [quote] + (Joined(pieces) + rest) == [quote] + Joined(pieces) + rest;
  }

  /** So the forms decide the scan of every line. */
  lemma EveryForm(s: string) returns (f: Form)
    ensures FormOk(f) && FormText(f) == s
  {
    if s == "" {
      f := Nothing;
    } else if |s| >= 2 && s[0] == '/' && s[1] == '/' {
      f := LineComment(s[2..]);
      assert s == "//" + s[2..];
    } else if |s| >= 2 && s[0] == '/' && s[1] == '*' {
      assert s == "/*" + s[2..];
      f := CommentForm(s[2..]);
    } else if IsQuote(s[0]) {
      assert s == [s[0]] + s[1..];
      f := LiteralForm(s[0], s[1..]);
    } else {
      f := Plain(s[0], s[1..]);
      assert s == [s[0]] + s[1..];
    }
  }
}

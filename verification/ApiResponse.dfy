/** The text of a final response, and what an HTTP/1.1 client reads from it. */
module ApiResponse {
  import opened Basics

  const HTTP_MAX_RESPONSE_HDR := 1024
  const NO_CONTENT := 204
  const SIZE_MAX := 0xFFFF_FFFF_FFFF_FFFF
  const CONTINUE := "HTTP/1.1 100 Continue\r\n\r\n"

  /** Text that stays on its line. */
  predicate OneLine(s: string) {
    forall i :: 0 <= i < |s| ==> s[i] != '\r' && s[i] != '\n'
  }

  /** A response without a body, naming the allowed methods or not, or one with
      a body of the given type. */
  datatype Kind = Bodiless(allow: string) | Typed(contentType: string)

  /** `date` is empty when the clock gives none. */
  datatype Response = Response(code: nat, reason: string, date: string, keepAlive: bool, kind: Kind, body: string)

  /** A field text the server has, no longer than `max`. */
  predicate Field(s: string, max: nat) { OneLine(s) && |s| <= max }

  const REASON_MAX := 64
  const DATE_MAX := 31
  const ALLOW_MAX := 64
  const TYPE_MAX := 128

  /** The responses the server composes: a final status, and a body only where
      the status admits one. */
  predicate Framed(r: Response) {
    && 200 <= r.code < 1000
    && Field(r.reason, REASON_MAX) && Field(r.date, DATE_MAX)
    && |r.body| <= SIZE_MAX
    && match r.kind
       case Bodiless(allow) => Field(allow, ALLOW_MAX) && r.body == ""
       case Typed(contentType) => Field(contentType, TYPE_MAX) && r.code != NO_CONTENT
  }

  // ---- The head --------------------------------------------------------------------------

  function Optional(name: string, value: string): seq<string> {
    if value == "" then [] else [name + value]
  }

  function StatusLine(code: nat, reason: string): string {
    "HTTP/1.1 " + Decimal(code) + " " + reason
  }

  function ConnectionLine(keepAlive: bool): string {
    "Connection: " + if keepAlive then "keep-alive" else "close"
  }

  function LengthLine(n: nat): string { "Content-Length: " + Decimal(n) }

  /** respond_prologue(): the lines every response starts with. */
  function Prologue(code: nat, reason: string, date: string, keepAlive: bool): seq<string> {
    [StatusLine(code, reason)] + Optional("Date: ", date) + [ConnectionLine(keepAlive)]
  }

  function Particulars(code: nat, kind: Kind, length: nat): seq<string> {
    match kind
    case Bodiless(allow) => Optional("Allow: ", allow) + if code == NO_CONTENT then [] else [LengthLine(0)]
    case Typed(contentType) =>
      ["Content-Type: " + contentType, "X-Content-Type-Options: nosniff", "Cache-Control: no-store",
       LengthLine(length)]
  }

  function Lines(r: Response): seq<string> {
    Prologue(r.code, r.reason, r.date, r.keepAlive) + Particulars(r.code, r.kind, |r.body|)
  }

  function Text(lines: seq<string>): string {
    if lines == [] then "" else Text(lines[..|lines| - 1]) + lines[|lines| - 1] + "\r\n"
  }

  function HeadOf(r: Response): string { Text(Lines(r)) + "\r\n" }

  lemma TextSnoc(lines: seq<string>, line: string)
    ensures Text(lines + [line]) == Text(lines) + line + "\r\n"
  {
    assert (lines + [line])[..|lines|] == lines;
  }

  lemma {:induction false} TextConcat(a: seq<string>, b: seq<string>)
    ensures Text(a + b) == Text(a) + Text(b)
  {
    hide Text;
    if b == [] {
      TextNothing();
      assert a + b == a;
    } else {
      var n := |b| - 1;
      TextConcat(a, b[..n]);
      TextSnoc(a + b[..n], b[n]);
      TextSnoc(b[..n], b[n]);
      assert b == b[..n] + [b[n]];
      assert a + b == a + b[..n] + [b[n]];
      assert Text(a) + (Text(b[..n]) + b[n] + "\r\n") == Text(a) + Text(b[..n]) + b[n] + "\r\n";
    }
  }

  // ---- The head fits its buffer -------------------------------------------------------------

  function Pow10(k: nat): nat { if k == 0 then 1 else 10 * Pow10(k - 1) }

  lemma {:induction false} DecimalLength(n: nat, k: nat)
    requires k >= 1 && n < Pow10(k)
    ensures |Decimal(n)| <= k
  {
    if n >= 10 { DecimalLength(n / 10, k - 1); }
  }

  lemma SizeDigits(n: nat)
    requires n <= SIZE_MAX
    ensures |Decimal(n)| <= 20
  {
    assert Pow10(5) == 100000;
    assert Pow10(10) == 100000 * Pow10(5);
    assert Pow10(15) == 100000 * Pow10(10);
    assert Pow10(20) == 100000 * Pow10(15);
    DecimalLength(n, 20);
  }

  /** Three digits, the first of them at least 2. */
  lemma CodeDigits(code: nat)
    requires 200 <= code < 1000
    ensures |Decimal(code)| == 3 && Decimal(code)[0] != '1' && DigitsValue(Decimal(code)) == code
  {
    DecimalValue(code);
    assert Decimal(code) == Decimal(code / 10) + ['0' + (code % 10) as char];
    assert Decimal(code / 10) == Decimal(code / 100) + ['0' + (code / 10 % 10) as char];
    assert Decimal(code / 100) == ['0' + (code / 100) as char];
  }

  function Size(lines: seq<string>): nat {
    if lines == [] then 0 else Size(lines[..|lines| - 1]) + |lines[|lines| - 1]| + 2
  }

  lemma {:induction false} TextSize(lines: seq<string>)
    ensures |Text(lines)| == Size(lines)
  {
    if lines != [] { TextSize(lines[..|lines| - 1]); }
  }

  lemma {:induction false} SizeConcat(a: seq<string>, b: seq<string>)
    ensures Size(a + b) == Size(a) + Size(b)
  {
    if b == [] {
      assert a + b == a;
    } else {
      SizeConcat(a, b[..|b| - 1]);
      assert (a + b)[..|a + b| - 1] == a + b[..|b| - 1];
    }
  }

  lemma SizeOne(line: string)
    ensures Size([line]) == |line| + 2
  {
    assert [line][..0] == [];
  }

  lemma PrologueSize(code: nat, reason: string, date: string, keepAlive: bool)
    requires 200 <= code < 1000 && |reason| <= REASON_MAX && |date| <= DATE_MAX
    ensures Size(Prologue(code, reason, date, keepAlive)) <= 200
  {
    hide Size, Decimal;
    CodeDigits(code);
    var a, b, c := [StatusLine(code, reason)], Optional("Date: ", date), [ConnectionLine(keepAlive)];
    SizeConcat(a + b, c);
    SizeConcat(a, b);
    SizeOne(StatusLine(code, reason));
    SizeOne(ConnectionLine(keepAlive));
    SizeOne("Date: " + date);
    SizeNothing();
  }

  lemma SizeNothing()
    ensures Size([]) == 0
  {
  }

  lemma ParticularsSize(code: nat, kind: Kind, length: nat)
    requires length <= SIZE_MAX
    requires match kind case Bodiless(allow) => |allow| <= ALLOW_MAX case Typed(t) => |t| <= TYPE_MAX
    ensures Size(Particulars(code, kind, length)) <= 300
  {
    hide Size, Decimal;
    SizeDigits(length);
    SizeDigits(0);
    SizeNothing();
    SizeOne(LengthLine(0));
    match kind {
      case Bodiless(allow) =>
        SizeConcat(Optional("Allow: ", allow), if code == NO_CONTENT then [] else [LengthLine(0)]);
        SizeOne("Allow: " + allow);
      case Typed(t) =>
        var a, b, c, d := "Content-Type: " + t, "X-Content-Type-Options: nosniff", "Cache-Control: no-store",
                          LengthLine(length);
        SizeConcat([a] + [b] + [c], [d]);
        SizeConcat([a] + [b], [c]);
        SizeConcat([a], [b]);
        SizeOne(a);
        SizeOne(b);
        SizeOne(c);
        SizeOne(d);
        assert [a, b, c, d] == [a] + [b] + [c] + [d];
    }
  }

  /** No head is ever cut by the head buffer. */
  lemma HeadFits(r: Response)
    requires Framed(r)
    ensures |HeadOf(r)| < HTTP_MAX_RESPONSE_HDR
  {
    hide Size, Text, Prologue, Particulars, OneLine;
    PrologueSize(r.code, r.reason, r.date, r.keepAlive);
    ParticularsSize(r.code, r.kind, |r.body|);
    SizeConcat(Prologue(r.code, r.reason, r.date, r.keepAlive), Particulars(r.code, r.kind, |r.body|));
    TextSize(Lines(r));
  }

  // ---- What a client reads ------------------------------------------------------------------

  /** Where the line at the start of `s` ends, or |s| if it does not. */
  function LineEnd(s: string): (k: nat)
    ensures k <= |s|
  {
    if |s| < 2 then |s| else if s[0] == '\r' && s[1] == '\n' then 0 else 1 + LineEnd(s[1..])
  }

  /** The lines up to the blank one, and what follows it. */
  function ReadHead(s: string): Option<(seq<string>, string)>
    decreases |s|
  {
    var k := LineEnd(s);
    if k + 2 > |s| then None
    else if k == 0 then Some(([], s[2..]))
    else
      var more := ReadHead(s[k + 2..]);
      if more.None? then None else Some(([s[..k]] + more.value.0, more.value.1))
  }

  predicate StartsWith(s: string, name: string) { |name| <= |s| && s[..|name|] == name }

  /** The value of the first field with that name. */
  function FieldValue(lines: seq<string>, name: string): Option<string> {
    if lines == [] then None
    else if StartsWith(lines[0], name) then Some(lines[0][|name|..])
    else FieldValue(lines[1..], name)
  }

  /** The status code of a head: three digits behind the version. */
  function StatusOf(lines: seq<string>): Option<nat> {
    if lines == [] || |lines[0]| < 12 || !StartsWith(lines[0], "HTTP/1.1 ") || !AllDigits(lines[0][9..12]) then None
    else Some(DigitsValue(lines[0][9..12]))
  }

  /** A final response as its client sees it. */
  datatype Seen = Seen(code: nat, keepAlive: bool, body: string)

  /** Section 6 of RFC 9112: the body is as long as Content-Length says, and a
      204 has none. */
  function ReadFinal(s: string): Option<(Seen, string)> {
    var head := ReadHead(s);
    if head.None? || StatusOf(head.value.0).None? || StatusOf(head.value.0).value < 200 then None
    else
      var (lines, rest) := head.value;
      var code := StatusOf(lines).value;
      var persist := FieldValue(lines[1..], "Connection: ") == Some("keep-alive");
      var length := FieldValue(lines[1..], "Content-Length: ");
      if code == NO_CONTENT then Some((Seen(code, persist, ""), rest))
      else if length.None? || !AllDigits(length.value) || DigitsValue(length.value) > |rest| then None
      else
        var n := DigitsValue(length.value);
        Some((Seen(code, persist, rest[..n]), rest[n..]))
  }

  /** At most one interim response, then the final one. */
  function ReadAnswer(s: string): Option<(bool, Seen, string)> {
    var head := ReadHead(s);
    if head.None? || StatusOf(head.value.0).None? then None
    else
      var interim := 100 <= StatusOf(head.value.0).value < 200;
      var final := ReadFinal(if interim then head.value.1 else s);
      if final.None? then None else Some((interim, final.value.0, final.value.1))
  }

  lemma {:induction false} LineEndIs(line: string, rest: string)
    requires OneLine(line)
    ensures LineEnd(line + "\r\n" + rest) == |line|
  {
    var s := line + "\r\n" + rest;
    if line == "" {
      assert s[0] == '\r' && s[1] == '\n';
    } else {
      LineEndIs(line[1..], rest);
      assert s[1..] == line[1..] + "\r\n" + rest;
      assert s[0] == line[0];
    }
  }

  /** A client finds exactly the lines that were written, and resumes behind them. */
  lemma {:induction false} ReadHeadIs(lines: seq<string>, rest: string)
    requires forall i :: 0 <= i < |lines| ==> lines[i] != "" && OneLine(lines[i])
    ensures ReadHead(Text(lines) + "\r\n" + rest) == Some((lines, rest))
  {
    hide LineEnd, OneLine, Text;
    if lines == [] {
      var s := "" + "\r\n" + rest;
      LineEndIs("", rest);
      TextNothing();
      assert s[2..] == rest;
    } else {
      var tail := Text(lines[1..]) + "\r\n" + rest;
      ReadHeadIs(lines[1..], rest);
      TextCons(lines);
      var s := Text(lines) + "\r\n" + rest;
      assert s == lines[0] + "\r\n" + tail;
      LineEndIs(lines[0], tail);
      assert s[..|lines[0]|] == lines[0] && s[|lines[0]| + 2..] == tail;
      assert [lines[0]] + lines[1..] == lines;
    }
  }

  lemma TextNothing()
    ensures Text([]) == "" && OneLine("")
  {
  }

  lemma TextCons(lines: seq<string>)
    requires lines != []
    ensures Text(lines) == lines[0] + "\r\n" + Text(lines[1..])
  {
    hide Text;
    TextConcat([lines[0]], lines[1..]);
    TextSnoc([], lines[0]);
    TextNothing();
    assert [] + [lines[0]] == [lines[0]];
    assert [lines[0]] + lines[1..] == lines;
  }

  // ---- A client reads what was meant ----------------------------------------------------------

  lemma OneLineConcat(a: string, b: string)
    requires OneLine(a) && OneLine(b)
    ensures OneLine(a + b)
  {
  }

  lemma DigitsOneLine(s: string)
    requires AllDigits(s)
    ensures OneLine(s)
  {
  }

  predicate LineOk(line: string) { line != "" && OneLine(line) }

  lemma NamedOk(name: string, value: string)
    requires LineOk(name) && OneLine(value)
    ensures LineOk(name + value)
  {
  }

  ghost predicate LinesOk(lines: seq<string>) {
    forall i :: 0 <= i < |lines| ==> LineOk(lines[i])
  }

  lemma PrologueOk(r: Response)
    requires Framed(r)
    ensures LinesOk(Prologue(r.code, r.reason, r.date, r.keepAlive))
  {
    hide Decimal, OneLine, LineOk;
    var d := Decimal(r.code);
    DigitsOneLine(d);
    assert LineOk("HTTP/1.1 ") && LineOk("Date: ") && LineOk("Connection: ") && OneLine(" ")
      && OneLine("keep-alive") && OneLine("close") by { FixedTexts(); }
    OneLineConcat(d, " ");
    OneLineConcat(d + " ", r.reason);
    NamedOk("HTTP/1.1 ", d + " " + r.reason);
    assert StatusLine(r.code, r.reason) == "HTTP/1.1 " + (d + " " + r.reason);
    NamedOk("Date: ", r.date);
    NamedOk("Connection: ", if r.keepAlive then "keep-alive" else "close");
  }

  lemma FixedTexts()
    ensures LineOk("HTTP/1.1 ") && LineOk("Date: ") && LineOk("Connection: ") && OneLine(" ")
    ensures OneLine("keep-alive") && OneLine("close")
    ensures LineOk("Allow: ") && LineOk("Content-Type: ") && LineOk("Content-Length: ")
    ensures LineOk("X-Content-Type-Options: nosniff") && LineOk("Cache-Control: no-store")
  {
  }

  lemma ParticularsOk(r: Response)
    requires Framed(r)
    ensures LinesOk(Particulars(r.code, r.kind, |r.body|))
  {
    hide Decimal, OneLine, LineOk;
    FixedTexts();
    DigitsOneLine(Decimal(|r.body|));
    DigitsOneLine(Decimal(0));
    NamedOk("Content-Length: ", Decimal(|r.body|));
    NamedOk("Content-Length: ", Decimal(0));
    match r.kind {
      case Bodiless(allow) => NamedOk("Allow: ", allow);
      case Typed(t) => NamedOk("Content-Type: ", t);
    }
  }

  lemma HeadReads(r: Response, rest: string)
    requires Framed(r)
    ensures ReadHead(HeadOf(r) + rest) == Some((Lines(r), rest))
  {
    hide Text, Prologue, Particulars, ReadHead, LineOk;
    PrologueOk(r);
    ParticularsOk(r);
    assert LinesOk(Lines(r));
    forall i | 0 <= i < |Lines(r)| ensures Lines(r)[i] != "" && OneLine(Lines(r)[i]) {
      Meaning(Lines(r)[i]);
    }
    ReadHeadIs(Lines(r), rest);
  }

  lemma Meaning(line: string)
    ensures LineOk(line) <==> line != "" && OneLine(line)
  {
  }

  lemma StatusReads(code: nat, reason: string, more: seq<string>)
    requires 200 <= code < 1000
    ensures StatusOf([StatusLine(code, reason)] + more) == Some(code)
  {
    hide Decimal, DigitsValue;
    CodeDigits(code);
    var line := StatusLine(code, reason);
    assert line[9..12] == Decimal(code);
    assert line[..9] == "HTTP/1.1 ";
  }

  lemma {:induction false} FieldSkip(a: seq<string>, b: seq<string>, name: string)
    requires forall i :: 0 <= i < |a| ==> !StartsWith(a[i], name)
    ensures FieldValue(a + b, name) == FieldValue(b, name)
  {
    hide StartsWith;
    if a == [] {
      assert a + b == b;
    } else {
      assert (a + b)[1..] == a[1..] + b;
      FieldSkip(a[1..], b, name);
    }
  }

  lemma FieldHere(name: string, value: string, more: seq<string>)
    ensures FieldValue([name + value] + more, name) == Some(value)
  {
    assert (name + value)[..|name|] == name && (name + value)[|name|..] == value;
  }

  lemma Differs(line: string, name: string, i: nat)
    requires i < |line| && i < |name| && line[i] != name[i]
    ensures !StartsWith(line, name)
  {
    assert |name| <= |line| ==> line[..|name|][i] == line[i];
  }

  lemma ConnectionReads(r: Response)
    ensures FieldValue(Lines(r)[1..], "Connection: ") == Some(if r.keepAlive then "keep-alive" else "close")
  {
    hide Particulars, FieldValue, StartsWith, Decimal;
    var date, more := Optional("Date: ", r.date), Particulars(r.code, r.kind, |r.body|);
    assert Lines(r)[1..] == date + ([ConnectionLine(r.keepAlive)] + more);
    if r.date != "" {
      assert ("Date: " + r.date)[0] == 'D';
      Differs("Date: " + r.date, "Connection: ", 0);
    }
    FieldSkip(date, [ConnectionLine(r.keepAlive)] + more, "Connection: ");
    FieldHere("Connection: ", if r.keepAlive then "keep-alive" else "close", more);
  }

  lemma LengthReads(r: Response)
    requires Framed(r) && r.code != NO_CONTENT
    ensures FieldValue(Lines(r)[1..], "Content-Length: ") == Some(Decimal(|r.body|))
  {
    hide FieldValue, StartsWith, Decimal, OneLine;
    var name := "Content-Length: ";
    var date, conn := Optional("Date: ", r.date), ConnectionLine(r.keepAlive);
    var more := Particulars(r.code, r.kind, |r.body|);
    assert Lines(r)[1..] == date + ([conn] + more);
    if r.date != "" {
      assert ("Date: " + r.date)[0] == 'D';
      Differs("Date: " + r.date, name, 0);
    }
    FieldSkip(date, [conn] + more, name);
    assert conn[3] == 'n' && name[3] == 't';
    Differs(conn, name, 3);
    FieldSkip([conn], more, name);
    ParticularLength(r);
  }

  lemma ParticularLength(r: Response)
    requires Framed(r) && r.code != NO_CONTENT
    ensures FieldValue(Particulars(r.code, r.kind, |r.body|), "Content-Length: ") == Some(Decimal(|r.body|))
  {
    hide FieldValue, StartsWith, Decimal, OneLine;
    var name := "Content-Length: ";
    match r.kind {
      case Bodiless(allow) =>
        var a := Optional("Allow: ", allow);
        if allow != "" {
          assert ("Allow: " + allow)[0] == 'A';
          Differs("Allow: " + allow, name, 0);
        }
        FieldSkip(a, [LengthLine(0)], name);
        FieldHere(name, Decimal(0), []);
        assert [LengthLine(0)] + [] == [LengthLine(0)];
        assert r.body == "" && Particulars(r.code, r.kind, 0) == a + [LengthLine(0)];
      case Typed(t) =>
        var a := ["Content-Type: " + t, "X-Content-Type-Options: nosniff", "Cache-Control: no-store"];
        assert a[0][8] == 'T' && name[8] == 'L' && a[1][0] == 'X' && a[2][1] == 'a';
        Differs(a[0], name, 8);
        Differs(a[1], name, 0);
        Differs(a[2], name, 1);
        FieldSkip(a, [LengthLine(|r.body|)], name);
        FieldHere(name, Decimal(|r.body|), []);
        assert [LengthLine(|r.body|)] + [] == [LengthLine(|r.body|)];
        assert Particulars(r.code, r.kind, |r.body|) == a + [LengthLine(|r.body|)];
    }
  }

  /** A client reads a final response back as its status, its persistence and its
      whole body, and resumes exactly behind it. */
  lemma FinalReads(r: Response, rest: string)
    requires Framed(r)
    ensures ReadFinal(HeadOf(r) + r.body + rest) == Some((Seen(r.code, r.keepAlive, r.body), rest))
  {
    hide HeadOf, Lines, ReadHead, FieldValue, StatusOf, Decimal, DigitsValue;
    var s := HeadOf(r) + r.body + rest;
    assert s == HeadOf(r) + (r.body + rest);
    HeadReads(r, r.body + rest);
    FirstLine(r);
    ConnectionReads(r);
    if r.code == NO_CONTENT {
      assert r.body == "" && r.body + rest == rest;
    } else {
      LengthReads(r);
      DecimalValue(|r.body|);
      assert (r.body + rest)[..|r.body|] == r.body && (r.body + rest)[|r.body|..] == rest;
    }
  }

  lemma FirstLine(r: Response)
    requires Framed(r)
    ensures Lines(r) != [] && StatusOf(Lines(r)) == Some(r.code)
  {
    hide Particulars, StatusOf, Decimal, OneLine;
    var more := Optional("Date: ", r.date) + [ConnectionLine(r.keepAlive)] + Particulars(r.code, r.kind, |r.body|);
    assert Lines(r) == [StatusLine(r.code, r.reason)] + more;
    StatusReads(r.code, r.reason, more);
  }

  function InterimPart(interim: bool): string {
    if interim then CONTINUE else ""
  }

  lemma InterimReads(rest: string)
    ensures ReadHead(CONTINUE + rest) == Some((["HTTP/1.1 100 Continue"], rest))
    ensures StatusOf(["HTTP/1.1 100 Continue"]) == Some(100)
  {
    hide ReadHead, Text;
    var line := "HTTP/1.1 100 Continue";
    assert OneLine(line);
    TextSnoc([], line);
    TextNothing();
    assert [] + [line] == [line];
    assert CONTINUE == line + "\r\n" + "\r\n";
    assert Text([line]) + "\r\n" + rest == CONTINUE + rest;
    ReadHeadIs([line], rest);
    assert line[9..12] == "100" && "100"[..2] == "10" && "10"[..1] == "1" && "1"[..0] == "";
    assert line[..9] == "HTTP/1.1 ";
  }

  /** A whole answer, with or without the interim response in front. */
  lemma AnswerReads(interim: bool, r: Response, rest: string)
    requires Framed(r)
    ensures ReadAnswer(InterimPart(interim) + HeadOf(r) + r.body + rest) ==
            Some((interim, Seen(r.code, r.keepAlive, r.body), rest))
  {
    hide HeadOf, ReadHead, ReadFinal, StatusOf, Lines;
    var final := HeadOf(r) + r.body + rest;
    FinalReads(r, rest);
    if interim {
      assert InterimPart(interim) + HeadOf(r) + r.body + rest == CONTINUE + final;
      InterimReads(final);
    } else {
      assert InterimPart(interim) + HeadOf(r) + r.body + rest == final;
      assert final == HeadOf(r) + (r.body + rest);
      HeadReads(r, r.body + rest);
      FirstLine(r);
    }
  }

  /** The octets of a final response already differ from the interim at the
      first digit of the status. */
  lemma FinalStart(r: Response)
    requires Framed(r)
    ensures |HeadOf(r)| >= 12 && HeadOf(r)[..9] == "HTTP/1.1 " && HeadOf(r)[9] != '1'
  {
    hide Text, Particulars, Decimal, OneLine;
    var line := StatusLine(r.code, r.reason);
    CodeDigits(r.code);
    TextCons(Lines(r));
    assert Lines(r)[0] == line;
    assert line[..9] == "HTTP/1.1 " && line[9] == Decimal(r.code)[0];
    assert HeadOf(r)[..12] == line[..12];
    assert line[..12][..9] == line[..9];
  }

  /** An interim response, once begun, is followed by nothing but the rest of it,
      and a whole one only by a final response. */
  lemma InterimIsWhole(interim: bool, r: Response, p: string)
    requires Framed(r) && p <= InterimPart(interim) + HeadOf(r) + r.body
    ensures |p| > 9 && p[9] == '1' ==> interim && (p <= CONTINUE || CONTINUE <= p)
    ensures |p| > |CONTINUE| + 9 && CONTINUE <= p ==> p[|CONTINUE| + 9] != '1'
  {
    hide HeadOf;
    FinalStart(r);
    assert CONTINUE[9] == '1';
    assert CONTINUE <= p ==> |p| > 9 && p[9] == '1';
    var w := InterimPart(interim) + HeadOf(r) + r.body;
    assert forall i :: 0 <= i < |p| ==> p[i] == w[i];
    if interim {
      assert w[..|CONTINUE|] == CONTINUE;
      assert w[|CONTINUE| + 9] == HeadOf(r)[9];
      if |p| <= |CONTINUE| { assert p == CONTINUE[..|p|]; } else { assert p[..|CONTINUE|] == CONTINUE; }
    } else {
      assert w[9] == HeadOf(r)[9];
    }
  }
}

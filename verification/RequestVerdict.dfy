/** Which request heads are accepted, what an accepted one says, and with which
    status every other is refused: all in terms of the head's text. */
module RequestVerdict {
  import opened Basics
  import opened HttpFields
  import opened HttpParse
  import opened RequestHead
  import opened RequestMeaning

  // ---- Versions ---------------------------------------------------------------------------

  /** HTTP/1.x */
  ghost predicate Supported(v: string) { exists d :: IsDigit(d) && v == "HTTP/1." + [d] }

  /** HTTP/x.y with another x. */
  ghost predicate Unsupported(v: string) {
    exists a, d :: IsDigit(a) && a != '1' && IsDigit(d) && v == "HTTP/" + [a] + "." + [d]
  }

  lemma VersionIs(v: string)
    ensures CheckVersion(v) == 0 <==> Supported(v)
    ensures CheckVersion(v) == VERSION_NOT_SUPPORTED <==> Unsupported(v)
    ensures !Supported(v) && !Unsupported(v) ==> CheckVersion(v) == BAD_REQUEST
  {
    if |v| == 8 && v[..5] == "HTTP/" && v[6] == '.' {
      assert v == v[..5] + [v[5]] + [v[6]] + [v[7]];
      assert v[5] == '1' ==> v == "HTTP/1." + [v[7]];
      assert v == "HTTP/" + [v[5]] + "." + [v[7]];
    }
  }

  // ---- What fields say --------------------------------------------------------------------

  predicate Is(f: Field, name: string) { EqualsIgnoreCase(f.name, name) }

  ghost predicate Named(fs: seq<Field>, name: string) { exists i :: 0 <= i < |fs| && Is(fs[i], name) }

  ghost predicate Once(fs: seq<Field>, name: string) {
    forall i, j :: 0 <= i < j < |fs| ==> !Is(fs[i], name) || !Is(fs[j], name)
  }

  ghost predicate AsksToClose(fs: seq<Field>) {
    exists i :: 0 <= i < |fs| && Is(fs[i], "Connection") && ListHasClose(fs[i].value)
  }

  ghost predicate Announces(fs: seq<Field>, n: nat) {
    if Named(fs, "Content-Length")
    then exists i :: 0 <= i < |fs| && Is(fs[i], "Content-Length") && ContentLength(fs[i].value) == Some(n)
    else n == 0
  }

  /** The head says what the fields say. */
  ghost predicate Says(h: Head, v: string, fs: seq<Field>) {
    && h.version.Some? && h.version.value == v
    && (h.hostSeen <==> Named(fs, "Host"))
    && (h.closeRequested <==> AsksToClose(fs))
    && (h.lengthSeen <==> Named(fs, "Content-Length"))
    && Announces(fs, h.contentLength)
    && (h.expectContinue <==> v != "HTTP/1.0" && Named(fs, "Expect"))
  }

  /** The fields a request may have. */
  ghost predicate FieldsOk(v: string, fs: seq<Field>, pton: string -> bool) {
    && !Named(fs, "Transfer-Encoding")
    && Once(fs, "Host") && (forall i :: 0 <= i < |fs| && Is(fs[i], "Host") ==> IsHost(fs[i].value, pton))
    && Once(fs, "Content-Length")
    && (forall i :: 0 <= i < |fs| && Is(fs[i], "Content-Length") ==> ContentLength(fs[i].value).Some?)
    && (v != "HTTP/1.0" ==>
          forall i :: 0 <= i < |fs| && Is(fs[i], "Expect") ==> EqualsIgnoreCase(fs[i].value, "100-continue"))
  }

  /** What is wrong with a field after those before it. */
  ghost predicate Offends(v: string, fs: seq<Field>, f: Field, pton: string -> bool, code: nat) {
    || (code == BAD_REQUEST && Is(f, "Host") && (Named(fs, "Host") || !IsHost(f.value, pton)))
    || (code == BAD_REQUEST && Is(f, "Content-Length") &&
        (Named(fs, "Content-Length") || ContentLength(f.value).None?))
    || (code == EXPECTATION_FAILED && Is(f, "Expect") && v != "HTTP/1.0" &&
        !EqualsIgnoreCase(f.value, "100-continue"))
    || (code == NOT_IMPLEMENTED && Is(f, "Transfer-Encoding"))
  }

  ghost predicate Fits(v: string, fs: seq<Field>, f: Field, pton: string -> bool) {
    && !Offends(v, fs, f, pton, BAD_REQUEST) && !Offends(v, fs, f, pton, EXPECTATION_FAILED)
    && !Offends(v, fs, f, pton, NOT_IMPLEMENTED)
  }

  lemma NamedSnoc(fs: seq<Field>, f: Field, name: string)
    ensures Named(fs + [f], name) <==> Named(fs, name) || Is(f, name)
    ensures Once(fs + [f], name) <==> Once(fs, name) && !(Named(fs, name) && Is(f, name))
  {
    hide Is;
    var all := fs + [f];
    assert all[|fs|] == f && forall i :: 0 <= i < |fs| ==> all[i] == fs[i];
  }

  lemma CloseSnoc(fs: seq<Field>, f: Field)
    ensures AsksToClose(fs + [f]) <==> AsksToClose(fs) || (Is(f, "Connection") && ListHasClose(f.value))
  {
    hide Is, ListHasClose;
    var all := fs + [f];
    assert all[|fs|] == f && forall i :: 0 <= i < |fs| ==> all[i] == fs[i];
  }

  lemma AnnouncesSnoc(fs: seq<Field>, f: Field, n: nat)
    ensures !Is(f, "Content-Length") && Announces(fs, n) ==> Announces(fs + [f], n)
    ensures Is(f, "Content-Length") && ContentLength(f.value) == Some(n) ==> Announces(fs + [f], n)
  {
    hide Is, ContentLength, Once;
    NamedSnoc(fs, f, "Content-Length");
    var all := fs + [f];
    assert all[|fs|] == f && forall i :: 0 <= i < |fs| ==> all[i] == fs[i];
  }

  /** A name is one of the known ones at most. */
  lemma OneName(f: Field)
    ensures Is(f, "Host") ==> |f.name| == 4
    ensures Is(f, "Expect") ==> |f.name| == 6
    ensures Is(f, "Connection") ==> |f.name| == 10
    ensures Is(f, "Content-Length") ==> |f.name| == 14
    ensures Is(f, "Transfer-Encoding") ==> |f.name| == 17
  {
  }

  lemma OkSnoc(v: string, fs: seq<Field>, f: Field, pton: string -> bool)
    requires FieldsOk(v, fs, pton)
    ensures FieldsOk(v, fs + [f], pton) <==> Fits(v, fs, f, pton)
  {
    hide Is, IsHost, ContentLength, EqualsIgnoreCase, Named, Once;
    NamedSnoc(fs, f, "Transfer-Encoding");
    NamedSnoc(fs, f, "Host");
    NamedSnoc(fs, f, "Content-Length");
    var all := fs + [f];
    assert all[|fs|] == f && forall i :: 0 <= i < |fs| ==> all[i] == fs[i];
  }

  /** One more field: taken exactly when it is in order, with what it says added,
      and refused with the status it deserves. */
  lemma OneField(h: Head, v: string, fs: seq<Field>, f: Field, pton: string -> bool)
    requires Says(h, v, fs) && FieldsOk(v, fs, pton)
    ensures var r := OnField(h, f.name, f.value, pton);
            && (r.FieldTaken? ==> FieldsOk(v, fs + [f], pton) && Says(r.head, v, fs + [f]))
            && (r.FieldRejected? ==> Offends(v, fs, f, pton, r.code))
            && (forall code :: Offends(v, fs, f, pton, code) ==> r == FieldRejected(code))
  {
    hide IsHost, ContentLength, ListHasClose, EqualsIgnoreCase, Named, Once, FieldsOk, AsksToClose, Announces;
    OneName(f);
    OkSnoc(v, fs, f, pton);
    NamedSnoc(fs, f, "Host");
    NamedSnoc(fs, f, "Content-Length");
    NamedSnoc(fs, f, "Expect");
    CloseSnoc(fs, f);
    AnnouncesSnoc(fs, f, h.contentLength);
    if Is(f, "Content-Length") && ContentLength(f.value).Some? { AnnouncesSnoc(fs, f, ContentLength(f.value).value); }
  }

  // ---- The text of a head -----------------------------------------------------------------

  /** A request line and field lines, each with its line end. */
  ghost predicate HeadText(t: string, v: string, fs: seq<Field>)
    decreases |fs|
  {
    if fs == [] then exists k, line :: IsLine(line) && SaysRequest(line, v) && t == Blanks(k) + line + CRLF
    else
      exists u, line :: IsLine(line) && SaysField(line, fs[|fs| - 1]) && t == u + line + CRLF &&
                        HeadText(u, v, fs[..|fs| - 1])
  }

  /** A head up to some line, all in order so far. */
  ghost predicate Begun(t: string, v: string, fs: seq<Field>, pton: string -> bool) {
    HeadText(t, v, fs) && Supported(v) && FieldsOk(v, fs, pton)
  }

  /** A whole head that is accepted, and what it says. */
  ghost predicate Accepted(s: string, h: Head, pton: string -> bool) {
    h.done && h.next <= |s| &&
    exists t, v, fs :: Begun(t, v, fs, pton) && s[..h.next] == t + CRLF && Says(h, v, fs) &&
                       (v == "HTTP/1.0" || Named(fs, "Host"))
  }

  /** What is wrong with a request line: it is none, or its version. */
  ghost predicate RequestOffends(line: string, code: nat) {
    || (code == BAD_REQUEST && forall v :: SaysRequest(line, v) ==> !Supported(v) && !Unsupported(v))
    || (code == VERSION_NOT_SUPPORTED && exists v :: SaysRequest(line, v) && Unsupported(v))
  }

  /** The first line that is wrong, and how. */
  ghost predicate BadRequestLine(s: string, code: nat) {
    exists k, line, rest :: IsLine(line) && line != "" && s == Blanks(k) + line + CRLF + rest &&
                            RequestOffends(line, code)
  }

  ghost predicate BadLine(line: string, v: string, fs: seq<Field>, pton: string -> bool, code: nat) {
    if line == "" then code == BAD_REQUEST && v != "HTTP/1.0" && !Named(fs, "Host")
    else (code == BAD_REQUEST && forall f :: !SaysField(line, f)) ||
         (exists f :: SaysField(line, f) && Offends(v, fs, f, pton, code))
  }

  ghost predicate BadFieldLine(s: string, pton: string -> bool, code: nat) {
    exists t, v, fs, line, rest :: Begun(t, v, fs, pton) && IsLine(line) && s == t + line + CRLF + rest &&
                                   BadLine(line, v, fs, pton, code)
  }

  /** Nothing wrong so far, and the next line is not complete. */
  ghost predicate Waiting(s: string, rest: string, pton: string -> bool) {
    NoLineEnd(rest) && ((exists k :: s == Blanks(k) + rest) ||
                        (exists t, v, fs :: Begun(t, v, fs, pton) && s == t + rest))
  }

  ghost predicate Refused(s: string, pton: string -> bool, code: nat) {
    || BadRequestLine(s, code) || BadFieldLine(s, pton, code)
    || (code == BAD_REQUEST && exists rest :: Waiting(s, rest, pton) && HasNul(rest))
  }

  // ---- One line ---------------------------------------------------------------------------

  lemma LineIsCString(line: string)
    requires IsLine(line)
    ensures forall i :: 0 <= i < |line| ==> line[i] != '\0'
  {
  }

  lemma RequestLineAt(k: nat, line: string, rest: string)
    requires IsLine(line) && line != ""
    ensures !HasNul(line)
    ensures RequestLine(Blanks(k) + line + CRLF + rest) == SplitRequestLine(line, |Blanks(k)| + |line| + 2)
  {
    hide SplitRequestLine, FindCrlf, LeadingCrlf;
    var t := line + CRLF + rest;
    var s := Blanks(k) + line + CRLF + rest;
    assert s == Blanks(k) + t;
    assert t[0] == line[0] && (|line| > 1 ==> t[1] == line[1]) && (|line| == 1 ==> t[1] == '\r');
    SkipsBlanks(k, t);
    CrlfAt(line, rest);
    assert s[|Blanks(k)|..] == t && t[..|line|] == line;
  }

  lemma HeaderLineAt(line: string, rest: string)
    requires IsLine(line)
    ensures HeaderLine(line + CRLF + rest) == SplitHeaderLine(line, |line| + 2)
  {
    hide SplitHeaderLine, FindCrlf;
    CrlfAt(line, rest);
    assert (line + CRLF + rest)[..|line|] == line;
  }

  lemma RequestIsNotEmpty(line: string, v: string)
    requires SaysRequest(line, v)
    ensures line != ""
  {
  }

  /** The step over the request line. */
  lemma RequestStep(k: nat, line: string, rest: string, pton: string -> bool)
    requires IsLine(line) && line != ""
    ensures var s := Blanks(k) + line + CRLF + rest;
            var r := Step(s, START, pton);
            && (forall v :: SaysRequest(line, v) && Supported(v) ==>
                  r.Go? && r.head.version.Some? &&
                  r.head == START.(next := |Blanks(k)| + |line| + 2, version := r.head.version) &&
                  r.head.version.value == v)
            && (r.Go? ==> exists v :: SaysRequest(line, v) && Supported(v) && r.head.version.value == v)
            && (r.Halt? ==> r.progress.Reject? && RequestOffends(line, r.progress.code))
            && (forall code :: RequestOffends(line, code) ==> r == Halt(Reject(code)))
  {
    hide SplitRequestLine, RequestLine, SaysRequest, Supported, Unsupported, CheckVersion, HasNul;
    var s := Blanks(k) + line + CRLF + rest;
    assert s[0..] == s;
    RequestLineAt(k, line, rest);
    LineIsCString(line);
    var adv := |Blanks(k)| + |line| + 2;
    RequestLineIs(line, adv);
    var r := SplitRequestLine(line, adv);
    if r.LineParsed? { VersionIs(r.version); }
  }

  ghost function Outcome(h: Head, f: Field, pton: string -> bool): StepResult
    requires h.version.Some?
  {
    match OnField(h, f.name, f.value, pton)
    case FieldRejected(code) => Halt(Reject(code))
    case FieldTaken(h') => Go(h')
  }

  ghost function Ended(h: Head, at: nat): StepResult
    requires h.version.Some?
  {
    if !h.hostSeen && h.version.value != "HTTP/1.0" then Halt(Reject(BAD_REQUEST))
    else Go(h.(next := at, done := true))
  }

  /** The step over a line behind it. */
  lemma FieldStep(t: string, line: string, rest: string, h: Head, pton: string -> bool)
    requires IsLine(line) && h.next == |t| && !h.done && h.version.Some?
    ensures var s := t + line + CRLF + rest; var at := |t| + |line| + 2;
            && (line == "" ==> Step(s, h, pton) == Ended(h, at))
            && (forall f :: SaysField(line, f) ==> Step(s, h, pton) == Outcome(h.(next := at), f, pton))
            && (line != "" && (forall f :: !SaysField(line, f)) ==> Step(s, h, pton) == Halt(Reject(BAD_REQUEST)))
  {
    hide SplitHeaderLine, HeaderLine, SaysField, OnField, HasNul;
    var s := t + line + CRLF + rest;
    assert s[|t|..] == line + CRLF + rest;
    HeaderLineAt(line, rest);
    LineIsCString(line);
    FieldLineIs(line, |line| + 2);
    EndAdvances(line, |line| + 2);
  }

  lemma EndAdvances(line: string, advance: nat)
    ensures line == "" ==> SplitHeaderLine(line, advance) == HeaderEnd(advance)
  {
  }

  // ---- What is in order is read -----------------------------------------------------------

  lemma SaysNext(h: Head, v: string, fs: seq<Field>, next: nat)
    requires Says(h, v, fs)
    ensures Says(h.(next := next), v, fs)
  {
  }

  lemma NothingSaid(h: Head, v: string)
    requires h.version.Some? && h.version.value == v && h == START.(next := h.next, version := h.version)
    ensures Says(h, v, [])
  {
  }

  lemma NothingWrong(v: string, pton: string -> bool)
    ensures FieldsOk(v, [], pton)
  {
  }

  lemma FewerOk(v: string, fs: seq<Field>, pton: string -> bool)
    requires fs != [] && FieldsOk(v, fs, pton)
    ensures FieldsOk(v, fs[..|fs| - 1], pton)
    ensures Fits(v, fs[..|fs| - 1], fs[|fs| - 1], pton)
  {
    var init, f := fs[..|fs| - 1], fs[|fs| - 1];
    assert fs == init + [f];
    assert FieldsOk(v, init, pton) by { hide Is, IsHost, ContentLength, EqualsIgnoreCase; }
    hide FieldsOk, Fits;
    OkSnoc(v, init, f, pton);
  }

  /** From the start the parser gets to the end of any head that is in order. */
  lemma {:induction false} Reaches(t: string, v: string, fs: seq<Field>, rest: string, pton: string -> bool)
    returns (h: Head)
    requires Begun(t, v, fs, pton)
    ensures h.next == |t| && !h.done && Says(h, v, fs)
    ensures Advance(t + rest, START, pton) == Advance(t + rest, h, pton)
    decreases |fs|
  {
    hide Advance, Step, Says, FieldsOk, Supported, SaysRequest, SaysField, IsLine, Blanks, OnField;
    if fs == [] {
      var k, line :| IsLine(line) && SaysRequest(line, v) && t == Blanks(k) + line + CRLF;
      RequestIsNotEmpty(line, v);
      RequestStep(k, line, rest, pton);
      var s := Blanks(k) + line + CRLF + rest;
      assert t + rest == s;
      h := Step(s, START, pton).head;
      AdvanceByStep(s, START, pton);
      NothingSaid(h, v);
    } else {
      var init, f := fs[..|fs| - 1], fs[|fs| - 1];
      var u, line :| IsLine(line) && SaysField(line, f) && t == u + line + CRLF && HeadText(u, v, init);
      FewerOk(v, fs, pton);
      var g := Reaches(u, v, init, line + CRLF + rest, pton);
      var s := u + line + CRLF + rest;
      assert t + rest == s && u + (line + CRLF + rest) == s;
      SaysVersion(g, v, init);
      FieldStep(u, line, rest, g, pton);
      var g' := g.(next := |u| + |line| + 2);
      SaysNext(g, v, init, g'.next);
      OneField(g', v, init, f, pton);
      assert fs == init + [f];
      h := OnField(g', f.name, f.value, pton).head;
      AdvanceByStep(s, g, pton);
      TakenKeeps(g', f, pton);
    }
  }

  lemma TakenKeeps(h: Head, f: Field, pton: string -> bool)
    requires h.version.Some?
    ensures var r := OnField(h, f.name, f.value, pton);
            r.FieldTaken? ==> r.head.next == h.next && r.head.done == h.done
  {
  }

  lemma SaysVersion(h: Head, v: string, fs: seq<Field>)
    requires Says(h, v, fs)
    ensures h.version.Some? && h.version.value == v && (h.hostSeen <==> Named(fs, "Host"))
  {
  }

  // ---- The verdict ------------------------------------------------------------------------

  lemma SaysOne(h: Head, g: Head, v: string, fs: seq<Field>)
    requires Says(h, v, fs) && Says(g, v, fs) && Once(fs, "Content-Length") && h.next == g.next && h.done == g.done
    ensures h == g
  {
    hide Is, ContentLength, ListHasClose;
    if Named(fs, "Content-Length") {
      var i :| 0 <= i < |fs| && Is(fs[i], "Content-Length") && ContentLength(fs[i].value) == Some(h.contentLength);
      var j :| 0 <= j < |fs| && Is(fs[j], "Content-Length") && ContentLength(fs[j].value) == Some(g.contentLength);
      assert i == j;
    }
  }

  lemma OkOnce(v: string, fs: seq<Field>, pton: string -> bool)
    requires FieldsOk(v, fs, pton)
    ensures Once(fs, "Content-Length")
  {
  }

  lemma AcceptedIsComplete(s: string, h: Head, pton: string -> bool)
    requires Accepted(s, h, pton)
    ensures Advance(s, START, pton) == Complete(h)
  {
    hide Advance, Step, Says, FieldsOk, Supported, HeadText, Named, OnField, SaysField;
    var t, v, fs :| Begun(t, v, fs, pton) && s[..h.next] == t + CRLF && Says(h, v, fs) &&
                    (v == "HTTP/1.0" || Named(fs, "Host"));
    var rest := s[h.next..];
    assert s == t + (CRLF + rest) == t + "" + CRLF + rest;
    var g := Reaches(t, v, fs, CRLF + rest, pton);
    SaysVersion(g, v, fs);
    assert IsLine("");
    FieldStep(t, "", rest, g, pton);
    AdvanceByStep(s, g, pton);
    var e := g.(next := |t| + 2, done := true);
    AdvanceByStep(s, e, pton);
    OkOnce(v, fs, pton);
    SaysEnd(g, v, fs, e);
    SaysOne(h, e, v, fs);
  }

  lemma SaysEnd(h: Head, v: string, fs: seq<Field>, e: Head)
    requires Says(h, v, fs) && e == h.(next := e.next, done := e.done)
    ensures Says(e, v, fs)
  {
  }

  lemma BadRequestLineIsRefused(s: string, code: nat, pton: string -> bool)
    requires BadRequestLine(s, code)
    ensures Advance(s, START, pton) == Reject(code)
  {
    hide Advance, Step, RequestOffends, SaysRequest, Supported, Blanks, IsLine;
    var k, line, rest :| IsLine(line) && line != "" && s == Blanks(k) + line + CRLF + rest &&
                         RequestOffends(line, code);
    RequestStep(k, line, rest, pton);
    AdvanceByStep(s, START, pton);
  }

  lemma BadFieldLineIsRefused(s: string, code: nat, pton: string -> bool)
    requires BadFieldLine(s, pton, code)
    ensures Advance(s, START, pton) == Reject(code)
  {
    hide Advance, Step, Says, FieldsOk, Supported, HeadText, Named, OnField, SaysField, IsLine, Offends;
    var t, v, fs, line, rest :| Begun(t, v, fs, pton) && IsLine(line) && s == t + line + CRLF + rest &&
                                BadLine(line, v, fs, pton, code);
    assert s == t + (line + CRLF + rest);
    var g := Reaches(t, v, fs, line + CRLF + rest, pton);
    SaysVersion(g, v, fs);
    FieldStep(t, line, rest, g, pton);
    AdvanceByStep(s, g, pton);
    var g' := g.(next := |t| + |line| + 2);
    SaysNext(g, v, fs, g'.next);
    if f :| SaysField(line, f) && Offends(v, fs, f, pton, code) { OneField(g', v, fs, f, pton); }
  }

  lemma WaitingWaits(s: string, rest: string, pton: string -> bool)
    requires Waiting(s, rest, pton)
    ensures if HasNul(rest) then Advance(s, START, pton) == Reject(BAD_REQUEST) else Advance(s, START, pton).More?
  {
    hide Advance, Step, Says, FieldsOk, Supported, HeadText, OnField, HasNul;
    NoCrlf(rest);
    if k :| s == Blanks(k) + rest {
      NothingToRead(k, rest, pton);
      AdvanceByStep(s, START, pton);
    } else {
      var t, v, fs :| Begun(t, v, fs, pton) && s == t + rest;
      var g := Reaches(t, v, fs, rest, pton);
      SaysVersion(g, v, fs);
      NothingNext(t, rest, g, pton);
      AdvanceByStep(s, g, pton);
    }
  }

  lemma NothingToRead(k: nat, rest: string, pton: string -> bool)
    requires FindCrlf(rest).None?
    ensures Step(Blanks(k) + rest, START, pton) == Halt(if HasNul(rest) then Reject(BAD_REQUEST) else More(START))
  {
    hide HasNul, SplitRequestLine;
    var s := Blanks(k) + rest;
    assert s[0..] == s;
    assert |rest| < 2 || rest[0] != '\r' || rest[1] != '\n';
    hide FindCrlf, LeadingCrlf;
    SkipsBlanks(k, rest);
    assert s[|Blanks(k)|..] == rest;
    NoNulInLeadingCrlf(s);
  }

  lemma NothingNext(t: string, rest: string, h: Head, pton: string -> bool)
    requires FindCrlf(rest).None? && h.next == |t| && !h.done && h.version.Some?
    ensures Step(t + rest, h, pton) == Halt(if HasNul(rest) then Reject(BAD_REQUEST) else More(h))
  {
    hide HasNul, SplitHeaderLine, FindCrlf, OnField;
    assert (t + rest)[|t|..] == rest;
  }

  lemma RefusedIsRejected(s: string, code: nat, pton: string -> bool)
    requires Refused(s, pton, code)
    ensures Advance(s, START, pton) == Reject(code)
  {
    hide Advance, BadRequestLine, BadFieldLine, Waiting, HasNul;
    if BadRequestLine(s, code) {
      BadRequestLineIsRefused(s, code, pton);
    } else if BadFieldLine(s, pton, code) {
      BadFieldLineIsRefused(s, code, pton);
    } else {
      var rest :| Waiting(s, rest, pton) && HasNul(rest);
      WaitingWaits(s, rest, pton);
    }
  }

  /** What the verdict on the octets says of them. */
  ghost predicate Explained(s: string, p: Progress, pton: string -> bool) {
    match p
    case Complete(h) => Accepted(s, h, pton)
    case Reject(code) => Refused(s, pton, code)
    case More(_) => exists rest :: Waiting(s, rest, pton) && !HasNul(rest)
  }

  lemma WaitExplained(s: string, t: string, v: string, fs: seq<Field>, tail: string, pton: string -> bool)
    requires Begun(t, v, fs, pton) && s == t + tail && FindCrlf(tail).None?
    ensures Waiting(s, tail, pton)
  {
    hide Begun, FindCrlf;
    NoCrlf(tail);
  }

  lemma MalformedExplained(s: string, t: string, v: string, fs: seq<Field>, line: string, rest: string,
                           pton: string -> bool)
    requires Begun(t, v, fs, pton) && IsLine(line) && line != "" && s == t + line + CRLF + rest
    requires forall f :: !SaysField(line, f)
    ensures Refused(s, pton, BAD_REQUEST)
  {
    hide Begun, SaysField, IsLine, Offends, Named, Waiting;
    assert BadLine(line, v, fs, pton, BAD_REQUEST);
    assert BadFieldLine(s, pton, BAD_REQUEST);
  }

  lemma {:induction false} FieldsExplained(s: string, h: Head, t: string, v: string, fs: seq<Field>,
                                           pton: string -> bool)
    requires Begun(t, v, fs, pton) && Says(h, v, fs) && !h.done && h.next <= |s| && s[..h.next] == t
    ensures Explained(s, Advance(s, h, pton), pton)
    decreases |s| - h.next
  {
    hide Advance, Step, Says, Begun, OnField, SaysField, IsLine, HasNul, FindCrlf, Accepted, Refused, Waiting, Outcome;
    var tail := s[h.next..];
    assert s == t + tail;
    SaysVersion(h, v, fs);
    AdvanceByStep(s, h, pton);
    if FindCrlf(tail).None? {
      NothingNext(t, tail, h, pton);
      WaitExplained(s, t, v, fs, tail, pton);
      NulExplained(s, tail, pton);
    } else {
      CrlfCut(tail);
      var n := FindCrlf(tail).value;
      var line, rest := tail[..n], tail[n + 2..];
      assert s == t + line + CRLF + rest;
      FieldStep(t, line, rest, h, pton);
      if line == "" {
        EndExplained(s, h, t, v, fs, rest, pton);
      } else if f :| SaysField(line, f) {
        var r := Outcome(h.(next := |t| + |line| + 2), f, pton);
        FieldExplained(s, h, t, v, fs, line, rest, f, pton);
        if r.Go? { FieldsExplained(s, r.head, t + line + CRLF, v, fs + [f], pton); }
      } else {
        MalformedExplained(s, t, v, fs, line, rest, pton);
      }
    }
  }

  lemma NulExplained(s: string, rest: string, pton: string -> bool)
    requires Waiting(s, rest, pton)
    ensures HasNul(rest) ==> Refused(s, pton, BAD_REQUEST)
  {
    hide Waiting, HasNul;
  }

  lemma EndExplained(s: string, h: Head, t: string, v: string, fs: seq<Field>, rest: string, pton: string -> bool)
    requires Begun(t, v, fs, pton) && Says(h, v, fs) && !h.done && s == t + "" + CRLF + rest && h.next == |t|
    ensures if !h.hostSeen && v != "HTTP/1.0" then Refused(s, pton, BAD_REQUEST)
            else Explained(s, Advance(s, h.(next := |t| + 2, done := true), pton), pton)
  {
    hide Advance, Says, FieldsOk, Supported, HeadText, Named, Step, IsLine, SaysField;
    SaysVersion(h, v, fs);
    assert IsLine("") by { EmptyLine(); }
    if !h.hostSeen && v != "HTTP/1.0" {
      assert BadLine("", v, fs, pton, BAD_REQUEST);
      assert BadFieldLine(s, pton, BAD_REQUEST);
    } else {
      var e := h.(next := |t| + 2, done := true);
      AdvanceByStep(s, e, pton);
      SaysEnd(h, v, fs, e);
      assert s[..e.next] == t + CRLF;
    }
  }

  lemma EmptyLine()
    ensures IsLine("")
  {
  }

  lemma FieldExplained(s: string, h: Head, t: string, v: string, fs: seq<Field>, line: string, rest: string,
                       f: Field, pton: string -> bool)
    requires Begun(t, v, fs, pton) && Says(h, v, fs) && !h.done && h.next == |t|
    requires IsLine(line) && line != "" && SaysField(line, f) && s == t + line + CRLF + rest
    requires h.version.Some?
    ensures var r := Outcome(h.(next := |t| + |line| + 2), f, pton);
            && (r.Halt? ==> r.progress.Reject? && Refused(s, pton, r.progress.code))
            && (r.Go? ==> Begun(t + line + CRLF, v, fs + [f], pton) && Says(r.head, v, fs + [f]) && !r.head.done &&
                          r.head.next == |t| + |line| + 2 && s[..r.head.next] == t + line + CRLF)
  {
    hide Says, FieldsOk, Supported, Named, OnField, SaysField, IsLine, Offends;
    var h' := h.(next := |t| + |line| + 2);
    SaysNext(h, v, fs, h'.next);
    OneField(h', v, fs, f, pton);
    TakenKeeps(h', f, pton);
    var r := OnField(h', f.name, f.value, pton);
    if r.FieldRejected? {
      assert BadLine(line, v, fs, pton, r.code);
      assert BadFieldLine(s, pton, r.code);
    } else {
      var all := fs + [f];
      assert all[|all| - 1] == f && all[..|all| - 1] == fs;
    }
  }

  /** Every verdict is explained by the text. */
  lemma Explains(s: string, pton: string -> bool)
    ensures Explained(s, Advance(s, START, pton), pton)
  {
    hide Advance, Step, FieldsOk, Supported, SaysRequest, IsLine, HasNul, FindCrlf, LeadingCrlf, Blanks, RequestOffends,
      Says;
    var k := BlanksSkipped(s);
    var tail := s[LeadingCrlf(s)..];
    assert s == Blanks(k) + tail;
    AdvanceByStep(s, START, pton);
    NoCrlf(tail);
    if FindCrlf(tail).None? {
      NothingToRead(k, tail, pton);
      assert Waiting(s, tail, pton);
    } else {
      CrlfCut(tail);
      var n := FindCrlf(tail).value;
      var line, rest := tail[..n], tail[n + 2..];
      assert n == 0 ==> tail == "" + CRLF + rest;
      assert line != "";
      assert s == Blanks(k) + line + CRLF + rest;
      RequestStep(k, line, rest, pton);
      var r := Step(s, START, pton);
      if r.Go? {
        var v :| SaysRequest(line, v) && Supported(v) && r.head.version.value == v;
        var t := Blanks(k) + line + CRLF;
        NothingSaid(r.head, v);
        NothingWrong(v, pton);
        assert HeadText(t, v, []);
        assert s[..r.head.next] == t;
        FieldsExplained(s, r.head, t, v, [], pton);
      } else {
        assert BadRequestLine(s, r.progress.code);
      }
    }
  }

  /** A head is accepted, and says what it is read to say, exactly when its text is
      a supported request line and fields in order with a Host where one is due. */
  lemma CompleteIff(s: string, h: Head, pton: string -> bool)
    ensures Advance(s, START, pton) == Complete(h) <==> Accepted(s, h, pton)
  {
    hide Advance, Accepted, Refused, Waiting;
    Explains(s, pton);
    if Accepted(s, h, pton) { AcceptedIsComplete(s, h, pton); }
  }

  /** It is refused exactly when some line is the first to be wrong, with the status
      that line deserves, or a NUL stands where a line should end. */
  lemma RejectIff(s: string, code: nat, pton: string -> bool)
    ensures Advance(s, START, pton) == Reject(code) <==> Refused(s, pton, code)
  {
    hide Advance, Accepted, Refused, Waiting;
    Explains(s, pton);
    if Refused(s, pton, code) { RefusedIsRejected(s, code, pton); }
  }

  /** More is awaited exactly while no line is wrong and the next one is incomplete. */
  lemma MoreIff(s: string, pton: string -> bool)
    ensures Advance(s, START, pton).More? <==> exists rest :: Waiting(s, rest, pton) && !HasNul(rest)
  {
    hide Advance, Accepted, Refused, Waiting, HasNul;
    Explains(s, pton);
    if rest :| Waiting(s, rest, pton) && !HasNul(rest) { WaitingWaits(s, rest, pton); }
  }
}

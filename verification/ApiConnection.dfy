/** One connection of the HTTP management API: an event-driven machine that
    reads a request, may owe an interim 100 Continue, and writes one final
    response.  Sockets transfer arbitrary parts; whatever they do, the ghost
    history says what was received and written over the whole run. */
module ApiConnection {
  import opened Basics
  import opened HttpFields
  import opened HttpParse
  import opened RequestHead
  import RequestVerdict
  import opened ApiResponse

  const HTTP_MAX_ENTITY := 65535 + 4096

  /** Why a request got its final response. */
  datatype Cause = BufferFull | Rejected | BodyTooLarge | Dispatched

  /** One answered request, with every octet received and written for it. */
  datatype Exchange = Exchange(request: string, cause: Cause, interim: bool, response: Response)

  ghost predicate Justified(x: Exchange, p: Progress) {
    match x.cause
    case BufferFull => p.More? && |x.request| == HTTP_MAX_ENTITY - 1 && x.response.code == CONTENT_TOO_LARGE
    case Rejected => p == Reject(x.response.code)
    case BodyTooLarge =>
      p.Complete? && p.head.contentLength > HTTP_MAX_ENTITY - 1 - p.head.next &&
      x.response.code == CONTENT_TOO_LARGE
    case Dispatched => p.Complete? && p.head.next + p.head.contentLength <= |x.request|
  }

  /** Sections 10.1.1 and 15.2 of RFC 9110: no interim to HTTP/1.0. */
  predicate AdmitsInterim(version: Option<CString>) {
    version.Some? && version.value != "HTTP/1.0"
  }

  ghost predicate MayContinue(h: Head) {
    h.done && h.expectContinue && AdmitsInterim(h.version)
  }

  ghost predicate MayPersist(x: Exchange, p: Progress) {
    && x.cause == Dispatched
    && p.Complete?
    && |x.request| == p.head.next + p.head.contentLength
    && p.head.version == Some("HTTP/1.1")
    && !p.head.closeRequested
  }

  /** An exchange the server may complete: the response follows from the
      request's octets, an interim only ever goes to a request that asked for
      it over a version that admits it, and the connection outlives exactly
      the fully consumed persistent requests. */
  ghost predicate WellFormed(x: Exchange, pton: string -> bool) {
    var p := Advance(x.request, START, pton);
    && Framed(x.response)
    && Justified(x, p)
    && (x.interim ==> x.cause == Dispatched && p.Complete? && MayContinue(p.head))
    && (x.response.keepAlive <==> MayPersist(x, p))
  }

  lemma NoInterim()
    ensures InterimPart(false) == ""
  {
  }

  /** The octets one exchange puts on the wire. */
  function Wire(x: Exchange): string {
    InterimPart(x.interim) + HeadOf(x.response) + x.response.body
  }

  function Wires(xs: seq<Exchange>): string {
    if xs == [] then "" else Wires(xs[..|xs| - 1]) + Wire(xs[|xs| - 1])
  }

  function Requests(xs: seq<Exchange>): string {
    if xs == [] then "" else Requests(xs[..|xs| - 1]) + xs[|xs| - 1].request
  }

  lemma NothingYet()
    ensures Wires([]) == "" && Requests([]) == ""
  {
  }

  lemma WiresSnoc(xs: seq<Exchange>, x: Exchange)
    ensures Wires(xs + [x]) == Wires(xs) + Wire(x)
    ensures Requests(xs + [x]) == Requests(xs) + x.request
  {
    assert (xs + [x])[..|xs|] == xs;
  }

  /** Octets already written for a request whose exchange is not complete. */
  ghost predicate Unfinished(pending: string, request: string, pton: string -> bool) {
    pending == "" ||
    exists x :: WellFormed(x, pton) && request <= x.request && pending <= Wire(x)
  }

  function Zeros(n: nat): (s: string)
    ensures |s| == n
  {
    seq(n, _ => '0')
  }

  /** A response that says no more than it must. */
  function Bare(code: nat, keepAlive: bool): Response {
    Response(code, "", "", keepAlive, Bodiless(""), "")
  }

  lemma NothingNamed()
    ensures Field("", ALLOW_MAX)
  {
  }

  lemma RefusalOk(request: string, why: Cause, r: Response, pton: string -> bool)
    requires Framed(r) && !r.keepAlive && why != Dispatched
    requires Justified(Exchange(request, why, false, Bare(r.code, false)), Advance(request, START, pton))
    ensures WellFormed(Exchange(request, why, false, r), pton)
  {
    hide Advance, Framed;
  }

  lemma AnswerOk(request: string, interim: bool, r: Response, h: Head, pton: string -> bool)
    requires Framed(r) && Advance(request, START, pton) == Complete(h) && h.next + h.contentLength <= |request|
    requires interim ==> MayContinue(h)
    requires r.keepAlive <==> h.version == Some("HTTP/1.1") && !h.closeRequested &&
                              |request| == h.next + h.contentLength
    ensures WellFormed(Exchange(request, Dispatched, interim, r), pton)
  {
    hide Advance, Framed;
  }

  ghost function AnyAnswer(h: Head, request: string): Exchange {
    Exchange(request, Dispatched, true,
             Bare(500, h.version == Some("HTTP/1.1") && !h.closeRequested))
  }

  /** A request told to continue can be completed by its missing octets. */
  lemma ContinuedIsCompletable(request: string, h: Head, pton: string -> bool)
    requires Advance(request, START, pton) == Complete(h) && MayContinue(h)
    requires |request| == h.next + h.contentLength
    ensures WellFormed(AnyAnswer(h, request), pton)
  {
    hide Advance, WellFormed, HeadOf;
    NothingNamed();
    assert Framed(Bare(500, false)) && Framed(Bare(500, true)) by { BareIsFramed(); }
    AnswerOk(request, true, AnyAnswer(h, request).response, h, pton);
  }

  lemma BareIsFramed()
    ensures Framed(Bare(500, false)) && Framed(Bare(500, true))
  {
  }

  lemma PrefixExtends(a: string, b: string, c: string)
    requires a <= b
    ensures a <= b + c
  {
  }

  lemma UnfinishedBy(pending: string, request: string, x: Exchange, pton: string -> bool)
    requires WellFormed(x, pton) && request <= x.request && pending <= Wire(x)
    ensures Unfinished(pending, request, pton)
  {
    hide WellFormed, Wire;
  }

  lemma InterimWire(x: Exchange)
    requires x.interim
    ensures Wire(x) == CONTINUE + (HeadOf(x.response) + x.response.body)
  {
    hide HeadOf;
    assert Wire(x) == CONTINUE + HeadOf(x.response) + x.response.body;
  }

  /** While an interim is owed or out, some completion of the request exists. */
  lemma InterimIsUnfinished(request: string, h: Head, pending: string, pton: string -> bool)
    requires Advance(request, START, pton) == Complete(h) && MayContinue(h)
    requires |request| < h.next + h.contentLength
    requires pending <= CONTINUE
    ensures Unfinished(pending, request, pton)
  {
    hide Advance, WellFormed, HeadOf, AdmitsInterim, Wire, Unfinished, Zeros;
    var rest := Zeros(h.next + h.contentLength - |request|);
    AdvanceMore(request, rest, START, pton);
    ContinuedIsCompletable(request + rest, h, pton);
    var x := AnyAnswer(h, request + rest);
    InterimWire(x);
    PrefixExtends(pending, CONTINUE, HeadOf(x.response) + x.response.body);
    UnfinishedBy(pending, request, x, pton);
  }

  /** Some text of one line: a reason phrase, a date, a content type. */
  method AnyField(max: nat) returns (s: string)
    ensures Field(s, max)
  {
    s := *;
    if !Field(s, max) { s := ""; }
  }

  datatype Verdict = Taken | Waiting | Refused(code: nat)

  /** How handling one line, from head `h` to head `h'`, matches `Step`. */
  ghost predicate LineVerdict(v: Verdict, step: StepResult, h: Head, h': Head) {
    match v
    case Taken => step == Go(h')
    case Waiting => step == Halt(More(h)) && h' == h
    case Refused(code) => step == Halt(Reject(code))
  }

  datatype SendResult = SendBlocked | SendFailed | SentBytes(n: nat)
  datatype RecvResult = RecvBlocked | RecvFailed | ReceivedBytes(data: string)

  /** The other end: `lost` once a send or receive has failed or the stream ended. */
  class Peer {
    ghost var lost: bool

    constructor ()
      ensures !lost
    {
      lost := false;
    }
  }

  class Connection {
    const pton: string -> bool
    const rbuf: array<char>
    var len: nat
    var next: nat
    // NULL until http_parse() has taken the request line
    var version: Option<CString>
    var hdrDone: bool
    var keepalive: bool
    var contentLengthSeen: bool
    var hostSeen: bool
    var expectContinue: bool
    var closeRequested: bool
    var wpos: nat
    var continuePos: nat
    var contentLength: nat
    var wbuf: string
    var cbuf: string
    // the read and write watchers; both stopped once the context is freed
    var recvOn: bool
    var sendOn: bool

    const net: Peer
    ghost var received: string
    ghost var sent: string
    ghost var done: seq<Exchange>
    ghost var pending: string
    ghost var interim: bool
    ghost var cause: Cause
    ghost var response: Response

    ghost function HeadView(): Head
      reads this
    {
      Head(next, version, hdrDone, hostSeen, closeRequested, contentLengthSeen, contentLength,
           expectContinue || interim)
    }

    ghost function Current(): Exchange
      reads this, rbuf
      requires len <= rbuf.Length
    {
      Exchange(rbuf[..len], cause, interim, response)
    }

    ghost predicate Sane()
      reads this, rbuf
    {
      && rbuf.Length == HTTP_MAX_ENTITY
      && next <= len < rbuf.Length
      && Inet6Text(pton)
      && Logged()
    }

    /** The whole run so far is the completed exchanges, then this request. */
    ghost predicate Logged()
      reads this`sent, this`received, this`done, this`pending, this`len, rbuf
      requires len <= rbuf.Length
    {
      && sent == Wires(done) + pending
      && received == Requests(done) + rbuf[..len]
      && (forall i :: 0 <= i < |done| ==> WellFormed(done[i], pton))
    }

    /** No response has been started for the request being read. */
    ghost predicate Unanswered()
      reads this
    {
      && wpos == 0 && wbuf == "" && cbuf == "" && !keepalive
      && continuePos == 0
      && pending == InterimPart(interim)
      && (interim ==> !expectContinue && AdmitsInterim(version))
      && (expectContinue ==> AdmitsInterim(version))
    }

    /** The head is complete, its body is admitted and has not fully arrived. */
    ghost predicate BodyPending()
      reads this, rbuf
    {
      hdrDone && next <= len < next + contentLength && next + contentLength < rbuf.Length
    }

    ghost predicate AllPersist()
      reads this`done
    {
      forall i :: 0 <= i < |done| ==> done[i].response.keepAlive
    }

    ghost predicate Reading()
      reads this, rbuf
    {
      && Sane() && Unanswered() && AllPersist()
      && recvOn && !sendOn
      && (hdrDone ==> BodyPending() && !expectContinue)
      && (interim ==> hdrDone)
      && Advance(rbuf[..len], START, pton) == (if hdrDone then Complete(HeadView()) else More(HeadView()))
    }

    ghost predicate SendingInterim()
      reads this, rbuf
    {
      && Sane() && AllPersist()
      && sendOn && !recvOn && expectContinue && !interim
      && wpos == 0 && wbuf == "" && cbuf == "" && !keepalive
      && continuePos < |CONTINUE| && pending == CONTINUE[..continuePos]
      && AdmitsInterim(version)
      && BodyPending()
      && Advance(rbuf[..len], START, pton) == Complete(HeadView())
    }

    ghost predicate Responding()
      reads this, rbuf
    {
      && Sane() && AllPersist()
      && sendOn && !recvOn && !expectContinue
      && continuePos == 0
      && wpos < |wbuf| + |cbuf|
      && pending == InterimPart(interim) + (wbuf + cbuf)[..wpos]
      && Staged() && WellFormed(Current(), pton)
    }

    ghost predicate Closed()
      reads this, rbuf
    {
      && Sane()
      && !recvOn && !sendOn
      && (forall i :: 0 <= i < |done| - 1 ==> done[i].response.keepAlive)
      && Unfinished(pending, rbuf[..len], pton)
    }

    ghost predicate Valid()
      reads this, rbuf
    {
      Reading() || SendingInterim() || Responding() || Closed()
    }

    /** api_ctx_new() */
    constructor (pton: string -> bool)
      requires Inet6Text(pton)
      ensures Reading() && received == "" && sent == "" && done == []
      ensures this.pton == pton && fresh(rbuf) && fresh(net) && !net.lost
    {
      this.pton := pton;
      net := new Peer();
      rbuf := new char[HTTP_MAX_ENTITY](_ => '\0');
      len, next, version, hdrDone := 0, 0, None, false;
      keepalive, contentLengthSeen, hostSeen := false, false, false;
      expectContinue, closeRequested := false, false;
      wpos, continuePos, contentLength, wbuf, cbuf := 0, 0, 0, "", "";
      recvOn, sendOn := true, false;
      received, sent, done, pending, interim := "", "", [], "", false;
      cause := Dispatched;
      new;
      hide Inet6Text, Reading;
      FreshIsReading();
    }

    lemma FreshIsReading()
      requires rbuf.Length == HTTP_MAX_ENTITY && Inet6Text(pton) && HeadView() == START && !interim && !expectContinue
      requires len == 0 && sent == "" && received == "" && done == [] && pending == ""
      requires wpos == 0 && wbuf == "" && cbuf == "" && !keepalive && continuePos == 0 && recvOn && !sendOn
      ensures Reading()
    {
      hide Advance, Step, Inet6Text, WellFormed, AdmitsInterim, BodyPending, Wires, Requests, InterimPart;
      NothingYet();
      NoInterim();
      EmptyIsPartial(pton);
      assert rbuf[..0] == "";
    }

    /** socket_send(): any part of `src`, would-block, or an error. */
    method SocketSend(src: string) returns (r: SendResult)
      modifies this`sent, this`pending, net
      ensures net.lost == (old(net.lost) || r.SendFailed?)
      ensures r.SentBytes? ==> r.n <= |src| && sent == old(sent) + src[..r.n] && pending == old(pending) + src[..r.n]
      ensures !r.SentBytes? ==> sent == old(sent) && pending == old(pending)
    {
      var blocked: bool := *;
      var failed: bool := *;
      if blocked { return SendBlocked; }
      if failed {
        net.lost := true;
        return SendFailed;
      }
      var n: int := *;
      if n < 0 || n > |src| { n := |src|; }
      sent := sent + src[..n];
      pending := pending + src[..n];
      return SentBytes(n);
    }

    /** socket_recv(): up to `max` octets, end of file (none), would-block, or
        an error. */
    method SocketRecv(max: nat) returns (r: RecvResult)
      modifies net
      ensures net.lost == (old(net.lost) || r.RecvFailed? || (r.ReceivedBytes? && r.data == ""))
      ensures r.ReceivedBytes? ==> |r.data| <= max
    {
      var blocked: bool := *;
      var failed: bool := *;
      if blocked { return RecvBlocked; }
      if failed {
        net.lost := true;
        return RecvFailed;
      }
      var data: string := *;
      if |data| > max { data := data[..max]; }
      if data == "" { net.lost := true; }
      return ReceivedBytes(data);
    }

    /** api_ctx_free() of a context that answers nothing further. */
    method Free()
      requires Valid() && (recvOn || sendOn)
      modifies this`recvOn, this`sendOn
      ensures Closed()
    {
      hide Advance, WellFormed, Wires, Requests, Inet6Text;
      PendingIsUnfinished();
      recvOn, sendOn := false, false;
    }

    lemma UnansweredIsUnfinished()
      requires Reading() || SendingInterim()
      ensures Unfinished(pending, rbuf[..len], pton)
    {
      if pending != "" {
        InterimIsUnfinished(rbuf[..len], HeadView(), pending, pton);
      }
    }

    lemma PendingIsUnfinished()
      requires Valid()
      ensures Unfinished(pending, rbuf[..len], pton)
    {
      hide Advance, WellFormed, Wires, Requests, Inet6Text, AdmitsInterim, Staged, HeadOf, InterimPart, Framed, Wire;
      if Reading() || SendingInterim() {
        UnansweredIsUnfinished();
      } else if Responding() {
        StagedWire();
        var w := wbuf + cbuf;
        assert InterimPart(interim) + wbuf + cbuf == InterimPart(interim) + w;
        assert InterimPart(interim) + w[..wpos] <= InterimPart(interim) + w;
      }
    }

    lemma Watching()
      ensures (Reading() ==> recvOn && !sendOn) && (Responding() ==> sendOn && !expectContinue)
      ensures SendingInterim() ==> sendOn && expectContinue
      ensures Closed() ==> !recvOn && !sendOn
    {
    }

    /** timeout_cb() and api_server_stop(): at any time. */
    method TimeoutCb()
      requires Valid() && (recvOn || sendOn)
      modifies this`recvOn, this`sendOn
      ensures Closed()
    {
      Free();
    }

    /** BUF_APPENDF() and BUF_APPENDSTR(): what does not fit is cut. */
    method Stage(text: string)
      modifies this`wbuf
      ensures |old(wbuf)| + |text| < HTTP_MAX_RESPONSE_HDR ==> wbuf == old(wbuf) + text
    {
      var s := wbuf + text;
      wbuf := if |s| < HTTP_MAX_RESPONSE_HDR then s else s[..HTTP_MAX_RESPONSE_HDR - 1];
    }

    /** One more line of the head. */
    method StageLine(line: string, ghost lines: seq<string>)
      requires wbuf == Text(lines) && Size(lines) + |line| + 2 < HTTP_MAX_RESPONSE_HDR
      modifies this`wbuf
      ensures wbuf == Text(lines + [line]) && Size(lines + [line]) == Size(lines) + |line| + 2
    {
      hide Text, Size;
      TextSize(lines);
      TextSnoc(lines, line);
      SizeConcat(lines, [line]);
      SizeOne(line);
      Stage(line + "\r\n");
      assert Text(lines) + (line + "\r\n") == Text(lines) + line + "\r\n";
    }

    /** respond_prologue(); the reason phrase and the date are texts of one line. */
    method RespondPrologue(status: nat, reason: string, date: string)
      requires 200 <= status < 1000 && Field(reason, REASON_MAX) && Field(date, DATE_MAX)
      modifies this`wbuf
      ensures wbuf == Text(Prologue(status, reason, date, keepalive))
      ensures Size(Prologue(status, reason, date, keepalive)) <= 200
    {
      hide Text, Size, OneLine, Decimal;
      CodeDigits(status);
      PrologueSize(status, reason, date, keepalive);
      wbuf := "";
      TextNothing();
      SizeNothing();
      ghost var lines: seq<string> := [];
      StageLine(StatusLine(status, reason), lines);
      lines := lines + [StatusLine(status, reason)];
      if date != "" {
        StageLine("Date: " + date, lines);
        lines := lines + ["Date: " + date];
      }
      StageLine(ConnectionLine(keepalive), lines);
      lines := lines + [ConnectionLine(keepalive)];
      assert lines == Prologue(status, reason, date, keepalive);
    }

    /** respond_status_allow(): a bodiless response. */
    method RespondStatus(status: nat, allow: string)
      requires 200 <= status < 1000 && Field(allow, ALLOW_MAX)
      modifies this`wbuf, this`cbuf, this`response
      ensures Staged() && response.code == status && response.kind == Bodiless(allow)
    {
      hide Text, Size, OneLine, Prologue;
      cbuf := "";
      var reason := AnyField(REASON_MAX);
      var date := AnyField(DATE_MAX);
      RespondPrologue(status, reason, date);
      response := Response(status, reason, date, keepalive, Bodiless(allow), "");
      ghost var lines := Prologue(status, reason, date, keepalive);
      if allow != "" {
        StageLine("Allow: " + allow, lines);
        lines := lines + ["Allow: " + allow];
      }
      if status != NO_CONTENT {
        assert LengthLine(0) == "Content-Length: 0";
        StageLine("Content-Length: 0", lines);
        lines := lines + [LengthLine(0)];
      }
      assert lines == Lines(response);
      TextSize(lines);
      Stage("\r\n");
    }

    /** respond_body(): the body is what cbuf holds. */
    method RespondBody(status: nat, contentType: string)
      requires 200 <= status < 1000 && status != NO_CONTENT && Field(contentType, TYPE_MAX) && |cbuf| <= SIZE_MAX
      modifies this`wbuf, this`response
      ensures Staged() && response.code == status && response.kind == Typed(contentType)
    {
      hide Text, Size, OneLine, Prologue, Decimal;
      var reason := AnyField(REASON_MAX);
      var date := AnyField(DATE_MAX);
      RespondPrologue(status, reason, date);
      response := Response(status, reason, date, keepalive, Typed(contentType), cbuf);
      ghost var lines := Prologue(status, reason, date, keepalive);
      SizeDigits(|cbuf|);
      StageLine("Content-Type: " + contentType, lines);
      lines := lines + ["Content-Type: " + contentType];
      StageLine("X-Content-Type-Options: nosniff", lines);
      lines := lines + ["X-Content-Type-Options: nosniff"];
      StageLine("Cache-Control: no-store", lines);
      lines := lines + ["Cache-Control: no-store"];
      StageLine("Content-Length: " + Decimal(|cbuf|), lines);
      lines := lines + [LengthLine(|cbuf|)];
      assert lines == Lines(response);
      TextSize(lines);
      Stage("\r\n");
    }

    /** The response recorded is the one whose text is staged. */
    ghost predicate Staged()
      reads this`response, this`wbuf, this`cbuf, this`keepalive
    {
      Framed(response) && wbuf == HeadOf(response) && cbuf == response.body && keepalive == response.keepAlive
    }

    /** api_handle(): some handler's answer, with a body or without; a handler
        that fails part-way through its body answers without one. */
    method ApiHandle()
      modifies this`wbuf, this`cbuf, this`response
      ensures Staged()
    {
      var any: int := *;
      var status := if 200 <= any < 1000 then any else 500;
      var partial: string := *;
      var hasBody: bool := *;
      cbuf := partial;
      if hasBody && status != NO_CONTENT && |cbuf| <= SIZE_MAX {
        var contentType := AnyField(TYPE_MAX);
        RespondBody(status, contentType);
      } else {
        var allow := AnyField(ALLOW_MAX);
        RespondStatus(status, allow);
      }
    }

    /** start_response(): the pending-interim assertion holds on every path. */
    method StartResponse()
      requires Sane() && AllPersist() && continuePos == 0 && wpos == 0
      requires pending == InterimPart(interim)
      requires Staged() && WellFormed(Current(), pton)
      modifies this`expectContinue, this`wpos, this`recvOn, this`sendOn
      ensures Responding()
    {
      hide Advance, Wires, Requests, Inet6Text, WellFormed, Staged, InterimPart;
      assert continuePos == 0;
      expectContinue := false;
      wpos := 0;
      recvOn, sendOn := false, true;
      StagedHead();
      assert (wbuf + cbuf)[..0] == "";
    }

    /** recv_error() */
    method RecvError(status: nat, ghost why: Cause)
      requires Sane() && AllPersist() && Unanswered() && !interim && why != Dispatched
      requires 200 <= status < 1000
      requires Justified(Exchange(rbuf[..len], why, false, Bare(status, false)), Advance(rbuf[..len], START, pton))
      modifies this`wbuf, this`cbuf, this`response, this`cause,
               this`expectContinue, this`wpos, this`recvOn, this`sendOn
      ensures Responding() && cause == why && response.code == status && !keepalive
    {
      hide Advance, Wires, Requests, Inet6Text, WellFormed, Justified, HeadOf, Framed, AdmitsInterim;
      cause := why;
      NothingNamed();
      RespondStatus(status, "");
      assert rbuf[..len] == old(rbuf[..len]);
      RefusalOk(rbuf[..len], why, response, pton);
      StartResponse();
    }

    /** recv_cb() between the read and the verdict on what has arrived. */
    ghost predicate Parsing()
      reads this, rbuf
    {
      && Sane() && Unanswered() && AllPersist()
      && recvOn && !sendOn
      && (interim ==> hdrDone && next + contentLength < rbuf.Length)
      && Advance(rbuf[..len], START, pton) == Advance(rbuf[..len], HeadView(), pton)
    }

    /** The octets before `scanOff` were searched for a NUL by earlier calls. */
    ghost predicate Searched(scanOff: nat)
      reads this, rbuf
    {
      scanOff <= len <= rbuf.Length && forall i :: next <= i < scanOff ==> rbuf[i] != '\0'
    }

    /** head_has_nul() */
    method HeadHasNul(scanOff: nat) returns (nul: bool)
      requires next <= len && Searched(scanOff)
      ensures nul <==> HasNul(rbuf[..len][next..])
    {
      var from := if scanOff < next then next else scanOff;
      nul := HasNul(rbuf[from..len]);
      ghost var rest := rbuf[..len][next..];
      if nul {
        ghost var k :| 0 <= k < len - from && rbuf[from..len][k] == '\0';
        assert rest[k + from - next] == '\0';
      }
      if HasNul(rest) {
        ghost var k :| 0 <= k < len - next && rest[k] == '\0';
        assert rbuf[next + k] == '\0';
        assert rbuf[from..len][next + k - from] == '\0';
      }
    }

    /** The part of the state that parsing a line may touch is fit to go on. */
    ghost predicate LineReady(scanOff: nat)
      reads this, rbuf
    {
      && next <= len <= rbuf.Length && Inet6Text(pton)
      && !hdrDone && !interim && Searched(scanOff)
      && (expectContinue ==> AdmitsInterim(version))
    }

    /** A line that is not complete yet: wait, unless a NUL keeps it so. */
    method AwaitLine(scanOff: nat) returns (v: Verdict)
      requires next <= len && Searched(scanOff)
      ensures v == if HasNul(rbuf[..len][next..]) then Refused(BAD_REQUEST) else Waiting
    {
      var nul := HeadHasNul(scanOff);
      v := if nul then Refused(BAD_REQUEST) else Waiting;
    }

    /** The request line. */
    method TakeRequestLine(scanOff: nat) returns (v: Verdict)
      requires LineReady(scanOff) && version.None?
      modifies this`next, this`version
      ensures LineVerdict(v, Step(rbuf[..len], old(HeadView()), pton), old(HeadView()), HeadView())
      ensures old(next) <= next <= len
      ensures expectContinue ==> AdmitsInterim(version)
      ensures v == Taken ==> old(next) < next && Searched(scanOff)
    {
      hide RequestLine, CheckVersion;
      assert rbuf[next..len] == rbuf[..len][next..];
      match RequestLine(rbuf[next..len]) {
        case LineError =>
          return Refused(BAD_REQUEST);
        case LinePartial =>
          v := AwaitLine(scanOff);
        case LineParsed(adv, text) =>
          next := next + adv;
          version := Some(text);
          var vstatus := CheckVersion(text);
          return if vstatus != 0 then Refused(vstatus) else Taken;
      }
    }

    /** One header line. */
    method TakeHeader(scanOff: nat) returns (v: Verdict)
      requires LineReady(scanOff) && version.Some?
      modifies this`next, this`hdrDone, this`hostSeen, this`closeRequested, this`contentLengthSeen,
               this`contentLength, this`expectContinue
      ensures LineVerdict(v, Step(rbuf[..len], old(HeadView()), pton), old(HeadView()), HeadView())
      ensures old(next) <= next <= len
      ensures expectContinue ==> AdmitsInterim(version)
      ensures v == Taken ==> old(next) < next && Searched(scanOff)
    {
      hide HeaderLine, OnField, Inet6Text, HasNul;
      assert rbuf[next..len] == rbuf[..len][next..];
      match HeaderLine(rbuf[next..len]) {
        case HeaderError =>
          return Refused(BAD_REQUEST);
        case HeaderPartial =>
          v := AwaitLine(scanOff);
        case HeaderEnd(adv) =>
          next := next + adv;
          hdrDone := true;
          if !hostSeen && version.value != "HTTP/1.0" {
            return Refused(BAD_REQUEST);
          }
          return Taken;
        case HeaderField(adv, key, value) =>
          next := next + adv;
          var status := TakeField(key, value);
          return if status != 0 then Refused(status) else Taken;
      }
    }

    /** The next line: the request line until there is one, then a header. */
    method TakeLine(scanOff: nat) returns (v: Verdict)
      requires LineReady(scanOff)
      modifies this`next, this`version, this`hdrDone, this`hostSeen, this`closeRequested,
               this`contentLengthSeen, this`contentLength, this`expectContinue
      ensures old(next) <= next <= len
      ensures expectContinue ==> AdmitsInterim(version)
      ensures v == Taken ==> old(next) < next && Searched(scanOff) &&
                             Advance(rbuf[..len], old(HeadView()), pton) == Advance(rbuf[..len], HeadView(), pton)
      ensures v == Waiting ==> Advance(rbuf[..len], old(HeadView()), pton) == More(HeadView()) && !hdrDone
      ensures v.Refused? ==> Advance(rbuf[..len], old(HeadView()), pton) == Reject(v.code)
    {
      hide Advance, Step, Inet6Text, HasNul, AdmitsInterim;
      AdvanceByStep(rbuf[..len], HeadView(), pton);
      if version.None? {
        v := TakeRequestLine(scanOff);
      } else {
        v := TakeHeader(scanOff);
      }
    }

    /** Take every complete line that has arrived. */
    method ParseLines(scanOff: nat) returns (v: Verdict)
      requires Parsing() && !hdrDone && Searched(scanOff)
      modifies this`next, this`version, this`hdrDone, this`hostSeen, this`closeRequested,
               this`contentLengthSeen, this`contentLength, this`expectContinue
      ensures Sane() && Unanswered()
      ensures v == Taken ==> Parsing() && hdrDone
      ensures v == Waiting ==> Advance(rbuf[..len], START, pton) == More(HeadView()) && !hdrDone
      ensures v.Refused? ==> Advance(rbuf[..len], START, pton) == Reject(v.code)
    {
      hide Advance, Wires, Requests, WellFormed, Inet6Text, AdmitsInterim, Logged, AllPersist;
      v := Taken;
      ghost var verdict := Advance(rbuf[..len], START, pton);
      while v == Taken && !hdrDone
        invariant next <= len
        invariant expectContinue ==> AdmitsInterim(version)
        invariant v == Taken ==> Searched(scanOff) && verdict == Advance(rbuf[..len], HeadView(), pton)
        invariant v == Waiting ==> verdict == More(HeadView()) && !hdrDone
        invariant v.Refused? ==> verdict == Reject(v.code)
        decreases v == Taken, len - next
      {
        v := TakeLine(scanOff);
      }
    }

    /** The parsing part of recv_cb(); stops unless the head is complete. */
    method ParseHead(scanOff: nat) returns (stop: bool)
      requires Parsing() && !hdrDone && Searched(scanOff)
      modifies this`next, this`version, this`hdrDone, this`hostSeen, this`closeRequested,
               this`contentLengthSeen, this`contentLength, this`wbuf, this`cbuf, this`response,
               this`cause, this`expectContinue, this`wpos, this`recvOn, this`sendOn
      ensures stop ==> Reading() || Responding()
      ensures !stop ==> Parsing() && hdrDone
    {
      hide Advance, Wires, Requests, WellFormed, Inet6Text;
      var v := ParseLines(scanOff);
      if v.Refused? {
        RejectCodes(rbuf[..len], pton);
        RecvError(v.code, Rejected);
      }
      return v != Taken;
    }

    /** The field dispatch of recv_cb(): 0, or the status to reject with. */
    method TakeField(key: CString, value: CString) returns (status: nat)
      requires version.Some? && !interim && Inet6Text(pton)
      modifies this`hostSeen, this`closeRequested, this`contentLengthSeen, this`contentLength, this`expectContinue
      ensures OnField(old(HeadView()), key, value, pton) ==
              (if status != 0 then FieldRejected(status) else FieldTaken(HeadView()))
      ensures status != 0 ==> 200 <= status < 1000
      ensures expectContinue ==> old(expectContinue) || version.value != "HTTP/1.0"
      ensures status != 0 ==> expectContinue == old(expectContinue)
    {
      hide IsHost, ListHasClose, ContentLength, Inet6Text, EqualsIgnoreCase;
      status := 0;
      if EqualsIgnoreCase(key, "Host") {
        var ok := HostIsValid(value, pton);
        if hostSeen || !ok {
          return BAD_REQUEST;
        }
        hostSeen := true;
      } else if EqualsIgnoreCase(key, "Connection") {
        var close := ConnectionHasClose(value);
        closeRequested := closeRequested || close;
      } else if EqualsIgnoreCase(key, "Content-Length") {
        if contentLengthSeen {
          return BAD_REQUEST;
        }
        var cl := ParseContentLength(value);
        if cl.None? {
          return BAD_REQUEST;
        }
        contentLength := cl.value;
        contentLengthSeen := true;
      } else if EqualsIgnoreCase(key, "Expect") {
        if version.value == "HTTP/1.0" {
          return 0;
        }
        if !EqualsIgnoreCase(value, "100-continue") {
          return EXPECTATION_FAILED;
        }
        expectContinue := true;
      } else if EqualsIgnoreCase(key, "Transfer-Encoding") {
        return NOT_IMPLEMENTED;
      }
    }

    /** send_continue(): 1 when the interim `msg` is out, 0 to wait, -1 on an
        error. */
    method SendContinue(msg: string, ghost before: string) returns (r: int)
      requires continuePos < |msg| && pending == msg[..continuePos] && sent == before + pending
      modifies this`continuePos, this`sent, this`pending, net
      ensures (old(net.lost) ==> net.lost) && (r == -1 ==> net.lost)
      ensures continuePos <= |msg| && pending == msg[..continuePos] && sent == before + pending
      ensures -1 <= r <= 1 && (r == 1 <==> continuePos == |msg|)
      ensures old(sent) <= sent
    {
      while continuePos < |msg|
        invariant continuePos <= |msg| && pending == msg[..continuePos] && sent == before + pending
        invariant old(sent) <= sent && (old(net.lost) ==> net.lost)
        decreases |msg| - continuePos
      {
        var src := msg[continuePos..];
        var res := SocketSend(src);
        if res.SendBlocked? {
          return 0;
        }
        if res.SendFailed? {
          return -1;
        }
        assert msg[..continuePos] + src[..res.n] == msg[..continuePos + res.n];
        if res.n == 0 {
          return 0;
        }
        continuePos := continuePos + res.n;
      }
      return 1;
    }

    /** The interim has been written: reading goes on without it. */
    method InterimDone()
      modifies this`expectContinue, this`continuePos, this`interim, this`sendOn, this`recvOn
      ensures !expectContinue && continuePos == 0 && interim && recvOn && !sendOn
    {
      expectContinue := false;
      continuePos := 0;
      interim := true;
      sendOn, recvOn := false, true;
    }

    lemma HeadIsComplete()
      requires Parsing() && hdrDone
      ensures Advance(rbuf[..len], START, pton) == Complete(HeadView())
    {
      hide Advance, Step, Logged, Inet6Text, AllPersist, Unanswered;
      AdvanceByStep(rbuf[..len], HeadView(), pton);
    }

    /** recv_cb() about to wait for the body: the interim is owed now. */
    method AwaitBody()
      requires Parsing() && BodyPending()
      modifies this`expectContinue, this`continuePos, this`interim, this`recvOn, this`sendOn,
               this`sent, this`pending, net
      ensures Reading() || SendingInterim() || Closed()
      ensures old(sent) <= sent && (net.lost || recvOn || sendOn)
    {
      hide Advance, Step, Wires, Requests, WellFormed, Inet6Text, AdmitsInterim, Logged, AllPersist, InterimPart;
      HeadIsComplete();
      if expectContinue {
        NoInterim();
        recvOn, sendOn := false, true;
        ContinueInterim();
      }
    }

    /** api_should_keepalive() */
    predicate ShouldKeepalive()
      reads this
    {
      version == Some("HTTP/1.1") && !closeRequested
    }

    /** The request is complete: handle it and respond. */
    method Dispatch()
      requires Parsing() && hdrDone && next + contentLength <= len
      modifies this`keepalive, this`recvOn, this`sendOn, this`wbuf, this`cbuf, this`response,
               this`cause, this`expectContinue, this`wpos
      ensures Responding() && cause == Dispatched
    {
      hide Advance, Step, Wires, Requests, Inet6Text, WellFormed, HeadOf, Framed, AllPersist, Logged, AdmitsInterim,
        InterimPart;
      HeadIsComplete();
      ghost var h := HeadView();
      assert interim ==> MayContinue(h);
      var hasTrailing := len > next + contentLength;
      keepalive := ShouldKeepalive() && !hasTrailing;
      recvOn := false;
      cause := Dispatched;
      ApiHandle();
      AnswerOk(rbuf[..len], interim, response, h, pton);
      StartResponse();
    }

    /** recv_cb() once the headers are complete. */
    method FinishRequest()
      requires Parsing() && hdrDone
      modifies this`keepalive, this`recvOn, this`sendOn, this`wbuf, this`cbuf, this`response,
               this`cause, this`expectContinue, this`wpos, this`continuePos, this`interim, this`sent, this`pending, net
      ensures Valid() && old(sent) <= sent && (net.lost || recvOn || sendOn)
      ensures sendOn && !expectContinue && next + contentLength < rbuf.Length ==> cause == Dispatched
    {
      hide Advance, Wires, Requests, WellFormed, Inet6Text;
      if contentLength > 0 {
        if contentLength > rbuf.Length - 1 - next {
          AdvanceByStep(rbuf[..len], HeadView(), pton);
          RecvError(CONTENT_TOO_LARGE, BodyTooLarge);
          return;
        }
        if len - next < contentLength {
          AwaitBody();
          return;
        }
      }
      Dispatch();
    }

    /** Store received octets and the NUL behind them. */
    method Fill(data: string)
      requires len + |data| < rbuf.Length
      modifies rbuf, this`len
      ensures len == old(len) + |data|
      ensures rbuf[..len] == old(rbuf[..len]) + data
      ensures rbuf[len] == '\0'
    {
      forall i | 0 <= i < |data| {
        rbuf[len + i] := data[i];
      }
      len := len + |data|;
      rbuf[len] := '\0';
    }

    lemma ResumeParsing(before: string, data: string)
      requires next <= |before|
      requires Advance(before, START, pton) == (if hdrDone then Complete(HeadView()) else More(HeadView()))
      ensures Advance(before + data, START, pton) == Advance(before + data, HeadView(), pton)
      ensures !hdrDone ==> forall i :: next <= i < |before| ==> before[i] != '\0'
    {
      hide Advance, Step;
      AdvanceMore(before, data, START, pton);
      AdvanceByStep(before + data, HeadView(), pton);
      if !hdrDone {
        assert forall i :: next <= i < |before| ==> before[next..][i - next] == before[i];
      }
    }

    /** The octets just read join the request. */
    method Receive(data: string)
      requires Reading() && len + |data| < rbuf.Length
      modifies rbuf, this`len, this`received
      ensures Parsing() && (!hdrDone ==> Searched(old(len)))
      ensures received == old(received) + data
    {
      hide Advance, Wires, Requests, WellFormed, Inet6Text, AdmitsInterim;
      ghost var before := rbuf[..len];
      ResumeParsing(before, data);
      Fill(data);
      received := received + data;
      assert forall i :: 0 <= i < |before| ==> rbuf[i] == rbuf[..len][i] == before[i];
    }

    /** The buffer is full and the head is still incomplete. */
    method RefuseFull()
      requires Reading() && rbuf.Length - len <= 1
      modifies this`wbuf, this`cbuf, this`response, this`cause,
               this`expectContinue, this`wpos, this`recvOn, this`sendOn
      ensures Responding()
    {
      hide Advance, Wires, Requests, WellFormed, Inet6Text, AdmitsInterim;
      RecvError(CONTENT_TOO_LARGE, BufferFull);
    }

    /** recv_cb() */
    method RecvCb()
      requires Reading()
      modifies this, rbuf, net
      ensures Valid() && done == old(done)
      ensures old(received) <= received && old(sent) <= sent
      ensures net.lost || recvOn || sendOn
      ensures old(hdrDone) && Responding() ==> cause == Dispatched
    {
      hide Reading, Parsing, SendingInterim, Responding, Closed, Searched;
      var cap := rbuf.Length - len;
      Watching();
      if hdrDone { AdmittedBodyFits(this); }
      if cap <= 1 {
        RefuseFull();
        Watching();
        return;
      }
      var r := SocketRecv(cap - 1);
      if r.RecvBlocked? {
        return;
      }
      if r.RecvFailed? || r.data == "" {
        FreeReading();
        Watching();
        return;
      }
      var scanOff := len;
      Receive(r.data);
      if !hdrDone {
        var stop := ParseHead(scanOff);
        if stop {
          Watching();
          return;
        }
      }
      FinishRequest();
      Watching();
    }

    method FreeReading()
      requires Reading()
      modifies this`recvOn, this`sendOn
      ensures Closed()
    {
      hide Advance, Wires, Requests, WellFormed, Inet6Text, AdmitsInterim;
      Free();
    }

    method ClearHead()
      requires next == 0
      modifies this`version, this`hdrDone, this`contentLengthSeen, this`hostSeen,
               this`expectContinue, this`closeRequested, this`contentLength, this`interim
      ensures HeadView() == START && !interim && !expectContinue
    {
      version, hdrDone := None, false;
      contentLengthSeen, hostSeen, expectContinue, closeRequested := false, false, false, false;
      contentLength := 0;
      interim := false;
    }

    method ClearResponse()
      modifies this`keepalive, this`continuePos, this`wbuf, this`cbuf, this`wpos, this`sendOn, this`recvOn
      ensures wpos == 0 && wbuf == "" && cbuf == "" && !keepalive && continuePos == 0 && recvOn && !sendOn
    {
      keepalive, continuePos := false, 0;
      wbuf, cbuf, wpos := "", "", 0;
      sendOn, recvOn := false, true;
    }

    /** api_ctx_reset() after a whole response on a persistent connection. */
    method Reset()
      requires Sane() && AllPersist() && len == 0 && pending == ""
      modifies this`version, this`hdrDone, this`contentLengthSeen, this`hostSeen,
               this`expectContinue, this`closeRequested, this`contentLength, this`interim,
               this`keepalive, this`continuePos, this`wbuf, this`cbuf, this`wpos, this`sendOn, this`recvOn
      ensures Reading()
    {
      hide Advance, Wires, Requests, WellFormed, Inet6Text, AdmitsInterim, Logged, AllPersist, BodyPending,
        InterimPart, Step;
      NoInterim();
      ClearHead();
      ClearResponse();
      EmptyIsPartial(pton);
      assert rbuf[..0] == "";
    }

    /** The response is out: record the exchange and drop its request. */
    method FinishExchange()
      requires Sane() && WellFormed(Current(), pton) && pending == Wire(Current())
      modifies this`done, this`pending, this`len, this`next
      ensures done == old(done) + [old(Current())]
      ensures Sane() && len == 0 && pending == ""
    {
      hide Advance, Wires, Requests, WellFormed, Inet6Text;
      WiresSnoc(done, Current());
      done := done + [Current()];
      pending := "";
      len, next := 0, 0;
      assert rbuf[..0] == "";
    }

    /** send_cb() while the interim is owed. */
    method ContinueInterim()
      requires SendingInterim()
      modifies this`expectContinue, this`continuePos, this`interim, this`recvOn, this`sendOn,
               this`sent, this`pending, net
      ensures Reading() || SendingInterim() || Closed()
      ensures old(sent) <= sent && (net.lost || recvOn || sendOn)
    {
      hide Advance, Step, Wires, Requests, WellFormed, Inet6Text, AdmitsInterim, Unfinished;
      var result := SendContinue(CONTINUE, Wires(done));
      if result < 0 {
        Free();
      } else if result > 0 {
        assert pending == CONTINUE;
        InterimDone();
      }
    }

    /** What the response in flight still owes: the rest of wbuf, then cbuf. */
    function SendSource(): string
      reads this
      requires wpos <= |wbuf| + |cbuf|
    {
      if wpos < |wbuf| then wbuf[wpos..] else cbuf[wpos - |wbuf|..]
    }

    /** The whole response has been written. */
    ghost predicate Answered()
      reads this, rbuf
    {
      Sane() && AllPersist() && Staged() && WellFormed(Current(), pton) && pending == Wire(Current())
    }

    /** The end of send_cb(): the next request, or the end of the connection. */
    method EndResponse()
      requires Answered()
      modifies this`done, this`pending, this`len, this`next, this`version, this`hdrDone,
               this`contentLengthSeen, this`hostSeen, this`expectContinue, this`closeRequested,
               this`contentLength, this`interim, this`keepalive, this`continuePos, this`wbuf, this`cbuf,
               this`wpos, this`sendOn, this`recvOn
      ensures done == old(done) + [old(Current())] && pending == "" && len == 0
      ensures if old(keepalive) then Reading() else Closed()
    {
      hide Advance, Wires, Requests, WellFormed, Inet6Text, AdmitsInterim, Wire;
      FinishExchange();
      if keepalive {
        Reset();
      } else {
        recvOn, sendOn := false, false;
      }
    }

    lemma StagedHead()
      requires Staged()
      ensures wbuf != ""
    {
      hide HeadOf, Framed;
      FinalStart(response);
    }

    lemma StagedWire()
      requires Staged() && len <= rbuf.Length
      ensures Wire(Current()) == InterimPart(interim) + wbuf + cbuf
    {
      hide HeadOf, Framed, InterimPart;
    }

    /** What the socket takes joins the recorded stream. */
    method SendSome(src: string) returns (res: SendResult)
      requires Sane()
      modifies this`sent, this`pending, net
      ensures Sane() && old(sent) <= sent && (res.SendFailed? ==> net.lost)
      ensures res.SentBytes? ==> res.n <= |src| && pending == old(pending) + src[..res.n]
      ensures !res.SentBytes? ==> pending == old(pending)
    {
      hide Wires, Requests, WellFormed, Inet6Text;
      res := SocketSend(src);
      if res.SentBytes? {
        assert Wires(done) + old(pending) + src[..res.n] == Wires(done) + (old(pending) + src[..res.n]);
      }
    }

    /** Hand more of the response to the socket; says whether it took any. */
    method PushResponse() returns (res: SendResult)
      requires Responding()
      modifies this`wpos, this`sent, this`pending, net
      ensures res.SendFailed? ==> net.lost
      ensures old(sent) <= sent && wpos <= |wbuf| + |cbuf|
      ensures wpos < |wbuf| + |cbuf| ==> Responding()
      ensures wpos == |wbuf| + |cbuf| ==> Answered() && res.SentBytes?
    {
      hide Logged, Inet6Text, WellFormed, Wire, AllPersist, InterimPart, Staged, HeadOf, Framed;
      ghost var x, before := Current(), InterimPart(interim);
      var src := SendSource();
      StagedWire();
      res := SendSome(src);
      assert Current() == x;
      if res.SentBytes? {
        SendProgress(before, wbuf, cbuf, wpos, res.n);
        wpos := wpos + res.n;
      }
    }

    /** send_cb() with a final response to write. */
    method ContinueResponse()
      requires Responding()
      modifies this, net
      ensures done == old(done) ==> net.lost || recvOn || sendOn
      ensures Valid() && old(sent) <= sent && received == old(received)
      ensures done == old(done) || done == old(done) + [old(Current())]
      ensures done != old(done) ==>
                pending == "" && len == 0 && if old(keepalive) then Reading() else Closed()
    {
      hide Reading, Responding, Closed, SendingInterim, Answered;
      var total := |wbuf| + |cbuf|;
      var res := PushResponse();
      Watching();
      if res.SendBlocked? {
        return;
      }
      if res.SendFailed? {
        FreeResponding();
        return;
      }
      if wpos >= total {
        EndResponse();
      }
    }

    method FreeResponding()
      requires Responding()
      modifies this`recvOn, this`sendOn
      ensures Closed()
    {
      hide Advance, Wires, Requests, WellFormed, Inet6Text, AdmitsInterim;
      Free();
    }

    /** send_cb() */
    method SendCb()
      requires sendOn && Valid()
      modifies this, net
      ensures done == old(done) ==> net.lost || recvOn || sendOn
      ensures Valid() && old(sent) <= sent && received == old(received)
      ensures done == old(done) || (!old(expectContinue) && done == old(done) + [old(Current())])
      ensures done != old(done) ==> if old(keepalive) then Reading() && len == 0 else Closed()
    {
      hide Advance, Wires, Requests, WellFormed, Inet6Text, AdmitsInterim, Unfinished;
      if expectContinue {
        ContinueInterim();
        return;
      }
      ContinueResponse();
    }
  }

  /** Whatever the socket did, what has been written is a prefix of the
      completed exchanges followed by one more: per request at most one whole
      interim, then exactly one whole final response. */
  lemma WrittenIsPrefix(c: Connection)
    requires c.Valid()
    ensures c.sent == Wires(c.done) ||
            exists x :: WellFormed(x, c.pton) && c.rbuf[..c.len] <= x.request && c.sent <= Wires(c.done + [x])
  {
    hide Advance, WellFormed, Wires, Requests, Inet6Text, AdmitsInterim, Wire, InterimPart;
    var request := c.rbuf[..c.len];
    c.PendingIsUnfinished();
    if c.pending != "" {
      var x :| WellFormed(x, c.pton) && request <= x.request && c.pending <= Wire(x);
      WiresSnoc(c.done, x);
    }
  }

  /** An interim response on the wire is never cut short by anything, and never
      repeated: what follows its first octets is the rest of it, and what follows
      the whole of it is a final status. */
  lemma InterimNeverCut(c: Connection)
    requires c.Valid()
    ensures Wires(c.done) <= c.sent
    ensures var p := c.sent[|Wires(c.done)|..];
            && (|p| > 9 && p[9] == '1' ==> p <= CONTINUE || CONTINUE <= p)
            && (|p| > |CONTINUE| + 9 && CONTINUE <= p ==> p[|CONTINUE| + 9] != '1')
  {
    hide Advance, Wires, Requests, Inet6Text, AdmitsInterim, Framed, Justified;
    assert c.sent[|Wires(c.done)|..] == c.pending;
    c.PendingIsUnfinished();
    if c.pending != "" {
      var x :| WellFormed(x, c.pton) && c.rbuf[..c.len] <= x.request && c.pending <= Wire(x);
      InterimIsWhole(x.interim, x.response, c.pending);
    }
  }

  /** An exchange as the client sees it. */
  function View(x: Exchange): (bool, Seen) {
    (x.interim, Seen(x.response.code, x.response.keepAlive, x.response.body))
  }

  function Views(xs: seq<Exchange>): seq<(bool, Seen)> {
    if xs == [] then [] else [View(xs[0])] + Views(xs[1..])
  }

  /** A client reading `n` answers, and what it has not read yet. */
  function ReadAnswers(s: string, n: nat): Option<(seq<(bool, Seen)>, string)>
    decreases n
  {
    if n == 0 then Some(([], s))
    else
      var first := ReadAnswer(s);
      if first.None? then None
      else
        var more := ReadAnswers(first.value.2, n - 1);
        if more.None? then None
        else Some(([(first.value.0, first.value.1)] + more.value.0, more.value.1))
  }

  lemma {:induction false} WiresCons(xs: seq<Exchange>)
    requires xs != []
    ensures Wires(xs) == Wire(xs[0]) + Wires(xs[1..])
  {
    hide Wire, Wires;
    var n := |xs| - 1;
    Snoc(xs);
    WiresSnoc(xs[..n], xs[n]);
    if n == 0 {
      NothingYet();
      assert xs[..0] == [] && xs[1..] == [] && "" + Wire(xs[0]) == Wire(xs[0]) + "";
    } else {
      var mid := xs[1..n];
      WiresCons(xs[..n]);
      assert xs[..n][1..] == mid && xs[1..] == mid + [xs[n]];
      WiresSnoc(mid, xs[n]);
      assert Wire(xs[0]) + Wires(mid) + Wire(xs[n]) == Wire(xs[0]) + (Wires(mid) + Wire(xs[n]));
    }
  }

  lemma {:induction false} AnswersRead(xs: seq<Exchange>, rest: string, pton: string -> bool)
    requires forall i :: 0 <= i < |xs| ==> WellFormed(xs[i], pton)
    ensures ReadAnswers(Wires(xs) + rest, |xs|) == Some((Views(xs), rest))
  {
    hide Wires, ReadAnswer, WellFormed, HeadOf;
    if xs == [] {
      NothingYet();
      assert "" + rest == rest;
    } else {
      var tail := Wires(xs[1..]) + rest;
      WiresCons(xs);
      AnswersRead(xs[1..], rest, pton);
      WellFramed(xs[0], pton);
      AnswerReads(xs[0].interim, xs[0].response, tail);
      assert Wires(xs) + rest == Wire(xs[0]) + tail;
    }
  }

  lemma WellFramed(x: Exchange, pton: string -> bool)
    requires WellFormed(x, pton)
    ensures Framed(x.response)
  {
    hide Advance, Framed, Justified;
  }

  /** Read by the rules of HTTP, the octets written are exactly the completed
      exchanges -- status, persistence and body of each, with at most one interim
      response before it -- followed by a part of one more. */
  lemma ClientReadsExchanges(c: Connection)
    requires c.Valid()
    ensures ReadAnswers(c.sent, |c.done|) == Some((Views(c.done), c.pending))
    ensures Unfinished(c.pending, c.rbuf[..c.len], c.pton)
  {
    hide Wires, Requests, ReadAnswers, Views, WellFormed, Inet6Text, Advance, Unfinished;
    AnswersRead(c.done, c.pending, c.pton);
    c.PendingIsUnfinished();
  }

  /** Nothing received is discarded: the stream is the requests answered so
      far followed by the buffer, and each request the connection outlived was
      exactly one head and its body. */
  lemma NothingDiscarded(c: Connection, i: nat)
    requires c.Valid() && i < |c.done|
    ensures c.received == Requests(c.done) + c.rbuf[..c.len]
    ensures i < |c.done| - 1 || !c.Closed() ==>
              var p := Advance(c.done[i].request, START, c.pton);
              p.Complete? && |c.done[i].request| == p.head.next + p.head.contentLength
  {
    hide Advance, Wires, Requests, Inet6Text, AdmitsInterim;
    assert WellFormed(c.done[i], c.pton);
  }

  /** Every answer is the one its request's text deserves. */
  ghost predicate Deserved(x: Exchange, pton: string -> bool) {
    match x.cause
    case Dispatched =>
      exists h :: RequestVerdict.Accepted(x.request, h, pton) && h.next + h.contentLength <= |x.request| &&
                  (x.interim ==> h.expectContinue) && (x.response.keepAlive <==> Persists(h, x.request))
    case BodyTooLarge =>
      x.response.code == CONTENT_TOO_LARGE &&
      exists h :: RequestVerdict.Accepted(x.request, h, pton) && h.next + h.contentLength > HTTP_MAX_ENTITY - 1
    case BufferFull =>
      x.response.code == CONTENT_TOO_LARGE && |x.request| == HTTP_MAX_ENTITY - 1 &&
      exists rest :: RequestVerdict.Waiting(x.request, rest, pton) && !HasNul(rest)
    case Rejected => RequestVerdict.Refused(x.request, pton, x.response.code)
  }

  ghost predicate Persists(h: Head, request: string) {
    h.version == Some("HTTP/1.1") && !h.closeRequested && |request| == h.next + h.contentLength
  }

  lemma WellFormedIsDeserved(x: Exchange, pton: string -> bool)
    requires WellFormed(x, pton)
    ensures Deserved(x, pton) && (x.cause != Dispatched ==> !x.interim && !x.response.keepAlive)
  {
    hide Advance, RequestVerdict.Accepted, RequestVerdict.Refused, RequestVerdict.Waiting, Framed, HasNul;
    var p := Advance(x.request, START, pton);
    match p
    case Complete(h) => RequestVerdict.CompleteIff(x.request, h, pton);
    case Reject(code) => RequestVerdict.RejectIff(x.request, code, pton);
    case More(_) => RequestVerdict.MoreIff(x.request, pton);
  }

  /** In every reachable state: a request was handed to a handler exactly when its
      text is an accepted head and its body, and otherwise the status says what was
      wrong with it. */
  lemma AnswersAreDeserved(c: Connection, i: nat)
    requires c.Valid() && i < |c.done|
    ensures Deserved(c.done[i], c.pton)
  {
    hide Advance, Wires, Requests, Inet6Text, AdmitsInterim, Deserved, WellFormed;
    assert WellFormed(c.done[i], c.pton);
    WellFormedIsDeserved(c.done[i], c.pton);
  }

  /** What the event loop can report of a connection. */
  datatype Fired = Readable | Writable | Expired

  /** A whole run: the callbacks of a new connection, in whatever order the event
      loop fires those whose watchers are running. */
  method Serve(pton: string -> bool, events: seq<Fired>) returns (c: Connection)
    requires Inet6Text(pton)
    ensures fresh(c) && c.Valid() && c.pton == pton
    ensures c.sent == Wires(c.done) ||
            exists x :: WellFormed(x, pton) && c.rbuf[..c.len] <= x.request && c.sent <= Wires(c.done + [x])
    ensures ReadAnswers(c.sent, |c.done|) == Some((Views(c.done), c.pending))
    ensures c.received == Requests(c.done) + c.rbuf[..c.len]
  {
    hide Inet6Text, Wires, Requests, WellFormed, ReadAnswers, Views, Advance, Unfinished, AdmitsInterim;
    c := new Connection(pton);
    for i := 0 to |events|
      invariant fresh(c) && fresh(c.rbuf) && fresh(c.net) && c.Valid()
    {
      c.Watching();
      match events[i]
      case Readable => if c.recvOn { c.RecvCb(); }
      case Writable => if c.sendOn { c.SendCb(); }
      case Expired => if c.recvOn || c.sendOn { c.TimeoutCb(); }
    }
    WrittenIsPrefix(c);
    ClientReadsExchanges(c);
  }

  /** Once a body has been admitted, the buffer cannot fill before it arrives. */
  lemma AdmittedBodyFits(c: Connection)
    requires c.Reading() && c.hdrDone
    ensures c.rbuf.Length - c.len > 1
    ensures c.len < c.next + c.contentLength <= c.rbuf.Length - 1
  {
  }

  /** Sending from the head, or behind it from the body, goes on where it stopped. */
  lemma SendProgress(a: string, b: string, c: string, k: nat, n: nat)
    requires k < |b| + |c|
    requires n <= |if k < |b| then b[k..] else c[k - |b|..]|
    ensures var src := if k < |b| then b[k..] else c[k - |b|..];
            && k + n <= |b| + |c|
            && a + (b + c)[..k] + src[..n] == a + (b + c)[..k + n]
            && (k + n == |b| + |c| ==> a + (b + c)[..k + n] == a + b + c)
  {
    var w := b + c;
    var src := if k < |b| then b[k..] else c[k - |b|..];
    assert w[k..k + n] == src[..n];
    assert w[..k] + w[k..k + n] == w[..k + n];
    assert k + n == |w| ==> w[..k + n] == w;
    assert a + (w[..k] + src[..n]) == a + w[..k] + src[..n];
    assert a + (b + c) == a + b + c;
  }

  lemma {:induction false} RejectCodesFrom(s: string, h: Head, pton: string -> bool)
    requires h.next <= |s|
    ensures Advance(s, h, pton).Reject? ==> 200 <= Advance(s, h, pton).code < 1000
    decreases |s| - h.next
  {
    hide Step, Advance;
    AdvanceByStep(s, h, pton);
    if !h.done {
      RejectCode(s, h, pton);
      if Step(s, h, pton).Go? { RejectCodesFrom(s, Step(s, h, pton).head, pton); }
    }
  }

  lemma RejectCode(s: string, h: Head, pton: string -> bool)
    requires h.next <= |s| && !h.done
    ensures var r := Step(s, h, pton); r.Halt? && r.progress.Reject? ==> 200 <= r.progress.code < 1000
  {
    hide RequestLine, HeaderLine, HasNul, IsHost, ListHasClose, ContentLength, EqualsIgnoreCase;
  }

  lemma RejectCodes(s: string, pton: string -> bool)
    ensures Advance(s, START, pton).Reject? ==> 200 <= Advance(s, START, pton).code < 1000
  {
    RejectCodesFrom(s, START, pton);
  }

  lemma EmptyIsPartial(pton: string -> bool)
    ensures Advance("", START, pton) == More(START)
  {
    assert ""[0..] == "";
    assert RequestLine("") == LinePartial;
    assert Step("", START, pton) == Halt(More(START));
  }
}

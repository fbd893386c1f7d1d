/** What a request head means, as a function of the octets received so far.
    The connection parses it line by line as reads arrive; `Advance` does the
    same from any intermediate point, and `AdvanceMore` shows that the cut
    between two reads never matters. */
module RequestHead {
  import opened Basics
  import opened HttpFields
  import opened HttpParse

  const BAD_REQUEST := 400
  const CONTENT_TOO_LARGE := 413
  const EXPECTATION_FAILED := 417
  const NOT_IMPLEMENTED := 501
  const VERSION_NOT_SUPPORTED := 505

  datatype Head = Head(
    next: nat,
    version: Option<CString>,
    done: bool,
    hostSeen: bool,
    closeRequested: bool,
    lengthSeen: bool,
    contentLength: nat,
    expectContinue: bool)

  const START := Head(0, None, false, false, false, false, 0, false)

  datatype Progress = Reject(code: nat) | More(head: Head) | Complete(head: Head)

  /** check_http_version(): 0, or the status to reject with. */
  function CheckVersion(v: string): (code: nat)
  {
    if |v| != 8 || v[..5] != "HTTP/" || !IsDigit(v[5]) || v[6] != '.' || !IsDigit(v[7])
    then BAD_REQUEST
    else if v[5] != '1' then VERSION_NOT_SUPPORTED
    else 0
  }

  datatype FieldResult = FieldRejected(code: nat) | FieldTaken(head: Head)

  /** One header field applied to the head so far. */
  ghost function OnField(h: Head, key: string, value: string, pton: string -> bool): (r: FieldResult)
    requires h.version.Some?
    ensures r.FieldTaken? ==> r.head.next == h.next && r.head.version == h.version && r.head.done == h.done
  {
    if EqualsIgnoreCase(key, "Host") then
      if h.hostSeen || !IsHost(value, pton) then FieldRejected(BAD_REQUEST)
      else FieldTaken(h.(hostSeen := true))
    else if EqualsIgnoreCase(key, "Connection") then
      FieldTaken(h.(closeRequested := h.closeRequested || ListHasClose(value)))
    else if EqualsIgnoreCase(key, "Content-Length") then
      if h.lengthSeen || ContentLength(value).None? then FieldRejected(BAD_REQUEST)
      else FieldTaken(h.(lengthSeen := true, contentLength := ContentLength(value).value))
    else if EqualsIgnoreCase(key, "Expect") then
      if h.version.value == "HTTP/1.0" then FieldTaken(h)
      else if !EqualsIgnoreCase(value, "100-continue") then FieldRejected(EXPECTATION_FAILED)
      else FieldTaken(h.(expectContinue := true))
    else if EqualsIgnoreCase(key, "Transfer-Encoding") then FieldRejected(NOT_IMPLEMENTED)
    else FieldTaken(h)
  }

  datatype StepResult = Halt(progress: Progress) | Go(head: Head)

  ghost function OnRequestLine(h: Head, line: LineResult, nul: bool): (r: StepResult)
    ensures r.Go? ==> line.LineParsed? && r.head.next == h.next + line.advance
    ensures r.Halt? ==> r.progress.Reject? || (r.progress == More(h) && !nul)
  {
    match line
    case LineError => Halt(Reject(BAD_REQUEST))
    case LinePartial => if nul then Halt(Reject(BAD_REQUEST)) else Halt(More(h))
    case LineParsed(adv, v) =>
      if CheckVersion(v) != 0 then Halt(Reject(CheckVersion(v)))
      else Go(h.(next := h.next + adv, version := Some(v)))
  }

  ghost function OnHeaderLine(h: Head, line: HeaderResult, nul: bool, pton: string -> bool): (r: StepResult)
    requires h.version.Some?
    ensures r.Go? ==> (line.HeaderEnd? || line.HeaderField?) && r.head.next == h.next + line.advance
    ensures r.Halt? ==> r.progress.Reject? || (r.progress == More(h) && !nul)
  {
    match line
    case HeaderError => Halt(Reject(BAD_REQUEST))
    case HeaderPartial => if nul then Halt(Reject(BAD_REQUEST)) else Halt(More(h))
    case HeaderEnd(adv) =>
      if !h.hostSeen && h.version.value != "HTTP/1.0" then Halt(Reject(BAD_REQUEST))
      else Go(h.(next := h.next + adv, done := true))
    case HeaderField(adv, key, value) =>
      match OnField(h.(next := h.next + adv), key, value, pton)
      case FieldRejected(code) => Halt(Reject(code))
      case FieldTaken(h') => Go(h')
  }

  /** Take one line of `s` at `h.next`, or say why not. */
  ghost function Step(s: string, h: Head, pton: string -> bool): (r: StepResult)
    requires h.next <= |s| && !h.done
    ensures r.Go? ==> h.next < r.head.next <= |s|
    ensures r.Halt? ==> r.progress.Reject? || (r.progress == More(h) && !HasNul(s[h.next..]))
  {
    var rest := s[h.next..];
    if h.version.None? then OnRequestLine(h, RequestLine(rest), HasNul(rest))
    else OnHeaderLine(h, HeaderLine(rest), HasNul(rest), pton)
  }

  /** Take every complete line of `s` from `h.next` on. */
  ghost function Advance(s: string, h: Head, pton: string -> bool): (p: Progress)
    requires h.next <= |s|
    ensures p.More? || p.Complete? ==> h.next <= p.head.next <= |s|
    ensures p.More? ==> !p.head.done && !HasNul(s[p.head.next..])
    ensures p.Complete? ==> p.head.done
    decreases |s| - h.next
  {
    if h.done then Complete(h)
    else
      match Step(s, h, pton)
      case Halt(p) => p
      case Go(h') => Advance(s, h', pton)
  }

  lemma AdvanceByStep(s: string, h: Head, pton: string -> bool)
    requires h.next <= |s|
    ensures h.done ==> Advance(s, h, pton) == Complete(h)
    ensures !h.done && Step(s, h, pton).Halt? ==> Advance(s, h, pton) == Step(s, h, pton).progress
    ensures !h.done && Step(s, h, pton).Go? ==>
              Advance(s, h, pton) == Advance(s, Step(s, h, pton).head, pton)
  {
  }

  lemma NulOfMore(s: string, t: string)
    requires HasNul(s)
    ensures HasNul(s + t)
  {
    var i :| 0 <= i < |s| && s[i] == '\0';
    assert (s + t)[i] == '\0';
  }

  lemma RequestLineOfMore(rest: string, t: string)
    requires RequestLine(rest) != LinePartial || HasNul(rest)
    ensures RequestLine(rest + t) == RequestLine(rest)
    ensures HasNul(rest) ==> HasNul(rest + t)
  {
    hide RequestLine;
    if RequestLine(rest) != LinePartial {
      RequestLineDecided(rest, t);
    } else {
      RequestLineStuck(rest, t);
    }
    if HasNul(rest) { NulOfMore(rest, t); }
  }

  lemma HeaderLineOfMore(rest: string, t: string)
    requires HeaderLine(rest) != HeaderPartial || HasNul(rest)
    ensures HeaderLine(rest + t) == HeaderLine(rest)
    ensures HasNul(rest) ==> HasNul(rest + t)
  {
    hide HeaderLine;
    HeaderLineStable(rest, t);
    if HasNul(rest) { NulOfMore(rest, t); }
  }

  /** A line taken or refused on a prefix is taken or refused alike later. */
  lemma StepMore(s: string, t: string, h: Head, pton: string -> bool)
    requires h.next <= |s| && !h.done
    requires Step(s, h, pton) != Halt(More(h))
    ensures Step(s + t, h, pton) == Step(s, h, pton)
  {
    hide RequestLine, HeaderLine, HasNul, OnField;
    var rest := s[h.next..];
    assert (s + t)[h.next..] == rest + t;
    if h.version.Some? {
      HeaderLineOfMore(rest, t);
      HeaderVerdict(h, HeaderLine(rest), HasNul(rest), HasNul(rest + t), pton);
    } else {
      RequestLineOfMore(rest, t);
      RequestLineVerdict(h, RequestLine(rest), HasNul(rest), HasNul(rest + t));
    }
  }

  lemma HeaderVerdict(h: Head, line: HeaderResult, nul: bool, nul': bool, pton: string -> bool)
    requires h.version.Some? && (nul ==> nul')
    requires OnHeaderLine(h, line, nul, pton) != Halt(More(h))
    ensures OnHeaderLine(h, line, nul', pton) == OnHeaderLine(h, line, nul, pton)
  {
  }

  lemma RequestLineVerdict(h: Head, line: LineResult, nul: bool, nul': bool)
    requires nul ==> nul'
    requires OnRequestLine(h, line, nul) != Halt(More(h))
    ensures OnRequestLine(h, line, nul') == OnRequestLine(h, line, nul)
  {
  }

  /** The verdict on a head is independent of where the reads are cut: a
      verdict reached on a prefix is final, and otherwise parsing resumes from
      the saved point as if it had started over. */
  lemma {:induction false} AdvanceMore(s: string, t: string, h: Head, pton: string -> bool)
    requires h.next <= |s|
    ensures match Advance(s, h, pton)
            case More(h') => Advance(s + t, h, pton) == Advance(s + t, h', pton)
            case p => Advance(s + t, h, pton) == p
    decreases |s| - h.next
  {
    if !h.done {
      var r := Step(s, h, pton);
      if r != Halt(More(h)) {
        StepMore(s, t, h, pton);
      }
      if r.Go? {
        AdvanceMore(s, t, r.head, pton);
      }
    }
  }

  /** The chunked reading of a request: a run of reads, each parsed on arrival. */
  ghost function AdvanceChunks(s: string, h: Head, chunks: seq<string>, pton: string -> bool): Progress
    requires h.next <= |s|
    decreases |chunks|
  {
    match Advance(s, h, pton)
    case Reject(code) => Reject(code)
    case Complete(h') => Complete(h')
    case More(h') => if chunks == [] then More(h') else AdvanceChunks(s + chunks[0], h', chunks[1..], pton)
  }

  function Concat(chunks: seq<string>): string {
    if chunks == [] then "" else chunks[0] + Concat(chunks[1..])
  }

  /** However a request is cut into reads, the verdict is the one on its whole
      octet stream. */
  lemma {:induction false} ChunkingIrrelevant(s: string, h: Head, chunks: seq<string>, pton: string -> bool)
    requires h.next <= |s|
    ensures AdvanceChunks(s, h, chunks, pton) == Advance(s + Concat(chunks), h, pton)
    decreases |chunks|
  {
    hide Advance;
    AdvanceMore(s, Concat(chunks), h, pton);
    if chunks == [] {
      assert s + Concat(chunks) == s;
    } else {
      match Advance(s, h, pton) {
        case More(h') =>
          ChunkingIrrelevant(s + chunks[0], h', chunks[1..], pton);
          assert s + chunks[0] + Concat(chunks[1..]) == s + Concat(chunks);
        case _ =>
      }
    }
  }
}

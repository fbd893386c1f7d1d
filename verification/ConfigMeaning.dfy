/** What a configuration document says: which documents are accepted, and what each
    field of the configuration is, in terms of the document alone. */
module ConfigMeaning {
  import opened Basics
  import opened ConfigMaps
  import opened ConfigSpec
  import opened ConfigRoundTrip

  // ---- Numbers ----------------------------------------------------------------------------

  function Distance(a: int, b: int): nat { if a < b then b - a else a - b }

  /** The value of [lo, hi] nearest to `x`. */
  ghost predicate Nearest(x: int, lo: int, hi: int, r: int) {
    lo <= r <= hi && forall y :: lo <= y <= hi ==> Distance(x, r) <= Distance(x, y)
  }

  lemma NearestIs(x: nat, lo: nat, hi: nat, r: nat)
    requires lo <= hi
    ensures Nearest(x, lo, hi, r) <==> r == Clamp(x, lo, hi)
  {
    var c := Clamp(x, lo, hi);
    if Nearest(x, lo, hi, r) { assert Distance(x, r) <= Distance(x, c); }
  }

  /** Off stays off; anything else is the nearest timeout allowed. */
  ghost predicate TimeoutSays(doc: nat, v: nat) {
    (v == 0 <==> doc == 0) && (doc > 0 ==> Nearest(doc, 10, 86400, v))
  }

  lemma TimeoutIs(doc: nat, v: nat)
    ensures TimeoutSays(doc, v) <==> v == ClampTimeout(doc)
  {
    hide Nearest;
    NearestIs(doc, 10, 86400, v);
  }

  /** The whole frames in a number of bytes, within the limits of a window. */
  ghost predicate WindowSays(bytes: nat, frames: nat) {
    (frames == 0 <==> bytes == 0) &&
    (bytes > 0 ==> exists whole: nat :: whole * MUX_WINDOW_UNIT <= bytes < (whole + 1) * MUX_WINDOW_UNIT &&
                                        Nearest(whole, 4, 65535, frames))
  }

  lemma WindowIs(bytes: nat, frames: nat)
    ensures WindowSays(bytes, frames) <==> frames == WindowFrames(bytes)
  {
    hide Nearest;
    var whole := bytes / MUX_WINDOW_UNIT;
    assert whole * MUX_WINDOW_UNIT <= bytes < (whole + 1) * MUX_WINDOW_UNIT;
    NearestIs(whole, 4, 65535, frames);
  }

  /** The document's value up to the largest int. */
  predicate CappedSays(doc: nat, v: nat) { if doc <= INT_MAX then v == doc else v == INT_MAX }

  lemma CappedIs(doc: nat, v: nat)
    ensures CappedSays(doc, v) <==> v == Min(doc, INT_MAX)
  {
  }

  // ---- The mux section ----------------------------------------------------------------------

  predicate SocketSays(t: SocketOpts, u: SocketOpts) {
    && u.reuseport == t.reuseport && u.keepalive == t.keepalive && u.nodelay == t.nodelay && u.backlog == t.backlog
    && CappedSays(t.sndbuf, u.sndbuf) && CappedSays(t.rcvbuf, u.rcvbuf)
    && CappedSays(t.notsentLowat, u.notsentLowat)
  }

  lemma SocketIs(t: SocketOpts, u: SocketOpts)
    ensures SocketSays(t, u) <==> u == LoadSocket(t)
  {
  }

  /** The lower mark is the document's, and half of the upper one where that is zero. */
  predicate LowSays(doc: nat, hi: nat, lo: nat) {
    if hi > 0 && doc == 0 then 2 * lo <= hi < 2 * lo + 2 else CappedSays(doc, lo)
  }

  ghost predicate MuxSays(m: JsonMux, x: Mux) {
    && x.nodelay == m.nodelay && x.maxHalfopen == m.maxHalfopen && x.readahead == m.readahead
    && x.lossymux == m.lossymux && x.lossyIdle == m.lossyIdle && x.lossyQueue == m.lossyQueue
    && CappedSays(m.maxStreams, x.maxStreams) && CappedSays(m.memHi, x.memHi) && LowSays(m.memLo, x.memHi, x.memLo)
    && TimeoutSays(m.connectTimeout, x.connectTimeout) && TimeoutSays(m.keepalive, x.keepalive)
    && TimeoutSays(m.sendTimeout, x.sendTimeout) && TimeoutSays(m.idleTimeout, x.idleTimeout)
    && TimeoutSays(m.resumeTimeout, x.resumeTimeout) && DeadlineCanonical(x.keepalive, x.timeout)
    && WindowSays(m.sessionWindow, x.sessionWindow) && WindowSays(m.streamWindow, x.streamWindow)
    && Nearest(m.maxFrameSize - MUX_FRAME_HEADER_SIZE, MUX_MIN_FRAME_PAYLOAD, MUX_MAX_PAYLOAD_SIZE, x.maxFramePayload)
  }

  lemma MuxIs(m: JsonMux, x: Mux)
    requires MuxConstraints(m)
    ensures MuxSays(m, x) <==> x == NormalizeMux(LoadMux(m))
  {
    hide Nearest, TimeoutSays, WindowSays, ClampTimeout, WindowFrames, CappedSays, Clamp;
    MuxShape(m);
    var l := LoadMux(m);
    TimeoutIs(m.connectTimeout, x.connectTimeout);
    TimeoutIs(m.keepalive, x.keepalive);
    TimeoutIs(m.sendTimeout, x.sendTimeout);
    TimeoutIs(m.idleTimeout, x.idleTimeout);
    TimeoutIs(m.resumeTimeout, x.resumeTimeout);
    WindowIs(m.sessionWindow, x.sessionWindow);
    WindowIs(m.streamWindow, x.streamWindow);
    NearestIs(m.maxFrameSize - MUX_FRAME_HEADER_SIZE, MUX_MIN_FRAME_PAYLOAD, MUX_MAX_PAYLOAD_SIZE, x.maxFramePayload);
    CappedIs(m.maxStreams, x.maxStreams);
    CappedIs(m.memHi, x.memHi);
    CappedIs(m.memLo, x.memLo);
  }

  // ---- max_startups ---------------------------------------------------------------------------

  /** Digits that fit an int. */
  predicate IntDigits(s: string) { s != "" && AllDigits(s) && DigitsValue(s) <= INT_MAX }

  /** Three numbers with colons between them, as far as a C string goes. */
  ghost predicate StartupsSay(s: string, t: Startups) {
    exists a, b, c :: IntDigits(a) && IntDigits(b) && IntDigits(c) && CStr(s) == a + ":" + b + ":" + c &&
                      t == Startups(DigitsValue(a), DigitsValue(b), DigitsValue(c))
  }

  lemma FieldReads(d: string, rest: string)
    requires IntDigits(d)
    ensures ParseField(d + ":" + rest, Some(':')) == Some((DigitsValue(d), rest))
    ensures ParseField(d, None) == Some((DigitsValue(d), ""))
  {
    hide DigitsValue, DigitRun;
    RunOf(d, ":" + rest);
    RunOf(d, "");
    var s := d + ":" + rest;
    assert s == d + (":" + rest) && d + "" == d;
    assert s[..|d|] == d && s[|d| + 1..] == rest && d[..|d|] == d;
  }

  lemma ReadsField(s: string, sep: Option<char>)
    requires ParseField(s, sep).Some? && (sep.Some? ==> sep.value == ':')
    ensures var (n, rest) := ParseField(s, sep).value; var d := s[..DigitRun(s)];
            IntDigits(d) && DigitsValue(d) == n && s == (if sep.Some? then d + ":" + rest else d)
  {
    hide DigitsValue, DigitRun;
  }

  lemma StartupsAre(s: string, t: Startups)
    ensures ParseStartups(s) == Some(t) <==> StartupsSay(s, t)
  {
    hide ParseField, CStr, DigitsValue, DigitRun, AllDigits;
    if ParseStartups(s) == Some(t) {
      var u := CStr(s);
      ReadsField(u, Some(':'));
      var v := ParseField(u, Some(':')).value.1;
      ReadsField(v, Some(':'));
      var w := ParseField(v, Some(':')).value.1;
      ReadsField(w, None);
      var a, b := u[..DigitRun(u)], v[..DigitRun(v)];
      assert u == a + ":" + b + ":" + w;
      assert IntDigits(a) && IntDigits(b) && IntDigits(w);
    }
    if a, b, c :| IntDigits(a) && IntDigits(b) && IntDigits(c) && CStr(s) == a + ":" + b + ":" + c &&
                  t == Startups(DigitsValue(a), DigitsValue(b), DigitsValue(c)) {
      var tail := b + ":" + c;
      assert a + ":" + b + ":" + c == a + ":" + tail;
      FieldReads(a, tail);
      FieldReads(b, c);
      FieldReads(c, "");
    }
  }

  ghost predicate ThrottleSays(s: Option<string>, t: Startups) {
    && (if s.None? then t == Startups(0, 0, 0) else StartupsSay(s.value, t))
    && t.rate <= 100 && (t.start > 0 && t.full > 0 ==> t.start < t.full)
  }

  lemma ThrottleIs(s: Option<string>, t: Startups)
    ensures ThrottleSays(s, t) <==> LoadStartups(s) == Some(t) && StartupsOk(t)
  {
    hide ParseStartups, StartupsSay;
    if s.Some? { StartupsAre(s.value, t); }
  }

  // ---- Keys and TLS -----------------------------------------------------------------------------

  /** The pairs of the key map that are no comments, in order. */
  ghost predicate KeysSay(f: Fragment, es: seq<Entry>) {
    match f
    case Absent => es == []
    case Object(pairs) => Live(pairs) == Pairs(es) && EntriesOk(es)
    case _ => false
  }

  lemma KeysAre(f: Fragment, es: seq<Entry>)
    ensures KeysSay(f, es) <==> LoadPsk(f) == Some(es)
  {
    hide Live, Pairs, EntriesOk, PskOf;
    if f.Object? { PskIsDocumentOrder(f.pairs, es); }
  }

  /** A reference is kept; a key is the document's without white space around it. */
  ghost predicate KeySays(doc: Entry, e: Entry) {
    && e.id == doc.id && |e.id| <= MUX_MAX_CLAIM_LEN
    && if IsReference(doc.value) then e.value == doc.value
       else PskKey(e.value) &&
            exists a, b :: AllAre(a, IsPskSpace) && AllAre(b, IsPskSpace) && doc.value == a + e.value + b
  }

  lemma KeyIs(doc: Entry, e: Entry)
    ensures KeySays(doc, e) <==> PskEntryOk(doc) && e == CheckPskEntry(doc)
  {
    hide Trim, AllAre, PskKey;
    if !IsReference(doc.value) {
      var a, b := TrimParts(doc.value, IsPskSpace);
      if KeySays(doc, e) {
        var c, d :| AllAre(c, IsPskSpace) && AllAre(d, IsPskSpace) && doc.value == c + e.value + d;
        HexHasNoSpace(e.value);
        TrimOf(c, e.value, d, IsPskSpace);
      }
    }
  }

  lemma HexHasNoSpace(s: string)
    requires PskKey(s)
    ensures IsTrimmed(s, IsPskSpace)
  {
  }

  ghost predicate AllKeysSay(docs: seq<Entry>, es: seq<Entry>) {
    |es| == |docs| && forall i :: 0 <= i < |es| ==> KeySays(docs[i], es[i])
  }

  lemma AllKeysAre(docs: seq<Entry>, es: seq<Entry>)
    ensures AllKeysSay(docs, es) <==> PskOk(docs) && es == CheckPsk(docs)
  {
    hide KeySays, PskEntryOk, CheckPskEntry;
    if |es| == |docs| {
      forall i | 0 <= i < |es|
        ensures KeySays(docs[i], es[i]) <==> PskEntryOk(docs[i]) && es[i] == CheckPskEntry(docs[i])
      {
        KeyIs(docs[i], es[i]);
      }
    }
    if AllKeysSay(docs, es) {
      assert forall i :: 0 <= i < |es| ==> KeySays(docs[i], es[i]);
      assert forall i :: 0 <= i < |docs| ==> PskEntryOk(docs[i]);
    }
  }

  /** Keys, certificates, or neither; a server name only without keys. */
  ghost predicate ModeSays(t: JsonTls, verify: bool, docs: seq<Entry>, x: Tls) {
    if docs != [] then
      && AllKeysSay(docs, x.psk) && x.sni.None?
      && t.cert.None? && t.key.None? && t.authcerts == [] && !verify
    else
      && x.psk == [] && x.sni == t.sni
      && ((t.cert.Some? && t.key.Some? && t.authcerts != []) ||
          (t.cert.None? && t.key.None? && t.authcerts == [] && !verify))
  }

  ghost predicate TlsSays(t: JsonTls, verify: bool, x: Tls) {
    && NoNul(t.cert) && NoNul(t.key) && NoNul(t.ciphersuites) && NoNul(t.sni) && NoNul(t.alpn) && NoNuls(t.authcerts)
    && x.cert == t.cert && x.key == t.key && x.ciphersuites == t.ciphersuites && x.alpn == t.alpn
    && x.authcerts == t.authcerts
    && x.socketOffload == t.socketOffload && (x.kernelOffload <==> t.kernelOffload && t.socketOffload)
    && exists docs :: KeysSay(t.psk, docs) && ModeSays(t, verify, docs, x)
  }

  lemma ModeIs(t: JsonTls, verify: bool, docs: seq<Entry>, x: Tls)
    requires TlsLoads(t) && LoadPsk(t.psk) == Some(docs)
    requires x.cert == t.cert && x.key == t.key && x.ciphersuites == t.ciphersuites && x.alpn == t.alpn
    requires x.authcerts == t.authcerts
    requires x.socketOffload == t.socketOffload && (x.kernelOffload <==> t.kernelOffload && t.socketOffload)
    ensures ModeSays(t, verify, docs, x) <==> TlsOk(LoadTls(t), verify) && x == CheckTls(LoadTls(t))
  {
    hide AllKeysSay, PskOk, CheckPsk, NoNuls, LoadPsk;
    AllKeysAre(docs, x.psk);
  }

  lemma TlsIs(t: JsonTls, verify: bool, x: Tls)
    ensures TlsSays(t, verify, x) <==> TlsLoads(t) && TlsOk(LoadTls(t), verify) && x == CheckTls(LoadTls(t))
  {
    hide ModeSays, KeysSay, LoadPsk, PskOk, CheckPsk, NoNuls;
    if TlsSays(t, verify, x) {
      var docs :| KeysSay(t.psk, docs) && ModeSays(t, verify, docs, x);
      KeysAre(t.psk, docs);
      ModeIs(t, verify, docs, x);
    }
    if TlsLoads(t) && TlsOk(LoadTls(t), verify) && x == CheckTls(LoadTls(t)) {
      var docs := LoadPsk(t.psk).value;
      KeysAre(t.psk, docs);
      ModeIs(t, verify, docs, x);
    }
  }

  // ---- Identity -----------------------------------------------------------------------------------

  ghost predicate PeersSay(f: Fragment, es: seq<Entry>) {
    match f
    case Absent => es == []
    case Object(pairs) => ListenSays(pairs, es)
    case _ => false
  }

  ghost predicate IdentitySays(d: JsonIdentity, x: Identity) {
    && NoNul(d.claim) && NoNuls(d.muxConnect)
    && x.claim == d.claim && x.verify == d.verify && x.muxConnect == d.muxConnect
    && PeersSay(d.listen, x.peers)
    && (forall i :: 0 <= i < |x.peers| ==>
          |x.peers[i].id| <= MUX_MAX_CLAIM_LEN && |x.peers[i].value| <= ADDR_MAX_STRLEN)
    && (x.muxConnect != [] || x.peers != [] ==> x.claim.Some?)
  }

  lemma IdentityIs(d: JsonIdentity, x: Identity)
    ensures IdentitySays(d, x) <==> IdentityLoads(d) && IdentityOk(LoadIdentity(d)) && x == LoadIdentity(d)
  {
    hide ListenSays, ListenOf, NoNuls;
    if d.listen.Object? { ListenIs(d.listen.pairs, x.peers); }
  }

  // ---- The document -------------------------------------------------------------------------------

  /** The document is accepted, and this is the configuration it describes. */
  ghost predicate Says(j: JsonConf, typeOk: string -> bool, c: Conf) {
    && NoNul(j.mime) && (j.mime.Some? ==> typeOk(j.mime.value)) && c.mime == j.mime
    && RootLoads(j.root) && c.root == j.root
    && (j.root.muxListen.Some? || j.root.muxConnect.Some? || j.identity.muxConnect != [])
    && Nearest(j.loglevel, 0, LOG_LEVEL_VERYVERBOSE, c.loglevel) && CappedSays(j.maxSessions, c.maxSessions)
    && ThrottleSays(j.maxStartups, c.startups)
    && TlsSays(j.tls, j.identity.verify, c.tls)
    && MuxSays(j.mux, c.mux) && (c.mux.memHi > 0 ==> c.mux.memLo <= c.mux.memHi)
    && SocketSays(j.mux.tcp, c.muxTcp) && SocketSays(j.tcp, c.tcp)
    && IdentitySays(j.identity, c.identity)
  }

  lemma MarksOrdered(m: JsonMux)
    requires MuxConstraints(m)
    ensures m.maxFrameSize >= MUX_FRAME_HEADER_SIZE
    ensures var l := LoadMux(m); var x := NormalizeMux(l);
            (l.memHi > 0 ==> l.memLo <= l.memHi) <==> (x.memHi > 0 ==> x.memLo <= x.memHi)
  {
  }

  lemma LevelIs(doc: nat, v: nat)
    ensures Nearest(doc, 0, LOG_LEVEL_VERYVERBOSE, v) <==> v == Clamp(Min(doc, INT_MAX), 0, LOG_LEVEL_VERYVERBOSE)
  {
    hide Nearest;
    NearestIs(doc, 0, LOG_LEVEL_VERYVERBOSE, v);
  }

  /** Parsing a document gives a configuration exactly when the document describes it. */
  lemma ParseIs(j: JsonConf, typeOk: string -> bool, c: Conf)
    requires Constraints(j)
    ensures Parse(j, typeOk) == Some(c) <==> Says(j, typeOk, c)
  {
    hide MuxConstraints, LoadMux, NormalizeMux, LoadTls, TlsLoads, CheckTls, TlsOk, LoadIdentity, IdentityLoads,
      IdentityOk, RootLoads, LoadStartups, StartupsOk, LoadSocket, MuxSays, TlsSays, IdentitySays, SocketSays,
      ThrottleSays, Nearest, CappedSays, Clamp, Min, RootConstraints, IdentityConstraints, SocketConstraints;
    MarksOrdered(j.mux);
    LevelIs(j.loglevel, c.loglevel);
    CappedIs(j.maxSessions, c.maxSessions);
    ThrottleIs(j.maxStartups, c.startups);
    TlsIs(j.tls, j.identity.verify, c.tls);
    MuxIs(j.mux, c.mux);
    SocketIs(j.mux.tcp, c.muxTcp);
    SocketIs(j.tcp, c.tcp);
    IdentityIs(j.identity, c.identity);
    LoadKeeps(j.identity);
  }

  lemma LoadKeeps(d: JsonIdentity)
    ensures IdentityLoads(d) ==> LoadIdentity(d).verify == d.verify && LoadIdentity(d).muxConnect == d.muxConnect
  {
    hide ListenOf;
  }
}

/** Which configurations are accepted at all, and that dumping one and parsing
    the dump gives the same configuration back. */
module ConfigRoundTrip {
  import opened Basics
  import opened ConfigMaps
  import opened ConfigSpec

  // ---- The accepted configurations, field by field --------------------------------------

  predicate SocketCanonical(t: SocketOpts) {
    t.sndbuf <= INT_MAX && t.rcvbuf <= INT_MAX && t.notsentLowat <= INT_MAX && 1 <= t.backlog <= 4096
  }

  predicate TimeoutCanonical(v: nat) { v == 0 || 10 <= v <= 86400 }

  predicate WindowCanonical(frames: nat) { frames == 0 || 4 <= frames <= 65535 }

  /** The inactivity deadline is max(1.1 * keepalive, keepalive + 90 s). */
  predicate DeadlineCanonical(keepalive: nat, timeout: nat) {
    if keepalive == 0 then timeout == 0
    else if keepalive >= 900 then timeout == keepalive + keepalive / 10
    else timeout == keepalive + 90
  }

  predicate MuxCanonical(m: Mux) {
    && m.maxHalfopen <= 4096 && m.maxStreams <= INT_MAX
    && TimeoutCanonical(m.connectTimeout) && TimeoutCanonical(m.keepalive) && TimeoutCanonical(m.sendTimeout)
    && TimeoutCanonical(m.idleTimeout) && TimeoutCanonical(m.resumeTimeout)
    && DeadlineCanonical(m.keepalive, m.timeout)
    && WindowCanonical(m.sessionWindow) && WindowCanonical(m.streamWindow)
    && MUX_MIN_FRAME_PAYLOAD <= m.maxFramePayload <= MUX_MAX_PAYLOAD_SIZE
    && m.readahead <= 16777216
    && m.memHi <= INT_MAX && m.memLo <= INT_MAX
    && (m.memHi > 0 ==> m.memLo <= m.memHi)
    && (m.memHi > 1 ==> m.memLo > 0)
    && 1 <= m.lossyIdle <= 86400 && 1 <= m.lossyQueue <= 65535
  }

  predicate StartupsCanonical(s: Startups) {
    s.start <= INT_MAX && s.rate <= 100 && s.full <= INT_MAX && (s.start > 0 && s.full > 0 ==> s.start < s.full)
  }

  /** An inline key is bare hex; a reference is kept as it is. */
  predicate PskCanonical(e: Entry) {
    |e.id| <= MUX_MAX_CLAIM_LEN && (IsReference(e.value) || PskKey(e.value))
  }

  predicate TlsCanonical(t: Tls, verify: bool) {
    && NoNul(t.cert) && NoNul(t.key) && NoNul(t.ciphersuites) && NoNul(t.sni) && NoNul(t.alpn)
    && NoNuls(t.authcerts)
    && (t.kernelOffload ==> t.socketOffload)
    && EntriesOk(t.psk) && (forall i :: 0 <= i < |t.psk| ==> PskCanonical(t.psk[i]))
    && (t.psk != [] <==> t.sni.None?)
    && (t.psk != [] ==> t.cert.None? && t.key.None? && t.authcerts == [] && !verify)
    && (t.psk == [] ==> (t.cert.Some? <==> t.key.Some?) && (t.cert.Some? <==> t.authcerts != []))
    && (t.psk == [] && verify ==> t.cert.Some?)
  }

  predicate IdentityCanonical(d: Identity) {
    && NoNul(d.claim) && AtMost(d.claim, MUX_MAX_CLAIM_LEN)
    && NoNuls(d.muxConnect) && (forall i :: 0 <= i < |d.muxConnect| ==> |d.muxConnect[i]| <= ADDR_MAX_STRLEN)
    && EntriesOk(d.peers) && PeersOk(d.peers)
    && (d.muxConnect != [] || d.peers != [] ==> d.claim.Some?)
  }

  predicate Canonical(c: Conf) {
    && RootConstraints(c.root) && RootLoads(c.root)
    && c.loglevel <= LOG_LEVEL_VERYVERBOSE && c.maxSessions <= INT_MAX
    && StartupsCanonical(c.startups)
    && TlsCanonical(c.tls, c.identity.verify)
    && MuxCanonical(c.mux) && SocketCanonical(c.muxTcp) && SocketCanonical(c.tcp)
    && IdentityCanonical(c.identity)
    && HasTransport(c)
  }

  ghost predicate MimeOk(mime: Option<string>, typeOk: string -> bool) {
    NoNul(mime) && (mime.Some? ==> typeOk(mime.value))
  }

  // ---- The mux section --------------------------------------------------------------------

  lemma MuxLoads(m: JsonMux)
    requires MuxConstraints(m)
    requires var l := LoadMux(m); l.memHi > 0 ==> l.memLo <= l.memHi
    ensures MuxCanonical(NormalizeMux(LoadMux(m)))
  {
  }

  /** 4 to 65535 frames survive the trip through bytes, as does 0. */
  lemma WindowRoundTrip(frames: nat)
    requires WindowCanonical(frames)
    ensures Unsigned(frames * MUX_WINDOW_UNIT) == frames * MUX_WINDOW_UNIT <= 1073725440
    ensures WindowFrames(frames * MUX_WINDOW_UNIT) == frames
  {
    assert (frames * 16384) / 16384 == frames;
  }

  lemma MuxRoundTrip(m: Mux, tcp: SocketOpts)
    requires MuxCanonical(m) && SocketCanonical(tcp)
    ensures MuxConstraints(DumpMux(m, tcp))
    ensures NormalizeMux(LoadMux(DumpMux(m, tcp))) == m
    ensures var l := LoadMux(DumpMux(m, tcp)); l.memHi > 0 ==> l.memLo <= l.memHi
  {
    hide Unsigned, WindowFrames;
    WindowRoundTrip(m.sessionWindow);
    WindowRoundTrip(m.streamWindow);
    assert Unsigned(m.maxFramePayload + MUX_FRAME_HEADER_SIZE) == m.maxFramePayload + MUX_FRAME_HEADER_SIZE by {
      SmallIsUnsigned(m.maxFramePayload + MUX_FRAME_HEADER_SIZE);
    }
  }

  lemma SmallIsUnsigned(x: nat)
    requires x < UINT_RANGE
    ensures Unsigned(x) == x
  {
  }

  // ---- Keys -------------------------------------------------------------------------------

  lemma HexIsTrimmed(s: string)
    requires PskKey(s)
    ensures PskTrim(s) == s
  {
  }

  lemma TrimKeepsNoNul(s: string)
    requires !HasNul(s)
    ensures !HasNul(PskTrim(s))
  {
    hide Trim;
    TrimKeeps(s, IsPskSpace);
    var t := PskTrim(s);
    forall i | 0 <= i < |t| ensures t[i] != '\0' {
      assert t[i] in s;
    }
  }

  lemma PskChecked(es: seq<Entry>)
    requires EntriesOk(es) && PskOk(es)
    ensures EntriesOk(CheckPsk(es)) && forall i :: 0 <= i < |es| ==> PskCanonical(CheckPsk(es)[i])
  {
    hide PskTrim, PskKey;
    forall i | 0 <= i < |es| ensures !HasNul(CheckPsk(es)[i].value) && PskCanonical(CheckPsk(es)[i]) {
      TrimKeepsNoNul(es[i].value);
      assert PskEntryOk(es[i]);
    }
  }

  lemma PskFixed(es: seq<Entry>)
    requires forall i :: 0 <= i < |es| ==> PskCanonical(es[i])
    ensures PskOk(es) && CheckPsk(es) == es
  {
    hide PskTrim, PskKey;
    forall i | 0 <= i < |es| ensures PskEntryOk(es[i]) && CheckPskEntry(es[i]) == es[i] {
      assert PskCanonical(es[i]);
      if !IsReference(es[i].value) { HexIsTrimmed(es[i].value); }
    }
  }

  lemma TlsLoadsCanonical(t: JsonTls, verify: bool)
    requires TlsLoads(t) && t.sni.Some? && TlsOk(LoadTls(t), verify)
    ensures TlsCanonical(CheckTls(LoadTls(t)), verify)
  {
    hide EntriesOk, PskOk, PskCanonical;
    var psk := LoadPsk(t.psk).value;
    if t.psk.Object? { PskIsDocumentOrder(t.psk.pairs, psk); } else { PskRoundTripEmpty(); }
    if psk != [] { PskChecked(psk); }
  }

  lemma PskRoundTripEmpty()
    ensures EntriesOk([])
  {
  }

  lemma TlsRoundTrip(t: Tls, verify: bool)
    requires TlsCanonical(t, verify)
    ensures var j := DumpTls(t);
            var k := if j.sni.None? then j.(sni := Some(DEFAULT_SNI)) else j;
            TlsLoads(k) && TlsOk(LoadTls(k), verify) && CheckTls(LoadTls(k)) == t
  {
    hide EntriesOk, PskOk, PskCanonical;
    PskFixed(t.psk);
    PskRoundTrip(t.psk);
    assert !HasNul(DEFAULT_SNI);
  }

  // ---- The rest ---------------------------------------------------------------------------

  lemma StartupsRoundTrips(s: Startups)
    requires StartupsCanonical(s)
    ensures LoadStartups(DumpStartups(s)) == Some(s)
  {
    hide ParseStartups, PrintStartups;
    StartupsRoundTrip(s);
  }

  lemma IdentityLoadsCanonical(d: JsonIdentity)
    requires IdentityConstraints(d) && IdentityLoads(d) && IdentityOk(LoadIdentity(d))
    ensures IdentityCanonical(LoadIdentity(d))
  {
    if d.listen.Object? { ListenIsLastWins(d.listen.pairs, LoadListen(d.listen).value); }
  }

  lemma IdentityRoundTrip(d: Identity)
    requires IdentityCanonical(d)
    ensures IdentityConstraints(DumpIdentity(d)) && IdentityLoads(DumpIdentity(d))
    ensures LoadIdentity(DumpIdentity(d)) == d && IdentityOk(d)
  {
    hide EntriesOk;
    ListenRoundTrip(d.peers);
  }

  lemma SocketRoundTrip(t: SocketOpts)
    requires SocketCanonical(t)
    ensures SocketConstraints(t) && LoadSocket(t) == t
  {
  }

  lemma StartupsParsed(s: string)
    requires ParseStartups(s).Some?
    ensures var t := ParseStartups(s).value; t.start <= INT_MAX && t.rate <= INT_MAX && t.full <= INT_MAX
  {
    hide ParseField;
  }

  // ---- The theorems -----------------------------------------------------------------------

  /** Whatever is accepted is canonical. */
  lemma AcceptedIsCanonical(j: JsonConf, typeOk: string -> bool, c: Conf)
    requires Unmarshalled(j) && Parse(j, typeOk) == Some(c)
    ensures Canonical(c) && MimeOk(c.mime, typeOk)
  {
    hide MuxConstraints, LoadMux, NormalizeMux, MuxCanonical, LoadTls, TlsLoads, CheckTls, TlsOk, TlsCanonical,
      LoadIdentity, IdentityLoads, IdentityConstraints, IdentityOk, IdentityCanonical, RootConstraints, RootLoads,
      ParseStartups;
    MuxShape(j.mux);
    MuxLoads(j.mux);
    IdentityShape(j.identity);
    TlsLoadsCanonical(j.tls, j.identity.verify);
    IdentityLoadsCanonical(j.identity);
    if j.maxStartups.Some? { StartupsParsed(j.maxStartups.value); }
  }

  lemma MuxShape(m: JsonMux)
    requires MuxConstraints(m)
    ensures SocketConstraints(m.tcp) && m.maxFrameSize >= MUX_FRAME_HEADER_SIZE
  {
  }

  lemma DumpShape(m: Mux, tcp: SocketOpts)
    ensures DumpMux(m, tcp).tcp == tcp
  {
  }

  lemma IdentityShape(d: JsonIdentity)
    requires IdentityLoads(d)
    ensures LoadIdentity(d).verify == d.verify
  {
  }

  /** Every canonical configuration is accepted: its dump, with the document type
      it was given, meets every schema constraint and parses to it. */
  lemma CanonicalIsAccepted(c: Conf, typeOk: string -> bool)
    requires Canonical(c) && MimeOk(c.mime, typeOk)
    ensures Constraints(Dump(c)) && Unmarshalled(Reparsed(Dump(c)))
    ensures Parse(Reparsed(Dump(c)).(mime := c.mime), typeOk) == Some(c)
  {
    hide MuxConstraints, LoadMux, NormalizeMux, MuxCanonical, DumpMux, LoadTls, TlsLoads, CheckTls, TlsOk,
      TlsCanonical, LoadIdentity, IdentityLoads, IdentityConstraints, IdentityOk, IdentityCanonical,
      RootConstraints, RootLoads, LoadStartups, DumpStartups, CONF_TYPE;
    MuxRoundTrip(c.mux, c.muxTcp);
    DumpShape(c.mux, c.muxTcp);
    MuxShape(DumpMux(c.mux, c.muxTcp));
    TlsRoundTrip(c.tls, c.identity.verify);
    StartupsRoundTrips(c.startups);
    IdentityRoundTrip(c.identity);
    SocketRoundTrip(c.muxTcp);
    SocketRoundTrip(c.tcp);
  }

  /** The configurations the program can run with are exactly the canonical ones. */
  lemma AcceptedIffCanonical(c: Conf, typeOk: string -> bool)
    ensures (exists j :: Unmarshalled(j) && Parse(j, typeOk) == Some(c)) <==>
            Canonical(c) && MimeOk(c.mime, typeOk)
  {
    hide Canonical, MimeOk, Constraints, Dump, Parse;
    if Canonical(c) && MimeOk(c.mime, typeOk) {
      CanonicalIsAccepted(c, typeOk);
      var j := Reparsed(Dump(c)).(mime := c.mime);
      MimeIsFree(Reparsed(Dump(c)), c.mime);
      assert Unmarshalled(j) && Parse(j, typeOk) == Some(c);
    }
    if j :| Unmarshalled(j) && Parse(j, typeOk) == Some(c) {
      AcceptedIsCanonical(j, typeOk, c);
    }
  }

  lemma MimeIsFree(j: JsonConf, mime: Option<string>)
    requires Constraints(j)
    ensures Constraints(j.(mime := mime))
  {
    hide RootConstraints, MuxConstraints, SocketConstraints, IdentityConstraints;
  }

  lemma TypeHasNoNul()
    ensures !HasNul(CONF_TYPE())
  {
    assert '\0' !in "application/" && '\0' !in "x-multiplexd-" && '\0' !in "config" && '\0' !in "; version=";
  }

  /** Dumping an accepted configuration and parsing the dump changes nothing but
      the spelling of the document type. */
  lemma RoundTrip(j: JsonConf, typeOk: string -> bool, c: Conf)
    requires Unmarshalled(j) && Parse(j, typeOk) == Some(c) && typeOk(CONF_TYPE())
    ensures Constraints(Dump(c)) && Unmarshalled(Reparsed(Dump(c)))
    ensures Parse(Reparsed(Dump(c)), typeOk) == Some(c.(mime := Some(CONF_TYPE())))
  {
    hide RootConstraints, MuxCanonical, TlsCanonical, IdentityCanonical, SocketCanonical, StartupsCanonical,
      Constraints, Parse, CONF_TYPE, DumpMux, DumpTls, DumpIdentity, DumpStartups;
    AcceptedIsCanonical(j, typeOk, c);
    TypeHasNoNul();
    var d := c.(mime := Some(CONF_TYPE()));
    CanonicalIsAccepted(d, typeOk);
    assert Dump(d) == Dump(c);
    assert Reparsed(Dump(c)).(mime := d.mime) == Reparsed(Dump(c));
  }
}

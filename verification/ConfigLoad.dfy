/** `struct config` as the loader fills it in and the checker normalises it. */
module ConfigLoad {
  import opened Basics
  import opened ConfigMaps
  import opened ConfigSpec

  /** The two scans of psk_trim(). */
  method TrimBounds(buf: array<char>, n: nat) returns (start: nat, end: nat)
    requires n <= buf.Length
    ensures start <= end <= n && buf[start..end] == PskTrim(buf[..n])
  {
    hide Trim;
    start := 0;
    while start < n && IsPskSpace(buf[start])
      invariant start <= n && forall i :: 0 <= i < start ==> IsPskSpace(buf[i])
    {
      start := start + 1;
    }
    end := n;
    while end > start && IsPskSpace(buf[end - 1])
      invariant start <= end <= n && forall i :: end <= i < n ==> IsPskSpace(buf[i])
    {
      end := end - 1;
    }
    ghost var s := buf[..n];
    assert forall i :: 0 <= i < n ==> s[i] == buf[i];
    TrimIs(s, IsPskSpace, start, end);
    assert s[start..end] == buf[start..end];
  }

  /** psk_trim(): the key moves to the start of the buffer, and every octet it
      vacates is erased. */
  method PskTrimInPlace(buf: array<char>, n: nat)
    requires n < buf.Length && buf[n] == '\0'
    modifies buf
    ensures var key := PskTrim(old(buf[..n]));
            && |key| <= n && buf[..|key|] == key
            && (forall i :: |key| <= i <= n ==> buf[i] == '\0')
            && (forall i :: n < i < buf.Length ==> buf[i] == old(buf[i]))
  {
    hide PskTrim;
    var start, end := TrimBounds(buf, n);
    var len := end - start;
    ghost var key := buf[start..end];
    forall i | 0 <= i < len { buf[i] := buf[start + i]; }
    assert forall i :: 0 <= i < len ==> buf[i] == key[i];
    forall i | len <= i <= n { buf[i] := '\0'; }
    assert buf[..len] == key;
  }

  class Config {
    var mime: Option<string>
    var root: Root
    var loglevel: nat
    var maxSessions: nat
    var startups: Startups
    var tls: Tls
    var mux: Mux
    var muxTcp: SocketOpts
    var tcp: SocketOpts
    var identity: Identity

    function View(): Conf
      reads this
    {
      Conf(mime, root, loglevel, maxSessions, startups, tls, mux, muxTcp, tcp, identity)
    }

    constructor ()
      ensures mux.timeout == 0 && startups == Startups(0, 0, 0) && tls.psk == [] && identity.peers == []
    {
      mime, root := None, Root(None, None, None, None, None, None);
      loglevel, maxSessions, startups := 0, 0, Startups(0, 0, 0);
      tls := Tls(None, None, None, None, None, [], false, false, []);
      mux := Mux(false, 0, 0, 0, 0, 0, 0, 0, 0, 0, 0, 0, 0, 0, 0, false, 0, 0);
      muxTcp := SocketOpts(false, false, false, 0, 0, 0, 0);
      tcp := muxTcp;
      identity := Identity(None, false, [], []);
    }

    /** conf_load_mux() */
    method LoadMuxSection(obj: JsonConf)
      requires MuxConstraints(obj.mux) && mux.timeout == 0
      modifies this`mux, this`muxTcp
      ensures mux == LoadMux(obj.mux) && muxTcp == LoadSocket(obj.mux.tcp)
    {
      var m := obj.mux;
      mux := mux.(nodelay := m.nodelay);
      muxTcp := LoadSocketOpts(m.tcp);
      mux := mux.(maxHalfopen := m.maxHalfopen);
      mux := mux.(maxStreams := Min(m.maxStreams, INT_MAX));
      mux := mux.(connectTimeout := m.connectTimeout, keepalive := m.keepalive, sendTimeout := m.sendTimeout);
      mux := mux.(idleTimeout := m.idleTimeout, resumeTimeout := m.resumeTimeout);
      mux := mux.(sessionWindow :=
        if m.sessionWindow == 0 then 0 else Clamp(m.sessionWindow / MUX_WINDOW_UNIT, 4, 65535));
      mux := mux.(streamWindow :=
        if m.streamWindow == 0 then 0 else Clamp(m.streamWindow / MUX_WINDOW_UNIT, 4, 65535));
      var payload := m.maxFrameSize - MUX_FRAME_HEADER_SIZE;
      mux := mux.(maxFramePayload := Clamp(payload, MUX_MIN_FRAME_PAYLOAD, MUX_MAX_PAYLOAD_SIZE));
      mux := mux.(readahead := m.readahead);
      mux := mux.(memHi := Min(m.memHi, INT_MAX), memLo := Min(m.memLo, INT_MAX));
      mux := mux.(lossymux := m.lossymux, lossyIdle := m.lossyIdle, lossyQueue := m.lossyQueue);
    }

    /** conf_load_tls() */
    method LoadTlsSection(t: JsonTls) returns (ok: bool)
      requires tls.psk == []
      modifies this`tls
      ensures ok <==> TlsLoads(t)
      ensures ok ==> tls == LoadTls(t)
    {
      hide PskOf, HasNul;
      ok := NoNul(t.cert) && NoNul(t.key) && NoNul(t.ciphersuites) && NoNul(t.sni) && NoNul(t.alpn)
        && NoNuls(t.authcerts);
      if !ok { return; }
      tls := tls.(cert := t.cert, key := t.key, ciphersuites := t.ciphersuites, sni := t.sni, alpn := t.alpn);
      tls := tls.(authcerts := t.authcerts);
      tls := tls.(socketOffload := t.socketOffload);
      tls := tls.(kernelOffload := tls.socketOffload && t.kernelOffload);
      if t.psk == Absent { return; }
      if !t.psk.Object? { return false; }
      var es := WalkPsk(t.psk.pairs);
      if es.None? { return false; }
      tls := tls.(psk := es.value);
    }

    /** conf_load_identity() */
    method LoadIdentitySection(d: JsonIdentity) returns (ok: bool)
      requires identity.peers == []
      modifies this`identity
      ensures ok <==> IdentityLoads(d)
      ensures ok ==> identity == LoadIdentity(d)
    {
      hide ListenOf, HasNul;
      if !NoNul(d.claim) { return false; }
      identity := identity.(claim := d.claim, verify := d.verify);
      if !NoNuls(d.muxConnect) { return false; }
      identity := identity.(muxConnect := d.muxConnect);
      if d.listen == Absent { return true; }
      if !d.listen.Object? { return false; }
      var es := WalkListen(d.listen.pairs);
      if es.None? { return false; }
      identity := identity.(peers := es.value);
      ok := true;
    }

    /** conf_load() */
    method Load(obj: JsonConf) returns (ok: bool)
      requires Constraints(obj)
      requires mux.timeout == 0 && startups == Startups(0, 0, 0) && tls.psk == [] && identity.peers == []
      modifies this
      ensures ok <==> Loads(obj)
      ensures ok ==> View() == ConfigSpec.Load(obj)
    {
      hide TlsLoads, LoadTls, IdentityLoads, LoadIdentity, LoadMux, MuxConstraints, ParseStartups,
        RootConstraints, IdentityConstraints, SocketConstraints, RootLoads, HasNul;
      if !NoNul(obj.mime) || !RootLoads(obj.root) { return false; }
      mime, root := obj.mime, obj.root;
      loglevel := Min(obj.loglevel, INT_MAX);
      maxSessions := Min(obj.maxSessions, INT_MAX);
      if obj.maxStartups.Some? {
        var s := ParseStartups(obj.maxStartups.value);
        if s.None? { return false; }
        startups := s.value;
      }
      ok := LoadTlsSection(obj.tls);
      if !ok { return; }
      LoadMuxSection(obj);
      tcp := LoadSocketOpts(obj.tcp);
      ok := LoadIdentitySection(obj.identity);
    }

    /** conf_derive_mux_timeout() and conf_normalize() */
    method Normalize()
      modifies this`mux, this`loglevel
      ensures mux == NormalizeMux(old(mux)) && loglevel == Clamp(old(loglevel), 0, LOG_LEVEL_VERYVERBOSE)
    {
      mux := mux.(keepalive := ClampTimeout(mux.keepalive));
      if mux.keepalive > 0 {
        mux := mux.(timeout := mux.keepalive + Max(mux.keepalive / 10, 90));
      } else {
        mux := mux.(timeout := 0);
      }
      mux := mux.(sendTimeout := ClampTimeout(mux.sendTimeout));
      mux := mux.(connectTimeout := ClampTimeout(mux.connectTimeout));
      mux := mux.(resumeTimeout := ClampTimeout(mux.resumeTimeout));
      mux := mux.(idleTimeout := ClampTimeout(mux.idleTimeout));
      loglevel := Clamp(loglevel, 0, LOG_LEVEL_VERYVERBOSE);
      if mux.memHi > 0 && mux.memLo == 0 {
        mux := mux.(memLo := mux.memHi / 2);
      }
    }

    /** conf_check_psk() */
    method CheckPskEntries() returns (ok: bool)
      modifies this`tls
      ensures ok <==> PskOk(old(tls).psk)
      ensures ok ==> tls == old(tls).(psk := CheckPsk(old(tls).psk))
    {
      hide PskTrim, PskKey;
      ghost var was := tls;
      for i := 0 to |tls.psk|
        invariant tls == was.(psk := tls.psk) && |tls.psk| == |was.psk|
        invariant forall k :: 0 <= k < i ==> PskEntryOk(was.psk[k]) && tls.psk[k] == CheckPskEntry(was.psk[k])
        invariant forall k :: i <= k < |was.psk| ==> tls.psk[k] == was.psk[k]
      {
        var e := tls.psk[i];
        if |e.id| > MUX_MAX_CLAIM_LEN {
          assert !PskEntryOk(was.psk[i]);
          return false;
        }
        if !IsReference(e.value) {
          var hex := PskTrim(e.value);
          tls := tls.(psk := tls.psk[i := e.(value := hex)]);
          if !PskKey(hex) {
            assert !PskEntryOk(was.psk[i]);
            return false;
          }
        }
      }
      assert tls.psk == CheckPsk(was.psk);
      ok := true;
    }

    /** The TLS part of conf_check(). */
    method CheckTlsMode() returns (ok: bool)
      modifies this`tls
      ensures ok <==> TlsOk(old(tls), identity.verify)
      ensures ok ==> tls == CheckTls(old(tls))
    {
      hide PskOk, CheckPsk;
      var hasCert, hasKey, hasAuth := tls.cert.Some?, tls.key.Some?, tls.authcerts != [];
      var hasPsk := tls.psk != [];
      if hasPsk && (hasCert || hasKey || hasAuth) { return false; }
      if hasPsk {
        ok := CheckPskEntries();
        if !ok { return; }
      } else if hasCert && hasKey && hasAuth {
      } else if !hasCert && !hasKey && !hasAuth {
      } else {
        return false;
      }
      if hasPsk { tls := tls.(sni := None); }
      if hasPsk && identity.verify { return false; }
      if identity.verify && !hasCert { return false; }
      ok := true;
    }

    /** The identity part of conf_check(). */
    method CheckIdentity() returns (ok: bool)
      ensures ok <==> IdentityOk(identity)
    {
      for i := 0 to |identity.peers|
        invariant forall k :: 0 <= k < i ==>
                    |identity.peers[k].id| <= MUX_MAX_CLAIM_LEN && |identity.peers[k].value| <= ADDR_MAX_STRLEN
      {
        if |identity.peers[i].id| > MUX_MAX_CLAIM_LEN { return false; }
        if |identity.peers[i].value| > ADDR_MAX_STRLEN { return false; }
      }
      ok := !((|identity.muxConnect| > 0 || |identity.peers| > 0) && identity.claim.None?);
    }

    /** conf_check() */
    method Check(typeOk: string -> bool) returns (ok: bool)
      modifies this
      ensures ok <==> Checks(old(View()), typeOk)
      ensures ok ==> View() == Checked(old(View()))
    {
      hide TlsOk, CheckTls, IdentityOk;
      if mime.Some? && !typeOk(mime.value) { return false; }
      if root.muxListen.None? && root.muxConnect.None? && identity.muxConnect == [] { return false; }
      ok := CheckTlsMode();
      if !ok { return; }
      Normalize();
      if startups.rate > 100 { return false; }
      if startups.start > 0 && startups.full > 0 && startups.start >= startups.full { return false; }
      if mux.memHi > 0 && mux.memLo > 0 && mux.memLo > mux.memHi { return false; }
      ok := CheckIdentity();
    }
  }

  /** The shared socket options of tcp and mux.tcp. */
  method LoadSocketOpts(t: SocketOpts) returns (r: SocketOpts)
    ensures r == LoadSocket(t)
  {
    r := SocketOpts(t.reuseport, t.keepalive, t.nodelay,
                    Min(t.sndbuf, INT_MAX), Min(t.rcvbuf, INT_MAX), Min(t.notsentLowat, INT_MAX), t.backlog);
  }

  /** conf_parse(): a configuration, or null where it is refused. */
  method ConfParse(obj: JsonConf, typeOk: string -> bool) returns (conf: Config?)
    requires Constraints(obj)
    ensures conf != null <==> Parse(obj, typeOk).Some?
    ensures conf != null ==> fresh(conf) && Parse(obj, typeOk) == Some(conf.View())
  {
    hide Constraints, Loads, ConfigSpec.Load, Checks, Checked;
    var c := new Config();
    var ok := c.Load(obj);
    if !ok { return null; }
    ok := c.Check(typeOk);
    if !ok { return null; }
    return c;
  }
}

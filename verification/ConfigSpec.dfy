/** The configuration on values: what the schema admits, what loading and
    checking make of it, and what the dump prints.  TLS is built in. */
module ConfigSpec {
  import opened Basics
  import opened ConfigMaps

  const MUX_WINDOW_UNIT := 16384
  const MUX_FRAME_HEADER_SIZE := 8
  const MUX_MIN_FRAME_PAYLOAD := 1016
  const MUX_MAX_PAYLOAD_SIZE := 65535
  const MUX_MAX_CLAIM_LEN := 63
  const ADDR_MAX_STRLEN := 261
  const TLS_PSK_MIN_LEN := 32
  const TLS_PSK_MAX_LEN := 64
  const LOG_LEVEL_VERYVERBOSE := 8
  const UINTMAX_MAX := 0xFFFF_FFFF_FFFF_FFFF
  const UINT_RANGE := 0x1_0000_0000

  function CONF_TYPE(): string { "application/" + "x-multiplexd-" + "config" + "; version=" + "1" }

  function Min(a: nat, b: nat): nat { if a < b then a else b }
  function Max(a: nat, b: nat): nat { if a < b then b else a }
  function Clamp(x: nat, lo: nat, hi: nat): nat { if x < lo then lo else if x > hi then hi else x }

  /** The (unsigned) cast of a wider value. */
  function Unsigned(x: nat): nat { x % UINT_RANGE }

  // ---- The data ---------------------------------------------------------------------

  /** Socket options, in the JSON struct and in the configuration. */
  datatype SocketOpts = SocketOpts(reuseport: bool, keepalive: bool, nodelay: bool,
                                   sndbuf: nat, rcvbuf: nat, notsentLowat: nat, backlog: nat)

  datatype JsonMux = JsonMux(
    nodelay: bool, tcp: SocketOpts, maxHalfopen: nat, maxStreams: nat,
    connectTimeout: nat, keepalive: nat, sendTimeout: nat, idleTimeout: nat, resumeTimeout: nat,
    sessionWindow: nat, streamWindow: nat, maxFrameSize: nat, readahead: nat,
    memHi: nat, memLo: nat, lossymux: bool, lossyIdle: nat, lossyQueue: nat)

  datatype JsonTls = JsonTls(
    cert: Option<string>, key: Option<string>, ciphersuites: Option<string>,
    sni: Option<string>, alpn: Option<string>, authcerts: seq<string>,
    kernelOffload: bool, socketOffload: bool, psk: Fragment)

  datatype JsonIdentity = JsonIdentity(claim: Option<string>, verify: bool,
                                       muxConnect: seq<string>, listen: Fragment)

  /** The addresses and names at the top of the document. */
  datatype Root = Root(apiListen: Option<string>, muxListen: Option<string>, muxConnect: Option<string>,
                       listen: Option<string>, connect: Option<string>, log: Option<string>)

  datatype JsonConf = JsonConf(mime: Option<string>, root: Root, loglevel: nat, maxSessions: nat,
                               maxStartups: Option<string>, tls: JsonTls, mux: JsonMux, tcp: SocketOpts,
                               identity: JsonIdentity)

  datatype Mux = Mux(
    nodelay: bool, maxHalfopen: nat, maxStreams: nat,
    connectTimeout: nat, keepalive: nat, timeout: nat, sendTimeout: nat, idleTimeout: nat, resumeTimeout: nat,
    sessionWindow: nat, streamWindow: nat, maxFramePayload: nat, readahead: nat,
    memHi: nat, memLo: nat, lossymux: bool, lossyIdle: nat, lossyQueue: nat)

  datatype Tls = Tls(
    cert: Option<string>, key: Option<string>, ciphersuites: Option<string>,
    sni: Option<string>, alpn: Option<string>, authcerts: seq<string>,
    kernelOffload: bool, socketOffload: bool, psk: seq<Entry>)

  datatype Identity = Identity(claim: Option<string>, verify: bool,
                               muxConnect: seq<string>, peers: seq<Entry>)

  datatype Conf = Conf(mime: Option<string>, root: Root, loglevel: nat, maxSessions: nat,
                       startups: Startups, tls: Tls, mux: Mux, muxTcp: SocketOpts, tcp: SocketOpts,
                       identity: Identity)

  // ---- The generated constraint tables ------------------------------------------------

  predicate AtMost(s: Option<string>, n: nat) { s.Some? ==> |s.value| <= n }

  predicate SocketConstraints(t: SocketOpts) {
    t.sndbuf <= UINTMAX_MAX && t.rcvbuf <= UINTMAX_MAX && t.notsentLowat <= UINTMAX_MAX && 1 <= t.backlog <= 4096
  }

  predicate MuxConstraints(m: JsonMux) {
    && SocketConstraints(m.tcp)
    && m.maxHalfopen <= 4096 && m.maxStreams <= UINTMAX_MAX
    && m.connectTimeout <= 86400 && m.keepalive <= 86400 && m.sendTimeout <= 86400
    && m.idleTimeout <= 86400 && m.resumeTimeout <= 86400
    && m.sessionWindow <= 1073725440 && m.streamWindow <= 1073725440
    && 1024 <= m.maxFrameSize <= 65543
    && m.readahead <= 16777216 && m.memHi <= UINTMAX_MAX && m.memLo <= UINTMAX_MAX
    && 1 <= m.lossyIdle <= 86400 && 1 <= m.lossyQueue <= 65535
  }

  predicate LogName(s: string) { s in ["stdout", "stderr", "terminal", "syslog", "discard"] }

  predicate RootConstraints(r: Root) {
    && AtMost(r.apiListen, ADDR_MAX_STRLEN) && AtMost(r.muxListen, ADDR_MAX_STRLEN)
    && AtMost(r.muxConnect, ADDR_MAX_STRLEN) && AtMost(r.listen, ADDR_MAX_STRLEN)
    && AtMost(r.connect, ADDR_MAX_STRLEN)
    && (r.log.Some? ==> LogName(r.log.value))
  }

  predicate IdentityConstraints(d: JsonIdentity) {
    && AtMost(d.claim, MUX_MAX_CLAIM_LEN)
    && forall i :: 0 <= i < |d.muxConnect| ==> |d.muxConnect[i]| <= ADDR_MAX_STRLEN
  }

  /** Every constraint of the generated tables.  tls.authcerts has at least one
      item where it is present at all, and an empty list is not printed. */
  predicate Constraints(j: JsonConf) {
    && RootConstraints(j.root) && MuxConstraints(j.mux) && SocketConstraints(j.tcp)
    && IdentityConstraints(j.identity)
    && j.loglevel <= UINTMAX_MAX && j.maxSessions <= UINTMAX_MAX
  }

  /** What json_unmarshal_conf() can produce: tls.sni has a default. */
  predicate Unmarshalled(j: JsonConf) {
    Constraints(j) && j.tls.sni.Some?
  }

  const DEFAULT_SNI := "example.com"

  /** Printing the struct as JSON text and parsing that text again: a field that
      was not printed takes its default. */
  function Reparsed(j: JsonConf): JsonConf {
    if j.tls.sni.None? then j.(tls := j.tls.(sni := Some(DEFAULT_SNI))) else j
  }

  // ---- conf_load ----------------------------------------------------------------------

  predicate NoNul(s: Option<string>) { s.Some? ==> !HasNul(s.value) }

  predicate NoNuls(ss: seq<string>) { forall i :: 0 <= i < |ss| ==> !HasNul(ss[i]) }

  function WindowFrames(bytes: nat): nat {
    if bytes == 0 then 0 else Clamp(bytes / MUX_WINDOW_UNIT, 4, 65535)
  }

  function LoadSocket(t: SocketOpts): SocketOpts {
    t.(sndbuf := Min(t.sndbuf, INT_MAX), rcvbuf := Min(t.rcvbuf, INT_MAX),
       notsentLowat := Min(t.notsentLowat, INT_MAX))
  }

  function LoadMux(m: JsonMux): Mux
    requires m.maxFrameSize >= MUX_FRAME_HEADER_SIZE
  {
    Mux(m.nodelay, m.maxHalfopen, Min(m.maxStreams, INT_MAX),
        m.connectTimeout, m.keepalive, 0, m.sendTimeout, m.idleTimeout, m.resumeTimeout,
        WindowFrames(m.sessionWindow), WindowFrames(m.streamWindow),
        Clamp(m.maxFrameSize - MUX_FRAME_HEADER_SIZE, MUX_MIN_FRAME_PAYLOAD, MUX_MAX_PAYLOAD_SIZE),
        m.readahead, Min(m.memHi, INT_MAX), Min(m.memLo, INT_MAX),
        m.lossymux, m.lossyIdle, m.lossyQueue)
  }

  function LoadStartups(s: Option<string>): Option<Startups> {
    if s.None? then Some(Startups(0, 0, 0)) else ParseStartups(s.value)
  }

  function LoadPsk(f: Fragment): Option<seq<Entry>> {
    match f
    case Absent => Some([])
    case Object(pairs) => PskOf(pairs)
    case _ => None
  }

  function LoadListen(f: Fragment): Option<seq<Entry>> {
    match f
    case Absent => Some([])
    case Object(pairs) => ListenOf(pairs)
    case _ => None
  }

  predicate RootLoads(r: Root) {
    NoNul(r.apiListen) && NoNul(r.muxListen) && NoNul(r.muxConnect) && NoNul(r.listen) &&
    NoNul(r.connect) && NoNul(r.log)
  }

  predicate TlsLoads(t: JsonTls) {
    && NoNul(t.cert) && NoNul(t.key) && NoNul(t.ciphersuites) && NoNul(t.sni) && NoNul(t.alpn)
    && NoNuls(t.authcerts) && LoadPsk(t.psk).Some?
  }

  function LoadTls(t: JsonTls): Tls
    requires TlsLoads(t)
  {
    Tls(t.cert, t.key, t.ciphersuites, t.sni, t.alpn, t.authcerts,
        t.socketOffload && t.kernelOffload, t.socketOffload, LoadPsk(t.psk).value)
  }

  predicate IdentityLoads(d: JsonIdentity) {
    NoNul(d.claim) && NoNuls(d.muxConnect) && LoadListen(d.listen).Some?
  }

  function LoadIdentity(d: JsonIdentity): Identity
    requires IdentityLoads(d)
  {
    Identity(d.claim, d.verify, d.muxConnect, LoadListen(d.listen).value)
  }

  predicate Loads(j: JsonConf) {
    && NoNul(j.mime) && RootLoads(j.root) && LoadStartups(j.maxStartups).Some?
    && TlsLoads(j.tls) && IdentityLoads(j.identity)
  }

  function Load(j: JsonConf): Conf
    requires Constraints(j) && Loads(j)
  {
    Conf(j.mime, j.root, Min(j.loglevel, INT_MAX), Min(j.maxSessions, INT_MAX),
         LoadStartups(j.maxStartups).value, LoadTls(j.tls), LoadMux(j.mux),
         LoadSocket(j.mux.tcp), LoadSocket(j.tcp), LoadIdentity(j.identity))
  }

  // ---- conf_check ---------------------------------------------------------------------

  function ClampTimeout(v: nat): nat { if v > 0 then Clamp(v, 10, 86400) else 0 }

  function NormalizeMux(m: Mux): Mux {
    var k := ClampTimeout(m.keepalive);
    m.(keepalive := k,
       timeout := if k > 0 then k + Max(k / 10, 90) else 0,
       sendTimeout := ClampTimeout(m.sendTimeout),
       connectTimeout := ClampTimeout(m.connectTimeout),
       resumeTimeout := ClampTimeout(m.resumeTimeout),
       idleTimeout := ClampTimeout(m.idleTimeout),
       memLo := if m.memHi > 0 && m.memLo == 0 then m.memHi / 2 else m.memLo)
  }

  predicate IsPskSpace(c: char) { c == ' ' || c == '\t' || c == '\r' || c == '\n' }

  function PskTrim(s: string): string { Trim(s, IsPskSpace) }

  predicate IsReference(s: string) { s != "" && s[0] == '@' }

  /** conf_check_psk_key() */
  predicate PskKey(s: string) {
    && |s| % 2 == 0 && TLS_PSK_MIN_LEN <= |s| / 2 <= TLS_PSK_MAX_LEN
    && forall i :: 0 <= i < |s| ==> IsHexDigit(s[i])
  }

  function CheckPskEntry(e: Entry): Entry {
    if IsReference(e.value) then e else e.(value := PskTrim(e.value))
  }

  predicate PskEntryOk(e: Entry) {
    |e.id| <= MUX_MAX_CLAIM_LEN && (IsReference(e.value) || PskKey(PskTrim(e.value)))
  }

  predicate PskOk(es: seq<Entry>) { forall i :: 0 <= i < |es| ==> PskEntryOk(es[i]) }

  function CheckPsk(es: seq<Entry>): (r: seq<Entry>)
    ensures |r| == |es| && forall i :: 0 <= i < |es| ==> r[i] == CheckPskEntry(es[i])
  {
    seq(|es|, i requires 0 <= i < |es| => CheckPskEntry(es[i]))
  }

  /** Keys or certificates or neither; verification needs certificates. */
  predicate TlsOk(t: Tls, verify: bool) {
    if t.psk != [] then
      t.cert.None? && t.key.None? && t.authcerts == [] && PskOk(t.psk) && !verify
    else
      && (t.cert.Some? <==> t.key.Some?) && (t.cert.Some? <==> t.authcerts != [])
      && (verify ==> t.cert.Some?)
  }

  function CheckTls(t: Tls): Tls {
    if t.psk != [] then t.(psk := CheckPsk(t.psk), sni := None) else t
  }

  predicate StartupsOk(s: Startups) {
    s.rate <= 100 && (s.start > 0 && s.full > 0 ==> s.start < s.full)
  }

  predicate PeersOk(es: seq<Entry>) {
    forall i :: 0 <= i < |es| ==> |es[i].id| <= MUX_MAX_CLAIM_LEN && |es[i].value| <= ADDR_MAX_STRLEN
  }

  predicate IdentityOk(d: Identity) {
    PeersOk(d.peers) && (d.muxConnect != [] || d.peers != [] ==> d.claim.Some?)
  }

  predicate HasTransport(c: Conf) {
    c.root.muxListen.Some? || c.root.muxConnect.Some? || c.identity.muxConnect != []
  }

  /** conf_check(); `typeOk` is the MIME check of the document type. */
  ghost predicate Checks(c: Conf, typeOk: string -> bool) {
    && (c.mime.Some? ==> typeOk(c.mime.value))
    && HasTransport(c)
    && TlsOk(c.tls, c.identity.verify)
    && StartupsOk(c.startups)
    && (c.mux.memHi > 0 ==> c.mux.memLo <= c.mux.memHi)
    && IdentityOk(c.identity)
  }

  function Checked(c: Conf): Conf {
    c.(tls := CheckTls(c.tls), mux := NormalizeMux(c.mux),
       loglevel := Clamp(c.loglevel, 0, LOG_LEVEL_VERYVERBOSE))
  }

  /** conf_parse(): the configuration, or None where it is refused. */
  ghost function Parse(j: JsonConf, typeOk: string -> bool): Option<Conf>
    requires Constraints(j)
  {
    if Loads(j) && Checks(Load(j), typeOk) then Some(Checked(Load(j))) else None
  }

  // ---- conf_dump ----------------------------------------------------------------------

  function Fragmented(es: seq<Entry>): Fragment {
    if es == [] then Absent else Object(Pairs(es))
  }

  function DumpMux(m: Mux, tcp: SocketOpts): JsonMux {
    JsonMux(m.nodelay, tcp, m.maxHalfopen, m.maxStreams,
            m.connectTimeout, m.keepalive, m.sendTimeout, m.idleTimeout, m.resumeTimeout,
            Unsigned(m.sessionWindow * MUX_WINDOW_UNIT), Unsigned(m.streamWindow * MUX_WINDOW_UNIT),
            Unsigned(m.maxFramePayload + MUX_FRAME_HEADER_SIZE), m.readahead,
            m.memHi, m.memLo, m.lossymux, m.lossyIdle, m.lossyQueue)
  }

  function DumpStartups(s: Startups): Option<string> {
    if s.start > 0 || s.rate > 0 || s.full > 0 then Some(PrintStartups(s)) else None
  }

  function DumpTls(t: Tls): JsonTls {
    JsonTls(t.cert, t.key, t.ciphersuites, t.sni, t.alpn, t.authcerts,
            t.kernelOffload, t.socketOffload, Fragmented(t.psk))
  }

  function DumpIdentity(d: Identity): JsonIdentity {
    JsonIdentity(d.claim, d.verify, d.muxConnect, Fragmented(d.peers))
  }

  function Dump(c: Conf): JsonConf {
    JsonConf(Some(CONF_TYPE()), c.root, c.loglevel, c.maxSessions, DumpStartups(c.startups),
             DumpTls(c.tls), DumpMux(c.mux, c.muxTcp), c.tcp, DumpIdentity(c.identity))
  }
}

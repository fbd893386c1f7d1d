# multiplexd, modelled and verified in Dafny

multiplexd is a stream multiplexer written in C. Around it stand a JSON codec generator and a source
formatter written in Python. This project models the parts of it that are hardest to get right and
proves what they promise.

* **The HTTP control API** (`src/api_server.c`). `Basics`, `HttpFields`, `HttpParse`, `RequestHead`,
  `RequestMeaning`, `RequestVerdict`, `ApiResponse` and `ApiConnection` model one connection of the API
  server: the class `Connection` has the read and write buffers, offsets and flags of the original, and its
  methods are the socket and timer callbacks. A `recv` may deliver any octets in any portions, a `send` may take any prefix, and both may
  fail. What the connection may put on the wire is defined without it, as a sequence of *exchanges* whose
  responses are the texts of their heads and bodies; `ApiResponse` has a client that reads such texts.
* **The window estimator** (`src/mux/estimator.c`, `contrib/csnippets/algo/wndfilter.c`). `WndFilter`,
  `EstimatorSpec`, `EstimatorRuns`, `EstimatorStartup`, `EstimatorSteady`, `EstimatorTrack` and `Estimator`
  model the bandwidth and RTT filters, the PING/PONG probe cycle and the STARTUP/TRACK phases as a state machine over events, and
  the C structs as classes that refine it. Machine-word wrap-around and the 64-bit limits are written out.
* **Generated codecs** (`scripts/gen_schema.py`, `contrib/csnippets/codec/json.c`). `JsonEmit`, `JsonString`
  and `Marshal` model the code the generator emits for marshalling, and `JsonReader`, `MarshalMeaning` and
  `Utf8Meaning` what its output says to a reader of JSON; `IntegerSchema` the two backends for
  integer constraints; `KeyLookup` the key lookups; `CLiteral` the C string literals; `Naming`, `FieldMap`
  and `IdentPlan` the choice of C identifiers. `Sorting` is the stable sort that `FieldMap`, `KeyLookup`
  and the include reorderer share.
* **The configuration** (`src/conf.c`, `src/conf_schema.gen.c`). `ConfigMaps`, `ConfigSpec`,
  `ConfigRoundTrip`, `ConfigMeaning` and `ConfigLoad` model loading, checking, normalising and dumping a
  configuration at the level of `struct json_conf`.
* **Provisioning** (`src/genpsk.c`, `src/gencerts.c`). `FileSystem`, `Provision` and `Certificates` model
  key and certificate generation over a file system in which every operation may fail.
* **The include reorderer** (`scripts/format.py`). `IncludeLines`, `IncludeGrammar`, `IncludeSort`,
  `IncludeOrder`, `Reorder`, `IncludeSpacing`, `CommentMask`, `CommentGrammar` and `DanglingComment` model the
  pass that regroups and sorts the include lines of a source file, and the scan that tells which lines begin inside a comment.

Octets are characters below 256. The network, the clock, the entropy source, the TLS library and the file
system appear as parameters or as nondeterministic choices. `inet_pton` is the parameter `pton`, of which
only the alphabet of an IPv6 text is assumed; the MIME check of a configuration's `type` is the parameter
`typeOk`; the classification of a header into its group is the parameter `classify`.

Some promises hold only under a condition. The model keeps the code as it is and states the condition:

* The docstring of `_make_field_map` says the alphabetically first key of each group of colliding names
  keeps the plain name; the code does not guarantee it. `FieldMap.FirstOfGroupMayMove` gives keys for which
  it fails, and `FieldMap.FirstsKeptIff` says exactly for which identifiers and kinds it holds.
* A `multipleOf` that is no usable integer divisor is dropped by both backends, so a field may accept more
  than its schema. `IntegerSchema.DroppedDivisorWidens` gives such a schema, and
  `IntegerSchema.AcceptsExactly` says exactly which values get through.
* The STARTUP phase of the estimator does not end under every demand. `EstimatorSteady.FloodNeverEnds` and
  `EstimatorSteady.IdleNeverEnds` give runs in which it never does, and `EstimatorSteady.SteadyDemandEndsIff`
  and `EstimatorSteady.SteadyRunEndsIff` say exactly under which steady demands it does.
* A block comment that is open at the end of the include region can swallow an include when the region is
  reordered. `DanglingComment.DanglingIsLost` gives such files, and `CommentMask.MasksSurviveIff` says
  exactly when every line stays on its side of the comments.

## Model

| member | source | states |
|---|---|---|
| ApiConnection.WrittenIsPrefix | src/api_server.c:1381-1482 | in every reachable state the octets written are a prefix of the completed exchanges and one more: for each request at most one whole 100 Continue, then exactly one final response, head text and body |
| ApiConnection.InterimNeverCut | src/api_server.c:1381-1482 | in every reachable state the octets written after the completed exchanges begin with a 1xx status only as a contiguous part of the 100 Continue, which nothing interrupts and which is never written twice |
| ApiConnection.ClientReadsExchanges | src/api_server.c:169-240 | in every reachable state a client that reads status, headers and as many octets as Content-Length says finds exactly the completed exchanges, one final answer each, and is left with the unfinished one |
| ApiResponse.HeadFits | src/api_server.c:169-240 | every response head fits the 1024-octet buffer, so no header line is dropped |
| ApiResponse.FinalReads | src/api_server.c:169-240 | whatever follows it on the wire, a final response is read back with its status, persistence and body |
| ApiResponse.AnswerReads | src/api_server.c:169-240 | the same with a 100 Continue before it, which is told apart from the final response |
| ApiResponse.InterimIsWhole | src/api_server.c:1381-1401 | in any prefix of an exchange the octets of a 1xx response are the 100 Continue, whole or so far, and there is no second one |
| ApiConnection.NothingDiscarded | src/api_server.c:1608-1800 | in every reachable state the octets received are the answered requests followed by the buffer, and every request the connection outlived is exactly one head and the body it announced |
| ApiConnection.AnswersAreDeserved | src/api_server.c:1608-1800 | in every reachable state each answer is the one its request's text deserves: handed to a handler exactly with an accepted head and its body, kept alive exactly as HTTP/1.1 without a close, told to continue only if it asked, and otherwise refused with the status of what was wrong |
| ApiConnection.Serve | src/api_server.c:1381-1845 | a whole run: whichever callbacks of a new connection fire, in whatever order and number, the connection stays in one of its four states and the statements above on the octets written and received hold |
| ApiConnection.Connection.constructor | src/api_server.c:1811-1845 | a new connection is reading its first request, with nothing received, sent or owed |
| ApiConnection.Connection.RecvCb | src/api_server.c:1608-1800 | whatever is read, the connection is left in one of its four states, nothing already received or sent is taken back, no exchange is completed, it is closed only if the peer is lost, and once a body was admitted the only response that can follow is the handler's, never a refusal |
| ApiConnection.Connection.SendCb | src/api_server.c:1403-1464 | whatever part is written, at most the current exchange is completed, after which the connection reads the next request or is closed as its response announced; short of that it is closed only if the peer is lost |
| ApiConnection.Connection.TimeoutCb | src/api_server.c:1802-1809 | a timeout or a shutdown at any point closes the connection with what was written left as it is, so that the statements on every reachable state still hold |
| ApiConnection.Connection.ParseHead | src/api_server.c:1644-1751 | parsing stops with more to read or with the refusal the whole head deserves, and otherwise the head is complete |
| ApiConnection.Connection.TakeField | src/api_server.c:1690-1750 | one header field changes the head, or is refused, as the reading of a whole head says |
| ApiConnection.Connection.HeadHasNul | src/api_server.c:1595-1604 | scanning from where the last scan stopped finds a NUL exactly when the unread head has one |
| ApiConnection.Connection.Receive | src/api_server.c:1622-1642 | the octets just read extend the request and the recorded stream, and parsing resumes at the saved point |
| ApiConnection.Connection.RefuseFull | src/api_server.c:1613-1620 | a full buffer with an incomplete head is answered with a refusal that is justified by its content |
| ApiConnection.Connection.AwaitBody | src/api_server.c:1764-1785 | before waiting for a body the interim response is sent if it is owed, once |
| ApiConnection.Connection.Dispatch | src/api_server.c:1787-1800 | a complete request is answered by one well-formed response that is ready to be sent |
| ApiConnection.Connection.ApiHandle | src/api_server.c:1268-1330 | whatever a handler does, a failure part-way through its body included, what is staged is the whole head text of one well-framed response and exactly its body |
| ApiConnection.Connection.RespondPrologue | src/api_server.c:169-193 | the status line, the date if there is one and the persistence announced, whole, with room left for the rest of the head |
| ApiConnection.Connection.RespondStatus | src/api_server.c:198-223 | a bodiless response drops a half-made body, carries its Allow list if there is one and declares length zero, or no length at all for 204; the head is whole |
| ApiConnection.Connection.RespondBody | src/api_server.c:227-240 | a response with a body has a whole head that names its type and declares exactly its length |
| ApiConnection.Connection.RecvError | src/api_server.c:1484-1489 | a refusal is one complete response that ends the connection |
| ApiConnection.Connection.StartResponse | src/api_server.c:1472-1482 | no response is started while an interim response is half written |
| ApiConnection.Connection.SendContinue | src/api_server.c:1381-1401 | the interim response is written contiguously across any number of partial sends |
| ApiConnection.Connection.ContinueInterim | src/api_server.c:1408-1426 | once the interim response is out reading goes on, and an error closes the connection |
| ApiConnection.Connection.PushResponse | src/api_server.c:1428-1456 | what the socket takes continues the response where it stopped, across the boundary between head and body |
| ApiConnection.Connection.ContinueResponse | src/api_server.c:1428-1464 | a whole response completes its exchange and resets the connection or closes it as announced |
| ApiConnection.Connection.FinishExchange | src/api_server.c:1457-1463 | a completed exchange is recorded with exactly the octets of its request and drops them from the buffer |
| ApiConnection.Connection.Reset | src/api_server.c:119-139 | after a persistent response nothing of the finished request remains and the next one is read from the start |
| RequestVerdict.CompleteIff | src/api_server.c:1644-1751 | a head is accepted exactly when it is a request line of a version HTTP/1.x and field lines, none a Transfer-Encoding, at most one Host, valid and there unless the version is 1.0, at most one well-formed Content-Length, every Expect a 100-continue unless the version is 1.0; and what is kept of it is what these fields say |
| RequestVerdict.RejectIff | src/api_server.c:1644-1751 | it is refused exactly when some line is the first to be wrong, with 400, 417, 501 or 505 as that line deserves, or a NUL stands where a line should end |
| RequestVerdict.MoreIff | src/api_server.c:1644-1751 | more is awaited exactly while no line is wrong and the next one is incomplete |
| RequestVerdict.OneField | src/api_server.c:1684-1750 | one more field is taken exactly when it is in order after those before it, adds what it says, and is refused with the status it deserves |
| RequestVerdict.VersionIs | src/api_server.c:1498-1512 | exactly HTTP/1.x passes, another HTTP/x.y is a 505, and anything else a 400 |
| RequestMeaning.RequestLineIs | contrib/csnippets/net/http.c:134-205 | a request line is read exactly when it is two words without controls and a version, one space between them |
| RequestMeaning.FieldLineIs | contrib/csnippets/net/http.c:231-287 | a field line is read exactly when it is a token, a colon and a value without controls, white space around it dropped |
| RequestHead.StepMore | src/api_server.c:1644-1751 | a line taken or refused is taken or refused alike when more octets have arrived |
| RequestHead.AdvanceMore | src/api_server.c:1644-1751 | a verdict on a head is final, and otherwise parsing from the saved point equals parsing from the start |
| RequestHead.ChunkingIrrelevant | src/api_server.c:1608-1751 | however the octets of a head are cut into reads, the verdict is the one on the whole |
| HttpParse.RequestLineDecided | contrib/csnippets/net/http.c:134-205 | a decided request line stays decided whatever follows |
| HttpParse.RequestLineStuck | contrib/csnippets/net/http.c:134-205 | a NUL before the end of the line keeps the request line undecided whatever follows |
| HttpParse.HeaderLineStable | contrib/csnippets/net/http.c:231-287 | a decided header line stays decided, and one stuck on a NUL stays stuck |
| HttpFields.ConnectionHasClose | src/api_server.c:1337-1360 | true exactly when some comma-separated element of the value, trimmed, is "close" in any case |
| HttpFields.IpLiteralIsValid | src/api_server.c:1522-1549 | true exactly for an IPv6 address or an IPvFuture of section 3.2.2 of RFC 3986 |
| HttpFields.HostIsValid | src/api_server.c:1556-1587 | true exactly for the uri-host with optional port of section 7.2 of RFC 9110 as written out in IsHost, and nothing is read past the terminator |
| HttpFields.ParseContentLength | src/api_server.c:1704-1726 | exactly the values of one or more digits up to the largest unsigned long are accepted, with the number they denote |
| WndFilter.AgeTracks | contrib/csnippets/algo/wndfilter.c:30-65 | ageing the slots keeps them samples of the run in order, and the first of them inside the window |
| WndFilter.UpdateTracks | contrib/csnippets/algo/wndfilter.c:67-111 | an update keeps the three slots dominating samples of the run, and the reported one no older than the window |
| WndFilter.FeedReportsExtremum | contrib/csnippets/algo/wndfilter.c:30-111 | after any run over a monotone clock the filter reports a sample of the run no older than the window that beats everything fed since |
| WndFilter.PeakIsReported | contrib/csnippets/algo/wndfilter.c:30-111 | in either mode the sample that beats every other of a run is the one reported, as long as it is no older than the window |
| WndFilter.UpdateWithin | contrib/csnippets/algo/wndfilter.c:67-111 | the filter never leaves the range of its samples |
| EstimatorSpec.BwSampleInRange | src/mux/estimator.c:246-290 | the product behind a bandwidth sample fits 64 bits and the sample is capped |
| EstimatorSpec.CalcDirOk | src/mux/estimator.c:246-290 | a PONG keeps every bound of one direction |
| EstimatorSpec.CalculateOk | src/mux/estimator.c:292-348 | a PONG keeps every bound of the estimator |
| EstimatorSpec.WindowInRange | src/mux/estimator.c:350-382 | the feedback floor fits 64 bits, and the advertised window is the estimate, raised to the floor and the protocol's minimum and cut at its maximum |
| EstimatorRuns.ReportProbe | src/mux/estimator.c:74-137 | a report sends a PING only with none in flight and no sooner than the minimum interval |
| EstimatorRuns.PingIff | src/mux/estimator.c:89-137 | a report sends a PING exactly when it can be queued, no live probe is out and the interval has passed: the slow one in TRACK, the fast one while a direction is in STARTUP |
| EstimatorRuns.ReportInv | src/mux/estimator.c:89-149 | reporting bytes keeps the invariant of every run |
| EstimatorRuns.PongInv | src/mux/estimator.c:292-348 | a PONG keeps the invariant of every run |
| EstimatorRuns.EveryRun | src/mux/estimator.c:47-348 | over every interleaving of reports, PONGs and suspends: no probe in flight means empty samples, PINGs are spaced, each is answered at most once, and an accepted PONG has counted exactly the bytes reported since its PING, modulo the word size |
| EstimatorRuns.EveryWindow | src/mux/estimator.c:350-382 | over every run both advertised windows stay in the protocol's range and at or above the feedback floor of the current bandwidth, and both bandwidths stay below their cap |
| EstimatorRuns.StalePongNeverAccepted | src/mux/estimator.c:60-72 | once no probe is in flight, no PONG to an earlier PING is ever accepted |
| EstimatorRuns.AfterSuspend | src/mux/estimator.c:66-72 | after a suspend no PONG to a PING sent before it is ever accepted |
| EstimatorRuns.AfterTimeout | src/mux/estimator.c:89-137 | a probe that timed out is dead from the next report on |
| EstimatorStartup.RoundProgress | src/mux/estimator.c:151-187 | a STARTUP round of modest demand and known bandwidth leaves STARTUP or brings its end nearer |
| EstimatorStartup.UpdateRecalls | contrib/csnippets/algo/wndfilter.c:30-111 | whatever samples follow, zero ones included, the bandwidth maximum stays above zero while the largest sample so far is no older than the filter's window |
| EstimatorStartup.CycleProgress | src/mux/estimator.c:246-290 | so does every accepted PONG of modest demand that shows some bandwidth itself or comes while the largest sample so far is no older than the filter's window |
| EstimatorStartup.StartupEnds | src/mux/estimator.c:151-290 | under any such PONGs, idle ones among them, STARTUP ends within a number of them that the current window determines |
| EstimatorStartup.AllInWindow | src/mux/estimator.c:151-290 | all PONGs of modest demand within one window of the filter are such PONGs once the first of them showed some bandwidth |
| EstimatorStartup.RunLeavesStartup | src/mux/estimator.c:47-348 | over every interleaving of reports, PONGs and suspends, either direction leaves STARTUP once that many such PONGs were accepted |
| EstimatorStartup.EveryEpochEnds | src/mux/estimator.c:47-348 | from every reachable state, a direction in STARTUP leaves it once 320 such PONGs were accepted, with what its filter holds as the largest sample so far |
| EstimatorStartup.SeededRounds | src/mux/estimator.c:151-187 | from any seeded window that number is at most 160 |
| EstimatorStartup.ReenteredRounds | src/mux/estimator.c:189-222 | from any window at all, a re-entered STARTUP included, it is at most 320 |
| EstimatorSteady.SteadyDemandEndsIff | src/mux/estimator.c:151-290 | over every sequence of PONGs with non-zero samples and one demand, STARTUP ends if and only if one and a half times the demand fits the larger of the current window and the cap |
| EstimatorSteady.SteadyRunEndsIff | src/mux/estimator.c:47-348 | the same over every run of reports, PONGs and suspends whose accepted PONGs have one demand and are enough for the current window |
| EstimatorSteady.FloodNeverEnds | src/mux/estimator.c:47-348 | a run from a fresh estimator that reports a gigabyte with each PING and has its PONG a second later: for every number of rounds the clock allows, all PONGs are accepted and the estimator is in STARTUP |
| EstimatorSteady.IdleCycle | src/mux/estimator.c:151-290 | a PONG with a zero sample keeps the window, and counts as a stable round exactly when a bandwidth is remembered |
| EstimatorSteady.IdleNeverEnds | src/mux/estimator.c:47-348 | over every run in which no accepted PONG has shown any bandwidth a direction stays in STARTUP |
| EstimatorTrack.BandwidthIs | src/mux/estimator.c:246-272 | the bandwidth sample is the bytes counted over the round trip, rounded down, up to its cap |
| EstimatorTrack.BdpMeasures | src/mux/estimator.c:224-244 | the product of bandwidth and round trip in whole bytes, up to the largest size_t |
| EstimatorTrack.EveryMeasure | src/mux/estimator.c:246-348 | over every run, once a PONG was used, the estimate of either direction is its bandwidth maximum over the round-trip minimum |
| EstimatorTrack.EveryReading | src/mux/estimator.c:246-348 | over every run the bandwidth maximum is the largest sample while that is at most a day old, and the round-trip minimum the shortest while that is at most ten minutes old |
| EstimatorTrack.RunFeeds | src/mux/estimator.c:246-348 | over every run the filters have been fed the accepted PONGs, each once and in order |
| EstimatorTrack.TrackPong | src/mux/estimator.c:189-222 | a PONG takes a direction from TRACK to STARTUP exactly when the measured product exceeds its window, which it keeps; otherwise the window becomes the product and a quarter |
| EstimatorTrack.TrackAdvertises | src/mux/estimator.c:189-222 | a direction that stays in TRACK advertises at least what it measured, up to the cap |
| EstimatorTrack.SteadyTrack | src/mux/estimator.c:189-222 | over every run in which bandwidth maximum and round-trip minimum read the same, a settled direction stays in TRACK with the same estimate |
| EstimatorTrack.TrackIsEarned | src/mux/estimator.c:151-187 | STARTUP is left only after sixteen demands in a row for which the window has half as much headroom again |
| EstimatorTrack.InitialWindow | src/mux/estimator.c:47-58 | a new estimator advertises its seed, within the protocol's range |
| Estimator.DirCtx.StartupPhase | src/mux/estimator.c:151-187 | the in-place STARTUP phase is the one reasoned about |
| Estimator.DirCtx.TrackPhase | src/mux/estimator.c:189-222 | the in-place TRACK phase is the one reasoned about |
| Estimator.DirCtx.Calc | src/mux/estimator.c:246-290 | the in-place computation for one direction is the one reasoned about, and no product leaves the 64-bit range |
| Estimator.DirCtx.Window | src/mux/estimator.c:350-382 | the window is computed without overflow and lies in the protocol's range |
| Estimator.EstimatorCtx.Suspend | src/mux/estimator.c:60-72 | a suspend abandons the probe and both samples |
| Estimator.EstimatorCtx.RunProbeCycle | src/mux/estimator.c:74-137 | the in-place probe cycle is the one reasoned about, for either direction |
| Estimator.EstimatorCtx.OnPong | src/mux/estimator.c:292-348 | the in-place handling of a PONG is the one reasoned about |
| JsonEmit.EmitCh | scripts/gen_schema.py:3159-3169 | one octet is stored if it fits, counted if it does not, and the error sentinel is never left |
| JsonEmit.EmitRaw | scripts/gen_schema.py:3170-3179 | a run of octets is stored as far as it fits and counted in full |
| JsonEmit.EmitF | scripts/gen_schema.py:3194-3204 | formatted output behaves like the octets it consists of |
| JsonEmit.EmitIndent | scripts/gen_schema.py:3180-3192 | the line break and indentation of a level, or nothing in compact form |
| JsonString.CountQuoted | contrib/csnippets/codec/json.c:686-734 | the first pass counts the quoted string exactly, and refuses exactly the strings that are not UTF-8 or whose length is no int |
| Utf8Meaning.Utf8Iff | contrib/csnippets/codec/json.c:686-734 | the strings accepted as UTF-8 are exactly the encodings of code points that are no surrogates |
| JsonString.MarshalString | contrib/csnippets/codec/json.c:686-794 | both passes agree: the result is the quoted length or -1, the buffer holds what fits of the quoted string, and nothing outside it changes |
| MarshalMeaning.StringReads | contrib/csnippets/codec/json.c:736-794 | a reader of section 7 of RFC 8259 gets every quoted string back, whatever follows it |
| Marshal.EmitStr | scripts/gen_schema.py:3090-3111 | a string is emitted quoted, or the error sentinel is returned |
| Marshal.EmitScalar | scripts/gen_schema.py:3090-3143 | every scalar is emitted as its JSON text, or stops the object with the error sentinel |
| Marshal.EmitItems | scripts/gen_schema.py:3285-3520 | array elements are emitted separated by commas, each on its line in indented form |
| Marshal.EmitField | scripts/gen_schema.py:3285-3520 | a field is emitted as its key, separator, value and trailing comma |
| Marshal.TerminatedIsSeparated | scripts/gen_schema.py:3522-3533 | dropping the last trailing comma leaves the fields separated by commas |
| Marshal.CloseObject | scripts/gen_schema.py:3522-3533 | the closing brace overwrites the trailing comma in every buffer size, and the error sentinel survives the decrement |
| Marshal.MarshalImpl | scripts/gen_schema.py:3269-3541 | the generated function counts and stores the reference rendering of the whole tree, nested objects included, and terminates it |
| Marshal.MarshalObject | scripts/gen_schema.py:3543-3560 | for every tree, indent and buffer size the result is the length of the unbounded rendering or -1, and the buffer holds its first octets that fit and a terminator |
| MarshalMeaning.ObjReads | scripts/gen_schema.py:3269-3541 | a reader of RFC 8259 gets every tree back from its rendering, members and elements in order, for every indentation of white space, every depth and whatever follows |
| MarshalMeaning.CompactTight | scripts/gen_schema.py:3180-3204 | compact output adds no white space to keys and values that have none |
| MarshalMeaning.IndentIs | scripts/gen_schema.py:3180-3192 | the indentation of a level is a line break and as many units as the level says |
| KeyLookup.FindDiscriminator | scripts/gen_schema.py:1263-1281 | the scan finds the first position at which all keys differ, exactly when there is one |
| KeyLookup.SwitchIsLinear | scripts/gen_schema.py:1282-1308 | the switch on one octet answers every query as a search through the list does |
| KeyLookup.CompareOrder | scripts/gen_schema.py:1057-1106 | the generated comparison is a strict total order whose equality is equality of keys |
| KeyLookup.TableCorrect | scripts/gen_schema.py:1057-1106 | the emitted table is strictly sorted and holds every key with its index |
| KeyLookup.BsearchLookup | scripts/gen_schema.py:1057-1106 | binary search over the table answers as a search through the list does |
| KeyLookup.LookupBySearch | src/conf_schema.gen.c:17-67 | the table as generated, searched for any query, gives the index of the key or -1 |
| CLiteral.CStringLiteral | scripts/gen_schema.py:1113-1152 | the emitted text spells the octets and the length constant counts them |
| CLiteral.LexPiece | scripts/gen_schema.py:1113-1152 | an escape is read back as its octet whatever follows it |
| CLiteral.LiteralRoundTrip | scripts/gen_schema.py:1113-1152 | a C compiler, trigraphs and line splices included, reads every emitted literal back as exactly the given octets |
| IntegerSchema.TightenExact | scripts/gen_schema.py:2234-2249 | rounding non-integral bounds changes nothing about which integers are in bounds |
| IntegerSchema.KeptExact | scripts/gen_schema.py:2026-2098 | dropping const and enum members that no value can equal changes no verdict |
| IntegerSchema.TableExact | scripts/gen_schema.py:3850-3942 | the descriptor with its run-time check accepts exactly the values within its keywords |
| IntegerSchema.RefusalsAgree | scripts/gen_schema.py:2104-2141 | both backends refuse the same schemas |
| IntegerSchema.BackendsAgree | contrib/csnippets/codec/json.c:1355-1414 | on every schema that is not refused both backends accept the same values |
| IntegerSchema.AcceptsWhatSchemaAdmits | scripts/gen_schema.py:2225-2319 | with a supported divisor or none the values accepted are exactly those the schema admits |
| IntegerSchema.AcceptsExactly | scripts/gen_schema.py:2225-2319 | on every schema the values accepted are those of the schema without an unsupported divisor, and a value gets through wrongly if and only if such a divisor alone rules it out |
| IntegerSchema.DroppedDivisorWidens | scripts/gen_schema.py:2225-2319 | a schema whose divisor is dropped accepts a value the schema rules out |
| IntegerSchema.RefusalJustified | scripts/gen_schema.py:2104-2141 | a schema is refused only when no value of the field's type meets it or its divisor fits no type |
| IntegerSchema.AdmittedFits | scripts/gen_schema.py:725-772 | with both bounds explicit every admitted value fits the inferred C type |
| Naming.NameInjective | scripts/gen_schema.py:396-416 | two numbered candidates never give a helper the same name |
| Naming.SuffixInjective | scripts/gen_schema.py:1429-1450 | different suffixes under one root give different names |
| Naming.BlockedTotal | scripts/gen_schema.py:492-503 | the suffixes of a group block no more candidates than there are names taken |
| Naming.FirstFree | scripts/gen_schema.py:1540-1555 | the suffix search always ends, within a bound given by the names taken, at the first candidate all of whose names are free |
| FieldMap.ToCIdent | scripts/gen_schema.py:142-163 | every JSON key becomes an identifier that starts with a letter and never doubles an underscore |
| FieldMap.IdentKeeps | scripts/gen_schema.py:142-163 | a key keeps its letters and digits, behind an x where it does not start with a letter, and a key that is such an identifier is its own name |
| FieldMap.RawIsFree | scripts/gen_schema.py:468-476 | the identifier a key starts from is no reserved word, and is changed only to avoid one |
| FieldMap.JoinIsIdent | scripts/gen_schema.py:396-416 | joining keeps both rules |
| FieldMap.VisitedSpec | scripts/gen_schema.py:468-493 | the keys are visited each once, in the order of their identifiers and then of the keys, with the escaped identifier of each |
| FieldMap.AssignNames | scripts/gen_schema.py:491-505 | each key visited gets the first numbered name that, with its companion member, is still free |
| FieldMap.MakeFieldMap | scripts/gen_schema.py:446-505 | from the keys themselves: the map has exactly the keys, and gives each the name so chosen for it in the sorted order |
| FieldMap.MembersDistinct | scripts/gen_schema.py:446-505 | two fields share no member name: not the fields, not their companions, not a field and another's companion |
| FieldMap.MemberCount | scripts/gen_schema.py:419-443 | a field's own companion never has the field's name |
| FieldMap.MembersAreIdents | scripts/gen_schema.py:446-505 | every member name, companions included, is an identifier that keeps both rules |
| FieldMap.FirstsKeptIff | scripts/gen_schema.py:446-505 | the first key of every group keeps the plain name if and only if no group's plain name or its companion is spelled like a member planned before it; then every key has its planned name |
| FieldMap.FirstOfGroupMayMove | scripts/gen_schema.py:446-505 | for the keys a-b, a_b and a_b_2 the only key of its group loses its plain name to the numbered name of another |
| IdentPlan.Plan.Claim | scripts/gen_schema.py:1522-1538 | a convention name is granted exactly when it is neither foreign nor a macro nor another owner's, and the plan stays free of clashes |
| IdentPlan.Plan.AddMember | scripts/gen_schema.py:1588-1600 | a struct member is refused exactly when it is the header guard |
| IdentPlan.Plan.Assign | scripts/gen_schema.py:1540-1555 | a helper group gets the first root all of whose names are free, all of them are recorded, and the plan stays free of clashes |
| IdentPlan.ClaimAll | scripts/gen_schema.py:1577-1615 | the claims of all convention names succeed exactly when the names are consistent, and then the plan records exactly them |
| IdentPlan.AssignAll | scripts/gen_schema.py:1617-1636 | every helper group gets a root, and the plan grows by exactly the names under those roots |
| IdentPlan.PlanIdentifiers | scripts/gen_schema.py:1564-1636 | planning succeeds exactly on consistent convention names, and then no two identifiers of the output clash, none is foreign or the guard, and no macro is a member |
| ConfigMaps.WalkListen | src/conf.c:341-381 | the loop over identity.listen computes the loaded peers, or fails where a pair is not a pair of strings without NUL |
| ConfigMaps.ListenIsLastWins | src/conf.c:131-167 | each peer is listed once with the value its key was given last, and no key is lost except comments |
| ConfigMaps.ListenIs | src/conf.c:131-167 | the peers loaded are exactly the keys that are no comments, in the order they first stand, each with the value given last, and a map is refused exactly for a value that is no string or a NUL |
| ConfigMaps.WalkPsk | src/conf.c:341-381 | the loop over tls.psk computes the loaded keys, or fails |
| ConfigMaps.PskIsDocumentOrder | src/conf.c:174-213 | the keys are loaded exactly in document order, and a map is refused exactly when a key is repeated, holds a NUL or has no string value |
| ConfigMaps.ListenRoundTrip | src/conf.c:1136-1160 | printing the peers and walking the map again gives the same peers |
| ConfigMaps.PskRoundTrip | src/conf.c:1165-1186 | printing the keys and walking the map again gives the same keys |
| ConfigMaps.StartupsRoundTrip | src/conf.c:68-103 | printing the three startup limits and parsing them gives them back |
| ConfigMeaning.ParseIs | src/conf.c:525-906 | parsing any document gives a configuration exactly when the document describes it, field by field: timeouts and windows off or nearest to the document's, counts capped, the frame size and the log level nearest, the low mark half the high one where left out, keys trimmed, and everything else as written |
| ConfigMeaning.MuxIs | src/conf.c:531-702 | the same for the mux section |
| ConfigMeaning.TlsIs | src/conf.c:768-826 | the same for the TLS section and its three modes |
| ConfigMeaning.IdentityIs | src/conf.c:598-613 | the same for the identity section |
| ConfigMeaning.StartupsAre | src/conf.c:68-103 | max_startups is read exactly when it is three runs of digits with colons between them, each fitting an int |
| ConfigRoundTrip.WindowRoundTrip | src/conf.c:546-566 | a window in frames survives the trip through bytes and the unsigned cast |
| ConfigRoundTrip.MuxRoundTrip | src/conf.c:531-702 | the dumped mux section meets every constraint and loads and normalises to itself |
| ConfigRoundTrip.TlsRoundTrip | src/conf.c:427-450 | the dumped TLS section loads and checks to itself, with the SNI default put back and removed again in PSK mode |
| ConfigRoundTrip.IdentityRoundTrip | src/conf.c:598-613 | the dumped identity section meets its constraints and loads to itself |
| ConfigRoundTrip.AcceptedIsCanonical | src/conf.c:743-906 | every accepted configuration is in the ranges and modes the checks establish, field by field |
| ConfigRoundTrip.CanonicalIsAccepted | src/conf.c:1221-1381 | every such configuration has a dump that meets all schema constraints and parses to it |
| ConfigRoundTrip.AcceptedIffCanonical | src/conf.c:1015-1049 | the configurations the program can run with are exactly those |
| ConfigRoundTrip.RoundTrip | src/conf.c:1221-1381 | dumping an accepted configuration and parsing the dump changes nothing but the spelling of the type |
| ConfigLoad.PskTrimInPlace | src/conf.c:228-243 | the key is moved to the start of its buffer and every octet it vacates is erased |
| ConfigLoad.Config.LoadMuxSection | src/conf.c:531-587 | the mux section is loaded with its unit conversions and clamps |
| ConfigLoad.Config.LoadTlsSection | src/conf.c:427-450 | the TLS section is loaded, or refused for a NUL or a bad key map |
| ConfigLoad.Config.LoadIdentitySection | src/conf.c:598-613 | the identity section is loaded, or refused for a NUL or a bad peer map |
| ConfigLoad.Config.Load | src/conf.c:616-656 | loading succeeds exactly on the documents whose strings and maps load, and fills in every field |
| ConfigLoad.Config.Normalize | src/conf.c:663-702 | timeouts, deadline, log level and the low watermark get their final values |
| ConfigLoad.Config.CheckPskEntries | src/conf.c:276-304 | every inline key is trimmed and checked, references are left alone |
| ConfigLoad.Config.CheckTlsMode | src/conf.c:768-826 | exactly the three TLS modes pass, and PSK mode drops the server name |
| ConfigLoad.Config.CheckIdentity | src/conf.c:863-904 | exactly the peer lists within the limits pass, with a claim wherever there are entries |
| ConfigLoad.Config.Check | src/conf.c:743-906 | checking passes exactly the valid configurations and normalises them |
| ConfigLoad.ConfParse | src/conf.c:1015-1049 | parsing gives the checked configuration or nothing |
| FileSystem.Disk.CreateExclusive | src/shim/util.c:89-106 | only a file that does not exist is created, and a failure leaves nothing behind unless its removal fails |
| FileSystem.Disk.Discard | src/shim/util.c:78-87 | the file is removed, or the failure is remembered |
| Provision.HexLine | src/genpsk.c:65-73 | the key is printed as two hexadecimal digits an octet and a newline |
| Provision.HexRoundTrip | src/genpsk.c:65-73 | the printed key spells the octets of the key |
| Provision.ListNames | src/genpsk.c:111-135 | a list of names with commas between them names them, in order |
| Provision.KeyFileIsAccepted | src/genpsk.c:37-86 | every key file written is a key the configuration accepts when it is loaded from the file |
| Provision.GenpskOne | src/genpsk.c:37-86 | one new key file is added, or nothing is |
| Provision.Release | src/genpsk.c:95-109 | exactly the files this call created are taken back |
| Provision.Genpsk | src/genpsk.c:111-163 | for every name list, duplicates and aliases included, and every point of failure: exactly the key files of the list are added, or the disk is as before; nothing that existed changes |
| Certificates.PlanJobs | src/gencerts.c:798-857 | a plan is made exactly when there is no identity list or it has one valid entry for each name, paired in order |
| Certificates.WriteKeypair | src/gencerts.c:643-702 | certificate and key are both added with their content, or neither is |
| Certificates.DiscardPairs | src/gencerts.c:704-715 | exactly the pairs already written are taken back |
| Certificates.Gencerts | src/gencerts.c:859-932 | for every list and every point of failure: exactly the pairs of the plan are added, all distinct, or the disk is as before; nothing that existed changes |
| IncludeGrammar.IncludeIs | scripts/format.py:525-531 | a line is an include exactly when it has the form of one, and what is taken from it is its header and the text up to there |
| IncludeGrammar.CondIs | scripts/format.py:526-535 | a line opens, branches or closes a conditional exactly when its directive is one of those words |
| IncludeLines.IncludeIsNoCond | scripts/format.py:525-535 | no line is both an include and a conditional |
| IncludeLines.ScanConditional | scripts/format.py:542-572 | the depth counter finds the matching endif, and reports exactly whether an include or code lies before it |
| IncludeLines.FindIncludeRange | scripts/format.py:575-614 | the region starts at the first include and ends where the walk over includes, blank lines and conditionals of includes stops |
| IncludeLines.RangeTiles | scripts/format.py:575-614 | the region consists of includes, blank lines and whole conditionals that hold an include and no code |
| IncludeLines.RangeIsMaximal | scripts/format.py:575-614 | past the region and the blank lines after it there is no further include or such conditional |
| IncludeOrder.ParseItems | scripts/format.py:617-638 | each line of the region becomes one item of its kind |
| IncludeOrder.MergeBlocks | scripts/format.py:641-675 | the loop with its stack is the fold reasoned about, leftovers included |
| IncludeOrder.BlockFold | scripts/format.py:641-675 | wherever the depth counter finds the matching endif, the stack closes one block with exactly the lines up to it |
| IncludeOrder.RegionFold | scripts/format.py:641-675 | the merge finds exactly the conditionals the range scan went over and leaves nothing on the stack |
| Reorder.RegionUnits | scripts/format.py:617-675 | what is sorted is one unit for each include and each whole conditional, with the group and the directive of the first include among its lines |
| IncludeSort.SortSpec | scripts/format.py:689-697 | sorting a group permutes it, orders it by key and keeps equal keys in place |
| IncludeSort.Arranged | scripts/format.py:689-711 | the arranged units are the given ones, ordered by group and key, equal ones in their old order |
| Reorder.RegionLines | scripts/format.py:617-675 | the region's units in file order are all of its lines that are not blank |
| Reorder.Rebuild | scripts/format.py:689-721 | the new block is the sorted groups with a blank line between two of them and no two blank lines in a row |
| IncludeSpacing.SpacedByGroup | scripts/format.py:689-721 | in the new block a blank line stands before a unit exactly where its group differs from the one before, and inside a unit where one stood |
| Reorder.ReorderIncludes | scripts/format.py:724-746 | a file without includes is unchanged; otherwise the lines before the region and from the next line on are unchanged and only the region between is rebuilt |
| Reorder.ReorderIsLossless | scripts/format.py:724-746 | every line of the region that is not blank appears exactly once, every conditional stays whole, and the result is sorted by the group and the directive of each unit's first include, with a stable order |
| CommentMask.ScanLine | scripts/format.py:764-790 | the scan of one line with its literals and escapes is the one reasoned about |
| CommentGrammar.FormScans | scripts/format.py:764-790 | of the forms a line can begin with only a comment that does not end leaves one open, and all others go on with what follows them |
| CommentGrammar.EveryForm | scripts/format.py:764-790 | every line has one of those forms |
| CommentGrammar.InsideScans | scripts/format.py:768-774 | inside a comment nothing counts but its first end |
| CommentMask.BlockCommentMask | scripts/format.py:753-791 | each line is marked exactly when the text before it ends inside a comment |
| CommentMask.RegionOpen | scripts/format.py:575-675 | no unit of the region but the last can leave a comment open |
| CommentMask.LastStays | scripts/format.py:689-711 | the last unit of the region is still last after sorting exactly when nothing sorts after it |
| CommentMask.MasksSurviveIff | scripts/format.py:724-746 | in the rebuilt region every line, and the text after it, stays inside or outside comments as it was, if and only if the region ends outside a comment or its last unit sorts last |
| CommentMask.TailMasks | scripts/format.py:738-746 | then every line after the region is marked as before, blank lines dropped between or not |
| CommentMask.ReorderLines | scripts/format.py:724-746 | from the lines alone, mask included: a file without includes is unchanged, and otherwise the region is rebuilt as stated, with the masks kept under exactly that condition |
| DanglingComment.DanglingIsLost | scripts/format.py:724-746 | two includes of which the second opens a comment and sorts first: the first one ends up inside the comment, whatever their names |
| DanglingComment.DanglingNames | scripts/format.py:689-697 | b.h before a.h is such a pair |

## Left out

- The mux protocol itself: sessions, streams, the frame scheduler, flow-control credits and session resumption.
- TLS handshakes, certificate contents and the event loop; timers appear only as callbacks that may fire at any time.
- The handlers behind the control API (statistics, metrics, configuration replacement): their answers are arbitrary texts with the right framing.
- The fixed texts of responses: reason phrases, dates, Allow lists and content types are arbitrary one-line texts up to the lengths given in `ApiResponse`, which cover those of the source.
- The parser's overwriting of delimiters by NUL inside the receive buffer; parsing is a function of the octets received.
- The text of a JSON document read back by the parser: configuration documents are modelled as `struct json_conf`.
- ConfigRoundTrip.RoundTrip: does not model a dump that fails because it exceeds the maximum size. Nothing else can make one fail, since the parser admits no string that is not UTF-8.
- MarshalMeaning.ObjReads: does not model how numbers are printed; a number is its text, of the grammar of section 6 of RFC 8259, and a raw fragment is read as the value its text has.
- Configurations of a build without TLS, and `conf_inline_pem`, which replaces file references by their content.
- Allocation failures, except where a failing step has to be undone.
- Rounding of floating-point numbers: the bandwidth-delay product and schema bounds are real numbers.
- The perfect-hash lookup produced by gperf, and the enumerator names of the keys.
- The descriptor-driven marshal of the size backend, and floating-point and string constraints of schemas.
- FieldMap.MakeFieldMap: does not claim that suffixed names avoid reserved words; the kind of each property is the parameter `kindOf` and the reserved words are the parameter `reserved`.
- IdentPlan.PlanIdentifiers: takes the convention names and helper groups of all scopes as lists; how each is spelled from its scope is not modelled. The header guard itself is not screened against foreign names, as in the source.
- Certificates.PlanJobs: does not model running out of memory.
- The checks of the server name and of the key type in certificate generation.
- The in-place tokenising of name lists; a list is split into its comma-separated fields.
- Reorder.ReorderIncludes: takes the classification of headers as a parameter; white space and letters outside ASCII are not recognised.
- Reordering is not claimed to be idempotent: the region starts at the first include even inside a conditional.
- The remaining passes of the formatter.

# Secondeye: a verified model

Secondeye is an intercepting proxy that records web traffic and explains it afterwards. A client opens a
CONNECT tunnel; the proxy reads the TLS ClientHello, takes the host name out of it, and either intercepts
the connection or relays it blindly. Requests seen on intercepted connections are appended to a log while a
capture is active. When the capture is stopped the log is read back, classified, regrouped into flows, and
written out.

This project models the four places where that can go wrong silently, and proves what the program promises
there, for all inputs and all runs.

**Deciding a connection.** `ClientHello.dfy` has the cursor-based parser as methods, a reference parser on
sequences, a shape (`Envelope`, `Layout`) that says what a ClientHello is, and an encoder. `Listener.dfy`
has the read loop and the routing, `Scope.dfy` the scope matcher (over `Strings.dfy`),
`ConnectionCap.dfy` the handlers around the connection counter as a step system of control points, and
`Relay.dfy` the byte relays as a step system with pumps that interleave, fail and are cancelled.

**Keeping a capture.** `Har.dfy` is the HAR form of an entry, over real codecs: `Utf8.dfy`, `Base64.dfy`,
`Json.dfy`, `Numerals.dfy` and `IsoTime.dfy`; `HarForm.dfy` says what every field of that form shows.
`CaptureLog.dfy` is the append-only log, `RawHar.dfy` the file a finished capture leaves, and
`CaptureManager.dfy` the life of captures, on a file system that is a value.

**Explaining a capture.** `Entries.dfy`, `Clusters.dfy`, `Redirects.dfy`, `Polling.dfy`, `Flows.dfy`,
`IdReuse.dfy` and `Outliers.dfy` (over `Sorting.dfy`, `Runs.dfy` and `Stats.dfy`) have each analysis pass as
the loop the program runs, proved against a declarative description of its result.

`Basics.dfy` holds the shared types. A module is a file; `dafny verify dfyconfig.toml` checks all of them.

## Conventions

- Bytes are numbers below 256, characters are Unicode scalar values, instants are microseconds since
  0001-01-01 in UTC. Medians, tolerances and multiples are exact over `real`.
- Entry indices are distinct, as `classify_entries` hands them out.
- What comes from libraries is a parameter that the proofs know nothing about: IDNA encoding, `fnmatch` and
  `re` (`Scope.Library`); `urljoin`, URL paths and which JSON value a body holds (`Entries.Web`); the pairs
  an entry carries (`IdReuse.Extract`); joining a capture name to a directory, classifying an entry, and the
  text of the two reports (`CaptureManager.Config`).
- A polling run is cut where a body differs from the run's first; matching bodies is an equivalence
  (`Polling.SameBodyIsEquivalence`), so that is where neighbours differ.
- A set is iterated in any order; a client's bytes arrive in any pieces; coroutines interleave at every await.

## Where the code and its documentation part

- `RedirectChain` calls its last hop the final, non-redirect response. It need not be one.
  `Redirects.ChainsEndInFinalIff` says exactly when it is, `Redirects.ChainEndingInRedirect` gives a
  capture where it is not.
- `splice` says it closes both writers so that neither peer is left hanging. Whenever it returns, it has.
  When it is cancelled it has done so exactly if the cancellation came while it waited for the first pump,
  and none came after that: a single cancellation that arrives while the pumps are being gathered, one of
  them having ended by itself, leaves both open. So does a replay that fails before it.
  `Relay.BlindRelayIsTransparent` and `Relay.PassthroughIsTransparent` carry the condition on the run,
  `Relay.CancelledWhileGathering` and `Relay.ReplayCanFail` are runs that leave the writers open.
- An ID-reuse note's `further_occurrences` is described as the repeats of its own pair. It also counts the
  repeats of every other pair first reused on the same entry. `IdReuse.FurtherOccurrencesIff` says exactly
  when the two agree, `IdReuse.PairsTogetherCountTwice` gives a capture where they do not.
- `cluster_entries` speaks of Referer or Origin; only Referer is looked at.

## Model

| member | source | states |
|---|---|---|
| ClientHello.ParseEncode | src/secondeye/proxy/sni.py:52-180 | For every ClientHello that fits one record and any bytes behind it, parsing the encoding gives the first host_name of the first server_name extension, letter by letter its bytes, if these are ASCII, malformed if they are not, and no name if there is no such extension or entry |
| ClientHello.FoundIff | src/secondeye/proxy/sni.py:52-180 | A name is found exactly when the buffer splits into record, handshake, session id, ciphers, compression, whole extensions up to a server_name, and whole names up to a host_name whose bytes are ASCII and spell it |
| ClientHello.WireExample | src/secondeye/proxy/sni.py:18-24 | The smallest ClientHello with a one-letter host name, byte by byte, for every version and random, is found to name that letter |
| ClientHello.NoSniIff | src/secondeye/proxy/sni.py:120-180 | No name is reported exactly for a ClientHello, whole as far as it is read, in one of the three ways it can lack a host name |
| ClientHello.StrippedIff | src/secondeye/proxy/sni.py:67-131 | The fixed fields are stepped over exactly when the buffer is a record envelope around that tail |
| ClientHello.DecidedIsFinal | src/secondeye/proxy/sni.py:67-79 | Once a buffer is decided, no further byte changes the answer |
| ClientHello.UndecidedNeedsMore | src/secondeye/proxy/sni.py:67-79 | The bytes asked for exceed what is there and never one record, and every extension short of them is still undecided |
| ClientHello.HitIff | src/secondeye/proxy/sni.py:133-178 | A tagged list yields an element exactly when whole elements with other tags come before it |
| ClientHello.MissIff | src/secondeye/proxy/sni.py:133-180 | A tagged list yields nothing exactly when it is whole elements with other tags to its very end |
| ClientHello.ParseClientHello | src/secondeye/proxy/sni.py:52-79 | The parser is total and agrees with the reference parser on all bytes |
| ClientHello.ParseHandshakeBody | src/secondeye/proxy/sni.py:82-148 | The cursor through the fixed fields sees what the reference parser strips |
| ClientHello.ParseExtensions | src/secondeye/proxy/sni.py:133-148 | The extension loop ends, never leaves its block, and finds the first server_name |
| ClientHello.ParseServerNameExtension | src/secondeye/proxy/sni.py:151-180 | The name loop ends, never leaves its list, and finds the first host_name |
| Listener.ProxyListener.ReadClientHello | src/secondeye/proxy/listener.py:207-235 | However the stream is cut into reads: the result is what the whole stream parses to, nothing is lost, reading stops with the first read that decides, and the buffer stays within 69,635 bytes |
| Listener.ProxyListener.ProcessConnect | src/secondeye/proxy/listener.py:207-262 | The route is a function of the whole stream, its ending and the scope; bytes handed on and bytes unread are the stream; only intercepted names are remembered |
| Listener.ProxyListener.HandleConnection | src/secondeye/proxy/listener.py:163-186 | For a connection that runs alone and whose handler does not raise: it is turned away exactly at the cap, untouched; otherwise it is routed, and the counter is back where it was |
| ConnectionCap.ArrivalIsCapped | src/secondeye/proxy/listener.py:168-177 | In every run, a newcomer is turned away exactly when the handlers between increment and decrement are as many as the cap allows |
| ConnectionCap.StepKeepsSafe | src/secondeye/proxy/listener.py:177-186 | Each step of a handler, through try, except and finally, keeps the counter the number of handlers between increment and decrement |
| ConnectionCap.CapHolds | src/secondeye/proxy/listener.py:163-186 | In every interleaving the counter is the number of handlers between increment and decrement, between 0 and the cap; and each handler passes its decrement exactly once, however its body completes, unless it was turned away |
| ConnectionCap.AllEnded | src/secondeye/proxy/listener.py:179-186 | When every handler has ended, returned, raised or cancelled, the counter is 0 and every writer is closed; no exception leaves a handler |
| ConnectionCap.HandlersEnd | src/secondeye/proxy/listener.py:163-186 | A handler that has not ended can go on, and every statement it completes brings it nearer its end |
| ConnectionCap.HandlerChoices | src/secondeye/proxy/listener.py:163-186 | Any connection can arrive at any time, a body can complete in each of three ways, and so can the wait for a writer |
| ConnectionCap.CancellationsGoThrough | src/secondeye/proxy/listener.py:179-186 | In every run a handler leaves with a cancellation exactly if it was cancelled in its body or while its writer closed |
| ConnectionCap.RunTracksArrivals | src/secondeye/proxy/listener.py:163-186 | No arrived connection is ever lost track of |
| Relay.StepKeepsGood | src/secondeye/proxy/splice.py:43-65 | Every step of either pump, error or cancellation keeps what was written a replay and a prefix of what was read, and takes no byte back |
| Relay.PumpChoices | src/secondeye/proxy/splice.py:43-52 | A pump can read any number of bytes up to a chunk and what is left, sees the end of its stream exactly after the last byte, and can fail at any time |
| Relay.PumpsEnd | src/secondeye/proxy/splice.py:43-52 | A pump that has not ended can go on without failing, and each such step brings it nearer its end |
| Relay.PumpsCanFinish | src/secondeye/proxy/splice.py:43-57 | From wherever the pumps are, if none has failed or been cancelled, a run without failure or cancellation brings both to the end of their streams |
| Relay.RelayChoices | src/secondeye/proxy/splice.py:54-65 | What can happen to a relay at each stage; a cancellation can come at any time before its end |
| Relay.GatheringCanEnd | src/secondeye/proxy/splice.py:59-65 | Once it gathers, a relay can come to its end: every pump left can be cancelled or finish its write |
| Relay.BlindRelayCanDeliver | src/secondeye/proxy/splice.py:68-96 | For all streams there is a run that delivers every byte both ways, returns, and closes both writers |
| Relay.PassthroughCanDeliver | src/secondeye/proxy/_http_cycle.py:184-247 | The same for the passthrough, with its replays both ways |
| Relay.ClientWriteCanBeCut | src/secondeye/proxy/_http_cycle.py:227-235 | A run in which a write to the client is cancelled halfway |
| Relay.BlindRelayIsTransparent | src/secondeye/proxy/splice.py:24-96 | In every run the destination has been given a prefix of the replayed bytes and the client's stream, and the client a prefix of the destination's; all of it after end of stream. A relay that is over has closed both writers exactly if its pumps were started and no cancellation came once it had stopped waiting; it has returned exactly if its pumps were started and it was never cancelled, and then some pump ended by itself |
| Relay.PassthroughIsTransparent | src/secondeye/proxy/_http_cycle.py:184-247 | The same with replays in both directions, a client write that can be cut short, and the upstream writer alone closed under that condition |
| Relay.CancelledWhileGathering | src/secondeye/proxy/splice.py:54-65 | A run with one cancellation, after a pump has ended by itself, that leaves both writers open |
| Relay.ReplayCanFail | src/secondeye/proxy/splice.py:92-96 | A run without cancellation in which the replay fails and leaves both writers open |
| Relay.TunnelIsTransparent | src/secondeye/proxy/listener.py:256-262 | A delivery the listener routes to the relay reaches the destination it named as a prefix of exactly what the client sent, across the routing decision |
| Strings.EndsWithIffPartsSuffix | src/secondeye/scope/matcher.py:123-125 | Being the target or ending in a dot and the target is having the target's labels as last labels, for all strings |
| Scope.HitIffInScope | src/secondeye/scope/matcher.py:92-135 | A host is matched exactly when some target's labels are its last labels, some glob accepts it, or some regex does |
| Scope.NormalizedLabels | src/secondeye/scope/matcher.py:25-56 | Spaces around a name and dots behind it do not matter, and its normal form has the normal forms of its labels: lower-cased for a glob, else IDNA-encoded, else lower-cased |
| Scope.ScopeMatcher.Configure | src/secondeye/scope/matcher.py:92-109 | Targets are sorted into exact names and globs, in order; configuration fails exactly when some regex does not compile, and names the first such regex |
| Scope.ScopeMatcher.Match | src/secondeye/scope/matcher.py:111-135 | The match reported is the first one, exact targets before globs before regexes, by the label test |
| Utf8.DecodeIff | src/secondeye/capture/har.py:189-204 | The strict decoder accepts exactly the encodings, each as the text it encodes: no overlong form, no surrogate |
| Base64.DecodeEncode | src/secondeye/capture/har.py:192-203 | Base64 decoding inverts encoding, at every length |
| Json.LoadsDumps | src/secondeye/recording/manager.py:287-288 | Loading inverts dumping, for every value with float tokens, on one line as well as in ASCII with indentation and surrogate pairs |
| Json.LoadsWhole | src/secondeye/capture/buffer.py:71 | A value with anything but space behind it is refused |
| Json.IndentedIsAscii | src/secondeye/recording/manager.py:287-288 | Indented text is printable ASCII and line feeds |
| Json.TextStays | src/secondeye/capture/buffer.py:46 | On one line, text without quotes, backslashes and control characters stays as it is, whatever its characters |
| Json.ShortEscapes | src/secondeye/capture/buffer.py:46 | The characters with a short escape |
| Json.LongEscapes | src/secondeye/recording/manager.py:287-288 | A control character, and characters beyond ASCII in one unit and in two |
| Json.LayoutExample | src/secondeye/recording/manager.py:287-288 | One value in both layouts, character by character |
| Json.PrintOneLine | src/secondeye/capture/buffer.py:46-47 | A dumped value contains no raw control character, so no line break |
| IsoTime.FromIsoToIso | src/secondeye/capture/har.py:138-140 | Writing and reading a timestamp gives the same microsecond |
| IsoTime.IsoForm | src/secondeye/capture/har.py:138-140 | The written form: date, T, time, six more digits unless they are zero, and Z |
| Har.DecodeEncodeBody | src/secondeye/capture/har.py:175-204 | Every body is written as its text without an encoding if some text encodes to it, and as base64 marked so if none does; and it comes back byte for byte |
| Har.HeaderValueIff | src/secondeye/capture/har.py:151-165 | A header's value is that of the first header whose name is the same letter by letter up to ASCII case; there is none exactly when no header has that name |
| HarForm.EntryIsShown | src/secondeye/capture/har.py:60-148 | Every field of an entry's HAR form, also those nothing reads back: sizes, media types, redirect URL, empty lists, timings |
| Har.ParseToHarDict | src/secondeye/capture/har.py:60-148 | Every entry comes back from its HAR form unchanged |
| Har.MainFieldsNeeded | src/secondeye/capture/har.py:266-297 | An entry without its request, response, start or time is refused |
| Har.NoTextNoBody | src/secondeye/capture/har.py:195-201 | A missing body dict, or one without a text, is an empty body |
| Har.IntegerTimeIsRead | src/secondeye/capture/har.py:297-301 | A time written as an integer is read as that number |
| Har.ParseHeaderDicts | src/secondeye/capture/har.py:305-307 | Headers come back in order, with their spelling |
| Har.HarDictPrintable | src/secondeye/capture/har.py:136-148 | The HAR form of an entry can be dumped |
| CaptureLog.ReadLogText | src/secondeye/capture/buffer.py:45-72 | For every list of entries, reading the log they were appended to gives back that list, in order |
| CaptureLog.LinesOfText | src/secondeye/capture/buffer.py:66-67 | Lines are cut at a line feed, a carriage return, or both in that order; the last may lack its end |
| CaptureLog.BlankLinesAreSkipped | src/secondeye/capture/buffer.py:68-70 | A blank line changes nothing, wherever it stands |
| CaptureLog.BadLineFails | src/secondeye/capture/buffer.py:71 | The first line that is neither blank nor an entry is the error |
| CaptureLog.LineIsStripped | src/secondeye/capture/buffer.py:68-70 | A serialised entry is not blank and stripping leaves it alone |
| CaptureLog.LogGrows | src/secondeye/capture/buffer.py:45-49 | Appending an entry's line to a log is the log of one entry more |
| RawHar.RawHarIsRead | src/secondeye/recording/manager.py:273-287 | raw.har determines its entries: reading log.entries back through the parser gives every entry, in order |
| RawHar.RawHarHeader | src/secondeye/recording/manager.py:273-280 | raw.har names the version of its format and the program |
| CaptureLog.CaptureBuffer.constructor | src/secondeye/capture/buffer.py:28-35 | Opening creates the directories and an empty file, and keeps an existing file |
| CaptureLog.CaptureBuffer.Append | src/secondeye/capture/buffer.py:45-49 | The buffer's file keeps its content and grows by one line, so a log of some entries becomes the log of one entry more; every other file and directory stays |
| CaptureLog.ReadBuffer | src/secondeye/capture/buffer.py:56-72 | The reading loop returns every non-blank line in order, or the first error |
| CaptureManager.StepKeepsInv | src/secondeye/recording/manager.py:154-266 | Every command keeps the active log readable and the output directories distinct; a command that fails, or records with nothing active, changes nothing |
| CaptureManager.StartIff | src/secondeye/recording/manager.py:168-181 | A capture starts exactly when none is active, its directory does not exist and no file is in the way; then there are the directory with all above it and an empty log; each refusal has its own condition |
| CaptureManager.OutputDirIs | src/secondeye/recording/manager.py:171-173 | A capture's directory is under the day it starts on and the target's label |
| CaptureManager.TotalBytesAppend | src/secondeye/recording/manager.py:246 | The byte total adds up over entries |
| CaptureManager.TotalBytesOne | src/secondeye/recording/manager.py:246 | Of one entry it is the length of both bodies |
| CaptureManager.StopReportsWhatWasRecorded | src/secondeye/recording/manager.py:183-266 | In every run, a stop's name, count and byte total are those of exactly the entries recorded since its start; raw.har reads back to those entries, manifest.json and ANALYSIS.md hold their reports, the log is gone, and no other file has changed |
| CaptureManager.EveryStopHasItsStart | src/secondeye/recording/manager.py:154-266 | Every successful stop ends a start of the same run |
| CaptureManager.HistoryIsResults | src/secondeye/recording/manager.py:264-270 | The history is the results of the successful stops in order, in pairwise different directories |
| CaptureManager.OutputsStay | src/secondeye/recording/manager.py:165-175 | No later command touches the files of a finished capture |
| CaptureManager.CaptureManager.StartCapture | src/secondeye/recording/manager.py:154-181 | Does the start step, and keeps active and buffer both set or both unset |
| CaptureManager.CaptureManager.RecordEntry | src/secondeye/recording/manager.py:183-196 | Does the record step: one line more in the active capture's log, or nothing |
| CaptureManager.CaptureManager.StopCapture | src/secondeye/recording/manager.py:198-266 | Does the stop step on the entries the log carries; each report is in its own file and is made of those entries and of their flows, numbered, conserving and with resolving references |
| Entries.ByTimeFacts | src/secondeye/analysis/manifest.py:167 | Sorting by time rearranges the entries into times that never decrease |
| Entries.RefererIff | src/secondeye/analysis/cluster.py:67 | The referer is the value of the request's first header of that name, in any case of its letters |
| Sorting.SortStable | src/secondeye/analysis/cluster.py:87 | Entries of equal time keep their order |
| Clusters.ClusterEntries | src/secondeye/analysis/cluster.py:70-104 | The stateful loop yields the clusters of the local rule |
| Clusters.ClusterBoundaries | src/secondeye/analysis/cluster.py:86-104 | The clusters joined are the time-sorted entries, cut exactly at the first entry, a navigation, a gap above the window, or a referer other than the key of the entry before |
| Clusters.WiderWindowJoins | src/secondeye/analysis/cluster.py:85-97 | A wider window only joins neighbouring clusters |
| Redirects.DetectRedirectChains | src/secondeye/analysis/cluster.py:120-164 | The loop with its consumed set finds exactly the maximal runs, keyed by their first entry |
| Redirects.LinkIff | src/secondeye/analysis/cluster.py:148-158 | A link is a status from 300 to 399 and a Location header, its name in any case, that resolves to the URL of the next navigation |
| Redirects.NavsInOrder | src/secondeye/analysis/cluster.py:132-135 | The candidates are exactly the navigation entries, in the order of their times |
| Redirects.ChainsUnique | src/secondeye/analysis/cluster.py:120-164 | Only one map of chains fits a capture |
| Redirects.FollowLinks | src/secondeye/analysis/cluster.py:148-160 | The inner loop follows links exactly to the end of the run and consumes the later hops |
| Redirects.ChainIsMaximalRun | src/secondeye/analysis/cluster.py:142-164 | Every chain is a maximal run of at least two linked navigations |
| Redirects.LinkIsInChain | src/secondeye/analysis/cluster.py:142-164 | Every link lies inside a chain |
| Redirects.ChainsAreDisjoint | src/secondeye/analysis/cluster.py:140-164 | Chains share no entry |
| Redirects.KeyIsNoLaterHop | src/secondeye/analysis/cluster.py:126-130 | No chain is keyed by a later hop of a chain |
| Redirects.ChainsEndInFinalIff | src/secondeye/analysis/cluster.py:108-117 | All chains end in a non-redirect exactly when every redirected-to redirect leads on to the next navigation |
| Redirects.ChainEndingInRedirect | src/secondeye/analysis/cluster.py:108-117 | Two redirects, the second without Location, are a chain that ends in a redirect |
| Polling.DetectPollingGroups | src/secondeye/analysis/cluster.py:188-232 | Bucketing, scanning and sorting yield the groups described below |
| Polling.ScanBucket | src/secondeye/analysis/cluster.py:218-229 | The loop over one bucket reports the groups of its runs, in order |
| Polling.FinalizeRun | src/secondeye/analysis/cluster.py:242-258 | A run is reported exactly if it has three members, a positive median gap, and every gap within a fifth of it |
| Polling.ReportableIff | src/secondeye/analysis/cluster.py:242-258 | The same condition in seconds between start times, and what the group then says |
| Polling.SameBodyIff | src/secondeye/analysis/cluster.py:235-239 | Bodies match as JSON values if both are JSON, and otherwise as bytes |
| Polling.SignatureIff | src/secondeye/analysis/cluster.py:210-215 | Two requests are of one signature exactly if method, path and referer are the same |
| Polling.GroupMembers | src/secondeye/analysis/cluster.py:188-258 | The occurrences of a group are XHR entries of one request with one response body |
| Polling.RunsAreMaximal | src/secondeye/analysis/cluster.py:218-229 | The runs joined are the bucket, cut exactly where the body changes |
| Polling.GroupIffReportableRun | src/secondeye/analysis/cluster.py:188-258 | A group is reported exactly for each reportable run of some signature's bucket |
| Polling.GroupsAreDisjoint | src/secondeye/analysis/cluster.py:217-232 | Groups share no occurrence and are listed by strictly increasing first index |
| Polling.GroupSpan | src/secondeye/analysis/cluster.py:242-258 | The n occurrences of a group increase strictly in time and span between 0.8 (n - 1) and 1.2 (n - 1) intervals |
| Flows.BuildFlows | src/secondeye/analysis/manifest.py:144-200 | With every lookup defined, the loop yields one flow for each entry that is neither static nor consumed, of the chain, group or entry it stands for; and the list keeps the four promises below |
| Flows.BuiltIsSound | src/secondeye/analysis/manifest.py:144-200 | Flows of a trace are numbered, start with their first entry and in time order, hold each non-static entry once, resolve their references, and list what is collapsed into them |
| Flows.FlowsAreNumbered | src/secondeye/analysis/manifest.py:167-182 | Flow ids are 1 to n, and start times never decrease |
| Flows.FlowsConserveEntries | src/secondeye/analysis/manifest.py:144-200 | The flows together hold each non-static entry's index exactly once, and no other |
| Flows.CollapseResolves | src/secondeye/analysis/manifest.py:190-196 | Every collapsed_into names a smaller flow id, of a flow that carries a polling group |
| Flows.GroupListsItsFlows | src/secondeye/analysis/manifest.py:296-313 | The flows collapsed into a flow, in order, are its collapsed indices, and its count is one more |
| Flows.RedirectFlowsLeadOn | src/secondeye/analysis/manifest.py:272-293 | A redirect flow shows one hop for each of its entries, in order, with that entry's URL and status; each hop but the last is a 3xx whose location resolves to the next hop's URL, and the last shows no location; no other flow shows hops |
| Flows.GroupsHaveFlows | src/secondeye/analysis/manifest.py:186-189 | Every polling group has its flow, with its count, interval and later occurrences, and no other flow carries a group |
| Flows.ChainsHaveFlows | src/secondeye/analysis/manifest.py:184-185 | Every redirect chain has its flow, with its entries in order |
| IdReuse.ComputeIdValueReuse | src/secondeye/analysis/signals.py:336-365 | Notes are at exactly the entries where some pair has its second carrier, each for such a pair, with its first carrier and the repeats of all such pairs; whatever order the pairs of an entry come in |
| IdReuse.FurtherOccurrencesIff | src/secondeye/analysis/signals.py:348-364 | A note's count is at least the number of later carriers of its pair, and is that number exactly when every other pair first reused there is carried by no third entry |
| IdReuse.PairsTogetherCountTwice | src/secondeye/analysis/signals.py:348-364 | For two pairs on the same three entries the pass makes one note, which counts 2 though its pair has one later carrier |
| Stats.MedianOfRearranged | src/secondeye/analysis/signals.py:768 | The median does not depend on the order of the values |
| Stats.MinorityAboveMiddle | src/secondeye/analysis/signals.py:768 | Fewer than half of the values exceed the upper middle one |
| Outliers.ComputeOutliers | src/secondeye/analysis/signals.py:759-776 | Exactly the entries that reach the multiple are reported, with their value, the median and the multiple to the nearest tenth; none below five entries or without a positive median |
| Outliers.ComputeTimingOutliers | src/secondeye/analysis/signals.py:494-516 | The same for the times of non-static entries, as the numbers their tokens stand for, and a multiple of 5 |
| Json.RealOfToken | src/secondeye/capture/har.py:297-301 | A float token stands for the number its sign, digits, fraction and exponent spell |
| Outliers.ComputeSizeOutliers | src/secondeye/analysis/signals.py:519-540 | The same for body sizes of non-static entries and a multiple of 10 |
| Outliers.TimingOutliersIff | src/secondeye/analysis/signals.py:494-516 | A non-static entry is reported exactly if there are five, the median time is positive, and its time is five times that or more |
| Outliers.SizeOutliersIff | src/secondeye/analysis/signals.py:519-540 | The same for response bodies and ten times |
| Outliers.RoundTenthIs | src/secondeye/analysis/signals.py:775 | The multiple shown is the nearest tenth, and of two as near the even one |
| Outliers.OutliersAreAMinority | src/secondeye/analysis/signals.py:759-776 | For values that are not negative and a threshold above 2, fewer than half of the entries are reported |
| Outliers.OutliersOfRearranged | src/secondeye/analysis/signals.py:759-776 | The report does not depend on the order of the entries |
| Outliers.HalfCanReachTwice | src/secondeye/analysis/signals.py:771-775 | A threshold of 2 would not do: of any six entries with these values the report has half |

## Left out

- ClientHello.ParseEncode: one record only; the program reports a ClientHello split over several records as malformed, and so does the model.
- Listener.ProxyListener.HandleConnection: one connection running alone, with a handler that returns; interleavings, exceptions and cancellation are in `ConnectionCap`. Reading the request line, plain HTTP and the handlers behind a route are not modelled, nor is the text that is logged.
- Relay.BlindRelayIsTransparent: starts once the destination is connected; connecting is not modelled. Writers count as closed once `close` is called.
- Scope.HitIffInScope: IDNA encoding, `fnmatch` and `re` are parameters; lower-casing of header names is ASCII.
- Json.LoadsDumps: a float is carried as the token it is written with; NaN and Infinity are not accepted, and an escaped surrogate on its own is refused because characters are scalar values.
- Har.ParseToHarDict: a time is compared as an instant, not by the offset it is written with, and text is made of scalar values. Where a field has a JSON type the program would turn into text with `str`, or take a bool for a status, the model reports a malformed entry.
- IsoTime.FromIsoToIso: `fromisoformat` reads further forms that nothing here writes.
- CaptureLog.CaptureBuffer.Append: flushing and syncing, and failures of the disk, are not modelled.
- CaptureManager.StepKeepsInv: one command at a time; overlapping commands are not modelled, nor other processes that write to the output directories, nor several spellings of one path.
- CaptureManager.OutputDirIs: the day is written with a year of four digits, as it is from the year 1000 on.
- CaptureManager.StopReportsWhatWasRecorded: nothing is claimed about the active request count while nothing is active.
- CaptureManager.CaptureManager.StopCapture: the text of the two reports is a parameter.
- Polling.DetectPollingGroups: equality of JSON bodies is equality of the values they hold, so NaN in a body is not modelled.
- IdReuse.ComputeIdValueReuse: extracting the pairs from query strings and bodies is a parameter.
- Outliers.ComputeOutliers: division and rounding are those of real numbers, not of floats.
- Flows.BuildFlows: the summary line of a flow and the JSON form of the manifest are not modelled.
- Classifying an entry: a fixed table of content types and file extensions; the passes are proved for every classification.
- The other signals (endpoints, status codes, parameter names, cookies, headers): each counts one field of the entries, with no state carried between entries and no reference to another pass.
- Assembling ANALYSIS.md: formatting of results that are proved before it sees them.
- h11, TLS, certificates, sockets, the control socket, signals and the command line: plumbing around libraries.

# chagle in Dafny

chagle is a reverse proxy for services behind NAT.  A client keeps a control channel to the server for each service;
the server asks for data channels over it, the client opens one connection per request, and the server pairs those
connections with visitors.  This project models the parts of chagle whose correctness is not visible in any one
function, and proves what they promise for every input, every interleaving or every sequence of configuration files.

| file | what it models |
|---|---|
| `ConnectionPool.dfy` | the data-channel pool of one service: listener, pool loop, control-channel writer, client tasks, data-channel handshakes, as a step machine |
| `MultiMap.dfy` | the two-index registry of raw heap boxes, as a class with a ghost live set that refines a set of triples |
| `Server.dfy`, `Registry.dfy` | the server's shared state, and every interleaving of handshakes, data-channel hellos and reloads over it |
| `Protocol.dfy`, `Handshake.dfy` | the wire formats byte by byte, and the control handshake as two processes exchanging those bytes |
| `Config.dfy`, `ConfigWatcher.dfy`, `HotReload.dfy`, `ReloadRoutes.dfy`, `ClientReload.dfy` | the diff of two configurations, the run loop that replays it, and what that does to the server's table, control channels and routes and to the client's channels |
| `Router.dfy` | virtual-host routing by longest location |
| `Sni.dfy`, `Utf8.dfy`, `Base64.dfy`, `HeaderReader.dfy` | the parsers and codecs in front of it |
| `Bandwidth.dfy`, `LoadBalance.dfy` | the token bucket and the round-robin groups |
| `UdpForwarder.dfy` | the client's UDP reader, its forwarders, and the read-write lock between them |

Code that changes objects is modelled by classes and loops, each specified by a function; the theorems are about those
functions.  Code that runs as several tasks is modelled by a state machine whose actions are their atomic moves.  The
process uses the multi-threaded runtime (`src/main.rs:8`), so tasks interleave not only where they await: an action is
a critical section under a lock, a queue operation, or a stretch of code that touches nothing another task can see.  SHA-256 is a parameter; a theorem that needs it
to be collision free says so for the finitely many strings in use.  Hash maps iterate in an unspecified order, so each
iteration takes an order as a parameter and the theorems hold for all orders.

## Where the code does not do what one would expect

Each of these is a lemma with a concrete run or input, next to the exact condition under which the expected law holds.

- A reload lists a disabled service that a restart would leave out (`HotReload.DisabledServiceIsListedByReload`,
  `HotReload.HotReloadEqualsRestart`).
- A service that stops being HTTP(S) in a reload keeps its old route (`ReloadRoutes.RouteLeftBehind`,
  `ReloadRoutes.ReloadKeepsRoutesExactly`, `ReloadRoutes.RoutesExactExactlyWithoutStrays`).
- A client reload ignores the start list, visitor mode and the user prefix, and does not notice a disabled service
  (`ClientReload.DisablingIsIgnored`, `ClientReload.ClientReloadEqualsRestartExactly`,
  `ClientReload.ClientHotReloadEqualsRestart`).
- A reload that completes between a handshake's lookup and its authentication leaves a control channel with the
  replaced configuration, and that is the only way (`RegistryMachine.StaleHandleReachable`,
  `RegistryMachine.CurrentExactlyIfNotReloadedInBetween`).
- A visitor can be left waiting for ever: every accepted visitor is served exactly if no more channels were lost than
  there are pool slots and vhost requests (`ConnectionPool.VisitorLeftWaiting`, `ConnectionPool.EveryVisitorServed`).
- The data-channel queue can be full, with the registry's read guard held, exactly for services that the vhost listener
  requests channels for and for pools over 2046 slots (`ConnectionPool.QueueBoundIsTight`); if the service has no
  listener of its own the guard is then never released
  (`ConnectionPool.BlockedForeverExactlyWithoutListener`).
- The UDP reader keeps its first read guard while it asks for the second, so a forwarder asking for the write lock in
  between stops the data channel for good; so does a forwarder that leaves its loop with a full queue
  (`UdpForwarder.DoomReachable`, `UdpForwarder.DeadlockReachable`, `UdpForwarder.QueueDeadlockReachable`,
  `UdpForwarder.ReaderFinishesExactlyUnlessDoomed`).
- A UDP forwarder that returns on a send error leaves its entry behind, and its source is never served again
  (`UdpForwarder.StaleReachable`, `UdpForwarder.StaleExactlyAfterSendError`, `UdpForwarder.StaleForever`).
- A datagram over 65535 bytes would desynchronise the stream (`Protocol.DatagramRoundTripExactly`).  This is a limit of
  the framing functions and not a reachable failure: both senders read datagrams into buffers of 2048 bytes
  (`src/constants.rs:6`).
- When the selection counter wraps, round robin stays fair exactly if the number of members divides 2^64
  (`LoadBalance.FairAcrossWrapExactly`).

## Model

| member | source | states |
|---|---|---|
| ConnectionPool.Conservation | src/server.rs:571-875 | in every reachable state: pending requests + commands in flight + connections being set up or routed + queued channels + the one the pool loop is writing to + lost ones = pool size + vhost requests + visitors not yet paired; visitors are served in the order they were accepted and none is dropped; every queued channel is taken in order and used at most once; both queues stay within their capacities |
| ConnectionPool.StepKeepsConserved | src/server.rs:744-828 | each atomic move of any of the five tasks keeps the conservation law |
| ConnectionPool.StepKeepsOrder | src/server.rs:819-856 | each move keeps first-come-first-served order and loses no visitor |
| ConnectionPool.StepKeepsChannels | src/server.rs:854-871 | each move keeps channels in order, and paired channels a subsequence of the channels taken |
| ConnectionPool.NoChannelPairedTwice | src/server.rs:854-871 | in every reachable state whose delivered connections are different, none was given to two visitors, and none given to a visitor is still queued or in the hands of the pool loop |
| ConnectionPool.StuckExactlyWhenPoolExhausted | src/server.rs:583-587 | with a visitor waiting, no channel is on its way exactly when losses equal the pool, the vhost requests and all waiting visitors together; while losses do not exceed the pool a channel is coming; the system rests only when none is |
| ConnectionPool.EveryVisitorServed | src/server.rs:854-871 | once arrivals and losses stop, every run is bounded (six more moves per failed channel, which is always re-requested); at its end every accepted visitor is paired, in order, if and only if no more channels had been lost than pool slots and vhost requests together |
| ConnectionPool.VisitorLeftWaiting | src/server.rs:854-871 | a run that ends with an accepted visitor and nothing left to move |
| ConnectionPool.InternalRunsEnd | src/server.rs:744-871 | the work measure drops with every move of the system itself, so it cannot run on without failures |
| ConnectionPool.QueueBoundIsTight | src/server.rs:447-456 | some run makes a delivery wait on the full queue of 4096 if and only if the vhost listener requests channels for the service or its pool has more than 2046 slots (4096 without a listener) |
| ConnectionPool.BlockedForeverExactlyWithoutListener | src/server.rs:648-656 | in every reachable state a waiting delivery, which holds the registry's read guard, can get on in some continuation if and only if the service has a listener and so a pool loop |
| ConnectionPool.FindChannel | src/server.rs:855-873 | the inner loop joins the visitor to the first writable queued channel and requests one replacement per broken one, or ends up waiting with the visitor; either way it is a run of the machine |
| ConnectionPool.ServeNext | src/server.rs:854-874 | the pool loop from any moment when it holds no channel, with a new visitor or going on with one that had to wait for a channel |
| MultiMaps.RunsKeepKeysUnique | src/multi_map.rs:58-107 | under any run of insertions and removals no two entries share a key of either kind |
| MultiMaps.RemovalUndoesInsertion | src/multi_map.rs:58-107 | removal by either key undoes an accepted insertion exactly |
| MultiMaps.MultiMap.ContentsUnique | src/multi_map.rs:12-19 | the boxes both indexes share stand for a set of triples unique in each key |
| MultiMaps.MultiMap.Search1 | src/multi_map.rs:17-38 | a lookup in the first index may follow all its keys, so all must point at live boxes; it finds the slot with the key or there is none |
| MultiMaps.MultiMap.Search2 | src/multi_map.rs:17-38 | the same for the second index |
| MultiMaps.MultiMap.Insert | src/multi_map.rs:58-69 | accepted exactly when neither key is present; adds the triple to both indexes; a refusal changes nothing |
| MultiMaps.MultiMap.Get1 | src/multi_map.rs:71-75 | finds a value exactly when the first key is present, and it is that entry's value |
| MultiMaps.MultiMap.Get2 | src/multi_map.rs:83-87 | the same by the second key |
| MultiMaps.MultiMap.Remove1 | src/multi_map.rs:95-100 | removes the entry with that first key from both indexes, frees its box while no key that is searched points at it, and returns its value |
| MultiMaps.MultiMap.Remove2 | src/multi_map.rs:102-107 | the same by the second key |
| MultiMaps.MultiMap.Drop | src/multi_map.rs:110-117 | afterwards every box ever made has been freed exactly once |
| Servers.Server.HandleHotReload | src/server.rs:284-327 | the new table, registry and routes are those of the service change; foreign events change nothing |
| Servers.Server.FinishHandshake | src/server.rs:416-435 | drops the service's previous channel, installs the new one if the acknowledgement was written; refused exactly when another service holds the same session key |
| Servers.Server.RouteDataChannel | src/server.rs:440-463 | a data channel is routed to the handle whose session key it presented, or nowhere if there is none |
| Servers.InsertRefusedExactlyOnForeignKey | src/server.rs:416-435 | the insertion whose result is ignored is refused exactly when another service's channel holds the key |
| RegistryMachine.RegistrySafety | src/server.rs:360-463 | under every interleaving: at most one channel per service and per session key, every key is the digest of the looked-up token and the handshake's nonce, the configuration in use was in the table at lookup, every queued data channel presented its handle's key, and a channel is current exactly if its configuration was current when installed |
| RegistryMachine.ChannelsAuthenticated | src/server.rs:385-434 | in every reachable state each channel's client has named the service and has presented the session key: the digest of the service's token followed by the nonce it was sent |
| RegistryMachine.WrongAnswerRefused | src/server.rs:406-414 | a wrong digest closes the handshake and leaves table, channels and queues alone |
| RegistryMachine.RightAnswerInstalls | src/server.rs:416-435 | the right digest removes the service's previous channel and, if the acknowledgement could be written, installs exactly one channel with an empty queue; other services' channels stay |
| RegistryMachine.HonestClientInstalled | src/server.rs:360-435 | a client that knows the token of a listed service gets its channel, whatever state the server is in |
| RegistryMachine.LookupTakesEntry | src/server.rs:385-398 | the lookup copies the table's entry as it is; without one, or without a token, the handshake ends |
| RegistryMachine.NoLookupDuringAdd | src/server.rs:308-311 | while a service is being added no handshake looks anything up and no other reload starts |
| RegistryMachine.OtherStepsKeepChannels | src/server.rs:308-323 | of all other critical sections the end of a reload alone changes the channels, and removes exactly the reloaded service's |
| RegistryMachine.DataChannelRouted | src/server.rs:447-461 | a data connection goes to the end of the queue of the one channel whose key it presented, if its pool still receives; otherwise nothing happens |
| RegistryMachine.InsertNeverRefused | src/server.rs:429-434 | with fresh nonces and no hash collision the ignored insertion is never refused |
| RegistryMachine.InitOk | src/server.rs:151-163 | the invariant holds of a server that has just started |
| RegistryMachine.CurrentExactlyIfNotReloadedInBetween | src/server.rs:385-434 | in every reachable state, outside a reload of its service, a channel runs with the configuration in the table if and only if the reloads between its handshake's lookup and authentication left that configuration there |
| RegistryMachine.StaleHandleReachable | src/server.rs:385-434 | a reload between lookup and authentication leaves a channel whose configuration is not the table's, for every hash |
| RegistryMachine.StepKeepsCurrent | src/server.rs:308-323 | every critical section keeps "current exactly if installed current" outside a reload of that service |
| RegistryMachine.SuffixDeterminesNonce | src/server.rs:398-405 | token followed by nonce is injective in both parts because the nonce has a fixed width |
| HandshakeProtocol.HandshakeAgreement | src/server.rs:360-438 | for every table, pair of tokens and scheduling: at most five steps; at rest both sides are established with the same key exactly when the service exists and the tokens are equal; otherwise the client has read the acknowledgement that names the reason |
| HandshakeProtocol.RunKeepsInv | src/client.rs:433-464 | every state of the two processes and the bytes in flight between them, and a bound on the steps left |
| HandshakeProtocol.StuckMeansDone | src/client.rs:433-464 | the two sides never wait for each other: a state without a move is an end of the handshake |
| Protocol.HelloFormat | src/protocol.rs:20-28 | hello and auth messages byte by byte |
| Protocol.AckFormat | src/protocol.rs:30-37 | every acknowledgement byte by byte |
| Protocol.CommandFormat | src/protocol.rs:55-68 | every command byte by byte |
| Protocol.LittleEndian | src/protocol.rs:84-100 | integers are written with their least significant byte first |
| Protocol.PacketLengths | src/protocol.rs:160-181 | the five lengths: 37, 32, 4, 4 and 4 bytes |
| Protocol.LengthFitsEveryVariant | src/protocol.rs:160-181 | the one length computed per message type is the encoded length of every variant |
| Protocol.MessageRoundTrip | src/protocol.rs:185-259 | reading a written message returns it and leaves the rest of the stream; a hello of another version gives the version error |
| Protocol.MessagesRoundTrip | src/protocol.rs:185-259 | any sequence of messages decodes back and consumes exactly its bytes |
| Protocol.ReadsEncodingsOnly | src/protocol.rs:185-259 | a read accepts nothing but the encoding of a well-formed message of its type and of the current version |
| Protocol.TruncatedMessage | src/protocol.rs:185-259 | an incomplete message is the end of the stream |
| Protocol.HeaderRoundTrip | src/protocol.rs:72-100 | the datagram header returns the address and the payload length reduced to 16 bits |
| Protocol.DatagramRoundTripExactly | src/protocol.rs:84-143 | a datagram followed by anything reads back as itself, leaving what followed, if and only if its payload has at most 65535 bytes |
| Protocol.DatagramsRoundTrip | src/protocol.rs:84-143 | any sequence of such datagrams comes back in order and consumes exactly its bytes |
| Protocol.FramedDatagram | src/protocol.rs:84-121 | a framed datagram byte by byte, for both address families |
| Protocol.TruncatedDatagram | src/protocol.rs:123-143 | an incomplete datagram is the end of the stream |
| Protocol.EncodeHeader | src/protocol.rs:84-100 | the header has 12 or 24 bytes, so its length fits the one-byte prefix |
| Protocol.ByteStream.WriteDatagram | src/protocol.rs:84-121 | the three writes append exactly the framed datagram |
| Protocol.ByteStream.NextDatagram | src/protocol.rs:123-143 | the reads of the stream give the specified result and remainder, including every error |
| Protocol.ByteStream.NextMessage | src/protocol.rs:185-259 | the same for the handshake messages |
| ConfigDiff.ReplayEffect | src/config_watcher.rs:236-258 | for every iteration order, replaying a diff stores every changed service, removes every deleted one and touches nothing else |
| ConfigDiff.ConfigWatcher.Rescan | src/config_watcher.rs:165-190 | an invalid file changes nothing; a valid one sends its diff against the last valid one and becomes the last one |
| HotReload.GenerateServiceHashmap | src/server.rs:110-120 | the loop builds the table of a fresh start |
| HotReload.StartServer | src/server.rs:123-163 | a new server object is in the state the run loop starts from |
| HotReload.ForwardToServer | src/lib.rs:150-155 | forwarding service events to the server object has the effect that the run loop's specification describes |
| HotReload.RunModeTable | src/lib.rs:196-211 | the run mode for every combination of flags and blocks |
| HotReload.BootTable | src/lib.rs:166-187 | what the first event starts for every combination of flags and blocks: a client with its fresh channels, a server with its fresh table and routes, or nothing |
| HotReload.RunnableExactlyIfItStarts | src/lib.rs:166-187 | the files the reload theorems are about are exactly the well-named ones from which an instance starts |
| HotReload.DownEndsTheLoop | src/lib.rs:131-137 | a restart while the instance is down ends the run loop for good; service events are lost on an instance that is down |
| HotReload.FreshHandlesExactly | src/client.rs:107-141 | a client starts a channel exactly for the services that are not switched off, not visitors, and in the start list if there is one |
| HotReload.FreshTableHoldsEnabled | src/server.rs:110-120 | for every iteration order a fresh table holds exactly the enabled services |
| HotReload.ServerEventsSeen | src/lib.rs:129-158 | unless it is restarted, a running server sees exactly the diff of its own block |
| HotReload.EventNames | src/config_watcher.rs:247-257 | the events name exactly the services added, changed or deleted |
| HotReload.OtherModeKept | src/lib.rs:129-158 | without a General event the run mode is the same and a server stays a server, a client a client |
| HotReload.FollowsFiles | src/lib.rs:129-158 | after any sequence of files, through restarts and changes of the run mode, a server's table holds exactly the enabled services and the disabled ones a reload touched since the last restart |
| HotReload.HotReloadEqualsRestart | src/config_watcher.rs:165-258 | after any sequence of files that ends in server mode and for all iteration orders, the table equals one built afresh from the last valid file if and only if no service added or changed by a reload since the last restart is disabled in it |
| HotReload.DisabledServiceIsListedByReload | src/server.rs:308-309 | a file that passes validation and for which reload and restart differ |
| HotReload.ReloadDropsExactlyAffectedChannels | src/server.rs:308-323 | one reload drops exactly the control channels of services added, changed or deleted and keeps every other entry |
| ReloadRoutes.RoutesForAfter | src/http_proxy.rs:177-183 | what one service change does to the routes of each service |
| ReloadRoutes.RoutesStayExactExactlyIfHttpKept | src/server.rs:291-306 | a service change keeps exactly one route per HTTP(S) service if and only if it does not turn an HTTP(S) service into another kind |
| ReloadRoutes.RoutesForReload | src/server.rs:287-323 | for every iteration order one reload gives each changed HTTP(S) service its new route, takes the route of a deleted one and leaves every other service's routes alone |
| ReloadRoutes.ReloadKeepsRoutes | src/server.rs:287-323 | the routes after one reload: one per listed HTTP(S) service, plus the old route of each service that stopped being HTTP(S) while listed and is still in the file as another kind |
| ReloadRoutes.ReloadKeepsRoutesExactly | src/server.rs:287-323 | one reload keeps exactly one route per listed HTTP(S) service if and only if no service listed as HTTP(S) is in the new file as another kind |
| ReloadRoutes.FreshServerRoutes | src/server.rs:128-150 | a started server has exactly one route per enabled HTTP(S) service |
| ReloadRoutes.RoutesFollowFiles | src/lib.rs:129-158 | after any sequence of files, through restarts and changes of the run mode, the routes are those of the listed services and of the strays |
| ReloadRoutes.RoutesExactExactlyWithoutStrays | src/server.rs:287-323 | after any sequence of files that ends in server mode there is exactly one route per listed HTTP(S) service and no other if and only if no service has left a stray route since the last restart that is still there |
| ReloadRoutes.RouteLeftBehind | src/server.rs:291-306 | two files that pass validation, the second changing a service from HTTP to TCP, and the route left behind |
| ReloadRoutes.AnswersExactlyWithoutTies | src/http_proxy.rs:186-231 | exact routes answer a request as a restart in every iteration order would if and only if no two different routes tie for it |
| ReloadRoutes.ReloadedServerAnswersAsRestarted | src/lib.rs:129-158 | after any sequence of files, without strays and unlisted services, the server answers a request as every restart from the last file would if and only if no two different routes tie for it |
| ClientReload.Client.HandleHotReload | src/client.rs:171-193 | the new set of control channels is that of the service change; additions of disabled services and foreign events are ignored |
| ClientReload.ClientReloadEqualsRestartExactly | src/client.rs:107-141 | one reload gives the channels of a restart if and only if each changed service is either enabled, unprefixed, in the start list and no visitor, or disabled and was not running |
| ClientReload.DisablingIsIgnored | src/client.rs:175-177 | a running client keeps the channel of a service that was disabled |
| ClientReload.PrefixedServiceMisplaced | src/config.rs:836-842 | under a user prefix a changed service ends up under a key where a restart would not put it |
| ClientReload.ReplayGivesHandles | src/client.rs:171-193 | for every iteration order one reload deletes by map key and stores each changed enabled service under its name, whatever the client was running |
| ClientReload.ClientFollowsFiles | src/client.rs:171-193 | the control channels after any sequence of files, through restarts and changes of the run mode |
| ClientReload.ClientHotReloadEqualsRestart | src/client.rs:171-193 | after any sequence of files that ends in client mode the channels are a restart's if and only if, without a user prefix, no service runs that a restart would not start; with one, nothing is stored under a prefixed name and what is left from the last restart is what a restart would run |
| Router.VhostRouter.MatchRoute | src/http_proxy.rs:186-231 | among the routes that serve the host (a domain, or subdomain, dot and suffix, up to the port, ASCII case ignored): the first with the longest non-empty location that is a prefix of the path, else the last without locations, else none |
| Router.RightAnswerUnique | src/http_proxy.rs:186-231 | there is one such answer |
| Router.ScoreMeaning | src/http_proxy.rs:193-226 | when a route is out, a catch-all, or matched by a location of a given length |
| Router.MatchingHostIsServed | src/http_proxy.rs:188-211 | the host test means domain or subdomain.suffix, up to the first colon, letter by letter |
| Basics.IgnoringCaseIsSameText | src/http_proxy.rs:194-205 | ignoring ASCII case means byte by byte the same byte or the capital and small form of one letter |
| Servers.RouteServesItsService | src/server.rs:287-306 | the route made for a service serves exactly the service's hosts and locations |
| Router.Consider | src/http_proxy.rs:193-226 | a route replaces the best match exactly when its location is longer, or both are catch-alls |
| Router.LongestLocation | src/http_proxy.rs:213-226 | the inner loop raises the best length to the longest matching location |
| Router.LongestMatch | src/http_proxy.rs:213-226 | an upper bound of the matching locations that one of them attains |
| Router.VhostRouter.RemoveRoute | src/http_proxy.rs:181-183 | all routes of the service go, the others stay in order |
| Ranking.AnswerIsUnique | src/http_proxy.rs:186-231 | the description of the answer determines it |
| Router.RouteOrderIrrelevantExactlyWithoutTies | src/http_proxy.rs:186-231 | every permutation of the routes gives the same answer if and only if no two different routes tie for the best |
| Sni.ExtractSni | src/http_proxy.rs:61-145 | total on every input; the answer is that of the scan of the first record |
| Sni.SkipToExtensions | src/http_proxy.rs:78-111 | the bounds of the extension block, or none if a field before it does not fit |
| Sni.WalkNames | src/http_proxy.rs:124-139 | the inner loop ends in bounds with the first usable host_name of the list |
| Sni.WalkExtensions | src/http_proxy.rs:114-144 | both loops end in bounds with the first usable host_name |
| Sni.AnswerIsLocal | src/http_proxy.rs:63-76 | an answer is a contiguous piece of the first record, and bytes after a complete record never change it |
| Sni.OnlyClientHello | src/http_proxy.rs:63-80 | anything but a complete record of type 22 that starts with a handshake message of type 1 has no name |
| Sni.TruncatedRecord | src/http_proxy.rs:71-74 | part of a record has no name |
| Sni.NetworkOrder | src/http_proxy.rs:71-71 | lengths have their most significant byte first |
| Sni.SniRoundTrip | src/http_proxy.rs:61-145 | for every well-formed ClientHello in one record, followed by anything, the answer is the first host_name of the encoded server_name extensions if it is UTF-8, and none if there is none |
| Base64.SimpleBase64Encode | src/dashboard.rs:172-205 | the loop computes the encoding |
| Base64.EncodeLength | src/dashboard.rs:172-205 | the encoding of n bytes has 4 * ceil(n / 3) characters |
| Base64.SymbolIsLetter | src/dashboard.rs:173-173 | the alphabet, value by value |
| Base64.GroupMeaning | src/dashboard.rs:176-202 | four characters are the digits in base 64 of the number whose digits in base 256 are the three bytes, with padding for missing bytes |
| Base64.EncodedMan | src/dashboard.rs:172-205 | "Man", "Ma" and "M" encode to "TWFu", "TWE=" and "TQ==" |
| Base64.Feed | src/http_proxy.rs:345-351 | the accumulator holds fewer bits than a byte between characters, and twelve at most in between |
| Base64.Base64DecodeBytes | src/http_proxy.rs:331-355 | the loop computes the decoding of any text, stops at padding and fails on a foreign character |
| Base64.DecodesExactly | src/http_proxy.rs:337-352 | decoding fails exactly if a character before the padding is outside the alphabet, and otherwise yields a byte for every eight bits |
| Base64.RoundTrip | src/http_proxy.rs:331-355 | decoding the dashboard's encoding returns the original bytes, for every input |
| Base64.EncodeInjective | src/dashboard.rs:172-205 | different inputs have different encodings |
| Base64.ValidateBasicAuth | src/http_proxy.rs:313-323 | accepts exactly when the first usable Basic header carries the user and password |
| Base64.CredentialsExactly | src/http_proxy.rs:313-329 | which headers carry credentials: name in any case, scheme in its very spelling, the trimmed rest decoding to text |
| Base64.UserPassAccepted | src/http_proxy.rs:450-459 | the header "Basic dXNlcjpwYXNz" carries "user:pass" |
| Base64.SpaceIsWhiteSpace | src/http_proxy.rs:317-317 | the trimmed characters are those with the White_Space property |
| Base64.TrimStartExactly | src/http_proxy.rs:317-317 | trimming at the start, character by character |
| Base64.TrimEndExactly | src/http_proxy.rs:317-317 | trimming at the end, character by character |
| Utf8.ValidExactlyIfText | src/http_proxy.rs:328-328 | a byte string is accepted if and only if it is the UTF-8 encoding of a sequence of scalar values |
| Base64.CredentialsRoundTrip | src/http_proxy.rs:313-329 | a header made with the encoder carries exactly the credentials that went in |
| HeaderReader.ReadHttpHeader | src/http_proxy.rs:290-310 | the loop returns the specified header or error for every way the stream arrives |
| HeaderReader.HeaderReadExactly | src/http_proxy.rs:290-310 | for every chunking: success exactly when at most 8192 bytes arrive before the piece that completes the first terminator; then the result is a stream prefix of at most 9216 bytes with the terminator; ends within 8192 always succeed, ends after 9216 always fail |
| HeaderReader.ErrorExactly | src/http_proxy.rs:294-308 | without a terminator: too large exactly if more than 8192 bytes arrive, otherwise the connection's error or its end |
| HeaderReader.NeverWithoutTerminator | src/http_proxy.rs:290-310 | without a terminator no chunking succeeds |
| Bandwidth.TokenBucket.Consume | src/bandwidth.rs:33-41 | succeeds exactly when the refilled bucket has the tokens, and then debits them |
| Bandwidth.RefillExact | src/bandwidth.rs:26-31 | a refill adds exactly the rate times the elapsed time, up to the maximum, and changes nothing else but the instant |
| Bandwidth.PollMakesProgress | src/bandwidth.rs:101-123 | a poll is pending on its own account exactly until a whole token has accrued; then it offers at least one byte, at most what is wanted, and as much as the tokens allow |
| Bandwidth.TokenBucket.Poll | src/bandwidth.rs:93-162 | one metered poll: what it reports, that the debit after the transfer always succeeds, that every byte is debited and that tokens stay between 0 and the maximum |
| Bandwidth.TokenBucketBound | src/bandwidth.rs:26-46 | over every run and every time window the bytes moved in the window are at most burst + rate * length |
| Bandwidth.MovedFromBucket | src/bandwidth.rs:26-46 | from a given bucket at most its tokens plus what accrues can be moved |
| LoadBalance.LoadBalanceGroup.NextMember | src/load_balance.rs:43-49 | the member under the wrapping counter, which advances by one |
| LoadBalance.RoundRobinFair | src/load_balance.rs:43-49 | over any n selections that do not pass the counter's wrap each of m members is chosen floor(n/m) or ceil(n/m) times |
| LoadBalance.FairAcrossWrapExactly | src/load_balance.rs:43-49 | the same holds across the wrap if and only if m divides 2^64 |
| LoadBalance.SelectionsCounted | src/load_balance.rs:43-49 | how often a member is selected is how often the counter's remainder is its index |
| LoadBalance.SelectionsInOrder | src/load_balance.rs:43-49 | selections go through the members in order and round again |
| LoadBalance.RegistrationEffect | src/load_balance.rs:84-103 | an accepted registration adds the service to its group, a wrong key changes nothing, other groups stay |
| LoadBalance.UnregistrationEffect | src/load_balance.rs:106-113 | the service leaves its group, the group goes exactly when nobody else was in it, other groups stay |
| LoadBalance.LoadBalanceManager.Register | src/load_balance.rs:84-103 | accepted exactly when the group is new or the key is the group's; the groups afterwards |
| LoadBalance.LoadBalanceManager.Unregister | src/load_balance.rs:106-113 | removes the member, and the group with its last member |
| LoadBalance.RunsKeepGroups | src/load_balance.rs:84-113 | under any run of registrations no group is empty and no member is listed twice |
| LoadBalance.KeyIsFounders | src/load_balance.rs:84-113 | a group's key is that of the registrant that founded it, until the group empties |
| UdpForwarder.ForwarderSafety | src/client.rs:324-401 | in every interleaving each live forwarder's source is mapped to it, each entry belongs to a forwarder of that source, and every reply carries the source that created its forwarder |
| UdpForwarder.OneForwarderPerSource | src/client.rs:324-401 | in every reachable state at most one live forwarder per source, and a forwarder that removes an entry removes its own and no other |
| UdpForwarder.OutboundIsReplies | src/client.rs:379-392 | over any run the outbound queue grows by exactly what local services sent, in order, unaltered, each under its forwarder's source |
| UdpForwarder.InboundIsFifo | src/client.rs:353-377 | over any run a forwarder takes exactly the datagrams handed to it, in order and unaltered |
| UdpForwarder.PacketKept | src/client.rs:324-357 | the reader holds the datagram it received, and no other, until it hands it over |
| UdpForwarder.NewSourceMapped | src/client.rs:331-350 | an unmapped source gets a forwarder of its own if the local socket can be opened, otherwise nothing |
| UdpForwarder.ServedExactlyUnlessStale | src/client.rs:324-401 | in every reachable state a mapped source is served by a live forwarder if and only if its entry is not stale |
| UdpForwarder.StaleExactlyAfterSendError | src/client.rs:372-401 | in any run a source becomes stale if and only if a forwarder of that source meets a send error |
| UdpForwarder.StaleForever | src/client.rs:324-401 | a stale entry is never replaced, so its source is never served again |
| UdpForwarder.StaleReachable | src/client.rs:372-392 | a run that ends with a stale entry |
| UdpForwarder.LockSafety | src/client.rs:324-357 | in every reachable state the lock's queue holds one request per waiting task and the reader's guards are those of its position |
| UdpForwarder.ReaderFinishesExactlyUnlessDoomed | src/client.rs:324-357 | in every reachable state in which the reader handles a datagram, moves of the reader and the forwarders can bring it back to its loop if and only if it is not doomed, a test on the lock's queue and the mapped forwarder that can be made before either read request is granted; if it is doomed, nothing can |
| UdpForwarder.DoomedForever | src/client.rs:324-357 | a doomed reader stays doomed in every continuation |
| UdpForwarder.DeadlocksAreDoomed | src/client.rs:329-357 | both deadlocks are doomed states |
| UdpForwarder.DeadlockForever | src/client.rs:329-357 | either deadlock persists in every continuation |
| UdpForwarder.DoomReachable | src/client.rs:329-353 | a run in which a remover dooms the reader while it holds only its first guard |
| UdpForwarder.DeadlockReachable | src/client.rs:329-357 | its continuation in which reader and remover wait for each other |
| UdpForwarder.QueueDeadlockReachable | src/client.rs:353-357 | a run in which the reader waits for room in the full queue of a forwarder that has left its loop |

## Left out

- The transports (TCP, TLS, Noise, WebSocket), socket options, DNS and backoff: I/O through foreign libraries.
- Forwarding bytes between a visitor and its channel once they are paired, and the server's UDP connection pool.
- Visitor mode on both sides, and the secret-key handshake that goes with it.
- Configuration parsing and validation; only the names it assigns are facts of the model.
- Reload theorems for sequences with a file that determines no run mode or lacks the block its mode needs:
  `HotReload.BootTable` and `HotReload.DownEndsTheLoop` say what such a file does instead.
- Timeouts, heartbeats and loss of the connection in the middle of a handshake; in `Registry.dfy` a failed write of the
  acknowledgement is modelled.
- `get1_mut` and `get_mut2` of the registry, which hand out a mutable reference to a value.
- HTTP request parsing (a library call), request rewriting and canned responses (string formatting), the dashboard's
  pages, metrics, health checks and plugins (counters, a flag and copied fields): none of them has state or branching
  that spans functions.
- The run loop, the configuration watcher's select loop and the concurrent parts of the pool, the registry, the handshake and the
  UDP channel are modelled on values as state machines, not as objects updated in place; `ConnectionPool.ServeNext`,
  the methods of `Servers.Server` and `HotReload.ForwardToServer` tie the loops and objects to them.
- The contents of handles other than their configuration, so that dropping a handle has no further effect than leaving
  the registry.
- Bandwidth.TokenBucketBound: floating-point rounding is not modelled; tokens and instants are reals.
- Bandwidth.MovedFromBucket: the same.
- Protocol.DatagramRoundTripExactly: an IPv6 address is its 16 bytes and its port; flow information and scope, which are not
  serialised, are not part of it.
- Sni.SniRoundTrip: the 24-bit length inside the handshake message is encoded but, as in the code, never looked at.
- UdpForwarder.ForwarderSafety: the outbound queue towards the server is not bounded, so replies never wait.
- ConnectionPool.QueueBoundIsTight: the service is one whose channels are requested by its listener and, for HTTP(S), by the vhost
  listener; channels requested for stcp visitors are not part of it.

# waycast, modelled and verified in Dafny

waycast is a Miracast source: it finds a television over Wi-Fi Direct, negotiates with it over RTSP,
opens exactly the network it needs through a privileged helper, and streams the screen. This project
models the parts of it whose correctness is a matter of logic rather than of drivers, and proves what
its documentation and tests promise about them. `dafny verify dfyconfig.toml` checks everything.

The model follows the program's structure, one module a component:

- `Text.dfy`: the string operations of the Rust standard library (searching, lines, words, trimming,
  printing and parsing numbers) with their laws.
- `VideoModes.dfy`, `VideoFormats.dfy`, `Daemon.dfy`: the capability parser, the mode selection with the
  macroblock limits of Annex A of ITU-T H.264, the M4 line, and the geometry the pipeline is built with.
- `RtspMessages.dfy`, `RtspSession.dfy`, `Parameters.dfy`, `TransportPorts.dfy`, `SetupAgreement.dfy`,
  `Framing.dfy`, `PeerDialogue.dfy`, `PeerReplies.dfy`, `OwnRequests.dfy`, `RtspClient.dfy`,
  `RtspConnection.dfy`, `CapabilityExchange.dfy`: printing and parsing of RTSP (RFC 2326), the answering session, its
  parameters and the ports it is offered, the byte framing, the dialogue in which both ends send requests on one
  connection, and the whole negotiation.
- `RuleText.dfy`, `Firewall.dfy`, `RuleInputs.dfy`, `AcceptedChain.dfy`, `NetworkService.dfy`: the temporary
  firewall rules, what they admit packet by packet, the comparison with the live chain, and the privileged one-session service with
  an environment that flushes and edits the chain, replaces interfaces and loses callers.
- `ManagedBlock.dfy`, `Picker.dfy`, `PickerScan.dfy`: the block appended to the portal configuration and taken
  out again, and the search for the picker configured before.
- `UfwHook.dfy`, `UfwLines.dfy`, `UfwMarkers.dfy`: the installer's edit of the administrator's firewall rules
  file, by characters, by lines and by its markers.
- `HdcpFraming.dfy`, `HdcpHandshake.dfy`, `HdcpRun.dfy`: cutting the HDCP control stream into messages, and the
  source's side of the handshake, step by step and over whole runs.
- `Breadcrumb.dfy`: the records on disk from which a crashed session's sink or output is recovered.

Code that works by changing state is a class or a method with loops, proved against a specification
function; the theorems are about those functions and about the invariants the methods keep. What the
program leaves open (hash-map order, random nonces, ports picked by the kernel, whether a command
succeeds, what others do meanwhile) is an arbitrary choice.

Some promises turned out to hold only under a condition. The exact condition is proved, in both
directions, together with an input that shows the failure:

- A printed GET_PARAMETER or SET_PARAMETER parses back to what was meant exactly when the session
  identifier, which the sink chooses, does not contain `wfd_`: else its header line is taken for a parameter
  (`RtspMessages.SetParameterRoundTrip`, `RtspMessages.GetParameterRoundTrip`,
  `RtspMessages.SessionThatMentions`).
- A live rule that the comparison accepts, printed with single spaces, never admits more than the rendered
  one, and admits the same exactly when what cleaning removes from it is whole protocol modules, each beside
  its protocol. A module name inside a word is removed too: the DHCP rule with `-p u -m udpdp` in place of
  `-p udp` is accepted and admits nothing (`AcceptedChains.AcceptedRule`,
  `AcceptedChains.TornRuleAdmitsNothing`); iptables prints no such rule by itself.
- Parsing a request gives a message or an error, except exactly for a SETUP, PLAY or TEARDOWN whose first
  session line is the bare name, or a SETUP whose first transport line is: these end the process
  (`RtspMessages.PanicsExactly`, `RtspMessages.BareSessionPanics`).
- Without a selected mode M4 still promises 1080p30, while the pipeline is built with what is configured: the
  promise is kept exactly when that is 1920 by 1080 at 30 frames, or extend mode at 30 frames
  (`DaemonGeometry.FallbackKeepsPromise`).
- The RTP and the RTCP port are read from the same range of a Transport header only when no white space stands
  before the field: with white space the RTCP port is authorized and the RTP port is not taken
  (`TransportPorts.RangeOffered`).
- Removing the managed block restores the text exactly when the script's path does not contain the end
  sentinel (`ManagedBlocks.StripUndoes`).
- Leftover blocks keep the fallback picker exactly when the text names a picker or the script's path is
  harmless (`Pickers.LeftoversDoNotMatter`).
- Installing the firewall hook keeps the administrator's lines whole exactly when a rule precedes the first
  `COMMIT` or that `COMMIT` starts a line. A comment that mentions `COMMIT` before the first rule is cut in
  two, and its rest becomes a line of its own (`UfwLines.LinesStayWhole`, `UfwLines.CommentIsBroken`).
- HDCP messages are independent of how the stream is cut exactly for streams of known messages
  (`HdcpFraming.ChunkingDoesNotMatter`).
- The record from which the latest sink or output is recovered can be lost while that still exists
  (`Breadcrumbs.RecoverableExactly`, `Breadcrumbs.WrittenRunsExactly`). `sink_exists` documents that a failing
  `pactl` keeps the record, but a `pactl` that starts and then fails prints nothing, which reads as "gone"
  (`Breadcrumbs.FailedListingForgets`); a guard that rolls back an output it could not identify, and a process
  whose own record was not written or was cut short, delete the record of an older one
  (`Breadcrumbs.GuardForgetsOlder`, `Breadcrumbs.UnrecordedForgetsOlder`, `Breadcrumbs.CutRecordForgetsOlder`).

## Model

| member | source | states |
|---|---|---|
| VideoModes.ParseFormats | crates/rtsp/src/lib.rs:415-459 | the loop over chunks computes the recursive reading of the value, failing as a whole when the first entry fails and dropping later entries that do |
| VideoFormatLines.EveryEntryParsed | crates/rtsp/src/lib.rs:415-459 | for every list of codec entries, printed in chunks joined by commas, with any white space, further fields and letter case of the numbers, the parser returns exactly these entries in order, with native and preferred mode |
| VideoFormatLines.UnreadableIgnored | crates/rtsp/src/lib.rs:428-433 | a later chunk with too few fields or an unreadable number changes nothing |
| VideoFormatLines.FirstChunkDecides | crates/rtsp/src/lib.rs:415-430 | a value is refused exactly when its first chunk has fewer than thirteen words or one of the five numbers is unreadable |
| VideoModes.ParsedFieldsAreFields | crates/rtsp/src/lib.rs:415-459 | every field kept from an advertised value is a single word that prints back unchanged |
| VideoModes.LowestSufficientLevelIsLowest | crates/rtsp/src/lib.rs:464-501 | the level named is advertised, carries the mode's frame and macroblock rate, and no lower advertised level does; none is named exactly when none suffices |
| VideoFormatLines.ProgressiveModes | crates/rtsp/src/lib.rs:351-371 | the progressive modes of the table: VGA and SD at their rates, 720p and 1080p at 24, 25, 30, 50 and 60 frames |
| VideoFormatLines.LowestLevels | crates/rtsp/src/lib.rs:464-501 | of all levels the lowest that carries a mode is 3.1 up to 720p30, 3.2 for faster 720p, 4.0 for 1080p up to 30 frames and 4.2 for faster 1080p |
| VideoModes.SelectVideoMode | crates/rtsp/src/lib.rs:247-306 | for every string and caps: no result exactly when nothing parses or nothing advertised is producible within the caps; otherwise the lexicographically largest (area, framerate), the earliest entry and row on ties, with its M4 line |
| VideoModes.SelectionUnique | crates/rtsp/src/lib.rs:247-306 | the specification of the selection allows one result only |
| VideoModes.RaisingCapsNeverHurts | crates/rtsp/src/lib.rs:261-291 | larger caps never lose a selection nor make it smaller |
| VideoModes.ParseRendered | crates/rtsp/src/lib.rs:293-306 | the parser reads the rendered M4 line back as one entry with the profile, level, CEA bit and tail that were printed |
| VideoModes.M4FixedPoint | crates/rtsp/src/lib.rs:291-306 | the M4 line has one profile, one level, one CEA bit and no VESA or HH bit, keeps native, preferred and tail fields, and selecting again from it returns the identical mode and line |
| DaemonGeometry.PipelineKeepsPromise | crates/daemon/src/lib.rs:2030-2063 | whenever a mode is selected the pipeline's geometry is what the single CEA bit of the M4 line denotes, within the configured caps |
| DaemonGeometry.FallbackReads | crates/daemon/src/lib.rs:1911-1918 | a sink reads the fallback as constrained baseline at level 4.0 with the one CEA bit of 1080p30 |
| DaemonGeometry.FallbackKeepsPromise | crates/daemon/src/lib.rs:2030-2063 | without a selected mode the pipeline gets the configured geometry, in extend mode 1080p at ten megabits, which is what M4 denotes exactly when that is 1920 by 1080 at 30 |
| DaemonGeometry.FallbackIsAnswered | crates/rtsp/src/lib.rs:706-712 | a query of the video formats is answered with the same fallback while nothing is stored |
| DaemonGeometry.EarlierSessionsForgotten | crates/daemon/src/lib.rs:1873-1922 | the selection depends on this sink's capabilities and the caps alone |
| DaemonGeometry.Daemon.ExchangeCapabilities | crates/daemon/src/lib.rs:1873-1922 | after the exchange the remembered mode is the one this sink's value selects, whatever was remembered before, and M4 carries its line or the fallback |
| DaemonGeometry.Daemon.NegotiateStream | crates/daemon/src/lib.rs:2009-2063 | a stream is built only after exchange and PLAY succeed, and then with the geometry promised in the M4 line that was sent |
| DaemonGeometry.Daemon.Serve | crates/daemon/src/lib.rs:297-310 | over any number of negotiations on one daemon, each followed by teardown, every stream is the one its own negotiation determines, whatever earlier ones selected, and nothing stays selected |
| DaemonGeometry.BuiltOnce | crates/daemon/src/lib.rs:2009-2063 | a negotiation determines its stream: two streams built for the same one have the same M4 line and geometry |
| Text.NumbersThatFit | crates/rtsp/src/lib.rs:1012-1034 | a printed number is read at 16, 32 or 64 bits exactly when it fits |
| RtspMessages.SetParameterRoundTrip | crates/rtsp/src/lib.rs:1798-1833 | for every map of trimmed `wfd_` assignments, every order of printing it and with or without a session, parsing the printed SET_PARAMETER returns the same map and CSeq, exactly when the session identifier does not contain `wfd_` |
| RtspMessages.GetParameterRoundTrip | crates/rtsp/src/lib.rs:1740-1770 | parsing the printed GET_PARAMETER returns the same names in the same order, and the CSeq, exactly when the session identifier does not contain `wfd_` |
| RtspMessages.SessionThatMentions | crates/rtsp/src/lib.rs:1821-1823 | the identifier `wfd_1` prints a header line that reads as an assignment |
| RtspMessages.ParseHead | crates/rtsp/src/lib.rs:1012-1045 | a request whose second line is a CSeq is dispatched on its method with that number |
| RtspMessages.PanicsExactly | crates/rtsp/src/lib.rs:1012-1110 | a message ends the process that parses it exactly when it is a readable SETUP, PLAY or TEARDOWN whose first session line is the bare name, or such a SETUP whose first transport line is |
| RtspMessages.BareSessionPanics | crates/rtsp/src/lib.rs:1091-1110 | for every URI and number, a PLAY with a bare session line is such a message |
| RtspSessions.RtspSession.ProcessGetParameter | crates/rtsp/src/lib.rs:692-755 | the loop answers the names in order from what is stored, else the defaults, fails on the first unknown name, and changes the state only on success |
| Parameters.AnsweredByName | crates/rtsp/src/lib.rs:692-755 | a query succeeds exactly when all names are known and is answered name by name in order, a stored value winning over the default; otherwise it fails on the first unknown name |
| Parameters.KnownNames | crates/rtsp/src/lib.rs:157-172 | the names that can be queried are these twelve |
| Parameters.Spellings | crates/rtsp/src/lib.rs:157-172 | two names stand for one capability only when one is the other without its last letter |
| Parameters.Defaults | crates/rtsp/src/lib.rs:706-742 | which names have a default, and what it is |
| RtspSessions.RtspSession.ProcessSetParameter | crates/rtsp/src/lib.rs:757-786 | iterating the map in some order stores every known parameter and IDR request; the first unknown one fails, keeping what was stored before it |
| Parameters.SetIsStored | crates/rtsp/src/lib.rs:757-786 | assignments succeed exactly when every name can be set; then every capability has the value last assigned under any of its spellings, or its old one |
| Parameters.SetThenGet | crates/rtsp/src/lib.rs:692-786 | what was set under one spelling of a name is answered to a query of any of its spellings |
| CapabilityExchanges.CapabilitiesArrive | crates/rtsp/src/lib.rs:1740-1796 | a query of known names, answered by one end and read by the other, gives exactly the names with a stored or default value, each with that value |
| RtspSessions.RtspSession.ProcessSetup | crates/rtsp/src/lib.rs:788-833 | the destination becomes the first port of the first parseable client range, otherwise it stays; SETUP after SET_PARAMETER starts playing |
| TransportPorts.RangeOffered | crates/rtsp/src/lib.rs:1491-1500 | of a printed range `p-q` in any header, q is authorized for RTCP exactly when it is a 16-bit port other than 0, and p becomes the RTP port exactly when it is one and no white space precedes the field |
| TransportPorts.SinglePortOffered | crates/rtsp/src/lib.rs:1491-1500 | a port without a dash offers no RTCP port |
| TransportPorts.NothingOffered | crates/rtsp/src/lib.rs:1491-1500 | a header without a port field offers neither port |
| PeerReplies.RecordedState | crates/rtsp/src/lib.rs:788-875 | which state each request records; a SETUP with readable ports that follows SET_PARAMETER starts playing |
| PeerDialogue.StateNeverMatters | crates/rtsp/src/lib.rs:848-875 | PLAY and TEARDOWN only record a state: in every dialogue the replies, failures and everything else stored are the same whatever state was recorded before |
| SetupAgreement.ReadSetupResponse | crates/rtsp/src/lib.rs:1866-1929 | the loop over the response lines computes the fold in which later Session and Transport lines win |
| PeerReplies.ServerPortRead | crates/rtsp/src/lib.rs:1888-1920 | of a transport line of any peer the client takes the first port behind `server_port=`, whatever field or transport follows, when it is a 16-bit one |
| PeerReplies.SessionRead | crates/rtsp/src/lib.rs:1871-1887 | the client takes any plain identifier and any 32-bit timeout that a session line names |
| PeerReplies.AnswerWithoutOffer | crates/rtsp/src/lib.rs:828-833 | a SETUP without readable ports is answered with the range 5004-5005, and the client still reads port and identifier |
| SetupAgreement.SetupRequestParses | crates/rtsp/src/lib.rs:1836-1862 | the responder reads back CSeq, session and transport of a printed SETUP |
| OwnRequests.OptionsRoundTrip | crates/rtsp/src/lib.rs:1726-1738 | the other end reads a printed OPTIONS with its CSeq |
| OwnRequests.PlayRoundTrip | crates/rtsp/src/lib.rs:1932-1952 | the other end reads a printed PLAY with its CSeq and session |
| SetupAgreement.SetupAgrees | crates/rtsp/src/lib.rs:792-833 | for every 16-bit port (65535 where the build wraps) and every source pair, after SETUP the responder has the client's port and authorizes the one above it for RTCP, and the client has the source's port, the session id and timeout 30 |
| Framing.ReadHeader | crates/rtsp/src/lib.rs:1413-1430 | reading byte by byte stops exactly behind the first blank line or at the end of the input |
| Framing.ReadMessage | crates/rtsp/src/lib.rs:1413-1445 | reads exactly the first message of what is pending, leaving the rest untouched, or fails as the code does on a closed or short stream |
| Framing.FrameStops | crates/rtsp/src/lib.rs:1413-1445 | a well-formed message is read exactly, whatever follows it |
| Framing.FramesOfConcat | crates/rtsp/src/lib.rs:1413-1445 | any concatenation of well-formed messages is cut into exactly those messages, in order |
| Framing.UniqueFraming | crates/rtsp/src/lib.rs:2007-2022 | two sequences of well-formed messages with the same bytes are the same sequence |
| Framing.ReadMessages | crates/rtsp/src/lib.rs:1413-1445 | repeated reading returns the messages at the start of a stream and consumes nothing of what is behind them |
| Framing.RequestIsMessage | crates/rtsp/src/lib.rs:1740-1833 | a printed request whose headers announce its body's length is one well-formed message |
| OwnRequests.LengthRead | crates/rtsp/src/lib.rs:2007-2022 | the first header line that names a length decides, in any letter case, when it is a 64-bit number, else nothing follows the headers |
| OwnRequests.RequestsAreMessages | crates/rtsp/src/lib.rs:1726-1952 | OPTIONS, SETUP and PLAY are written as one message each |
| Framing.SetParameterDelivered | crates/rtsp/src/lib.rs:1798-1833 | what SET_PARAMETER writes, with anything behind it, is framed as one message, which parses to the same map and CSeq exactly when the session identifier does not contain `wfd_` |
| PeerDialogue.EveryRequestAnswered | crates/rtsp/src/lib.rs:1455-1618 | in every dialogue without error each request is answered once, in order, with its own CSeq; every SETUP reply names one unchanging pair and follows the authorization of that pair when an authorizer is set |
| OwnRequests.RepliesAreNoRequests | crates/rtsp/src/lib.rs:1564-1618 | every reply starts with the protocol's name, by which it is told from requests, and nothing that parses as a request does |
| PeerDialogue.RunKeepsPair | crates/rtsp/src/lib.rs:1490-1530 | the reserved ports never change once reserved, nor does the session id |
| PeerDialogue.PortOfLatestSetup | crates/rtsp/src/lib.rs:1564-1618 | the destination port after a dialogue is that of the latest SETUP with a parseable client port |
| PeerDialogue.PairIsEvenOdd | crates/rtsp/src/lib.rs:1166-1185 | the pair is an even port and the odd one above it (section 11 of RFC 3550), over every dialogue |
| RtspClients.RtspClient.Bind | crates/rtsp/src/lib.rs:1166-1185 | whatever ports the kernel offers, what is reserved is an even port below 65535 and its neighbour |
| RtspClients.RtspClient.BuildPeerRequestResponse | crates/rtsp/src/lib.rs:1455-1560 | the reply and the new state are those of the specification of one exchange, and a SETUP is authorized before it is answered; it fails only as the specification does, or when ports or their authorization are refused |
| RtspClients.RtspClient.WaitForPeerPlay | crates/rtsp/src/lib.rs:1564-1618 | on success what was read, cut into messages, and what was written are such a dialogue ending in PLAY, and the result carries the transport, and the port of the latest parseable SETUP or 5004 |
| RtspClients.HostOfAddress | crates/rtsp/src/lib.rs:1447-1453 | the address that a stream goes to is the peer's, without its port |
| RtspClients.RtspClient.ReadResponse | crates/rtsp/src/lib.rs:1968-2005 | while a response is awaited every request read is answered as in the dialogue; the response is the first message that is not a request; the stream has lost exactly these messages and gained exactly these answers |
| RtspClients.RtspClient.SendOptions | crates/rtsp/src/lib.rs:1726-1738 | the request is written with the next CSeq, the requests read before the first response are answered, and nothing else is read or written; all CSeqs sent so far strictly increase |
| RtspClients.RtspClient.SendGetParameter | crates/rtsp/src/lib.rs:1740-1796 | writes the printed request with the next CSeq, answers what is read before the response, and returns the `wfd_` lines of the response read; an empty list sends nothing |
| RtspClients.RtspClient.SendSetParameter | crates/rtsp/src/lib.rs:1798-1833 | writes the map, printed in some order, with the next CSeq, and answers what is read before the response; an empty map sends nothing |
| RtspClients.RtspClient.SendSetup | crates/rtsp/src/lib.rs:1836-1929 | writes SETUP with the next CSeq, answers what is read before the response, reads that as modelled and stores a non-empty session id; port 65535 fails where overflow is checked and wraps elsewhere |
| RtspClients.RtspClient.SendPlay | crates/rtsp/src/lib.rs:1932-1952 | writes PLAY with the next CSeq and answers what is read before its response |
| RtspConnections.Negotiate | crates/daemon/src/lib.rs:1785-1945 | over the whole negotiation the bytes read are the messages of the trace and the bytes written its requests and replies; our side is OPTIONS, GET_PARAMETER and a SET_PARAMETER for each setting made of the sink's answer, numbered consecutively, each followed by its response; the sink's requests form one dialogue that ends with PLAY, answered in order with their own CSeqs and one unchanging pair; the result carries the port of the latest SETUP since the connection was made |
| RuleText.SortPermutation | crates/networkd/src/firewall.rs:210-216 | two rules sort to the same pairs exactly when they have the same pairs, counted |
| RuleText.NormalFormOfPairs | crates/networkd/src/firewall.rs:210-216 | reordering flag/value pairs does not change the normal form |
| RuleText.NormalForm | crates/networkd/src/firewall.rs:210-216 | the normal form has the words of the sorted pairs, as many as the rule |
| RuleText.NormalFormDetermines | crates/networkd/src/firewall.rs:210-216 | when one of two rules has an even number of words, equal normal forms mean the same pairs, and conversely |
| RuleText.OddTokensConfuse | crates/networkd/src/firewall.rs:210-216 | rule lines with an odd number of words and different pairs share a normal form, for every choice of three ordered words; rendered rules have an even number |
| Firewall.ProtocolModuleIgnored | crates/networkd/src/firewall.rs:196-216 | naming `-m tcp` or `-m udp` anywhere in a rule that has none does not change the normal form |
| Firewall.IpRoundTrip | crates/networkd/src/firewall.rs:147-154 | printed addresses are parsed back, so different addresses print differently |
| RuleInputs.AddressExactly | crates/networkd/src/service.rs:325-334 | a text is read as an address exactly when it is that address as it is printed |
| Firewall.Render | crates/networkd/src/firewall.rs:133-169 | the rules are pushed in order, with the code's three refusals |
| RuleInputs.RenderedExactly | crates/networkd/src/firewall.rs:86-169 | rules are rendered exactly for names of one to fifteen letters, digits, underscores and dashes, an RTSP port from 1024 on and, with RTCP, known addresses, such a port here and a port there |
| Firewall.GroupTextDenotes | crates/networkd/src/firewall.rs:10-10 | the group number that the rules print in hexadecimal is the one that interfaces are tagged with |
| Firewall.LinesAdmit | crates/networkd/src/firewall.rs:133-169 | the rendered rules admit exactly DHCP replies, DHCP requests as group owner (section 4.1 of RFC 2131), control TCP narrowed by the known addresses, and the one RTCP flow, all on the tagged interface |
| Firewall.Unchanged | crates/networkd/src/firewall.rs:193-206 | the loop accepts exactly when the printed rules, normalized, are the rendered rules, normalized |
| Firewall.CleanedAgrees | crates/networkd/src/firewall.rs:210-216 | a printed rule whose removed parts are whole modules, each beside its protocol, admits packet by packet what its cleaned pairs admit |
| Firewall.PrintedIsWhole | crates/networkd/src/firewall.rs:210-216 | every line made of rendered options and of modules beside their protocol, in any order, is such a rule |
| Firewall.LongerModuleMisread | crates/networkd/src/firewall.rs:210-216 | a longer module name loses its front: its rule is compared as one without the option and with a longer protocol name |
| Firewall.IntactChainAdmits | crates/networkd/src/firewall.rs:186-207 | when the comparison accepts, the live chain, read as it is printed, admits exactly the packets the session's rules describe |
| AcceptedChains.AcceptedRule | crates/networkd/src/firewall.rs:186-216 | a rule that is taken for a rendered one never admits a packet that this does not, and admits the same packets exactly when what cleaning removes from it is whole modules beside their protocol |
| AcceptedChains.AcceptedAdmitsNoMore | crates/networkd/src/firewall.rs:186-207 | an accepted chain, whoever wrote its rules, admits no packet that the session's rules do not describe |
| AcceptedChains.TornRuleAdmitsNothing | crates/networkd/src/firewall.rs:210-216 | for every session, its DHCP rule with a module name put inside the word `udp` is taken for the rendered rule and admits nothing |
| NetworkServices.Kernel.Cleanup | crates/networkd/src/firewall.rs:288-295 | after success no rule is left, unless others edited the chain during the call; in calm times it succeeds and no rule is left |
| NetworkServices.Kernel.Claim | crates/networkd/src/firewall.rs:45-70 | in calm times an interface is tagged exactly when it is the validated one with no other tag, and then nothing else of it changes |
| NetworkServices.Kernel.Apply | crates/networkd/src/firewall.rs:172-183 | success leaves exactly these rules, unless others act before it returns; failure leaves what others left, or the new rules with the failure unacknowledged; in calm times it succeeds exactly with the interface, the hook and the chain in place, and then the chain holds the rules |
| NetworkServices.Kernel.Intact | crates/networkd/src/firewall.rs:186-207 | acceptance means that the chain compares equal to the rules now; nothing is written; in calm times acceptance is exactly that, with interface and hook in place |
| NetworkServices.AgreementMeans | crates/networkd/src/service.rs:391-416 | packet by packet: without a session nothing is admitted, with an untouched one exactly what its rules describe, after a flush nothing, and after an unacknowledged command exactly what the rules of an attempted flow of this session describe |
| NetworkServices.SocketsAccepted | crates/networkd/src/service.rs:312-389 | sockets pass exactly when they are one connection and two datagram sockets on the session's address, the connection uses port 7236 here or the sink's port there, its peer is a plausible neighbour or the group owner, and the media ports are an unprivileged even one and the next |
| NetworkServices.AuthorizedIsOk | crates/networkd/src/service.rs:264-271 | an authorized session pins its sockets exactly when it has a peer, names the pinned odd RTCP port above an even port from 1024 on, all on the local address, with the group owner or a neighbour in our group as peer |
| NetworkServices.AuthorizedDescribes | crates/networkd/src/service.rs:264-271 | after authorizing sockets the rules describe exactly DHCP, RTSP of this sink to port 7236 and, with an RTCP port, RTCP of this sink from there to the port beside the media port; nothing else of the session changes |
| NetworkServices.NetworkService.constructor | crates/networkd/src/main.rs:13-15 | a start, whatever a crash left behind, ends with no session and a chain emptied by this very call, unless others edit it meanwhile, or the process ends; in calm times it runs and the chain has no rules |
| NetworkServices.NetworkService.CloseSession | crates/networkd/src/service.rs:105-122 | closing leaves no session and a chain emptied by this call, or the process ends, which takes a failing command; in calm times it does not and the chain has no rules |
| NetworkServices.NetworkService.BeginSession | crates/networkd/src/service.rs:127-242 | failing or abandoned at any inner step it keeps the record and leaves the chain to others or emptied; with a session active it changes neither; a malformed radio or peer is refused; on success the caller owns a session without sockets on a group interface whose rules were loaded, and in calm times are in the chain, the interface being tagged and on the radio |
| NetworkServices.NetworkService.AuthorizeMedia | crates/networkd/src/service.rs:245-273 | success needs acceptable sockets, and stores and loads exactly the authorized flow, which in calm times is then in the chain; a failed or foreign call changes neither record nor chain, except for a command that took effect and still reported failure; in calm times the owner with acceptable sockets succeeds |
| NetworkServices.NetworkService.EndSession | crates/networkd/src/service.rs:276-289 | only the owner can end the session, which leaves a chain emptied by this call or ends the process, in calm times a chain without rules; ending twice is harmless; others change nothing |
| NetworkServices.NetworkService.Perform | crates/networkd/src/service.rs:276-303 | callers do not interfere: a call never changes what `session_alive` tells any other caller, and one by a caller that does not own the active session changes neither session nor chain; only Begin without a session makes an owner, End leaves the caller without a session, and a session that ends leaves an emptied chain |
| NetworkServices.NetworkService.Supervise | crates/networkd/src/service.rs:394-415 | a session that survives a completed round has a chain that compares equal to its rules; otherwise it is closed and the chain emptied by this round, unless the process ends; in calm times exactly a present owner, an active connection and an intact chain keep it; rules are never written back |
| NetworkServices.Run | crates/networkd/src/service.rs:127-416 | after every sequence of calls by anyone, supervisor rounds, process deaths in the middle of anything and restarts, record and chain agree, and the chain counts as edited only if others edited it during the run; without such an edit a chain without session has no rules; in calm times the process has not ended itself |
| ManagedBlocks.StripUndoes | crates/external/src/lib.rs:1150-1173 | for every text before the block without the start sentinel and every text behind it, removal yields the two texts joined, exactly when the script's path does not contain the end sentinel |
| ManagedBlocks.NothingToStrip | crates/external/src/lib.rs:1150-1154 | text that has lost a sentinel is left alone |
| ManagedBlocks.StripAll | crates/external/src/lib.rs:1091-1135 | as many removals as there are blocks left by crashes restore the text |
| ManagedBlocks.WriteThenStrip | crates/external/src/lib.rs:1336-1366 | writing and removing restore the text with its last line ended, and leave nothing but white space where there was no file |
| ManagedBlocks.ConfigFile.Write | crates/external/src/lib.rs:1336-1366 | the file becomes the snapshot with its last line ended and the block appended, or stays |
| ManagedBlocks.ConfigFile.Restore | crates/external/src/lib.rs:1380-1411 | the block is taken out of the file as it is now; a file that was only ours and did not exist is deleted, or stays whole when deleting fails; a file without block stays |
| ManagedBlocks.ConfigFile.WriteThenRestore | crates/external/src/lib.rs:1336-1411 | a session's write and restore give back the text with its last line ended, and no file where there was none; failures leave the file as it was or with the block |
| Pickers.OriginalPickerBinary | crates/external/src/lib.rs:1255-1297 | the loop with its brace depth computes the scan: the first foreign picker named inside a section, else the default |
| PickerScans.OriginalIsFirstNamed | crates/external/src/lib.rs:1255-1297 | told without the scan's state: the result is what the first line inside a section names that names a foreign picker, a section reaching from its opening line to where its braces balance; else the default |
| Pickers.NeverOwnScript | crates/external/src/lib.rs:1282-1289 | the fallback is never our own script, unless that has the default picker's name |
| PickerScans.NoiseIsSamePath | crates/external/src/lib.rs:1286-1286 | repeated slashes, `.` components and a slash at the end do not make another path |
| PickerScans.PlainPaths | crates/external/src/lib.rs:1286-1286 | paths of plain components are the same exactly when these are, and differ from rooted and dotted ones |
| Pickers.ScanBlock | crates/external/src/lib.rs:1264-1296 | a block, read in whatever state the text before it left behind, names nothing but what its picker line reads back as |
| Pickers.LeftoversDoNotMatter | crates/external/src/lib.rs:1255-1297 | any number of leftover blocks does not change the fallback of any text, open braces included, exactly when the text names a picker or the script's path is read back as itself, as nothing or as the default |
| Pickers.PlainPathIsHarmless | crates/external/src/lib.rs:1282-1289 | a path free of `#` and without quotes or white space at its edges is read back as itself |
| UfwHooks.InstallKeepsText | contrib/networkd/install.py:31-42 | exactly the accepted texts are changed, by putting in the declaration and the jump at two places: every original character is kept, in order |
| UfwLines.LinesStayWhole | contrib/networkd/install.py:36-42 | the installed lines are the original lines with the lines of the declaration and of the jump put in between, exactly when a rule precedes the first `COMMIT` of the table or that `COMMIT` starts a line |
| UfwLines.CommentIsBroken | contrib/networkd/install.py:36-42 | a stock file with a comment that mentions `COMMIT` before its first rule is accepted and its lines are not kept |
| UfwHooks.JumpComesFirst | contrib/networkd/install.py:36-42 | the jump stands behind the declaration, not behind the first `COMMIT`, and before every line that adds, inserts or flushes a rule from the first `*filter` with a line feed, which may end a comment, to the end of the file |
| UfwHooks.RemoveUndoes | contrib/networkd/install.py:13-22 | taking out the only block of a text leaves exactly what stood before and behind it |
| UfwMarkers.RemoveExactly | contrib/networkd/install.py:13-22 | removing succeeds exactly without markers or with each once, the end behind the beginning, and then takes out exactly these and what is between; everything else is refused |
| UfwMarkers.ServesTheChain | contrib/networkd/install.py:9-10 | what is installed declares, flushes and jumps to the very chain that the service fills |
| UfwHooks.HookIsReversible | contrib/networkd/install.py:25-42 | on accepted text without markers removing undoes installing exactly, and installing again changes nothing |
| HdcpFraming.WaitConserves | crates/daemon/src/lib.rs:1573-1637 | whatever arrives, what is returned and what stays buffered are together the bytes received, in order |
| HdcpFraming.Reader.Extract | crates/daemon/src/lib.rs:1684-1702 | the first complete message is drained from the buffer, or the buffer stays |
| HdcpFraming.Reader.ReadMessage | crates/daemon/src/lib.rs:1573-1637 | all messages returned so far followed by the buffer are the bytes received so far |
| HdcpFraming.WaitIsDrain | crates/daemon/src/lib.rs:1573-1637 | one wait takes the next of the messages of a chunked stream |
| HdcpFraming.SteadyDrains | crates/daemon/src/lib.rs:1684-1702 | streams of known messages yield the same messages for every chunking |
| HdcpFraming.ChunkingDoesNotMatter | crates/daemon/src/lib.rs:1689-1702 | the messages are independent of chunking exactly for streams of known messages, perhaps with an incomplete one or one foreign byte at the end |
| HdcpRuns.LengthsAreRead | crates/daemon/src/lib.rs:1684-1702 | a message is handled as its first bytes up to its known length, and a shorter one is ignored |
| HdcpRuns.CertificateLength | crates/daemon/src/lib.rs:1122-1141 | the known length of the certificate message is the sum of its fields |
| HdcpHandshakes.XorInPlace | crates/daemon/src/lib.rs:1408-1410 | the loop combines the array with the mask at the offset and leaves the rest |
| HdcpHandshakes.EncryptSessionKey | crates/daemon/src/lib.rs:1397-1436 | the filled arrays are the key exchange message of the specification |
| HdcpHandshakes.ReceiverRecoversKey | crates/daemon/src/lib.rs:1406-1425 | a receiver with the same mask gets the session key back from the 25 bytes sent (section 2.4 of HDCP Interface Independent Adaptation) |
| HdcpHandshakes.HdcpSession.Handle | crates/daemon/src/lib.rs:1211-1372 | one received message changes the stored material and writes as specified, for every choice of nonces and of failing writes |
| HdcpHandshakes.HandshakeSendsOnce | crates/daemon/src/lib.rs:1211-1372 | over every sequence of messages and failing writes a nonce is stored exactly when LC_Init was sent, and LC_Init and SKE are each sent successfully at most once |
| HdcpHandshakes.NonceIsStable | crates/daemon/src/lib.rs:1287-1302 | a stored nonce never changes again |
| HdcpHandshakes.KeyExchangeIsChecked | crates/daemon/src/lib.rs:1281-1350 | SKE is attempted only in a step whose L_prime equals the value derived from the stored nonces, before any successful SKE, and encrypts the drawn key |
| HdcpRuns.StoredIsReceived | crates/daemon/src/lib.rs:1211-1372 | over every run the receiver counts as authenticated exactly when some message carried the value derived from the nonces and version stored at that step; pairing, nonce and version are those of the messages received |
| HdcpRuns.WritesExactly | crates/daemon/src/lib.rs:1211-1372 | for each step exactly what is written: LC_Init when none was delivered and the message completes authentication and pairing or is an L_prime for a stored nonce, the key when the L_prime matches and none was delivered, nothing else |
| HdcpRuns.HonestHandshake | crates/daemon/src/lib.rs:1211-1436 | a receiver that computes as the specification says completes the handshake: exactly LC_Init and the key are sent, and it recovers the key with its own mask |
| Breadcrumbs.BreadcrumbRoundTrip | crates/audio/src/lib.rs:183-248 | what is recorded is read back, with the liveness of the process that wrote it |
| Breadcrumbs.CutRecordMisleads | crates/audio/src/lib.rs:213-248 | a record cut inside its last number reads as a complete one with another module index |
| Breadcrumbs.OutputRoundTrip | crates/external/src/lib.rs:1046-1089 | the two-line record of an output is read back; cut inside its first line it names the process id as an output nobody owns |
| Breadcrumbs.EarlierRecords | crates/audio/src/lib.rs:220-248 | records that name no process, of sinks and of outputs, are read as owned by nobody |
| Breadcrumbs.Machine.Remove | crates/audio/src/lib.rs:84-136 | the commands of a removal have the specified effect, the record going only with a resource that is removed or counts as gone |
| Breadcrumbs.Machine.CleanupStale | crates/audio/src/lib.rs:275-337 | a record of a live owner is left alone, one of a dead owner is acted on |
| Breadcrumbs.VirtualSink.constructor | crates/audio/src/lib.rs:29-59 | creating records the new resource, keeps the old record when writing is refused, or leaves whatever a record that was cut short reads as |
| Breadcrumbs.Machine.CreateOutput | crates/external/src/lib.rs:788-836 | creating an output under its guard: not created, created but rolled back or left when it cannot be identified, or created and recorded |
| Breadcrumbs.VirtualSink.Cleanup | crates/audio/src/lib.rs:84-136 | cleaning up happens once; a command that cannot be started leaves it for later |
| Breadcrumbs.StepExact | crates/audio/src/lib.rs:119-132 | a step keeps the latest recorded resource recoverable exactly when it is not harmful, which is told by the removal's target and outcome |
| Breadcrumbs.RollbackExact | crates/external/src/lib.rs:736-780 | rolling back an unidentified output forgets the resource recorded last exactly when that stands, the output is removed and the record can be deleted |
| Breadcrumbs.RecoverableExactly | crates/audio/src/lib.rs:275-337 | over every run of launches, stale clean-ups, creations, roll-backs, clean-ups, crashes and losses with arbitrary command failures the latest recorded resource stays recoverable throughout exactly when no step is harmful |
| Breadcrumbs.WrittenRunsExactly | crates/external/src/lib.rs:736-780 | when every record is written, a run keeps the latest recorded resource recoverable exactly when, while that stands, no audio removal fails together with its listing and no guard rolls back an unidentified output |
| Breadcrumbs.OwnRecordIsSafe | crates/external/src/lib.rs:957-1004 | removing the resource recorded last never makes an output unrecoverable, and an audio sink exactly when unloading and listing both failed |
| Breadcrumbs.FailedListingForgets | crates/audio/src/lib.rs:344-354 | a failed listing makes the audio clean-up forget a sink that still exists, where the output clean-up keeps the record |
| Breadcrumbs.UnrecordedForgetsOlder | crates/audio/src/lib.rs:42-47 | a process whose own record could not be written deletes the record of an older resource |
| Breadcrumbs.GuardForgetsOlder | crates/external/src/lib.rs:736-780 | with every record written, a guard that rolls back an output it could not identify deletes the record of an older output that exists |
| Breadcrumbs.CutRecordForgetsOlder | crates/external/src/lib.rs:788-836 | a new record that is cut short leaves an older resource without one |
| Breadcrumbs.CutIndexMisses | crates/audio/src/lib.rs:275-337 | a sink whose record was cut inside its module index survives the clean-up that deletes the record, where an output, removed by name, does not |
| Breadcrumbs.OwnAfterCleanup | crates/audio/src/lib.rs:84-136 | what a clean-up leaves to be repeated: audio when a command cannot be started, an output when a later part fails |

## Left out

- GStreamer pipelines, portal and PipeWire capture, NetworkManager and wpa_supplicant proxies, D-Bus, command-line parsing, shell scripts and diagnostic programs: input and output around the modelled logic.
- Text: one character stands for one byte, and lower-casing covers ASCII letters; the UTF-8 check on received messages and slices inside a multi-byte character are not modelled.
- RtspClient: the 32-bit overflow of CSeq after four billion requests, the keepalive loop, the codec remembered after negotiation and the forwarding of IDR requests; deadlines are arbitrary failures.
- RtspServer and its handlers: which session answers depends on the order of a hash map.
- parse_wfd_client_rtp_port and parse_wfd_content_protection_port: single-field parsers, easy members.
- Firewall.LinesAdmit: options outside the dialect of the rendered rules count as admitting nothing; in a rule that the comparison accepts they are module names with a removed front, as in `AcceptedChains.TornRuleAdmitsNothing`.
- NetworkServices.Kernel.Restore: the kernel is assumed to print the loaded rules with options in an order of its own and with protocol modules only beside their protocol; a command killed by its time-out is covered as one that took effect and reported failure.
- Firewall.IntactChainAdmits: lines that others add are assumed to be printed with whole protocol modules beside their protocol, as `Firewall.WholeModules` states; `Firewall.LongerModuleMisread` shows a line that is not.
- RtspConnections.Negotiate: what is asked for and set is not empty, as in the daemon; what the settings are made of the sink's answer is arbitrary.
- AcceptedChains.AcceptedAdmitsNoMore: rules are taken to be printed with single spaces between their words.
- NetworkServices.NetworkService.BeginSession: the sink's addresses are what the network manager reports; that the connection's interface is the prepared one is taken from the strict mode of the connection code (crates/net/src/lib.rs:811-822).
- NetworkServices.Run: operations that hold the lock run one after the other, as the lock makes them; between their steps only others act.
- NetworkServices.NetworkService.CloseSession: deactivating the group and dropping the activation bus do not touch the modelled state.
- ManagedBlocks.ConfigFile.Write: a write either happens or leaves the file as it was; restarting the portal and creating directories are not modelled.
- Pickers.LeftoversDoNotMatter: script paths that contain a line feed.
- The generated picker script and the marker file: shell text and a one-shot file.
- HdcpHandshakes.HdcpSession.Handle: AES and HMAC are arbitrary functions; RSA and the receiver certificate, which only choose the stored key, are not modelled, nor is the partial transmission of a write that fails.
- Breadcrumbs.RecoverableExactly: at most one process at a time; resources are new when they are created; a removal command that exits with success is taken to have removed the resource; both the first comparison of the monitor lists and the listing of the guard find the new output or nothing, not an unrelated monitor plugged in meanwhile; the record on disk is a value, its text being covered by the round trips; restoring the default sink has no effect on the modelled state.
- The select loop of the daemon, test pattern generators, resolution tables and codec names.

# Telebit: verified model of the tunnel, the relay and device registration

Telebit exposes a device behind a firewall through a public relay. Many client TCP streams are cut
into chunks, framed with the MPLEXY v1 header, interleaved on one websocket, read back in arbitrary
pieces by a resumable parser and handed to one pipe per client. This project models that protocol,
the relay's routing tables, the TLS server-name scanner, two-way forwarding and the device
registration store, and proves what they keep.

`dafny verify dfyconfig.toml` checks everything. The pieces, from the bottom up:

| file | what it holds |
|---|---|
| `Text.dfy` | bytes, `%d`, `strconv.Atoi` (64-bit, with its range clamps), `strings.Split`, `strings.TrimSpace` (all Unicode white space, as UTF-8) |
| `Numerals.dfy` | which texts are numbers and what white space is, said without those routines' loops |
| `Addrs.dfy`, `Header.dfy`, `HeaderText.dfy` | addresses, connection keys, the frame header printed and read; what the parser makes of any line, by its fields |
| `ParserModel.dfy`, `ParserV1.dfy` | the parser as functions, and the stateful `Parser` and `Decode` proved against them |
| `Chunking.dfy` | a byte-at-a-time automaton, and the proof that chunking does not matter |
| `Frames.dfy`, `PassGuard.dfy` | well-formed frames, what they route and how many loop passes they cost |
| `Versions.dfy` | exactly when chunking decides whether a foreign version byte is refused |
| `Tunnel.dfy` | the websocket wrapper and the encoder's select loop, updated in place |
| `Readers.dfy` | the reader goroutine of a connection, shared by the encoder and `Forward` |
| `Origins.dfy` | where the frames come from: what the connections yielded, read off the steps of a run |
| `Multiplex.dfy`, `Delivery.dfy` | all clients, the tunnel and the decoder as one state machine; end-to-end delivery |
| `Demux.dfy`, `Reception.dfy` | the listener, and the way from a client's bytes to its pipe |
| `Turns.dfy`, `Reuse.dfy` | addresses that come back: the connections' shares of the tunnel, and the pipes they go into |
| `LocalClose.dfy` | what comes through to a pipe, and what is lost, once its other end may be closed |
| `ReturnPath.dfy`, `Replies.dfy` | how a reply finds its client again, and what the client gets |
| `Relay.dfy`, `Vhost.dfy`, `Routing.dfy` | the two server indexes, least-loaded choice, wildcard names; the way from a name to its server |
| `Races.dfy` | Add, Remove and GetServer taken apart into their calls of sync.Map, in any interleaving |
| `Sni.dfy` | the ClientHello walk against a serializer for section 4.1.2 of RFC 8446 and section 3 of RFC 6066 |
| `Forwarding.dfy` | `Forward` as a state machine |
| `AuthStore.dfy`, `Registration.dfy` | the authorization table, one atomic statement at a time, and the handlers interleaved over it |
| `Handlers.dfy` | the handlers as methods over the store, each call a step of the interleaved machine |

How to read the model: a Go panic is an error value (`LoopPanic`, `SlicePanic`); a call of a handler's
`RouteBytes` is an entry of a trace; `Atoms` cuts a trace into single routed bytes, each with source,
destination and offset in its frame, so that two traces with the same atoms differ only in how one
frame's payload was split over calls. Goroutines that share a channel or a store are state machines
over their steps, and theorems quantify over every run.

What the proofs found, with the code as it is:

* A chunk that holds six whole frames in a row, whatever surrounds them, makes the parser panic ("stuck
  in an infinite loop?") unless its first byte gets it refused (`PassGuard.SixFramesPanic`). For a
  chunk that is nothing but whole frames `PassGuard.WholeFramesGuard` gives the exact condition: six,
  or five after an empty frame when the last one has a payload. Over a websocket this cannot happen, because a read never spans two messages
  (`Delivery.WebsocketNeverFails`).
* `Write` checks a version once a chunk, and then whichever version the parser holds. A byte that
  starts a frame in mid-chunk is not examined until the next chunk starts, and a byte that follows an
  empty frame is not examined even at the start of a chunk, because the parser has not noticed yet
  that the frame is over. So what becomes of a foreign version byte can depend on chunking:
  `Versions.ChunkingExact` says for every stream exactly when it does, and `Versions.ForeignVersion`
  says it of the bytes: after any frames it does, unless the byte follows an empty frame and is the
  last one. Where no version is refused, nothing depends on chunking, malformed headers included
  (`Chunking.ChunkingIndependence`).
* An empty frame is reported under the zero address as soon as another frame follows it. An "end"
  frame has then been reported once already, under its own address; an "error" frame never is. The
  listener announces a connection for the zero address that nobody made, and never closes it
  (`Reception.PhantomPipe`).
* The listener tells two connections of one address apart by the "end" between them. A connection that
  ends otherwise, because reading it failed or its loop was cancelled, leaves its pipe open, and the
  bytes of the next connection with that address follow in it (`Reuse.SharedPipe`); `Reuse.Groups` and
  `Reuse.PipesOfAddress` say exactly which bytes share a pipe.
* A header line longer than 255 bytes wraps its one-byte length and is never read back correctly
  (`Header.HeaderRoundTrip` is an if-and-only-if).
* `Add` with an address that is already registered can leave a stale entry in one index:
  `Relay.AddAgrees` says exactly when, and `Relay.StaleHistory` is a history that ends in one, which
  removing the subject does not clear.
* A client whose remote address is IPv6 is stored under an id that no reply, to it or to any other
  client, is looked up under (`ReturnPath.ColonHostIsLost`); every client whose address starts with "::" is looked up under one and
  the same id (`ReturnPath.Ipv6IsLost`).
* A `Set` that reports an error because several rows share a key has changed those rows all the same
  (`AuthStore.SetLeavesTable`); `Registration.SharedKeyRun` is a run of two creations and one
  registration that gets there.
* The server-name scanner reads the first entry of a server_name extension without regard to the end
  of that extension: an entry that overruns it takes its name from the bytes after it, and an empty
  name makes the scan resume five bytes late (`Sni.EntryDecides`, `Sni.EntryAcrossEnd`). `Sni.NameAcrossEnd` is a
  ClientHello whose host name is the type of its next extension.
* A pipe whose local end is closed stays in the listener's map until an "end" or "error" event of its
  key, and until then swallows the bytes of a later connection with the same source address:
  `LocalClose.ComesThroughExact` says of every history which bytes come through,
  `LocalClose.AfterLocalClose` when they do again, and `LocalClose.SecondConnection` shows both.
* Taken apart into its calls of sync.Map, a Remove opens a window in which GetServer answers "nil,
  true", the state reported as a bug that should not be possible (`Races.RemoveWindow`). An Add and a
  Remove of one server that overlap can leave that state behind for good (`Races.StuckRun`), and a
  Remove that overlaps with the Add of another server can take the domain of that server out of the
  table (`Races.LostRun`). When GetServer gives that answer, it looked into a window of that very map,
  or the map had been left behind so and was empty ever since (`Races.NilServer`).

## Model

| member | source | states |
|---|---|---|
| Text.AtoiItoa | internal/telebit/v1.go:139-145 | every 64-bit number printed with %d is read back by Atoi, without error |
| Text.ItoaAtoi | internal/telebit/table.go:188-190 | a canonical port text survives Atoi and %d |
| Numerals.AtoiExact | internal/telebit/v1.go:139-145 | for every text: it is a number exactly if it is a sign or none and digits within 64 bits, and then that number; out of range it is the nearest bound, anything else 0 |
| Text.JoinSplit | internal/telebit/v1.go:133 | splitting loses nothing: the parts joined again are the text |
| Text.TrimLine | internal/telebit/v1.go:133 | trimming the printed header removes its newline and nothing else |
| Numerals.TrimExact | internal/telebit/v1.go:133 | trimming takes off white space at both ends and all of it |
| Numerals.SpaceRunes | internal/telebit/v1.go:133 | white space is the UTF-8 text of the code points for which unicode.IsSpace holds |
| Addrs.StringInjective | internal/telebit/addr.go:41-44 | two addresses have the same connection key exactly when family, scheme, address and port agree |
| Addrs.StringCollides | internal/telebit/addr.go:41-44 | every address with a "+" in its family or a ":" in its scheme shares its key with a different address |
| Header.LineRoundTrip | internal/telebit/packer.go:8-19 | parsing the printed line recovers what travels exactly when the fields have no comma, the family no leading white space, and the scheme is not "control" |
| Header.HeaderRoundTrip | internal/telebit/v1.go:118-175 | the header the parser collects by its length byte is recovered exactly when the fields are clean and the line is at most 255 bytes |
| Header.ParsedIsClean | internal/telebit/v1.go:133-175 | no parsed header carries a comma, a control message or leading white space |
| HeaderText.HeaderPassOfFields | internal/telebit/v1.go:118-203 | for every list of comma-free fields: fewer than five are refused, so is a fourth that is no 64-bit number, and "control"; otherwise the parser has the line's own addresses, zero where a field is missing, and its length, and routes an "end" and nothing else; in however many pieces the line came |
| HeaderText.HeaderBytes | internal/telebit/packer_test.go:22-24 | a written header byte by byte: 254, one length byte, the fields with their commas, a newline |
| Header.HeaderFits | internal/telebit/packer.go:11-16 | for the relay's own addresses the one-byte length does not wrap when address and domain have at most 223 bytes |
| Header.HeaderFitsIsTight | internal/telebit/packer.go:16 | at 224 bytes it does wrap, to 0 |
| ParserModel.PassProgress | internal/telebit/v1.go:48-102 | every pass takes a byte or moves to a phase that must |
| ParserModel.PassKeepsSound | internal/telebit/v1.go:62-101 | whatever the bytes, header and payload counters stay within their bounds, so the reset before a payload fires for empty frames only |
| ParserModel.LoopTakesAll | internal/telebit/v1.go:104-106 | what the loop leaves is a suffix, and nothing when there is no error |
| ParserModel.WriteTakesAll | internal/telebit/decoder.go:54-58 | a write without error has taken its whole chunk |
| ParserModel.RefusalIsFinal | internal/telebit/parser.go:86-94 | after a refused version byte every later write is refused |
| ParserV1.Parser.UnpackV1HeaderLength | internal/telebit/v1.go:109-116 | the length byte is taken and the phase advances |
| ParserV1.Parser.UnpackV1Header | internal/telebit/v1.go:118-203 | new state, routed events, error and bytes taken for the header pass |
| ParserV1.Parser.UnpackV1Payload | internal/telebit/v1.go:205-264 | new state, routed events, error and bytes taken for the payload pass |
| ParserV1.Parser.UnpackV1 | internal/telebit/v1.go:47-107 | the guarded loop: state, trace and error, also when it panics, and otherwise the count of bytes taken |
| ParserV1.Parser.Write | internal/telebit/parser.go:59-95 | state, trace and error of a write, also when it panics; an empty one is an error, and so is a version other than 254 where one is looked at, with nothing routed; when no error is returned n is the length of the chunk, in every reachable state |
| ParserV1.Decode | internal/telebit/decoder.go:28-76 | writing chunk after chunk to a new parser until one fails, or panics, is the run of the model |
| Chunking.FoldAppend | internal/telebit/v1.go:47-264 | the byte automaton run over a concatenation is the two runs in sequence |
| Chunking.PassIsFold | internal/telebit/v1.go:62-101 | one pass over many bytes equals that many single-byte steps, for any bytes |
| Chunking.WriteIsFold | internal/telebit/parser.go:59-95 | a write equals feeding its bytes one by one, unless the pass guard fires, and then only a prefix has been routed; it is refused exactly when its version check fails, and then nothing is taken or routed |
| Chunking.RunIsFold | internal/telebit/decoder.go:51-65 | so does a run of writes, whatever the bytes |
| Chunking.ChunkingIndependence | internal/telebit/v1.go:47-264 | for any bytes, two chunkings that neither trip the pass guard nor get a version refused give the same parser state, error and trace up to the splitting of payloads |
| Chunking.NeverRefusedRuns | internal/telebit/parser.go:73-94 | a stream whose every byte would pass the version check is not refused in any chunking |
| Chunking.ReachedIsSound | internal/telebit/v1.go:82-94 | the parser invariant holds in every state a decoder reaches, whatever it reads |
| Frames.FoldFrame | internal/telebit/v1.go:118-264 | one frame routes its payload in order under its own addresses, an "end" before it, and before that the late report of an empty frame |
| Frames.FoldWire | internal/telebit/v1.go:47-264 | a whole stream of frames routes exactly the frames' own events |
| Frames.BytesNeverRefused | internal/telebit/parser.go:73-94 | a stream of frames is such a stream |
| Frames.GuardExact | internal/telebit/v1.go:48-60 | the loop panics exactly when there are more than 20 working passes, 21 if the last returns an error, for any bytes |
| PassGuard.SplitCostsLess | internal/telebit/v1.go:48-102 | either part of a split chunk costs no more passes than the whole |
| PassGuard.PassesOfFrames | internal/telebit/v1.go:48-102 | f whole frames cost exactly 4f passes, one more after an empty frame, one less if the last is empty |
| PassGuard.WriteGuard | internal/telebit/parser.go:73-91 | the guard for a write, for any bytes: the first version byte is free, and a refused chunk never reaches it |
| PassGuard.WholeFramesGuard | internal/telebit/parser_test.go:63-65 | a chunk of whole frames panics exactly from six frames on, or five after an empty frame when the last has a payload |
| PassGuard.SixFramesPanic | internal/telebit/v1.go:48-60 | any chunk with six whole frames in a row panics, whatever surrounds them, unless it is refused at its first byte |
| PassGuard.GuardUnreachable | internal/telebit/v1.go:50-52 | no chunk touching at most five frames panics, unless it starts where an empty frame ended; none touching four does |
| Versions.PassesAtMost | internal/telebit/v1.go:48-102 | no n bytes cost more than 2n passes |
| Versions.ShortChunkIsFine | internal/telebit/v1.go:50-52 | no chunk of at most ten bytes panics, whatever it holds and wherever it starts |
| Versions.ChunkingExact | internal/telebit/parser.go:73-94 | for every stream from every sound state: all chunkings that spare the pass guard have the same outcome exactly when none can be refused, or all are refused at the first byte |
| Versions.ForeignVersion | internal/telebit/parser.go:73-94 | after any frames, a foreign version byte and any further bytes: all such chunkings agree exactly when there is no frame, or the last frame is empty and nothing follows the byte |
| Tunnel.WebsocketTunnel.Read | internal/telebit/websocket.go:108-136 | reads concatenate to a prefix of the messages, and each lies within one message, also when the message reader fails; it reports an error exactly when there is no further message or that reader fails |
| Tunnel.WebsocketTunnel.Write | internal/telebit/websocket.go:138-166 | one message a write, none if it fails |
| Tunnel.Encoder.Write | internal/telebit/encoder.go:154-170 | header and payload leave as one message, or not at all |
| Tunnel.Encoder.Encode | internal/telebit/encoder.go:96-151 | one data frame a chunk, then an "end" or "error" frame when reading stops, nothing after a cancellation or a failed write; and which of these ended it |
| Tunnel.FramesOfEvents | internal/telebit/encoder.go:114-149 | the frames of a sequence of events, one by one and in order |
| Tunnel.ReadsInOneMessage | internal/telebit/websocket.go:108-136 | what Read promises about its position is what the state machine demands of a websocket read |
| Tunnel.EncodeRoundTrip | internal/telebit/encoder.go:96-151 | for every sequence of events, the parser reads what a client's loop wrote without error and routes exactly its chunks |
| Tunnel.FramesBeforeFailure | internal/telebit/encoder.go:124-133 | when a write fails on the way, what has left decodes to exactly the chunks written before it, a prefix |
| Multiplex.PeerSendable | internal/telebit/encoder.go:115-145 | every frame written for an admissible client has a header that survives |
| Multiplex.RelayPeersFit | internal/telebit/table.go:217-235 | the relay's own clients are admissible when their names fit |
| Multiplex.ClientStep | internal/telebit/encoder.go:74-151 | each step, a failed write included, keeps: bytes read are bytes sent plus bytes in hand; a closing frame is the last of its client |
| Multiplex.ParserStep | internal/telebit/decoder.go:33-65 | each step keeps the far parser equal to the automaton run over the bytes it was given, with at most one more chunk on offer to it |
| Multiplex.Reachable | internal/telebit/encoder.go:68-170 | both hold in every reachable state |
| Origins.FramesHaveOrigins | internal/telebit/encoder.go:74-151 | in every run, read off its steps: a client has read what its connection yielded; its frames are, in order, what its loop received, all but one in hand or lost; and its closing frame is "end" exactly if reading ended at end of stream |
| Origins.NothingAfterCancel | internal/telebit/encoder.go:101-133 | after a cancellation or a failed write a client writes nothing |
| Origins.ChunkGetsThrough | internal/telebit/encoder.go:114-133 | from an idle loop any chunk that is read can be on the tunnel three steps later |
| Origins.CloseGetsThrough | internal/telebit/encoder.go:134-149 | and so can the closing frame for the way in which reading ended |
| Origins.LoopCanEnd | internal/telebit/encoder.go:101-133 | a waiting loop can be cancelled and any write can fail; nothing reaches the wire |
| Origins.BytesGetThrough | internal/telebit/decoder.go:33-65 | an idle decoder can take and parse any number of the next bytes |
| Delivery.WireData | internal/telebit/encoder.go:114-142 | a client's share of the whole wire is exactly what it sent, if its source is its own |
| Delivery.WireIsTidy | internal/telebit/v1.go:198-201 | nothing of a client follows its "end", and its bytes carry its own destination |
| Delivery.EndToEnd | internal/telebit/encoder.go:68-170 | in every schedule and chunking, what is routed for a client with a source of its own, whatever the other clients', is a prefix of what its connection yielded, all of it once "end" is routed, which happens only if reading ended at end of stream, and nothing comes after |
| Delivery.EndIsReported | internal/telebit/v1.go:198-201 | a client's "end" frame produces an "end" event under its address |
| Delivery.CaughtUp | internal/telebit/decoder.go:28-76 | when the decoder has taken all bytes, each such client has been delivered exactly what it sent, and its "end" exactly if its closing frame was written and reading had ended at end of stream |
| Delivery.WebsocketNeverFails | internal/telebit/websocket.go:108-166 | over websocket reads the parser neither panics nor returns an error, in any schedule |
| Turns.MarksOfWire | internal/telebit/encoder.go:114-149 | what a wire has for a source is what the frames of its clients carry, in order, whoever shares it |
| Turns.SharesInTurn | internal/telebit/encoder.go:114-149 | while the clients of a source take turns, that is one whole share after another |
| Turns.AddressInTurns | internal/telebit/table.go:174-242 | in every run in which a client of an address waits for the loops of its predecessors, in every schedule and chunking: what is routed for the address is a prefix of those shares, all but the last client have returned, and a share that ends in "end" is all its client read |
| Demux.DemuxExact | internal/telebit/listener.go:124-196 | for every trace and key: a pipe is open exactly when the latest event did not close the key; it got exactly the payloads since; one pipe per opening |
| Demux.Listener.GetPipe | internal/telebit/listener.go:156-196 | an existing pipe is reused, otherwise one that carries the given source and destination, whose other end is open, is created, filed and announced |
| Demux.Listener.Feed | internal/telebit/listener.go:133-153 | error closes before the write, end after it |
| Demux.Listener.RouteBytes | internal/telebit/listener.go:124-154 | a pipe is announced exactly when the key was not live, with the event's source and destination; map, pipes, what they were handed, what came through and which are gone stay equal to the sessions and ends of the history |
| Demux.Listener.CloseLocally | internal/telebit/listener.go:178-193 | the other end of a pipe is closed, which is recorded in the history, and the listener's map does not change |
| Demux.Listener.ConnsAreLive | internal/telebit/listener.go:124-175 | a key is in the map exactly when the trace's latest event of it did not close it; its pipe is open and was handed exactly the payloads since; what came through is `Ends` of the history |
| Reuse.PipeCarriesTarget | internal/telebit/listener.go:168-175 | in every run the pipe of a client with a source of its own is announced with the client's destination, or, if it sent nothing, with that of its "end" |
| LocalClose.GoneExact | internal/telebit/listener.go:124-196 | for every history and live key: the other end of its pipe is gone exactly when it was closed, perhaps in mid-payload, since the key came to life; otherwise all bytes since have come through |
| LocalClose.ConnsAreDropped | internal/telebit/listener.go:156-175 | the same of the stateful listener's map |
| LocalClose.ComesThroughExact | internal/telebit/listener.go:141-145 | for every history, the bytes of an event come through exactly when its key is not live or its pipe was not closed since it came to life |
| LocalClose.AfterLocalClose | internal/telebit/listener.go:135-153 | after a local close and until the key comes to life again, an event's bytes come through exactly when the key is not live |
| LocalClose.SecondConnection | internal/telebit/listener.go:156-163 | a second connection of the same source is lost before the first one's "end" and comes through after it |
| Reception.OneSession | internal/telebit/listener.go:124-196 | a source that closes at most once gets at most one pipe, with all its bytes |
| Reuse.PartsOfTrace | internal/telebit/listener.go:124-196 | for every plain trace of a source, its pipes are the pieces between its "end"s |
| Reception.PipeOfClient | internal/telebit/listener.go:104-196 | in every run each client with a source of its own gets at most one pipe, holding a prefix of its bytes, and all of them once closed |
| Reuse.PipesOfAddress | internal/telebit/listener.go:124-196 | in the runs of `AddressInTurns` the pipes of an address are, as far as the decoder has come, exactly those of `Groups`: one a connection, except that one which did not close with "end" shares its pipe with the next |
| Reuse.OwnPipes | internal/telebit/listener.go:146-153 | if all connections before it closed with "end", the n-th connection of an address has the n-th pipe to itself |
| Reuse.SharedPipe | internal/telebit/v1.go:198-201 | the bytes after a connection that did not close with "end" follow in its pipe |
| Reception.PhantomReport | internal/telebit/v1.go:82-94 | on frames with addresses, the parser routes an event with zero addresses exactly when an empty frame is followed by another frame |
| Reception.PhantomPipe | internal/telebit/listener.go:124-196 | in every run of clients that have addresses the listener has one pipe for the zero address once the parser has reported nobody, none before; nothing is written to it and it is never closed |
| ReturnPath.IdOfSource | internal/telebit/table.go:174-190 | the id computed from a client's source is its stored id exactly when the host has no colon and the port is canonical |
| ReturnPath.SourceOfParts | internal/telebit/table.go:188-222 | for any text: the part before the first colon is the address, the part before the second the port, family and scheme are as given, and a text without a colon panics |
| ReturnPath.Ipv6IsLost | internal/telebit/table.go:174-190 | every remote address that begins with "[::" is looked up under the same id, which is nobody's |
| ReturnPath.ColonHostIsLost | internal/telebit/table.go:121-132 | no reply to any client is looked up under the id of a client whose host has a colon |
| ReturnPath.ReplyFindsClient | internal/telebit/table.go:121-132 | after both hops over the tunnel the id is still that one |
| ReturnPath.ReplyFindsNoOther | internal/telebit/table.go:121-132 | for printed addresses of every kind, a reply is looked up under a client's id exactly when it is that client's own and its host is not IPv6 |
| Replies.ClientTable.RouteBytes | internal/telebit/table.go:121-162 | what is for a client's address and port is written to it unless it was closed, an "end" closes it, and no other client is touched; so each has what the events since it was filed have for its id |
| Replies.RepliesAreFaithful | internal/telebit/table.go:121-162 | in every schedule and chunking and whoever else the device answers, IPv6 clients and the zero address included: what a client is given is a prefix of what the device wrote for it, and all of it once its "end" has arrived |
| Replies.NobodyElseIsGiven | internal/telebit/table.go:132-137 | in every run nothing is given to, and no "end" closes, an id that is not one of the device's peers' or of the zero address |
| Replies.Ipv6IsGivenNothing | internal/telebit/table.go:132-137 | in every run a client with an IPv6 address is given nothing, whomever the device answers |
| Replies.TableIsFaithful | internal/telebit/table.go:121-178 | the same of the stateful table: a client filed before the first event of its id has been handed a prefix of what the device wrote for it, all of it when closed |
| Relay.Registry.Add | internal/telebit/table.go:29-52 | both indexes after Add, a step of `HistoryInvariant` |
| Relay.Registry.Remove | internal/telebit/table.go:64-103 | the subject leaves the first index, its servers leave all their domains, emptied domains disappear, its tunnels are closed, whatever the Range order; this is a step of `HistoryInvariant` |
| Relay.Registry.GetServer | internal/telebit/table.go:245-271 | found exactly when the name is listed; the server has the fewest clients; it is nil only if the inner map is empty |
| Relay.AddAgrees | internal/telebit/table.go:29-52 | Add keeps the two indexes in agreement exactly when no server of the same address is left stale |
| Relay.StaleHistory | internal/telebit/table.go:29-103 | two Adds of one address and subject, the second with fewer domains, leave the first connection listed, and Remove does not take it out |
| Relay.RemoveAgrees | internal/telebit/table.go:64-103 | Remove keeps them in agreement and touches no other subject's entries |
| Relay.HistoryInvariant | cmd/telebit/telebit.go:976-981 | with each operation atomic: in every history no inner map is empty, so that GetServer does not answer "nil, true"; careful Adds keep the indexes in agreement. `Races` shows that the first does not survive interleaving |
| Races.NilServer | cmd/telebit/telebit.go:976-981 | in every interleaving, when GetServer answers "nil, true", a Remove stood between deleting from that very map and taking it out of the table during the lookup, or an Add had put that very map back empty and it was empty from then until the Load |
| Races.RemoveWindow | internal/telebit/table.go:82-96 | while one Remove takes out a domain's last server undisturbed, GetServer finds it until the Delete, nothing from the Table.Delete on, and answers "nil, true" exactly in between |
| Races.OthersStay | internal/telebit/table.go:82-96 | a Remove of one of several servers of a domain takes out that one and leaves the domain listed |
| Races.StuckRun | internal/telebit/table.go:41-51 | an overlapping Add and Remove of one server leave an empty map in the table for good |
| Races.StuckForGood | internal/telebit/table.go:245-270 | in that state GetServer goes through and answers "nil, true" |
| Races.LostRun | internal/telebit/table.go:87-96 | an Add that overlaps with the Remove of another server can end with its domain out of the table |
| Vhost.ServeName | cmd/telebit/telebit.go:947-971 | the exact name wins, else the longest registered wildcard that covers it, else nobody; never a wildcard over a top-level domain |
| Vhost.CoversByLabels | cmd/telebit/telebit.go:957-968 | the wildcards tried are exactly those that cover the name |
| Routing.ServeClient | cmd/telebit/telebit.go:947-981 | while the indexes agree: a client is turned away exactly when no registered server was granted a suiting domain; otherwise its server was itself granted the domain it was found under, no server a better one, and none with the same has fewer clients |
| Sni.GetHostname | internal/sni/sni.go:19-95 | the offset-driven scan computes the walk, errors included |
| Sni.HeadDecides | internal/sni/sni.go:29-45 | fewer than six bytes, or fewer than 44 of a ClientHello, are malformed; another handshake type is none |
| Sni.SessionCutOff | internal/sni/sni.go:45-49 | malformed when the session id, or the length after it, is cut off |
| Sni.CiphersCutOff | internal/sni/sni.go:49-53 | malformed when the cipher suites are |
| Sni.CompressionCutOff | internal/sni/sni.go:53-60 | "no extensions" when the compression methods are |
| Sni.VectorsSkipped | internal/sni/sni.go:45-62 | when all three are there, whatever they hold, the extensions that follow decide |
| Sni.SniRoundTrip | internal/sni/sni.go:58-93 | for every ClientHello with well-formed vectors the first server_name extension decides, exactly as `Answers` says even if its own data is malformed; without one there is no host name |
| Sni.EntryDecides | internal/sni/sni.go:71-88 | what the scan makes of a server_name extension whose data is malformed or not, read from it and all that follows |
| Sni.EntryAcrossEnd | internal/sni/sni.go:80-85 | the bytes after the extension matter exactly when its entry is cut off by its end and they complete it; what name is then read, for data of any length |
| Sni.NameAcrossEnd | internal/sni/sni.go:80-85 | for any two bytes, a well-formed ClientHello whose host name is those two bytes, read from the type of the extension after server_name |
| Sni.TruncationIsSafe | internal/sni/sni.go:24-28 | a name found in truncated bytes is the name the full bytes give |
| Forwarding.ForwardSafety | internal/telebit/telebit.go:205-304 | in every schedule, what is read is what the steps yielded, written is a prefix of it, at most one buffer waits, and the loop ends on a read error only of a way whose reading failed, all of which has then been written |
| Forwarding.EndIsFinal | internal/telebit/telebit.go:258-304 | once the loop has ended nothing is written either way |
| Forwarding.ChunkGetsThrough | internal/telebit/telebit.go:262-279 | from an idle loop any chunk that is read can be written |
| AuthStore.PGStore.Add | internal/mgmt/authstore/postgresql.go:93-132 | a row is inserted exactly when no live row has the slug |
| AuthStore.PGStore.Set | internal/mgmt/authstore/postgresql.go:134-157 | row by row: live rows of the key without a machine id take the id and the public key, all others stay; success means exactly one did |
| AuthStore.PGStore.Delete | internal/mgmt/authstore/postgresql.go:272-288 | row by row: live rows of the slug are marked deleted, all others stay, none is live afterwards; success means exactly one was |
| AuthStore.PGStore.SetMaster | internal/mgmt/authstore/postgresql.go:68-91 | there is a row named "*" afterwards, all such rows take the secret and are live, at most one row is added, all others stay |
| AuthStore.PGStore.Get | internal/mgmt/authstore/postgresql.go:216-240 | any live row whose slug or public key is the id, as far as 24 bytes, or whose public key is derived from it, makes it succeed, and it returns one of these |
| AuthStore.SetLeavesTable | internal/mgmt/authstore/postgresql.go:137-155 | a Set changes the table exactly when it touches a row, whatever it reports |
| Registration.StepKeeps | internal/mgmt/route.go:206-266 | every atomic step of every handler keeps the registration invariant |
| Registration.RegistrationSafety | internal/mgmt/route.go:206-266 | in every interleaving: public keys are derived from their row, one live row a slug, no key registered twice without an insertion between |
| Registration.SharedKeyRun | internal/mgmt/authstore/postgresql.go:134-157 | two creations under one key and one registration: an error is reported, nothing is logged as registered, both rows carry the machine id |
| Registration.IdsAreFinal | internal/mgmt/authstore/postgresql.go:137-147 | a machine id on a row other than "*" never changes |
| Handlers.Management.CreateDevice | internal/mgmt/devices.go:35-94 | over the request alone: exactly which requests are accepted, with a key made up when none is given; success exactly if also no live row has the slug, and then the row is there |
| Handlers.Management.Lookup | internal/mgmt/route.go:206-252 | success means a live row without a machine id that the key names and a body with a machine id and its public key, and that row is kept for the second statement; failure has one of the reasons left |
| Handlers.Management.Register | internal/mgmt/route.go:253-266 | row by row, for the row kept: live rows of its shared key without a machine id take the id and its public key; success exactly on one, and exactly then the log says so |
| Handlers.Management.DeleteLookup | internal/mgmt/devices.go:157-171 | a live device is found under its slug of at most 24 bytes, and under its public key, and its slug is kept for the second statement |
| Handlers.Management.DeleteDevice | internal/mgmt/devices.go:157-179 | row by row: live rows of the slug are marked deleted, whatever is reported; success exactly on one |
| Handlers.Management.StoreIsSafe | internal/mgmt/route.go:203-267 | after any calls of the handlers' methods in any order the safety properties hold of the store's rows, and no machine id set before has changed |

## Left out

- Sockets, the websocket library, ping/pong, deadlines and contexts: only "a write is one message" and "a read returns part of one message" are kept; a cancelled context is a step.
- A failed write on the tunnel delivers nothing of its message; `outErr` and what `Run` makes of it are not modelled.
- ParserV1.Parser.UnpackV1: after LoopPanic or SlicePanic the count of bytes taken is not promised; the source returns none.
- Multiplex.Reachable: states after a write on which the parser panicked are kept, but the panicking parser is not used again; recovery from a panic is not modelled.
- Delivery of "error" frames: the parser never routes them under their own address, so nothing is claimed.
- Turns.AddressInTurns: that a client waits until the loop of an earlier one with its address has returned is assumed of the run; the source leaves it to the operating system.
- `Listener.Accept` and `Close`, `Encoder.Run`: blocking, double close and liveness.
- Replies.ClientTable.RouteBytes: the retry after a short write; a write gives the client all bytes or finds it gone. `SubscriberConn.Serve` beyond the source address: its choice of scheme.
- Relay.Registry.Remove: closing the clients and the websocket is one flag; each of Add, Remove and GetServer is one atomic step, although the source holds no lock across them.
- Races.NilServer: a Range over an inner map is one step, and the index by subject is left out.
- Sni.GetHostname: the input slice is taken to have no spare capacity, so that a slice past its end panics.
- Vhost.ServeName: lower-casing, the host name check and the IP allow list are not modelled; a name counts as served when it has a server.
- `ToPublicKeyString`, JSON decoding, HTTP routing and status codes: the key function is a parameter, a request is the values it decodes to. `Touch`, `Active` and `Inactive` change nothing that the invariants mention.
- Registration.RegistrationSafety: for the empty shared key only, setting an empty master secret counts as an insertion; the server refuses to start with one.
- Certificates, DNS-01 and HTTP-01 challenges, JWT signing, the admin API, service installation and command-line handling.

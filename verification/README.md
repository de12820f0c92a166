# Servers, proved

A model of seven small network servers and of the properties they exist for. Each server is modelled twice over:
as a specification over values (functions, and state machines over their steps), and, where the program works in
place, as classes and methods with loops that are proved to do exactly what the specification says. The theorems are
stated about the specifications, for every input and every finite run.

- **LRCP** (`lrcp_packets`, `lrcp_datagrams`, `lrcp_protocol`, `lrcp_alone`, `lrcp_network`, `lrcp_progress`,
  `lrcp_closing`, `line_reversal`): a reliable byte stream over datagrams. Two session handlers are joined by a network
  that may lose, repeat and reorder packets. The streams are safe in every reachable state, an open session never
  wedges, a closing one comes to its end, the packets survive their text format, and the line reverser on top of it
  gives its client every line reversed.
- **Job centre** (`job_centre`, `job_centre_spec`, `request_codec`, `lines`, `seqs`): heaps, a job table, a list of
  running jobs and weak references keep the promise of a plain table of jobs; the request framer yields the lines of
  its input however that is cut.
- **Budget chat, WASI version** (`chat`, `chat_room`, `chat_history`, `chat_screen`): one server loop, many clients,
  and queues between them. Nobody panics, names are unique, what each client has been told adds up to who is in the
  room, and every line that is entered reaches everyone else, once and in order.
- **Versioned file store** (`vcs_path`, `vcs`, `vcs_refinement`, `vcs_revisions`): a tree of shared lists stands for a
  map from paths to revisions.
- **Pest control** (`pest_packets`, `authority_server`, `site_visitor`, `pest_wire`, `pest_text`, `pest_layout`,
  `pest_round_trip`, `pest_stream`, `pest_codec`, `pest_plain_packets`, `pest_array_packets`, `pest_packet_codec`): the
  reconciler that makes an authority's policies follow the counted populations, and the codec with its validating and
  its parsing pass.
- **Speed daemon** (`speed_controller`, `speed_tickets`, `speed_dispatch`): average speeds in bounded arithmetic, one
  ticket per car and day whatever the order of a hash set, and the delivery of tickets.
- **Insecure sockets layer** (`cipher`, `cipher_codec`, `cipher_split`, `cipher_session`): byte operations that
  depend on the stream position, their inverses, the codec that reads a spec and then keeps two counters, when it
  reads the spec, and whole sessions.

`byte_types` and `wrappers` hold shared types. `dafny verify dfyconfig.toml` checks the whole project.

How the parts of a program appear here:

- A turn of `tokio::select!` or `futures::select_biased!` is one step, and which step comes next is left open. A lock
  that is held for a whole operation makes that operation one step.
- An `Arc` of the job centre is a token with the value behind it, and upgrading a weak reference succeeds as long as
  the token is held. A shared list of the file store is a reference into a map of lists.
- A hash set or map that is walked is walked in an arbitrary order, which is a parameter of the specification.
- Sockets and clocks are inputs: an arriving packet, chunk or line, a timeout, a failed write.
- Machine integers are modelled with their width: additions and casts that wrap are written out, as in a release
  build.
- A Rust `String` on pest control's wire is its bytes in UTF-8. In LRCP a byte is an ASCII character.

Where the code and its own documentation differ, the model follows the code:

- LRCP (`rust/p07-line-reversal/src/lib.rs:134-137`) asks for a repeated acknowledgement when data arrives behind a
  gap; the handler sends none. `LrcpProtocol.AnsweredIff` says exactly which data is acknowledged, `GapExample` is a
  packet that is not, and `LrcpNetwork.StopAndWait` shows that two such handlers never make a gap.
- LRCP (`rust/p07-line-reversal/src/lib.rs:191-192`) has every close matched by a close. A closed handler stays silent
  (`LrcpClosing.CloseIsAnswered`), and one that is shut down while a packet waits is closed by sending that packet
  instead of a close: `LrcpClosing.ShutdownIsSaidIff` says exactly when, `SessionEnds` that its peer learns of it all
  the same.
- LRCP refuses numbers from 2147483648 on; the parser's 32-bit accumulator wraps, so some numbers of ten digits are
  accepted with another value. `LrcpPackets.NumericFieldExact` and `NumericFieldAsDocumentedIff` say exactly which.
- The insecure sockets layer (`rust/p08-insecure-sockets-layer/src/lib.rs:80-84`) refuses ciphers that leave every
  byte unchanged; the code refuses those that leave one phrase unchanged. That is more: `Cipher.RefusedForNothing`.
  `Cipher.ValidIff` says exactly which, and `Cipher.ValidIffNotNoOp` that it is the same for specs without additions
  and for specs of nothing else.
- The insecure sockets layer takes a spec from a byte stream; the decoder reads it as what it is if and only if the
  first chunk to arrive holds all of it: `CipherSplit.ReadIffWhole`. `CipherCodec.SplitSpecIsLost` and
  `CipherCodec.NeverReturns` say how it goes wrong otherwise.
- The speed daemon tickets cars that are half a mile per hour too fast; with a limit above 654 or a distance above
  11930 miles its arithmetic does something else. `SpeedController.ExactIffLimit` and `ExactIffMiles` draw both lines.

## Model

| member | source | states |
|---|---|---|
| `LrcpPackets.ReadNumeric` | rust/p07-line-reversal/src/lrcp/packets.rs:31-50 | the number parser's loop computes `ParseNumeric`, overflow check and wrapping accumulator included |
| `LrcpPackets.WriteNumeric` | rust/p07-line-reversal/src/lrcp/packets.rs:55-76 | printing through the ten-digit array never overruns it and yields the decimal numeral and its length |
| `LrcpPackets.NumericFieldExact` | rust/p07-line-reversal/src/lrcp/packets.rs:31-50 | for any field of digits: read as its value modulo 2^32 if no leading part wraps into the upper half, refused otherwise |
| `LrcpPackets.NumericFieldAsDocumentedIff` | rust/p07-line-reversal/src/lrcp/packets.rs:31-50 | the documented treatment holds if and only if the field is below 2^31 or one of its leading parts is caught |
| `LrcpPackets.NumericFieldRefused` | rust/p07-line-reversal/src/lrcp/packets.rs:37-39 | fields from 2^31 up to 2^32 are always refused |
| `LrcpPackets.NumericFieldWraps` | rust/p07-line-reversal/src/lrcp/packets.rs:36 | the family of larger numbers that are accepted with another value, against the documentation |
| `LrcpPackets.NumericFieldWrapsExample` | rust/p07-line-reversal/src/lrcp/packets.rs:36-39 | one of them: 4294967296 is read as 0 |
| `LrcpPackets.NumericRoundTrip` | rust/p07-line-reversal/src/lrcp/packets.rs:30-77 | a printed number below 2^31 reads back, and what follows it is left |
| `LrcpPackets.WritePayload` | rust/p07-line-reversal/src/lrcp/packets.rs:150-166 | the printer's loop writes the escaped payload and counts its bytes |
| `LrcpPackets.ReadPayload` | rust/p07-line-reversal/src/lrcp/packets.rs:110-136 | the parser's loop computes `ParsePayload`, errors included |
| `LrcpPackets.PayloadParserInvertsEscape` | rust/p07-line-reversal/src/lrcp/packets.rs:110-167 | a buffer parses to a payload and a rest if and only if it is the escaped payload followed by the rest |
| `LrcpPackets.NewPayload` | rust/p07-line-reversal/src/lrcp/packets.rs:87-108 | the loop takes the payload that `TakePayload` specifies |
| `LrcpPackets.PayloadIsLongestPrefix` | rust/p07-line-reversal/src/lrcp/packets.rs:87-108 | that payload is the longest prefix whose escaped form stays below the buffer size, and is not empty |
| `LrcpPackets.WritePacket` | rust/p07-line-reversal/src/lrcp/packets.rs:215-258 | the four printers write the packet's text and return its length |
| `LrcpPackets.PacketRoundTrip` | rust/p07-line-reversal/src/lrcp/packets.rs:215-301 | a packet the protocol allows prints to fewer than 1000 bytes and parses back to itself |
| `LrcpDatagrams.NumericIff` | rust/p07-line-reversal/src/lrcp/packets.rs:31-50 | a number is read from a field of digits and its slash, and from nothing else |
| `LrcpDatagrams.ParsePacketIff` | rust/p07-line-reversal/src/lrcp/packets.rs:260-301 | a datagram is taken for a packet if and only if it is below 1000 bytes and spells it to its last byte: a trailing or a stray byte is refused |
| `LrcpDatagrams.PlainPayload` | rust/p07-line-reversal/src/lrcp/packets.rs:87-108 | of text without slashes and backslashes a data packet takes 920 bytes, or all there is |
| `LrcpProtocol.Handler.constructor` | rust/p07-line-reversal/src/lrcp/protocol.rs:197-226 | the handler's initial state for both ends |
| `LrcpProtocol.Handler.TakeTurn` | rust/p07-line-reversal/src/lrcp/protocol.rs:228-509 | one turn of the loop in place is `Step`: its whole new state and what it sends |
| `LrcpProtocol.Handler.ReceiveData` | rust/p07-line-reversal/src/lrcp/protocol.rs:264-315 | the three cases of an arriving data packet, with wrapping arithmetic |
| `LrcpProtocol.Handler.ReceiveAck` | rust/p07-line-reversal/src/lrcp/protocol.rs:317-369 | full, partial, old and excessive acknowledgements |
| `LrcpProtocol.Handler.ReceiveClose` | rust/p07-line-reversal/src/lrcp/protocol.rs:371-404 | the answer to a close, with the state it leaves |
| `LrcpProtocol.Handler.TimeOut` | rust/p07-line-reversal/src/lrcp/protocol.rs:428-457 | expiry ends the session, otherwise the last packet is offered again |
| `LrcpProtocol.Handler.PrepareNext` | rust/p07-line-reversal/src/lrcp/protocol.rs:462-508 | the end of a turn: a close, the next data packet, or nothing |
| `LrcpProtocol.Handler.Deliver` | rust/p07-line-reversal/src/lrcp/packets.rs:139-145 | the unread bytes of a packet reach the reader's buffer |
| `LrcpProtocol.Handler.PollRead` | rust/p07-line-reversal/src/lrcp/protocol.rs:72-95 | a read takes a prefix of the buffer and leaves the rest; nothing means waiting |
| `LrcpProtocol.Handler.PollWrite` | rust/p07-line-reversal/src/lrcp/protocol.rs:100-122 | a write appends everything, or nothing on a closed stream |
| `LrcpProtocol.Handler.PollFlush` | rust/p07-line-reversal/src/lrcp/protocol.rs:125-145 | a flush is complete exactly when the buffer is empty or the stream closed |
| `LrcpProtocol.OnDataBelowLimit` | rust/p07-line-reversal/src/lrcp/protocol.rs:274-313 | below 2^31 no addition wraps, and the receiver does what cumulative acknowledgement means |
| `LrcpProtocol.AnsweredIff` | rust/p07-line-reversal/src/lrcp/protocol.rs:274-313 | an open handler acknowledges data if and only if it has received everything before it; the documentation asks for an acknowledgement always |
| `LrcpProtocol.GapExample` | rust/p07-line-reversal/src/lrcp/protocol.rs:310-312 | data behind a gap that is met with silence |
| `LrcpProtocol.ConnectIsAnsweredIff` | rust/p07-line-reversal/src/lrcp/protocol.rs:406-418 | a connect is acknowledged with nothing received, except by the end that opened the session, which ignores it |
| `LrcpProtocol.ReceiverAgainstAnySender` | rust/p07-line-reversal/src/lrcp/protocol.rs:274-313 | for any pieces of one stream in any order and number, the delivered bytes are a prefix and the position never moves back |
| `LrcpAlone.AckMovesIff` | rust/p07-line-reversal/src/lrcp/protocol.rs:317-369 | for any acknowledgement, true or not: it moves the offset exactly if it is new and not above what was sent, and one above it closes |
| `LrcpAlone.SenderAgainstAnyPeer` | rust/p07-line-reversal/src/lrcp/protocol.rs:228-509 | whatever packets arrive, in every run: all data sent are pieces of what was written in their place, the buffer is the stream from the offset on, and the offset never moves back |
| `LrcpNetwork.ActKeepsInv` | rust/p07-line-reversal/src/lrcp/protocol.rs:228-509 | every turn, read and write of either side keeps the invariant of both streams, over a lossy, repeating, reordering network |
| `LrcpNetwork.RunKeepsInv` | rust/p07-line-reversal/src/lrcp/protocol.rs:228-509 | so does every finite run |
| `LrcpNetwork.StreamSafety` | rust/p07-line-reversal/src/lrcp/protocol.rs:264-369 | in every reachable state: delivered bytes are exactly the first `receiverPosition` bytes written, offset, position, length and written are in order, and the buffer is the stream from the offset on |
| `LrcpNetwork.FlushedIsDelivered` | rust/p07-line-reversal/src/lrcp/protocol.rs:125-145 | a flush that completes on an open stream means that the peer holds every byte written |
| `LrcpNetwork.StopAndWait` | rust/p07-line-reversal/src/lrcp/protocol.rs:310-367 | no arriving packet can show a gap, acknowledge a part or too much, or ask for more than the buffer holds |
| `LrcpNetwork.PacketsSurviveTheWire` | rust/p07-line-reversal/src/lrcp/packets.rs:215-301 | everything in flight fits a datagram and parses back to itself |
| `LrcpProgress.ReachableOpen` | rust/p07-line-reversal/src/lrcp/protocol.rs:371-404 | as long as nobody closes, no close is offered, sent or on its way |
| `LrcpProgress.SomeProgress` | rust/p07-line-reversal/src/lrcp/protocol.rs:449-508 | while a byte is unacknowledged, some finite spontaneous run acknowledges one more |
| `LrcpProgress.NeverWedges` | rust/p07-line-reversal/src/lrcp/protocol.rs:228-509 | from every reachable open state a finite spontaneous run delivers everything both sides wrote and completes every flush |
| `LrcpClosing.StagesIff` | rust/p07-line-reversal/src/lrcp/protocol.rs:242-457 | what makes a handler begin to close, what makes it closed and what stops it, each if and only if |
| `LrcpClosing.ClosingTakesNothing` | rust/p07-line-reversal/src/lrcp/protocol.rs:271-325 | a closing handler answers data and acknowledgements with a close, and takes nothing from them |
| `LrcpClosing.CloseIsAnswered` | rust/p07-line-reversal/src/lrcp/protocol.rs:371-404 | in every reachable state: a handler not yet closed answers a close with exactly one close and is then closed or stopped; a closed one stays silent |
| `LrcpClosing.AnswerStays` | rust/p07-line-reversal/src/lrcp/protocol.rs:371-404 | over runs, a handler that has heard a close has put its own in flight |
| `LrcpClosing.ClosedFromOutside` | rust/p07-line-reversal/src/lrcp/protocol.rs:385-446 | in every reachable state, a stream closed by the peer or by expiry belongs to a stopped handler whose close is in flight |
| `LrcpClosing.ShutdownIsSaidIff` | rust/p07-line-reversal/src/lrcp/protocol.rs:249-260 | a handler that is shut down sends a close of its own accord if and only if nothing waits to be sent or acknowledged |
| `LrcpClosing.SessionEnds` | rust/p07-line-reversal/src/lrcp/protocol.rs:228-509 | from every reachable state in which a running handler is closing, a finite spontaneous run, without expiry, closes it and closes or stops its peer |
| `LineReversal.Reverser.HandleLine` | rust/p07-line-reversal/src/lib.rs:370-385 | one round of the application reads a line and writes it reversed, newline last |
| `LineReversal.ReverseLinesOfText` | rust/p07-line-reversal/src/lib.rs:91-99 | the application's output is each complete line reversed, and nothing for an unfinished one |
| `LineReversal.ReverseInParts` | rust/p07-line-reversal/src/lib.rs:95-100 | the output does not depend on where the input is cut |
| `LineReversal.ServeKeepsInv` | rust/p07-line-reversal/src/lib.rs:364-385 | every step of network and application keeps input, output and both streams in agreement |
| `LineReversal.ClientReadsReversedLines` | rust/p07-line-reversal/src/lib.rs:364-385 | at every moment of every run, what the client has read is a prefix of its lines reversed |
| `LineReversal.ClientGetsEveryLine` | rust/p07-line-reversal/src/lib.rs:364-385 | from every reachable open state a finite run gives the client all its complete lines reversed |
| `JobCentre.BestQueueIsBest` | rust/p09-job-centre/src/job_centre.rs:133-143 | the chosen queue is listed, not empty, and no listed queue has a top of higher priority |
| `JobCentre.Inner.PutJob` | rust/p09-job-centre/src/job_centre.rs:118-130 | a put in place is `Put` |
| `JobCentre.Inner.GetJob` | rust/p09-job-centre/src/job_centre.rs:132-155 | a get in place is `Get`; its lookups cannot fail while every queued entry is a live job |
| `JobCentre.Inner.DeleteJob` | rust/p09-job-centre/src/job_centre.rs:157-167 | a delete in place is `Delete` |
| `JobCentre.Inner.AbortJob` | rust/p09-job-centre/src/job_centre.rs:169-174 | an abort in place is `Abort` |
| `JobCentre.Inner.RemoveJobs` | rust/p09-job-centre/src/job_centre.rs:176-182 | the loop over a worker's references gives back those that can still be upgraded |
| `JobCentre.Worker.Take` | rust/p09-job-centre/src/job_centre.rs:46-59 | a worker's get: the reference is kept and its value returned |
| `JobCentre.Worker.TakeWorkingJob` | rust/p09-job-centre/src/job_centre.rs:87-101 | the walk finds the running job with the id and forgets it and every dead reference |
| `JobCentre.Worker.AbortJob` | rust/p09-job-centre/src/job_centre.rs:78-85 | a worker's abort succeeds exactly on a job it still works on |
| `JobCentre.Worker.Drop` | rust/p09-job-centre/src/job_centre.rs:104-108 | dropping a worker gives its jobs back |
| `JobCentreSpec.StatusExact` | rust/p09-job-centre/src/job_centre.rs:110-183 | each live job waits or runs, never both, with one owner |
| `JobCentreSpec.PutRefines` | rust/p09-job-centre/src/job_centre.rs:124-130 | a put answers with an id never given out before and adds a waiting job |
| `JobCentreSpec.GetRefines` | rust/p09-job-centre/src/job_centre.rs:132-155 | a get answers with a waiting job of maximal priority in the listed queues, or that there is none if and only if none waits |
| `JobCentreSpec.DeleteRefines` | rust/p09-job-centre/src/job_centre.rs:157-167 | a delete succeeds exactly on live jobs and removes every trace |
| `JobCentreSpec.AbortRefines` | rust/p09-job-centre/src/job_centre.rs:78-101 | an abort succeeds if and only if the caller runs the job, which then waits again |
| `JobCentreSpec.DisconnectRefines` | rust/p09-job-centre/src/job_centre.rs:176-182 | a worker that goes gives back exactly the jobs it still ran |
| `JobCentreSpec.Refines` | rust/p09-job-centre/src/job_centre.rs:33-183 | every operation keeps the invariant and does what the table promises |
| `JobCentreSpec.EveryRunKeepsThePromise` | rust/p09-job-centre/src/job_centre.rs:110-183 | every run from the empty centre gives replies that a plain table of jobs promises, and leaves a centre in which the next lookups cannot fail either |
| `RequestCodec.Codec.FindNewline` | rust/p09-job-centre/src/protocol.rs:97-101 | the search from the index on finds the first newline of the whole buffer |
| `RequestCodec.Codec.DecodeNext` | rust/p09-job-centre/src/protocol.rs:95-207 | one call in place is `Decode`; the discarding loop ends, and no byte before the index is a newline |
| `RequestCodec.DrainFrames` | rust/p09-job-centre/src/protocol.rs:95-207 | all calls on a buffer give the frames of its lines and at most one error for an unfinished one |
| `RequestCodec.AnyChunking` | rust/p09-job-centre/src/protocol.rs:95-207 | for every limit and every chunking, the frames are those of the whole input |
| `RequestCodec.FramesOfLines` | rust/p09-job-centre/src/protocol.rs:104-204 | one line per line within the limit and exactly one error per longer one |
| `RequestCodec.EncodedRequestsComeBack` | rust/p09-job-centre/src/protocol.rs:210-253 | encoded requests come back whole and in order, however the bytes are cut |
| `ChatServer.Server.AcceptClient` | wasi/problems/p03-budget-chat/src/server.rs:116-135 | a new client gets the next id, a place in the table and its welcome |
| `ChatServer.Server.SendToOthers` | wasi/problems/p03-budget-chat/src/server.rs:85-87 | in whatever order the table is walked, exactly the other joined clients are sent the message |
| `ChatServer.Server.CollectNames` | wasi/problems/p03-budget-chat/src/server.rs:72-76 | the names of the other joined clients, in the order of the walk |
| `ChatServer.Server.HandleMessage` | wasi/problems/p03-budget-chat/src/server.rs:62-113 | one message in place is `Handle`; lookups and the assertion succeed |
| `ChatClient.Client.ShowUsers` | wasi/problems/p03-budget-chat/src/client.rs:110-123 | the line that names the room's users |
| `ChatClient.Client.TakeMessage` | wasi/problems/p03-budget-chat/src/client.rs:52-163 | what a client does with a message in each of its states |
| `ChatClient.Client.HearLine` | wasi/problems/p03-budget-chat/src/client.rs:74-173 | what a client does with a line of its user, or its absence |
| `ChatRoom.OtherNamesExact` | wasi/problems/p03-budget-chat/src/server.rs:72-77 | the users a newcomer is told are exactly the other names, whatever the order of the walk |
| `ChatRoom.ActKeepsInv` | wasi/problems/p03-budget-chat/src/server.rs:55-137 | every step of the server and of every client keeps queues, states, names and views in agreement |
| `ChatRoom.RunKeepsInv` | wasi/problems/p03-budget-chat/src/server.rs:55-137 | so does every finite run |
| `ChatRoom.NobodyPanics` | wasi/problems/p03-budget-chat/src/client.rs:46-180 | in every reachable state no lookup, assertion or `unreachable!` can fail |
| `ChatRoom.ClientsMeetExpectedMessages` | wasi/problems/p03-budget-chat/src/client.rs:46-180 | the queue of each client holds only messages its state expects |
| `ChatRoom.UsernamesAreUnique` | wasi/problems/p03-budget-chat/src/server.rs:24-37 | no two clients in the room share a name |
| `ChatRoom.ViewsAgree` | wasi/problems/p03-budget-chat/src/server.rs:62-113 | what a client has been sent adds up to exactly the others in the room, except those accepted later and not yet announced |
| `ChatRoom.QuietViewsAreExact` | wasi/problems/p03-budget-chat/src/server.rs:62-113 | with nothing in flight, every chatting client has read exactly the other names |
| `ChatHistory.LineIsRelayed` | wasi/problems/p03-budget-chat/src/server.rs:93-100 | a line that is served is sent, under its speaker's name, to everyone else in the room; the speaker and those outside are sent nothing, and nothing else changes |
| `ChatHistory.EveryLineIsHeard` | wasi/problems/p03-budget-chat/src/server.rs:55-137 | over whole runs, from the keyboard on: the chat sent to a client is exactly the lines the others have entered since it was named, once, in order, with their names; what it has read is a beginning of that, and all of it when nothing is in flight |
| `ChatHistory.NameGivenIff` | wasi/problems/p03-budget-chat/src/server.rs:24-81 | a name is given if and only if it is not empty, of letters and digits, and nobody's; the client is told either way and nobody else is affected |
| `ChatHistory.NamesAreProper` | wasi/problems/p03-budget-chat/src/server.rs:24-37 | in every reachable state the names in the room are proper |
| `ChatHistory.NamesAreAsEntered` | wasi/problems/p03-budget-chat/src/client.rs:74-90 | everyone in the room goes by the name that the user entered |
| `ChatScreen.ShownTellsApart` | wasi/problems/p03-budget-chat/src/client.rs:147-163 | lines of chat and news look alike only if they are the same |
| `ChatScreen.ShownReadsAs` | wasi/problems/p03-budget-chat/src/client.rs:147-163 | a line reads as an arrival, a departure or somebody's words exactly if it is that |
| `ChatScreen.ShownRoom` | wasi/problems/p03-budget-chat/src/client.rs:110-123 | the room's line: names separated by commas, and nothing behind the colon in an empty room |
| `VcsPath.ComponentsRebuild` | rust/p10-voracious-code-storage/src/vcs.rs:90-114 | a valid path is rebuilt from its names, up to a final slash; every name is one |
| `VcsPath.ComponentsInjective` | rust/p10-voracious-code-storage/src/vcs.rs:90-114 | different file paths have different names |
| `Vcs.Repository.Walk` | rust/p10-voracious-code-storage/src/vcs.rs:196-250 | the cursor's walk with its pushes is `CommitFrom` |
| `Vcs.Repository.CommitFile` | rust/p10-voracious-code-storage/src/vcs.rs:179-251 | a commit in place is `Commit`, with its three errors |
| `Vcs.Repository.GetFile` | rust/p10-voracious-code-storage/src/vcs.rs:355-413 | the cursor's walk of a get is `Get`, with its errors |
| `Vcs.Repository.ListDir` | rust/p10-voracious-code-storage/src/vcs.rs:310-353 | the walk of a listing is `List` |
| `Vcs.Repository.ListEntries` | rust/p10-voracious-code-storage/src/vcs.rs:330-346 | the entries of a directory, shown as files or directories |
| `VcsRefinement.OneWay` | rust/p10-voracious-code-storage/src/vcs.rs:63-68 | no directory is reached by two paths: the references form a tree |
| `VcsRefinement.CommitFromDone` | rust/p10-voracious-code-storage/src/vcs.rs:201-250 | a commit grows the revisions of its path and changes no other path, and keeps the tree |
| `VcsRefinement.CommitKeepsInhabited` | rust/p10-voracious-code-storage/src/vcs.rs:201-250 | every entry keeps a release somewhere in its subtree |
| `VcsRefinement.CommitRefines` | rust/p10-voracious-code-storage/src/vcs.rs:179-251 | a commit on the tree is the commit on a flat map from paths to revisions, with the same answer |
| `VcsRefinement.GetFromExact` | rust/p10-voracious-code-storage/src/vcs.rs:360-393 | what a get finds, and which of its errors it gives when it finds nothing |
| `VcsRefinement.GetRefines` | rust/p10-voracious-code-storage/src/vcs.rs:355-413 | a get answers from the flat map: the current revision is its last one, a numbered one the one in that place, and an error if and only if there is none |
| `VcsRefinement.RunRefines` | rust/p10-voracious-code-storage/src/vcs.rs:179-251 | every run of commits on the tree is the run on the map |
| `VcsRefinement.CommittedStays` | rust/p10-voracious-code-storage/src/vcs.rs:179-413 | whatever is committed before and after, the number a commit returned gets its data |
| `VcsRevisions.FilePathIff` | rust/p10-voracious-code-storage/src/vcs.rs:90-114 | a path names a file if and only if it is names of these characters, each behind one slash |
| `VcsRevisions.TakenIff` | rust/p10-voracious-code-storage/src/vcs.rs:179-194 | a commit is taken if and only if it brings text for a file; the data are judged before the path |
| `VcsRevisions.CommitNumbers` | rust/p10-voracious-code-storage/src/vcs.rs:179-251 | the number of a commit: the current one if the data are those of the current revision, which changes nothing, and the next one otherwise; the current revision is then the data, and earlier ones stay |
| `VcsRevisions.CurrentIsLatest` | rust/p10-voracious-code-storage/src/vcs.rs:396-404 | a get of the current revision gives what was committed last, whatever is committed to other paths since |
| `VcsRefinement.DirectoryIffBelow` | rust/p10-voracious-code-storage/src/vcs.rs:314-328 | a directory exists if and only if something is stored below it |
| `VcsRefinement.ListIsSorted` | rust/p10-voracious-code-storage/src/vcs.rs:57-61 | a listing is strictly sorted by name, in the order of strings |
| `VcsRefinement.ChildrenCounted` | rust/p10-voracious-code-storage/src/vcs.rs:339-340 | a directory has as many entries as names right below it that lead to stored data |
| `VcsRefinement.ListIsComplete` | rust/p10-voracious-code-storage/src/vcs.rs:310-353 | a listing names exactly what leads to stored data: files with the number of their revisions, directories with the number of names below them that do |
| `AuthorityServers.Authority.Create` | rust/p11-pest-control/src/actors/authority_server.rs:298-312 | the authority's answer to a creation: any number that no standing policy has |
| `AuthorityServers.AuthorityServer.DeletePolicy` | rust/p11-pest-control/src/actors/authority_server.rs:259-281 | exactly the held policy is deleted, with one exchange, or nothing happens |
| `AuthorityServers.AuthorityServer.AddPolicy` | rust/p11-pest-control/src/actors/authority_server.rs:284-317 | the species has the action afterwards; nothing is sent if it had it, an old policy goes first otherwise |
| `AuthorityServers.AuthorityServer.AdjustPolicies` | rust/p11-pest-control/src/actors/authority_server.rs:191-256 | both loops carry out the plan; held and standing policies agree, no species has two at any moment, and nothing is sent if and only if nothing was to change |
| `AuthorityServers.AuthorityServer.Run` | rust/p11-pest-control/src/actors/authority_server.rs:67-90 | after every report: culled is exactly what is above its range, conserved what is below, and nothing else has a policy |
| `AuthorityServers.CreationKeeps` | rust/p11-pest-control/src/actors/authority_server.rs:298-308 | after each single creation the two sides agree and no species has two policies |
| `AuthorityServers.DeletionKeeps` | rust/p11-pest-control/src/actors/authority_server.rs:266-274 | a deletion names a standing policy, and afterwards the two sides agree |
| `AuthorityServers.PlanExact` | rust/p11-pest-control/src/actors/authority_server.rs:198-253 | the outcome for any targets and any report, repeats and conflicts included |
| `AuthorityServers.PlanIsCorrect` | rust/p11-pest-control/src/actors/authority_server.rs:198-253 | with distinct targets and a report free of conflicts, a species is culled if and only if its count is above the range, and conserved if and only if it is below |
| `AuthorityServers.AdjustReconciles` | rust/p11-pest-control/src/actors/authority_server.rs:191-256 | a culling policy stands if and only if the count is above the range, a conserving one if and only if it is below, never two for a species, and no other |
| `AuthorityServers.RepeatIsSilentIff` | rust/p11-pest-control/src/actors/authority_server.rs:286-290 | carrying out a plan again sends nothing if and only if the plan sets no species to two things |
| `AuthorityServers.PlanIsConsistent` | rust/p11-pest-control/src/actors/authority_server.rs:191-256 | which a report free of conflicts never does, for distinct targets |
| `SiteVisitors.HasConflict` | rust/p11-pest-control/src/actors/site_visitor.rs:105-114 | the loop with its map finds a conflict if and only if two entries of a species differ |
| `SiteVisitors.HandleVisits` | rust/p11-pest-control/src/actors/site_visitor.rs:100-125 | reports are passed on, in order, up to the first that is refused, with the refusal's reason |
| `SiteVisitors.AcceptedReportsReconcile` | rust/p11-pest-control/src/actors/site_visitor.rs:106-117 | a report that is passed on is reconciled, and a repetition of it sends nothing |
| `PestWire.AsciiIsUtf8` | rust/p11-pest-control/src/codec/mod.rs:140-142 | ASCII text is always accepted as text |
| `PestText.Utf8Iff` | rust/p11-pest-control/src/codec/mod.rs:140-142 | text is accepted if and only if it is the encoding of Unicode scalar values (RFC 3629, section 3) |
| `PestLayout.NumberPackets` | rust/p11-pest-control/src/codec/packets/dial_authority.rs:13-19 | type byte, length and number of the documented packets, the most significant byte first |
| `PestLayout.TextPackets` | rust/p11-pest-control/src/codec/packets/hello.rs:17-24 | the documented hello, error and policy packets, byte by byte |
| `PestLayout.SiteVisitLayout` | rust/p11-pest-control/src/codec/packets/site_visit.rs:15-26 | for every site visit: the site, the number of visits, and for each the species and then the count |
| `PestLayout.TargetsLayout` | rust/p11-pest-control/src/codec/packets/target_populations.rs:15-27 | for all targets: the site, their number, and for each the species, the lower and the upper bound |
| `PestLayout.ActionBytes` | rust/p11-pest-control/src/codec/packets/create_policy.rs:13-36 | in every policy packet 0x90 stands for culling and 0xa0 for conserving |
| `PestRoundTrip.CheckValueIff` | rust/p11-pest-control/src/codec/mod.rs:101-172 | a validated field is exactly the bytes of its value, inside the declared length |
| `PestRoundTrip.CheckAllSound` | rust/p11-pest-control/src/codec/packets/site_visit.rs:96-106 | any sequence of validated fields is the encoding of what was read |
| `PestRoundTrip.CheckEndIff` | rust/p11-pest-control/src/codec/mod.rs:174-205 | the end is accepted if and only if it lies where the length says and completes the sum to 0 modulo 256 |
| `PestRoundTrip.EncodedExact` | rust/p11-pest-control/src/codec/mod.rs:228-241 | the bytes of every packet number the length they declare and sum to 0 modulo 256; by `DecodeIff` these are the bytes that are consumed |
| `PestRoundTrip.TargetsBack` | rust/p11-pest-control/src/codec/packets/target_populations.rs:65-73 | the fields of an array of targets are exactly one target after the other |
| `PestRoundTrip.VisitsBack` | rust/p11-pest-control/src/codec/packets/site_visit.rs:61-69 | the fields of an array of visits are exactly one visit after the other |
| `PestRoundTrip.DecodeSound` | rust/p11-pest-control/src/codec/packets/mod.rs:106-120 | whatever decodes is the encoding of the packet that comes out |
| `PestRoundTrip.DecodeComplete` | rust/p11-pest-control/src/codec/packets/mod.rs:101-142 | the encoding of a packet decodes to it, whatever follows |
| `PestRoundTrip.DecodeIff` | rust/p11-pest-control/src/codec/packets/mod.rs:101-142 | bytes decode to a packet if and only if they begin with its encoding and the format can carry it |
| `PestRoundTrip.WrongChecksum` | rust/p11-pest-control/src/codec/mod.rs:174-189 | an encoding with any other checksum is refused as that, whatever follows |
| `PestRoundTrip.UnknownIff` | rust/p11-pest-control/src/codec/packets/mod.rs:106-120 | a packet is reported as unknown if and only if its first byte is none of the nine |
| `PestStreams.DecodeExtends` | rust/p11-pest-control/src/codec/mod.rs:101-189 | with more bytes a packet stays the same and refused bytes stay refused |
| `PestStreams.ProperPrefixWaits` | rust/p11-pest-control/src/codec/mod.rs:101-172 | every proper prefix of an encoding asks for more and consumes nothing |
| `PestStreams.PrefixFree` | rust/p11-pest-control/src/codec/packets/mod.rs:123-142 | no encoding is the beginning of another |
| `PestStreams.AnyChunking` | rust/p11-pest-control/src/codec/packets/mod.rs:101-120 | any bytes, cut in any way, give the same packets and end in a fault or not alike |
| `PestStreams.PacketsComeBack` | rust/p11-pest-control/src/codec/packets/mod.rs:101-142 | a stream of packets, even one that stops short, comes out as it was sent |
| `PestCodec.WrappingSum` | rust/p11-pest-control/src/codec/mod.rs:179-184 | the fold of the bytes is their sum modulo 256 |
| `PestCodec.Writer.WriteStr` | rust/p11-pest-control/src/codec/mod.rs:214-217 | a text is its truncated length and its bytes |
| `PestCodec.Writer.Finalize` | rust/p11-pest-control/src/codec/mod.rs:228-241 | patching the length in and adding the checksum seals the packet |
| `PestCodec.Validator.ValidateU8` | rust/p11-pest-control/src/codec/mod.rs:101-117 | the byte check in place: declared length first, then the data |
| `PestCodec.Validator.ValidateU32` | rust/p11-pest-control/src/codec/mod.rs:151-172 | the number check in place, which asks for a byte more than it reads |
| `PestCodec.Validator.ValidateLength` | rust/p11-pest-control/src/codec/mod.rs:123-128 | the declared length, kept for all further checks |
| `PestCodec.Validator.ValidateStr` | rust/p11-pest-control/src/codec/mod.rs:130-149 | the text check in place |
| `PestCodec.Validator.ValidateChecksum` | rust/p11-pest-control/src/codec/mod.rs:174-189 | the sum over the declared length |
| `PestCodec.Validator.RawPacket` | rust/p11-pest-control/src/codec/mod.rs:191-203 | the packet is split off exactly if it ends where its length says |
| `PestCodec.Parser.ReadU32` | rust/p11-pest-control/src/codec/mod.rs:42-46 | reading without checks where a number lies returns it and moves past it |
| `PestCodec.Parser.ReadStr` | rust/p11-pest-control/src/codec/mod.rs:48-56 | reading without checks where a text lies returns it and moves past it |
| `PestPlainPackets.WriteHello` | rust/p11-pest-control/src/codec/packets/hello.rs:17-24 | writing a hello yields its encoding |
| `PestPlainPackets.ParseHello` | rust/p11-pest-control/src/codec/packets/hello.rs:47-56 | the unchecked pass reads a validated hello back, within its bytes |
| `PestPlainPackets.ReadHello` | rust/p11-pest-control/src/codec/packets/hello.rs:59-84 | both passes together are `Decode`, and consume exactly the packet or nothing |
| `PestPlainPackets.WriteCreatePolicy` | rust/p11-pest-control/src/codec/packets/create_policy.rs:29-36 | writing a policy yields its encoding |
| `PestPlainPackets.ParseCreatePolicy` | rust/p11-pest-control/src/codec/packets/create_policy.rs:53-66 | the unchecked pass reads a validated policy back |
| `PestPlainPackets.ReadCreatePolicy` | rust/p11-pest-control/src/codec/packets/create_policy.rs:69-99 | both passes are `Decode`; any other action byte is refused |
| `PestPlainPackets.WriteError` | rust/p11-pest-control/src/codec/packets/error.rs:13-19 | writing an error yields its encoding |
| `PestPlainPackets.ReadError` | rust/p11-pest-control/src/codec/packets/error.rs:46-67 | both passes of an error are `Decode` |
| `PestPlainPackets.WriteOk` | rust/p11-pest-control/src/codec/packets/ok.rs:12-16 | writing an ok yields its encoding |
| `PestPlainPackets.ReadOk` | rust/p11-pest-control/src/codec/packets/ok.rs:35-53 | both passes of an ok are `Decode` |
| `PestPlainPackets.WriteNumber` | rust/p11-pest-control/src/codec/packets/dial_authority.rs:13-19 | writing a packet of one number yields its encoding |
| `PestPlainPackets.ReadNumber` | rust/p11-pest-control/src/codec/packets/policy_result.rs:44-66 | both passes of a packet of one number are `Decode` |
| `PestArrayPackets.WriteSiteVisit` | rust/p11-pest-control/src/codec/packets/site_visit.rs:15-26 | the writing loop yields the encoding |
| `PestArrayPackets.ParseSiteVisit` | rust/p11-pest-control/src/codec/packets/site_visit.rs:55-72 | the unchecked loop reads every visit back and never past the data |
| `PestArrayPackets.ReadSiteVisit` | rust/p11-pest-control/src/codec/packets/site_visit.rs:75-116 | both loops together are `Decode`, and consume exactly the packet or nothing |
| `PestArrayPackets.WriteTargetPopulations` | rust/p11-pest-control/src/codec/packets/target_populations.rs:15-27 | the writing loop yields the encoding |
| `PestArrayPackets.ParseTargetPopulations` | rust/p11-pest-control/src/codec/packets/target_populations.rs:59-77 | the unchecked loop reads every target back and never past the data |
| `PestArrayPackets.ReadTargetPopulations` | rust/p11-pest-control/src/codec/packets/target_populations.rs:80-126 | both loops together are `Decode`, and consume exactly the packet or nothing |
| `PestPacketCodec.DecodePacket` | rust/p11-pest-control/src/codec/packets/mod.rs:106-120 | the dispatch by the type byte in place is `Decode`, for all nine packets and every other byte |
| `PestPacketCodec.EncodePacket` | rust/p11-pest-control/src/codec/packets/mod.rs:126-142 | encoding appends the packet's bytes |
| `PestPacketCodec.RoundTrip` | rust/p11-pest-control/src/codec/packets/mod.rs:101-142 | encoding and decoding in place give the packet back and leave what is behind it |
| `SpeedController.FastIff` | rust/p06-speed-daemon/src/controller.rs:57-72 | for limits to 654 and distances to 11930: fast is miles*360000 >= (100*limit+50)*seconds, or the same time |
| `SpeedController.FastIsProduct` | rust/p06-speed-daemon/src/controller.rs:45-72 | for all limits and distances, the test without its division |
| `SpeedController.SpeedExact` | rust/p06-speed-daemon/src/controller.rs:51-65 | the speed is hundredths of miles per hour rounded down, cut off at 65535, which is also the speed at one time |
| `SpeedController.ExactIffLimit` | rust/p06-speed-daemon/src/controller.rs:45 | the test is exact for all those distances if and only if the limit is at most 654 |
| `SpeedController.ExactIffMiles` | rust/p06-speed-daemon/src/controller.rs:60-61 | the test is exact for all durations if and only if the distance is at most 11930 |
| `SpeedTickets.Controller.AllFree` | rust/p06-speed-daemon/src/controller.rs:86-87 | no day from the first to the last has a ticket yet |
| `SpeedTickets.Controller.Mark` | rust/p06-speed-daemon/src/controller.rs:91-94 | exactly these days are marked |
| `SpeedTickets.Controller.Signal` | rust/p06-speed-daemon/src/controller.rs:35-116 | a sighting in place is `Signalled` for some order of the set of earlier ones |
| `SpeedTickets.SignalKeepsInv` | rust/p06-speed-daemon/src/controller.rs:45-116 | for every order, a sighting keeps days and tickets in agreement, tickets genuine and offenders fined |
| `SpeedTickets.RunKeepsInv` | rust/p06-speed-daemon/src/controller.rs:24-117 | so does every run |
| `SpeedTickets.RunOnePerDay` | rust/p06-speed-daemon/src/controller.rs:83-106 | marked days and tickets agree and no day is in two tickets, for any sightings with any limits in any order |
| `SpeedTickets.NoDayTwice` | rust/p06-speed-daemon/src/controller.rs:83-96 | no two tickets of a car have seconds of the same day of 86400 seconds, in any run, changing limits included |
| `SpeedTickets.TicketsAreGenuine` | rust/p06-speed-daemon/src/controller.rs:57-106 | every ticket comes from two real sightings in time order that were too fast for the limit, with their speed |
| `SpeedTickets.OffendersAreTicketed` | rust/p06-speed-daemon/src/controller.rs:55-110 | every two sightings that were too fast have a ticketed day on the way from the one to the other |
| `SpeedDispatch.Dispatchers.AddDispatcher` | rust/p06-speed-daemon/src/lib.rs:501-510 | a new dispatcher, and everything pending that can go is sent |
| `SpeedDispatch.Dispatchers.RemoveDispatcher` | rust/p06-speed-daemon/src/lib.rs:512-514 | all dispatchers with the id go, the others stay in order |
| `SpeedDispatch.Dispatchers.SendTickets` | rust/p06-speed-daemon/src/lib.rs:516-520 | new tickets are queued behind the pending ones and sent |
| `SpeedDispatch.Dispatchers.SendPending` | rust/p06-speed-daemon/src/lib.rs:522-542 | the draining loop sends each ticket to the first dispatcher of its road and keeps the rest in order |
| `SpeedDispatch.ConnectedInOrder` | rust/p06-speed-daemon/src/lib.rs:501-514 | in every run, connected are exactly the dispatchers that came and have not been removed since, in the order in which they came |
| `SpeedDispatch.TicketsConserved` | rust/p06-speed-daemon/src/lib.rs:500-543 | on every road, tickets sent and then pending are the tickets issued, in order: none lost, repeated or overtaken |
| `SpeedDispatch.NoneWaitsInVain` | rust/p06-speed-daemon/src/lib.rs:500-543 | no ticket waits while a dispatcher of its road is connected, in any run |
| `SpeedDispatch.SentToTheRoad` | rust/p06-speed-daemon/src/lib.rs:525-537 | each ticket an event sends goes to the first dispatcher connected for its road |
| `SpeedDispatch.Cameras.Enter` | rust/p06-speed-daemon/src/lib.rs:671-684 | a camera is let in if and only if no connected camera of its road has another limit |
| `SpeedDispatch.Cameras.Drop` | rust/p06-speed-daemon/src/lib.rs:687-699 | dropping a guard keeps the table the count and limit of the cameras that remain |
| `Cipher.OneInverse` | rust/p08-insecure-sockets-layer/src/cipher.rs:143-166 | each operation is undone, at any 64-bit position, in both orders |
| `Cipher.ReversedBits` | rust/p08-insecure-sockets-layer/src/cipher.rs:147 | reversal puts bit 7 - k in the place of bit k, for every byte |
| `Cipher.OperationMeans` | rust/p08-insecure-sockets-layer/src/cipher.rs:145-154 | every operation as documented: opposite bits, differing bits, the bits of the position, the operand or the position added |
| `Cipher.OnlyLow` | rust/p08-insecure-sockets-layer/src/cipher.rs:145-166 | the 64-bit arithmetic gives the byte that the low byte of the position gives |
| `Cipher.EncodeValue` | rust/p08-insecure-sockets-layer/src/cipher.rs:209-214 | the loop over the operations is `Encode` |
| `Cipher.DecodeValue` | rust/p08-insecure-sockets-layer/src/cipher.rs:217-222 | the loop over them in reverse is `Decode` |
| `Cipher.SpecInverse` | rust/p08-insecure-sockets-layer/src/cipher.rs:198-223 | for every spec and position, encoding and decoding are inverse permutations of the bytes |
| `Cipher.StreamInverse` | rust/p08-insecure-sockets-layer/src/cipher.rs:96-129 | streams round-trip from any starting position |
| `Cipher.NoOpIsRefused` | rust/p08-insecure-sockets-layer/src/cipher.rs:199-206 | every no-op is refused |
| `Cipher.ValidIff` | rust/p08-insecure-sockets-layer/src/cipher.rs:199-206 | a spec is accepted if and only if it does not send "hello" from position 0 as it is |
| `Cipher.RefusedForNothing` | rust/p08-insecure-sockets-layer/src/cipher.rs:199-206 | a spec that is refused although it is no no-op |
| `Cipher.LinearForm` | rust/p08-insecure-sockets-layer/src/cipher.rs:143-166 | without additions a spec is a possible reversal and an exclusive or with the position |
| `Cipher.GrowthOf` | rust/p08-insecure-sockets-layer/src/cipher.rs:143-166 | a spec of additions adds a constant and a multiple of the position |
| `Cipher.ValidIffNotNoOp` | rust/p08-insecure-sockets-layer/src/cipher.rs:199-206 | without additions, or with nothing else, a spec is refused if and only if it is a no-op |
| `CipherCodec.ScanBuffer` | rust/p08-insecure-sockets-layer/src/cipher.rs:50-94 | one pass over the buffered spec is `Scan` |
| `CipherCodec.Codec.DecodeNext` | rust/p08-insecure-sockets-layer/src/cipher.rs:38-107 | one call of the decoder in place is `DecodeCall` |
| `CipherCodec.Codec.EncodeNext` | rust/p08-insecure-sockets-layer/src/cipher.rs:117-129 | encoding uses and advances the downstream counter only, and fails before the spec is complete |
| `CipherCodec.ScanWire` | rust/p08-insecure-sockets-layer/src/cipher.rs:50-94 | a whole spec is read as what it says, and what is behind it is left |
| `CipherCodec.FirstCall` | rust/p08-insecure-sockets-layer/src/cipher.rs:38-107 | the first call on a whole valid spec takes it and decodes the first byte at position 0 |
| `CipherCodec.ScanSound` | rust/p08-insecure-sockets-layer/src/cipher.rs:50-94 | what a pass has read is what the bytes before its end, or before its cut, say |
| `CipherCodec.FirstCallIff` | rust/p08-insecure-sockets-layer/src/cipher.rs:38-94 | the first call takes a spec if and only if it is buffered whole, its end included, and valid |
| `CipherCodec.EveryOpcode` | rust/p08-insecure-sockets-layer/src/cipher.rs:53-83 | the five opcodes, with their operands, and the end |
| `CipherCodec.FirstCallRefusesIff` | rust/p08-insecure-sockets-layer/src/cipher.rs:38-94 | the first call refuses its bytes if and only if they are operations and then an unknown opcode, or a whole spec that is not accepted |
| `CipherCodec.SplitSpecIsLost` | rust/p08-insecure-sockets-layer/src/cipher.rs:69-87 | the first pass over a mere beginning of a spec starts over, or consumes it and forgets an operation |
| `CipherCodec.NeverReturns` | rust/p08-insecure-sockets-layer/src/cipher.rs:39-94 | a pass that comes to the end of its bytes does so again, however often |
| `CipherSplit.NeverCatchesUp` | rust/p08-insecure-sockets-layer/src/cipher.rs:38-107 | once an operand is separated from its opcode, no later calls on any chunks read the spec |
| `CipherSplit.ReadIffWhole` | rust/p08-insecure-sockets-layer/src/cipher.rs:38-107 | for every spec, everything behind it and every chunking: it is read as what it is if and only if the first chunk holds all of it |
| `CipherSession.DrainIsStream` | rust/p08-insecure-sockets-layer/src/cipher.rs:96-105 | all calls on a buffer decode its bytes one at a time, each at its own position, and leave nothing |
| `CipherSession.TwoCounters` | rust/p08-insecure-sockets-layer/src/cipher.rs:96-129 | however the directions are cut and interleaved, each is the stream of its own counter |
| `CipherSession.RefusedForGood` | rust/p08-insecure-sockets-layer/src/cipher.rs:38-129 | after a refusal nothing more is decoded or encoded, whatever comes |
| `CipherSession.FirstChunk` | rust/p08-insecure-sockets-layer/src/cipher.rs:38-107 | a first chunk with a whole valid spec leaves the session as if the rest of it had come alone |
| `CipherSession.WholeSession` | rust/p08-insecure-sockets-layer/src/cipher.rs:38-129 | from the first byte of a connection: client and server understand each other, for any cut behind the spec and any interleaving |

## Left out

- Sockets, tasks, wakers, tracing and command lines of all servers; only the open choice of the next step remains.
- LRCP's wall-clock times: a retransmission and an expiry are steps that may happen whenever the loop waits.
- LRCP's listener, its table of connections and the routing of packets to sessions.
- LRCP payloads with bytes from 128 on, whose length the original changes when it turns them into text.
- LRCP streams of 2^31 bytes and more in one direction; the actions of a run stop short of them.
- LrcpProgress.NeverWedges: for sessions that nobody closes; of the others `LrcpClosing.SessionEnds` says that they
  end, not that what was still to be sent arrives, because it may not.
- LrcpProgress.NeverWedges: a finite run exists from every state; that a fair network takes it is not stated.
- LineReversal.Reverser.HandleLine: called with a complete line buffered; the reader's end of input does not occur,
  because nothing ever marks the downstream part as closed.
- The job centre's blocking get: one attempt is modelled, and no claim is made about being woken.
- JobCentreSpec.PutRefines: below 2^32 - 1 ids; what happens when the counter wraps is not modelled.
- JobCentre.Worker.AbortJob: the upgrade outside the lock is part of one step.
- RequestCodec.Codec.DecodeNext: the JSON of a line is opaque, so errors inside a line are not distinguished.
- ChatHistory.NameGivenIff: letters and digits are those of ASCII; others, and chat that is not valid text, are not
  modelled.
- The chat's accepting socket: that it ends the server is not a step.
- Vcs.Repository.Walk: a list shared through `Arc` is a reference into one of two maps, not an object of its own.
- The inside of a binary heap: a heap is a sequence whose greatest entry is taken.
- The locks of the file store along a walk: each commit, get and listing is one step.
- Reading a revision in pieces, and the line protocol in front of the file store.
- VcsRefinement.GetRefines: for paths of files; a get of a directory's path is covered by `GetFromExact`.
- Failed exchanges with the authority, reconnection and backoff: the authority answers every request.
- The controller that starts one reconciler per site, and the hello exchange with visitors.
- AuthorityServers.AuthorityServer.Run: the targets of one connection; new targets after a reconnection are not modelled.
- PestRoundTrip.WrongChecksum: of damaged packets only those with a wrong last byte are followed to their fault.
- PestStreams.AnyChunking: which fault ends a stream may depend on the chunking, so only that one does is compared.
- Text that is not UTF-8 aborts the original's task; here it is one more fault of the decoder.
- SpeedTickets.TicketsAreGenuine: for one fixed limit per road; the cameras enforce it only while one of them stays.
- Heartbeats, the wire format and the connections of the speed daemon, and sends to dispatchers that have gone.
- CipherCodec.Codec.DecodeNext: asks for bytes on which the call returns; on the others it never does.
- Cipher.ValidIffNotNoOp: for specs without additions or of nothing else; of mixed ones `NoOpIsRefused` gives the one
  direction that holds, and `RefusedForNothing` shows that the other does not.
- The toy orders behind the insecure sockets layer.
- The servers p00, p01, p02, p04 and p05, the WASI runtime and its other servers, and the Rust chat server.

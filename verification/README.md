# A verification model of the AirPlay sender

The sender in this repository does no I/O of its own: it is a state machine fed with connection events, bytes,
datagrams and clock ticks. This project models that machine and the codecs around it in Dafny and proves what they
promise, for every input, every run and every receiver.

How the pieces fit together:

- `SessionSpec.dfy` is one session as a function per step: states, pairing stages, five timers, the reply queues and
  the send counters. The receiver's replies are arbitrary. `SessionProof.dfy` holds the invariant and one small lemma
  per branch, `SessionRuns.dfy` the theorems over whole runs, `SessionDeadline.dfy` how long a start can take.
  `Sender.dfy` is the session as the object it is; each method is proved against the step of the same name.
  `SessionPace.dfy` says that a stream keeps time, `SessionProgress.dfy` that a cooperating receiver leads to one,
  `SessionTells.dfy` what application and receiver get to see. `SessionWitness.dfy` has runs that reach its corners,
  `HostContract.dfy` proves that session and poll host stay in
  step, what late inputs do, and what counters mean for nonces and the receiver's B for the SRP client.
- `Framing.dfy`, `Rtsp.dfy`, `Events.dfy` are the encrypted frames, the incremental RTSP parser and the event channel;
  `ControlCuts.dfy` says when the cutting into reads matters on the control channel, `Switch.dfy` is the moment the
  channel becomes encrypted, `RtspText.dfy` says what the parsers read out of well-written messages, `Channels.dfy` has
  the loops and buffers, `Text.dfy` the string helpers.
- `RingSpec.dfy` is the lock-free ring as two interleaved threads, `Ring.dfy` its two-part copies over one array,
  `Bits.dfy` the masking and rounding it uses.
- `BplistSpec.dfy`, `BplistLayout.dfy`, `BplistRoundTrip.dfy`, `Singles.dfy`, `Bplist.dfy`: binary property lists, from
  any writer and from the encoder here. `Tlv.dfy`: TLV8.
  `CredsSpec.dfy`, `CredsProof.dfy`, `CredsJson.dfy`: stored credentials. `Srp.dfy`: SRP-6a (section 2.6 of RFC 5054).
- `PollHost.dfy` is the poll host with an arbitrary kernel and arbitrary calls from inside callbacks.
- `Timeline.dfy` (packet numbering, retransmission, pacer), `Resample.dfy`, `Alac.dfy`, `Ntp.dfy`: the audio path.
- `Wire.dfy`, `Slices.dfy`, `Arith.dfy`: shared vocabulary.

Where the obvious claim is false, the model keeps the code's behaviour and states what does hold: an idle session may
have a timer armed (`StopArmsTheWatchdog`, `IdleIsInert`), a forged frame drops answers to requests read before it
(`Events.CutsAgreeExactly`), a read that fails on the control channel loses the messages in front of the failure
(`ControlCuts.CutsAgreeExactly`), text behind the last pairing reply is parsed after the channel is encrypted
(`AuthenticExactly`), an array of one shared object may be refused (`SharedElements`), an
integer cut off by the end of its file is read as 0 (`TruncatedInteger`), a receiver can make pairing throw
(`ThrowsExactly`), the pacer's 64-bit product has a last good instant (`ClockRunsOut`), TLV8 joins equal neighbours
(`RoundTripExactly`), a timestamp may lose one in the round trip (`TimestampRoundTrip`), and late replies or PINs revive
an ended session (`LateReplyExactly`, `LatePinExactly`).

Assumptions, each visible in a contract: AirPlay 2 is configured only with HAP pairing; notifications of a connection
follow its opening and stop after its closing (proved of the poll host, and enough by `HostSuffices`); a PIN is
submitted only while a session is active; two key agreements never yield the same key; authenticated encryption opens
what it sealed and adds 16 bytes (section 2.8 of RFC 8439); a callback makes fewer than 2^32 calls.

Numbers are unbounded unless the code's width shows: ring counters, frame counters and nonces, sequence numbers, RTP
times, generations and the pacer's product wrap explicitly. In the session model a send counter is unbounded; its
nonce repeats only after 2^64 frames.

## Model

| member | source | states |
|---|---|---|
| SessionProof.StepKeeps | src/raop_sender.cpp:364-1171 | Every host call and every reply, whatever it contains and whether it returns or throws, keeps the session invariant: an armed watchdog while starting, a running pacer, sync timer and (AirPlay 2) keep-alive while streaming, fresh counters, lawful events, a checked receiver, a falling rank, a keyed AirPlay 2 channel, and one outstanding request unless a PIN is awaited or an exception was thrown; and a session it ends has told so. |
| SessionRuns.RunKeeps | src/raop_sender.cpp:364-1171 | The invariant holds after every run a host can make. |
| SessionRuns.NoStepIsStuck | src/raop_sender.cpp:1494-1822 | In every reachable state the pairing state a reply handler dereferences exists, so every allowed call is defined; whether it returns or throws is the subject of ThrowsExactly. |
| SessionRuns.ThrowsExactly | src/airplay_crypto.cpp:282-292 | A call is left by an exception exactly when it runs M3 on a B that the big-number library does not take, or that is no multiple of N and too long to pad (at least 256^384); the session then still pairs, with nothing outstanding, no PIN awaited and its watchdog armed. |
| SessionWitness.ExceptionIsReached | src/raop_sender.cpp:1476-1518 | A receiver reaches the exception with its first reply to transient pairing. |
| OfferContract.KindsAreOutcomes | src/airplay_crypto.cpp:311-326 | The three kinds of B the session tells apart are the three outcomes of the SRP client, whatever byte limit the big-number library has, and the B of an honest receiver never throws as long as the library takes numbers as wide as N. |
| SessionRuns.EventLanguage | src/raop_sender.cpp:545-612 | At any point of any run the events since the last start() are a prefix of launched(true) closed or launched(false) closed; streaming is entered at most once, with a known server port. |
| SessionRuns.NonceFreshness | src/raop_sender.cpp:759-782 | Over any run, across sessions, retries and the 470 and 403 fallbacks, no channel key seals two plaintexts under one counter, and later seals use later counters. |
| NonceContract.NoncesNeverRepeat | src/raop_sender.cpp:759-782 | Over any run no channel key seals two texts under one eight-byte nonce, unless its counter has gone through all 64-bit values. |
| SessionRuns.ReplyRouting | src/raop_sender.cpp:934-951 | The i-th consumed reply goes to the i-th request and to the dispatcher that request chose; what has been sent is what has been answered followed by the two reply queues; while pairing or in the handshake exactly one request is outstanding, or none while the PIN is awaited or after the exception. |
| SessionRuns.StrictMeansAuthenticated | src/raop_sender.cpp:1528-1693 | In strict mode a HAP session that is streaming has since its start() seen no failed check, and a verified signature or, for transient pairing, a verified SRP proof. |
| SessionRuns.ConfigFixed | src/raop_sender.cpp:437-508 | The configuration of a session never changes during a run. |
| SessionDeadline.StepWithin | src/raop_sender.cpp:387-407 | An input that is not late never moves the latest instant at which a starting session can still be undecided. |
| SessionDeadline.TickDecides | src/raop_sender.cpp:364-407 | Before its watchdog is due a tick leaves a starting session alone; from then on a tick ends it. |
| SessionDeadline.StartIsDecided | src/raop_sender.cpp:387-407 | Whatever the receiver answers, a session still starting after any on-time run has its watchdog due at most 10 + 10 * 13 + 180 seconds after start() (AirPlay 2), and a tick from then on ends it. |
| SessionDeadline.HandshakeIsBounded | src/raop_sender.cpp:1268-1398 | At most 13 requests are sent before the stream of an AirPlay 2 session (14 with a digest password on AirPlay 1), in any run. |
| SessionDeadline.IdleIsInert | src/raop_sender.cpp:510-621 | An allowed input on an idle session sends, raises and answers nothing, datagrams included, exactly when it is not a start(), although a timer may still be armed. |
| LateInputs.LateReplyExactly | src/raop_sender.cpp:956-1068 | Without the host contract: a reply after the end is taken off the queue and changes nothing else in the whole session, but for the timer of a keep-alive (200 arms it if it is off, anything else stops it), exactly unless it answers a request of the RTSP handshake or refuses a GET; it starts the stream again exactly when it accepts a RECORD. |
| SessionWitness.LateRecordIsReached | src/raop_sender.cpp:510-532 | stop() with RECORD unanswered leaves such a session. |
| LateInputs.LatePinExactly | src/raop_sender.cpp:644-653 | A PIN after the end is ignored exactly unless the session was stopped while waiting for it; then it sends, fails or throws by the receiver B. |
| SessionWitness.LatePinIsReached | src/raop_sender.cpp:510-532 | stop() during the PIN wait leaves such a session. |
| HostContract.HostSuffices | src/raop_sender.cpp:559-612 | Over any history of application calls and notifications, a host that keeps its notification contract delivers only inputs the session allows, and the session link and the host phase always agree. |
| HostContract.NoteIsAllowed | src/raop_sender.cpp:559-612 | A notification respects the host contract exactly when the session allows it as an input. |
| SessionDeadline.StopArmsTheWatchdog | src/raop_sender.cpp:510-532 | stop() disarms every timer, but leaves the handshake timer armed exactly when the session was pairing or in its handshake and had something to tear down. |
| SessionProof.M4Keeps | src/raop_sender.cpp:1520-1557 | The M4 reply: an error, or in strict mode a bad or missing proof, ends the session; otherwise transient pairing derives its keys here and goes on to the handshake, normal pairing to M5. |
| SessionProof.RefusedKeeps | src/raop_sender.cpp:1306-1360 | 470 to transient pairing falls back to the on-screen PIN, the first 403 from there to transient pairing; anything else ends the session; and the two cannot loop. |
| SessionProof.ChallengeKeeps | src/raop_sender.cpp:975-1012 | A 401 is answered by re-sending the same request once, if there is a password and the challenge can be parsed; otherwise, and the second time, the session ends. |
| SessionProof.AgreeKeepsFresh | src/raop_sender.cpp:1541-1553 | A key agreement leaves every counter used under earlier keys behind. |
| SessionProof.EncryptKeepsFresh | src/raop_sender.cpp:1411-1417 | Resetting the counters on enabling encryption happens before the key's first use. |
| SessionPace.StreamKeepsTime | src/raop_sender.cpp:364-376 | In any run, while streaming: a tick sends the packets the clock asks for exactly from 8 ms after the stream started or audio was last sent, a sync packet exactly from one second (when a control port is known), the AirPlay 2 keep-alive exactly from two seconds; each once, and the stream goes on. |
| SessionPace.StepPaces | src/raop_sender.cpp:1120-1171 | One step: a stream timer is set exactly when the stream starts or its packet is sent, for one period later, and nothing but a tick sends one. |
| SessionPace.Ap2CarriesAll | src/raop_sender.cpp:1897-1907 | In AirPlay 2 every stream has all three: audio, sync (its control port is always known) and keep-alive. |
| SessionPace.StopTearsDown | src/raop_sender.cpp:510-532 | stop() sends TEARDOWN exactly when the connection is up and there is something to tear down, and of a stream always. |
| SessionProgress.HelpIsEnough | src/raop_sender.cpp:1268-1398 | From any point of any run at which nothing has gone wrong yet, good replies and the PIN lead to the stream. |
| SessionProgress.EveryStartCanSucceed | src/raop_sender.cpp:437-508 | So every start() can succeed, with every configuration and every way of authentication the sender has. |
| SessionTells.EndIsTold | src/raop_sender.cpp:545-557 | A session that ends without stop() or start() has raised launched(false) if it was not launched, and closed, last of all. |
| SessionTells.StartIsFresh | src/raop_sender.cpp:437-508 | start() leaves nothing of the session before: no request, key, port, challenge or volume; it raises started, and launched(false) if it cannot begin. |
| SessionTells.PinIsAskedFor | src/raop_sender.cpp:1494-1518 | A good M2 of PIN pairing asks for the PIN and gives it three minutes; of transient pairing it goes on to M4. |
| SessionTells.PinIsUsed | src/raop_sender.cpp:644-653 | The PIN goes into M3; a B that is a multiple of N ends the session. |
| SessionTells.CredentialsAreTold | src/raop_sender.cpp:1598-1650 | Once the accessory keys have opened the application gets the credentials and verification begins; anything less ends the session. |
| SessionTells.ChecksAreHonest | src/raop_sender.cpp:1528-1693 | What is reported of a check is how it came out: M4 by the receiver proof, verification by the signature. |
| SessionTells.RequestIsSealed | src/raop_sender.cpp:759-782 | On a keyed control channel every request is written in frames under the key, from the next counter on. |
| SessionTells.Ap2IsKeyed | src/raop_sender.cpp:1411-1417 | From the end of pairing the AirPlay 2 control channel is keyed by the agreed secret, the audio of a stream too, the event channel exactly after verification. |
| SessionTells.AudioIsSealed | src/raop_sender.cpp:1912-1930 | With an audio key a burst is sealed under it, packet for packet, from the next nonce on. |
| SessionTells.EventsAreAnswered | src/raop_sender.cpp:820-861 | Requests on the event channel are answered, one sealed reply each, whenever there is a key. |
| SessionTells.PortsAreTaken | src/raop_sender.cpp:1799-1907 | Audio, control and event port are those the replies tell, the audio port standing in for a control port that is not told. |
| SessionTells.StartSendsWishes | src/raop_sender.cpp:1133-1171 | A stream starts with the volume (in AirPlay 2 in any case), text and cover asked for before, and with launched(true) last of all. |
| SessionTells.VolumeIsSent | src/raop_sender.cpp:625-643 | A volume set while streaming is sent at once, before that it is kept. |
| SessionTells.NowPlayingIsSent | src/raop_sender.cpp:655-700 | Text and cover are kept, and sent where they change what is playing while streaming. |
| SessionTells.KeepAliveIsAnswered | src/raop_sender.cpp:962-970 | In AirPlay 1 the answer to a keep-alive decides whether they go on. |
| SessionTells.KeepAliveIsSent | src/raop_sender.cpp:409-433 | And while the timer runs one is sent each time it fires. |
| SessionTells.KeepAliveIsAsked | src/raop_sender.cpp:1157-1163 | The first one is sent when the stream starts, and the period is 25 seconds. |
| Sender.RaopSender.Handle | src/raop_sender.cpp:364-1171 | Any allowed call on a valid session leaves a valid one that has taken one step of the model: lawful events, no counter of a key used twice, replies in request order, the request bound, one outstanding request unless a PIN is awaited or an exception was thrown, an armed watchdog while starting, an inert idle session, and an exception exactly where the model says. |
| Sender.RaopSender.constructor | src/raop_sender.cpp:437-508 | A new sender is the initial session, and valid. |
| Framing.SegmentationDoesNotMatter | src/raop_sender.cpp:872-895 | However a byte stream, forged or not, is cut into reads, the frame reader ends with the same text, counter, verdict and (unless a frame was rejected) buffer. |
| Framing.RestIsIncomplete | src/raop_sender.cpp:873-877 | Between reads only an incomplete frame is buffered. |
| Framing.ChannelDelivers | src/raop_sender.cpp:759-782 | For every list of messages written and every cutting of the stream, the reader recovers exactly the concatenated text, keeps nothing, and its counter has advanced by the sum of ceil(len / 1024). |
| Framing.PrefixDelivers | src/raop_sender.cpp:864-895 | In the middle of the stream what has been read is a prefix of the text. |
| Framing.NoncesDiffer | src/raop_sender.cpp:770-773 | Different 64-bit counters give different nonces. |
| Framing.NonceReads | src/raop_sender.cpp:770-773 | A nonce is the counter in eight bytes, the lowest first. |
| Framing.LengthReads | src/raop_sender.cpp:764-768 | The length of a frame is written in two bytes, the lowest first. |
| Rtsp.ParseSplits | src/raop_sender.cpp:904-953 | Parsing a text and then its rest together with more text is parsing the whole: complete messages do not change when more arrives. |
| Rtsp.DeliveryDoesNotDependOnReads | src/raop_sender.cpp:864-954 | In either channel mode the dispatched messages and the state left behind are those of the whole stream, however it was cut and however long it is, as long as no read failed. |
| Rtsp.PiecesNeverWorse | src/raop_sender.cpp:897-903 | If one read of everything meets no forged frame and stays under the 4 MiB cap, no way of cutting it fails. |
| Rtsp.SomeIsPrefix | src/raop_sender.cpp:952-952 | When a reply ends the session in the middle of a read, what was dispatched is a beginning of what would have been, and the rest stays unparsed. |
| Rtsp.AuthenticRepliesArrive | src/raop_sender.cpp:864-954 | Whenever the frames of a stream open to well-formed texts and perhaps an incomplete one, however framed and cut and however many, each text comes out as one message, in order. |
| ControlCuts.CutsAgreeExactly | src/raop_sender.cpp:864-954 | Every way of cutting a control stream delivers the messages of one read and fails like it exactly when the one read succeeds, or no message is complete in the text that the authentic frames before the failure bring within the 4 MiB cap. |
| ControlCuts.LeadingOpens | src/raop_sender.cpp:872-895 | The authentic frames at the front of a stream, as far as their text fits, open to exactly that text when cut off behind them. |
| Switch.AuthenticExactly | src/raop_sender.cpp:1411-1417 | After the channel has been encrypted every message parsed comes from authenticated frames alone exactly when the read carrying the last pairing reply had no text behind it. |
| Switch.TextBehindIsParsed | src/raop_sender.cpp:902-951 | Whatever a receiver sends right behind its last pairing reply is left in the buffer and parsed as the beginning of the next message. |
| Events.AnswersDoNotDependOnReads | src/raop_sender.cpp:791-862 | For an authentic event stream the answers, their order and counters do not depend on segmentation. |
| Events.EveryRequestAnswered | src/raop_sender.cpp:820-861 | Whenever the frames are authentic and open to complete requests and perhaps an incomplete one, however framed and cut, exactly one sealed 200 goes out per request, in order, echoing its CSeq, under consecutive counters. |
| Events.ReceiverReadsAnswers | src/raop_sender.cpp:841-860 | Responses of at most 65535 bytes open at the receiver, under the counters it expects, to exactly the responses. |
| RtspText.AnswerReadsBack | src/raop_sender.cpp:841-846 | An answer reads back as one message: 200, a Server line, no body, and the CSeq it was given, if any. |
| RtspText.SequenceNumberIsClean | src/raop_sender.cpp:826-834 | Whatever a request looks like, the CSeq read from it can be echoed: no line break in it, no space around it. |
| RtspText.ReceiverSeesAnswers | src/raop_sender.cpp:820-861 | End to end: whatever complete requests are pushed in authentic frames, however framed and cut, the receiver reads back one 200 per request, in order, with its CSeq. |
| Events.CutsAgreeExactly | src/raop_sender.cpp:791-862 | Every way of cutting an event stream gives the answers and the state of one read exactly when all frames are authentic, or the rejected one is the last thing in it and no request before it is complete. |
| Events.ForgedStream | src/raop_sender.cpp:811-816 | A concrete forged stream on which reads matter. |
| Events.ForgeryDropsAnswers | src/raop_sender.cpp:811-816 | With a forged frame in the same read the requests before it get no answer; read by themselves first they do. |
| RtspText.MessageReadsBack | src/raop_sender.cpp:904-933 | A reply written as a first line, header lines and an announced body reads back: its first line, under each lower-cased name the last value, and exactly the body. |
| RtspText.CodeReadsBack | src/raop_sender.cpp:921-935 | The code of a reply is the number in its RTSP or HTTP status line. |
| RtspText.RequestReadsBack | src/raop_sender.cpp:821-837 | A pushed request, also one whose line holds colons, is taken whole and the sequence number echoed is its CSeq, as long as its first line does not itself read as a CSeq or Content-Length header. |
| Text.DecimalParses | src/raop_sender.cpp:181-197 | A length or sequence number printed in decimal parses back. |
| Text.SignedParses | src/raop_sender.cpp:181-196 | A sign in front counts; nothing but a sign is no number. |
| Channels.ControlChannel.WriteRtsp | src/raop_sender.cpp:759-782 | The chunking loop puts out exactly the frames of the message and advances the counter by their number; plain text before encryption. |
| Channels.ControlChannel.OpenFrames | src/raop_sender.cpp:872-895 | The frame loop moves exactly the text of the whole authentic frames. |
| Channels.ControlChannel.ParseReplies | src/raop_sender.cpp:904-952 | The parse loop takes exactly the complete messages off the buffer, up to the one that ends the session. |
| Channels.ControlChannel.OnReadable | src/raop_sender.cpp:864-954 | One read of the control channel is one step of the specified reader, stopping where the session ends. |
| Channels.EventChannel.AnswerRequests | src/raop_sender.cpp:820-861 | The answer loop seals one response per complete request under consecutive counters. |
| Channels.EventChannel.OnReadable | src/raop_sender.cpp:791-862 | One read of the event channel is one step of the specified responder. |
| Channels.ParseHeaders | src/raop_sender.cpp:908-916 | The header loop builds the specified map: trimmed, lower-cased names, the last value wins. |
| Text.TrimAscii | src/raop_sender.cpp:151-159 | Removes exactly the leading and trailing ASCII whitespace. |
| Text.SplitOn | src/raop_sender.cpp:160-170 | The parts between separators, at least one. |
| Text.ParseInteger | src/raop_sender.cpp:181-196 | Optional sign and digits, nothing else; None on junk, empty input or overflow of 63 bits. |
| RingProof.StepRefines | src/ring_buffer.h:27-63 | Every load, element copy and store, in any order, keeps the invariant and is either silent or one operation of a queue bounded by the capacity; pushes and pops are refused exactly when they do not fit at the moment of the check. |
| RingProof.AnyInterleaving | src/ring_buffer.h:27-55 | In every interleaving of producer and consumer, counter wrap included: what came out is a prefix of what went in, no copy leaves the buffer, no unread slot is overwritten, no unwritten slot is read. |
| RingProof.CreditIsHonoured | src/ring_buffer.h:42-59 | A pop of at most the last availableRead(), less what was popped since, is never refused. |
| RingProof.CopyInIsClear | src/ring_buffer.h:33-36 | A copy into the ring never lands on an element that has not been popped. |
| RingProof.CopyOutFinds | src/ring_buffer.h:48-51 | A copy out of the ring finds the element its place in the stream promises. |
| Ring.PutKeeps | src/ring_buffer.h:33-38 | Writing the slot after the last element appends to the contents and disturbs none of them. |
| Ring.RingBuffer.TryPush | src/ring_buffer.h:27-40 | Appends all of the data or nothing; succeeds exactly when it fits. |
| Ring.RingBuffer.TryPop | src/ring_buffer.h:42-55 | Takes exactly the oldest elements; succeeds exactly when there are enough. |
| Ring.RingBuffer.AvailableRead | src/ring_buffer.h:57-59 | The number of elements in the queue. |
| Ring.RingBuffer.AvailableWrite | src/ring_buffer.h:61-63 | What is free of the capacity. |
| Bits.NextPow2 | src/ring_buffer.h:73-78 | The six smearing steps give the least power of two that holds the requested size, and 0 exactly for size 0 and sizes above 2^63. |
| Bits.MaskIsMod | src/ring_buffer.h:33-48 | Masking with 2^k - 1 is reduction modulo 2^k. |
| BplistRoundTrip.RoundTrip | src/airplay_crypto.cpp:465-751 | decode(encode(v)) is v exactly when v is at most 32 levels deep, through object table, offset table and trailer, for every tree whose file is under 2^32 bytes; a deeper one is refused. |
| BplistLayout.LayoutDecodes | src/airplay_crypto.cpp:617-751 | Whatever layout a writer chooses (references and offsets of 1, 2, 4 or 8 bytes, counts in the marker or behind it, integers of any width, 4- and 8-byte reals, ASCII and UTF-16 strings, objects in any order and shared or circular), decoding gives what the object table means: the value of its first object, nothing where it reaches an unknown or missing object or below level 32. |
| BplistLayout.ObjectMeans | src/airplay_crypto.cpp:642-745 | Each table entry decodes, at its depth, to its meaning, and never leaves the file. |
| BplistLayout.FileParses | src/airplay_crypto.cpp:617-640 | The widths in the trailer and the offset table lead to every object. |
| BplistRoundTrip.AnyLayout | src/airplay_crypto.cpp:617-751 | A tree laid out under any widths reads back as itself exactly when it is at most 32 levels deep. |
| BplistRoundTrip.SharedElements | src/airplay_crypto.cpp:707-721 | An object shared by the elements of an array is read in each, but an array with more elements than the file has objects is refused. |
| BplistLayout.ObjectFitsFile | src/airplay_crypto.cpp:690-738 | Whatever a receiver sends, no text is longer than its file and no container has more elements than the file has objects. |
| BplistLayout.TruncatedInteger | src/airplay_crypto.cpp:609-616 | But an integer that runs past the end of the file decodes to 0. |
| BplistRoundTrip.FewestBytes | src/airplay_crypto.cpp:539-555 | An integer is written in the fewest of 1, 2, 4 and 8 bytes that hold it, a negative one in 8. |
| Singles.WidenKeepsValue | src/airplay_crypto.cpp:672-681 | A 4-byte real is read as the double of the same sign and value, subnormal ones included; infinities and NaN stay what they are. |
| Bplist.Encoder.Add | src/airplay_crypto.cpp:470-518 | Appends exactly the table of the value to the growing object table and returns its index. |
| Bplist.EncodeValue | src/airplay_crypto.cpp:559-594 | The loop over objects and offsets puts out exactly the specified file. |
| Bplist.Decoder.ParseTrailer | src/airplay_crypto.cpp:617-640 | Accepts exactly the files whose trailer and offset table lie inside the data, and takes both widths from the trailer. |
| Bplist.Decoder.Object | src/airplay_crypto.cpp:642-745 | Recursive decoding, on arbitrary bytes, with every index in range, within 33 levels. |
| Bplist.DecodeValue | src/airplay_crypto.cpp:747-751 | The decoder returns what the specification says for every byte string. |
| Tlv.DecodeEncode | src/airplay_crypto.cpp:404-438 | decode(encode(m)) is m with adjacent equal tags concatenated, across 255-byte fragments and empty values. |
| Tlv.RoundTripExactly | src/airplay_crypto.cpp:404-438 | The round trip is the identity exactly for lists whose neighbours have different tags. |
| Tlv.DecodeIsStable | src/airplay_crypto.cpp:421-438 | decode(encode(decode(d))) is decode(d) for every byte string. |
| Tlv.AnyRecordsJoin | src/airplay_crypto.cpp:421-438 | However a writer has cut its values into records, neighbours of equal tags are joined; what follows the last whole record is ignored. |
| Tlv.FewestRecords | src/airplay_crypto.cpp:404-419 | A value takes one record, or one for every 255 bytes begun. |
| Tlv.TlvEncode | src/airplay_crypto.cpp:404-419 | The fragmenting loop writes exactly the specified records. |
| Tlv.TlvDecode | src/airplay_crypto.cpp:421-438 | The joining loop reads exactly the specified items. |
| SrpSpec.SecretsAgree | test/core_tests.cpp:246-253 | For every group and every a, b, k, x and u the client's and the server's secret are equal. |
| SrpSpec.Agreement | src/airplay_crypto.cpp:297-398 | With one PIN and any hash, a nonzero B leads both sides to equal keys, the server accepts M1 and the M2 it sends is the one the client checks for; B = 0 is refused. The big-number library need only take numbers as wide as N. |
| SrpSpec.RefusedExactlyZero | src/airplay_crypto.cpp:315-320 | The safety check refuses exactly the multiples of N, however long, that the big-number library takes. |
| SrpSpec.NumberReadsBack | src/airplay_crypto.cpp:92-109 | A number written in as few bytes as possible reads back. |
| SrpSpec.XBinds | src/airplay_crypto.cpp:329-336 | Unless the hash collides on the texts named, another salt or another PIN gives another x. |
| SrpSpec.UBinds | src/airplay_crypto.cpp:324-325 | And other public values give another u. |
| SrpSpec.PairReads | src/airplay_crypto.cpp:284-292 | What u and k hash is one number after the other, each in the width of the group. |
| SrpSpec.ClientProofBinds | src/airplay_crypto.cpp:355-374 | And another salt, public value or key gives another M1. |
| SrpSpec.ServerProofBinds | src/airplay_crypto.cpp:383-398 | And another A, M1 or key gives another M2. |
| SrpSpec.KBinds | src/airplay_crypto.cpp:322-323 | And another group gives another k. |
| SrpSpec.XorBinds | src/airplay_crypto.cpp:357-360 | The masked hashes of N and g at the head of M1 determine each other. |
| SrpSpec.AnotherPin | src/airplay_crypto.cpp:311-378 | A receiver that shows another PIN accepts the client M1 exactly when both sides reach the same secret all the same, unless the hash collides on the secrets or the proofs. |
| Srp.SrpClient.Process | src/airplay_crypto.cpp:311-378 | The imperative client computes the specified key and proof, refuses, or throws, and keeps its keys unless it computed them. |
| Srp.SrpClient.PublicA | src/airplay_crypto.cpp:307-309 | The public value reads back as g^a mod N. |
| Srp.SrpClient.VerifyServerProof | src/airplay_crypto.cpp:383-398 | The constant-time comparison accepts exactly the right proof, and nothing before process() succeeded. |
| PollSpec.ContractKept | src/raop_loop.cpp:354-519 | For each connection the notifications are a prefix of failed or connected data* closed, none comes after our own close, and the kernel has taken a prefix of the bytes given for it. |
| PollSpec.SameGenerationSameConnection | src/raop_loop.cpp:418-468 | After a callback with fewer than 2^32 openings an unchanged socket number and generation mean the same connection, even if the kernel reused the number, and a changed one means that the sender gave it up. |
| PollHost.RaopLoop.Pump | src/raop_loop.cpp:354-519 | For every kernel behaviour and everything the sender does inside callbacks: the histories only grow and a parked notification comes first. Otherwise each channel gets exactly the notifications its slot and poll() call for, and the kernel is asked what they call for: a connecting socket for its error, which decides between connected and failed; a writable one with queued bytes to send them; a readable one to receive until it would block, or ended the connection, which is told last, or the sender gave it up (the second channel unless it was given up while the first was served). |
| PollHost.RaopLoop.Contract | src/raop_loop.cpp:138-198 | At any moment: lawful notifications, none after our own close; on an open connection what the kernel accepted followed by the unsent bytes is exactly what tcpSend was given, every byte the kernel handed over has been delivered, the kernel has not ended the connection, and bytes it refused are parked as a failure. |
| PollHost.RaopLoop.Drain | src/raop_loop.cpp:184-197 | Asks the kernel until the queue is empty, it would block or it fails; bytes leave the queue only as the kernel takes them, in order. |
| PollHost.RaopLoop.TcpConnect | src/raop_loop.cpp:217-259 | Adds a silent close and an opening to the history and no notification; a failure to start is parked. |
| PollHost.RaopLoop.TcpSend | src/raop_loop.cpp:261-269 | On an open slot exactly the given bytes are queued behind the others, and on a connected one the kernel is asked at once, a failure being parked; on a closed slot nothing happens. |
| PollHost.RaopLoop.TcpClose | src/raop_loop.cpp:271-308 | With flush the kernel is offered the queued bytes at least once, then the slot is closed; the history gains nothing else, and nothing is delivered for that connection any more. |
| PollHost.RaopLoop.Receive | src/raop_loop.cpp:493-514 | Asks the kernel until it would block, has ended the connection, which is told as closed, or a callback has closed or replaced it; every answer with data is delivered, in order. |
| CredsProof.RoundTrip | src/raop_creds.h:148-186 | Every set of credentials, with any key bytes and any client id bytes, reads back from its JSON. |
| CredsProof.ObjectReads | src/raop_creds.h:157-179 | Reading an object gives exactly what its members mean, however keys and strings are spelled, whatever whitespace, unknown well-formed values and trailing text there are. |
| CredsProof.OnlyKnownWordsCount | src/raop_creds.h:157-186 | Two texts whose known members mean the same give the same credentials: spelling, whitespace, unknown members and trailing text make no difference. |
| CredsProof.OrderDoesNotMatter | src/raop_creds.h:157-186 | Permuting the members makes no difference as long as no known key is given twice. |
| CredsProof.ValueSkipped | src/raop_creds.h:125-143 | Any well-formed JSON value, with nested objects and arrays, strings in any legal spelling and whitespace between tokens, is skipped whole. |
| CredsProof.StrReads | src/raop_creds.h:88-123 | A string reads back as what it means, whether its bytes are raw, one-letter escapes or four hex digits. |
| CredsProof.CanonRight | src/raop_creds.h:61-80 | The spelling the writer uses is one of these and means what was written. |
| CredsSpec.HexRoundTrip | src/raop_creds.h:30-55 | Hex text decodes to the bytes it was made from. |
| CredsJson.RaopCredsFromJson | src/raop_creds.h:157-186 | The cursor-driven reader returns what the specification says for every text. |
| CredsJson.RaopCredsToJson | src/raop_creds.h:148-153 | The writer puts out exactly the specified text. |
| CredsJson.JsonCursor.ParseStr | src/raop_creds.h:88-123 | The string loop reads exactly the specified string or fails. |
| CredsJson.JsonCursor.SkipAny | src/raop_creds.h:125-143 | The skipping loops end exactly behind the value, or fail. |
| CredsJson.RaopHexDecode | src/raop_creds.h:39-55 | None exactly on an odd length or a non-hex character. |
| TimelineSpec.KeptExactly | src/raop_sender.cpp:2017-2020 | A sequence number is kept exactly when one of the last min(n, 1024) packets carries it. |
| TimelineSpec.RetransmitsExactly | src/raop_sender.cpp:2114-2134 | A request is answered with exactly the packets of the window it asks for, each once and in the order asked: at most min(lostCount, 1024). |
| TimelineSpec.PacketNumbers | src/raop_sender.cpp:1984-1991 | The k-th packet carries seq0 + k mod 2^16, 66150 + 352 k mod 2^32, the session id, and for encrypted audio the nonce k. |
| TimelineSpec.PacketOpens | src/raop_sender.cpp:1912-1930 | The receiver opens an encrypted packet with the nonce behind it, time and session id authenticated; unencrypted the payload stands behind the header. |
| TimelineSpec.RequestReads | src/raop_sender.cpp:2118-2120 | A retransmit request is read as the first number and count it was written with. |
| TimelineSpec.AnswerReads | src/raop_sender.cpp:2125-2131 | A retransmitted packet is told by its type, its number and the packet itself. |
| Timeline.PacketStored | src/raop_sender.cpp:2017-2020 | Storing a packet replaces exactly the one that leaves the window. |
| Timeline.LookUp | src/raop_sender.cpp:2122-2131 | The slot of a number holds its packet, byte for byte, exactly while the packet is in the window. |
| Timeline.AudioStream.SendAudioPacket | src/raop_sender.cpp:1980-2025 | Sends the next packet of the timeline and remembers it. |
| Timeline.AudioStream.OnControlDatagram | src/raop_sender.cpp:2114-2134 | Answers with the stored packets of the request, byte-identical to the originals, and seals nothing. |
| Timeline.AudioStream.OnPacerTick | src/raop_sender.cpp:1932-1946 | One tick sends exactly the specified burst. |
| RingProof.RoomIsFree | src/ring_buffer.h:28-31 | The push check sees exactly the free space. |
| PacerSpec.TargetExact | src/raop_sender.cpp:1937-1939 | The 64-bit frame target is the true one exactly while elapsedNs * 44100 < 2^64. |
| PacerSpec.NeverAhead | src/raop_sender.cpp:1932-1946 | Over any tick sequence the frames sent never exceed the target, and each tick sends 16 packets or ends less than 352 frames behind. |
| PacerSpec.BacklogShrinks | src/raop_sender.cpp:1932-1946 | With ticks at most 127 ms apart any backlog shrinks strictly until it is below 352 frames. |
| PacerSpec.ClockRunsOut | src/raop_sender.cpp:1937-1939 | The bound is tight: one nanosecond later the target falls to zero and nothing is sent. |
| Alac.FrameReads | test/core_tests.cpp:297-322 | A byte string with the frame's bits and padding reads back, most significant bit first, to the same samples. |
| Alac.EncodeAlacFrame | src/raop_sender.cpp:1956-1978 | n stereo frames give exactly 4 n + 4 bytes, with the specified bits, that the receiver's reader decodes to the same samples. |
| Alac.Put | src/raop_sender.cpp:1961-1966 | Appends the low bits of a value, most significant first, across byte boundaries. |
| Ntp.NoOverflow | src/raop_sender.cpp:130-135 | For 64-bit NTP times and timestamps below 2^32 * 44100 the conversions never overflow. |
| Ntp.TimestampRoundTrip | src/raop_sender.cpp:130-135 | ntp2ts(ts2ntp(t)) is t or t - 1, and t exactly for the multiples of 11025. |
| Ntp.NtpRoundTrip | src/raop_sender.cpp:130-135 | 0 <= x - ts2ntp(ntp2ts(x)) < 3 * 2^16. |
| Ntp.ConversionsKeepOrder | src/raop_sender.cpp:130-135 | Both conversions keep order. |
| Resample.Resampler.FillFrames | src/raop_sender.cpp:2027-2092 | A chunk is the continuation of the one-shot output, then silence; frames are taken from the ring until it holds less than one or 8192 are staged, and none is lost; silence starts only when the input is starved, and for rates at which the wanted frames span at most 8190 input frames (below 1 MHz for the 352 of a packet) only when everything pushed is: the ring then holds less than a frame and no further frame can be computed. |
| Resample.PassThrough | src/raop_sender.cpp:2034-2046 | At 44100 the ring's frames pass through unchanged, then silence. |
| Resample.ChunkingIrrelevant | src/raop_sender.cpp:2048-2091 | Of two resamplers to whose rings the same samples were pushed, taken in whatever chunks, one has put out a beginning of what the other has, and the same once both are starved of everything pushed. |
| ResampleSpec.OneShotStays | src/raop_sender.cpp:2067-2078 | Frames that could be computed do not change when more input arrives. |
| ResampleSpec.LerpBetween | src/raop_sender.cpp:2071-2075 | An interpolated sample lies between its neighbours, so it fits sixteen bits. |
| ResampleSpec.LerpValue | src/raop_sender.cpp:2071-2075 | An interpolated sample is the weighted sum of its neighbours, a fraction dropped towards zero. |
| ResampleSpec.RampStaysRamp | src/raop_sender.cpp:2067-2078 | What rises evenly in the input rises evenly in the output: frame k has the height of the line at k * rate / 44100, less than one off. |
| Resample.RampThrough | src/raop_sender.cpp:2048-2091 | And so it leaves a resampler, in whatever chunks it was fed. |

## Left out

- Header texts, SDP and DMAP bodies, digest strings, logging: a request is its method and an arbitrary number of frames.
- Cryptographic primitives (SHA-512, HKDF, ChaCha20-Poly1305, X25519, Ed25519, random numbers): parameters with only the facts needed.
- The bytes of a reply in the session model: it sees which check passes and which field is present; the parsers are modelled by themselves.
- Re-entrant callbacks into the session, except that a PIN submitted from inside the request for one is the next step.
- Changing the authentication method, input format or ring in the middle of a session.
- UDP slots of the poll host, address lookup, waiting times: the kernel's results are arbitrary, a flush has an arbitrary number of rounds, at least one.
- The big-endian sample bytes of unencrypted audio: the payload of a packet is given.
- The Qt host, the command-line demo, WAV files, sync and timing packet layouts, volume formatting.
- RingBuffer reset() and weak memory beyond acquire and release as atomic steps; a capacity of 0 is rejected by the constructor's contract.
- IEEE rounding in the resampler: positions and interpolation are exact rationals, truncated as the cast does.
- Exceptions of memory or of the crypto library itself: those the receiver can cause with its B, too long for the big-number library or to pad, are modelled as an outcome the application catches; what the poll host skips of its turn when one passes through it is not.
- The size limit of the big-number library, which is not part of this repository: a parameter that says which B it takes (10 000 words, so 80 000 bytes, in the library used).
- PollHost.RaopLoop.TcpClose: bytes the peer still sends after our FIN are thrown away unread.
- Bplist.DecodeValue: files are below the size at which 64-bit position arithmetic would overflow.
- Timeline.AudioStream.OnPacerTick: does not model frame counts near 2^64.

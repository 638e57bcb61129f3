# Share2Us core: protocols and formats, modelled and proved

This project models the parts of the Share2Us client core that move files and decide whom to trust, and proves what
they promise. `dafny verify dfyconfig.toml` checks all of it.

| file | what it models |
|---|---|
| `Bytes.dfy`, `Streams.dfy` | bytes, big-endian integers, Go readers and writers that may be cut up and fail anywhere |
| `StreamFormat.dfy`, `StreamCrypto.dfy` | the encrypted stream container: the format as functions, the loops of `crypto.go` as methods proved against them |
| `StreamAccepts.dfy` | exactly which byte strings are streams, told without the reader |
| `LanFrames.dfy`, `LanSend.dfy` | the frames of the LAN protocol and the sender's loops |
| `Transfers.dfy` | the three receive loops over a file system that outlives them |
| `PushRuns.dfy`, `PullRuns.dfy` | resumable pushes and pulls over whole runs of attempts |
| `Endings.dfy` | what every ending of a transfer leaves, and how broken transfers add up |
| `Broadcasts.dfy` | the broadcaster's side of a pull, and both sides together |
| `SharedPartial.dfy`, `SharedNames.dfy` | several handlers of serve mode on one partial: when their file is right, and what becomes of it once it is placed |
| `PushSession.dfy`, `PushOutcome.dfy` | `Send` and `handleConn` running against each other, every option, schedule and failure |
| `PushEnds.dfy` | each end of a push against any other end, and sessions that go on from each other |
| `Throttle.dfy`, `Admission.dfy` | the accept loop's rate throttle, in-flight cap and semaphore |
| `PeerDelivery.dfy`, `PeerProgress.dfy` | the WebRTC transfer as a machine over all interleavings: what it delivers, and that it ends |
| `Sas.dfy`, `Signaling.dfy` | peer verification through a hostile relay, and ICE candidates |
| `HopSigning.dfy` | canonical signing bytes and freshness |
| `TrustCache.dfy` | the signed trust list, its cache and its account binding |
| `Scan.dfy` | the addresses a network scan probes |

Code that updates state or loops is a method or a class, proved against a specification function; the theorems are
lemmas about that function, or about runs of it. A protocol between two ends is a state machine over their steps.

## Assumptions

- SHA-256 is an arbitrary function `hash`; results say "hash equals", and none needs it to be injective. Where a
  mismatch must be noticed, `hash(body) != []` says that a digest is never the empty string.
- AES-GCM obeys two laws (a 16-byte tag is added, what was sealed opens); HKDF gives keys of the right size. That
  nothing else opens is a hypothesis of `StreamIntegrity` alone, about the byte string at hand; `AssumptionsConsistent`
  gives a witness.
- TLS gives both ends of a LAN connection the same exporter value, and the PAKE keys agree exactly when the passwords
  do (RFC 8446, section 7.5). A digital signature verifies only what was signed, stated where it is used.
- One transfer at a time uses a partial, and no partial path is a destination path. The first half is not guaranteed by
  serve mode: `SharedPartial` says exactly when sharing one is harmless up to the first handler that gets its end of
  stream, `SharedNames` what can happen from there on.
- Where a file system is a map from names to contents (`Transfers`, `PushRuns`, `PullRuns`, `PushSession`), a name stands
  for its file: nobody opens a partial between the link that places it and the remove that follows, and that remove
  works. `SharedNames` has names and files apart, and both as moves.
- Deadlines and time-outs are failures that may strike at any step. The clock is a parameter; the throttle's does not
  go back.
- WebRTC's data channels are ordered and reliable. The fingerprints of a verification contain no bar (section 5 of
  RFC 8122); which bindings would be ambiguous otherwise is `Sas.BindingDeterminesExactly`.

## Where the code does less than it says

Each of these is a theorem with its exact condition, or a concrete run:

- `Receive` of a peer session can return nil for a file with holes when its session is closed under it: the callback may
  drop one message and still queue a later one (`p2p/session.go:280-283`). `PeerDelivery.ReceivedMeansDeliveredExactly`.
- `Send` of a peer session takes any control message for the ACK. A sender that skips verification takes the receiver's
  MAC for it (`p2p/session.go:585-588`). `PeerDelivery.AckMeansReceivedExactly`.
- Two handlers of serve mode on one partial can end with a right digest over a wrong file: by a stale look at its size,
  or because a partial of full size is truncated. `SharedPartial.RightDigestRightFile`.
- Without overwrite the placement is a link and then a remove whose error is ignored (`lanshare/receive.go:727-733`). A
  handler that looked before and opens while the old name is there truncates the placed file.
  `SharedNames.StaysCompleteExactly`, `SharedNames.LinkedFileIsEmptied`.
- The placement goes by name, so a right digest can place another handler's file. `SharedNames.PlacesExactly`,
  `SharedNames.AnothersFileIsPlaced`.
- `localScanTargets` says it leaves out this machine's address (`lanshare/scan.go:250-251`); with two interfaces on one
  network it does not. `Scan.ProbesItselfExactly`.
- Replacing the trust cache cannot forge trust, but it can bring back an older list that has not expired, and with it a
  revoked device. `TrustCache.ReachOfReplacement`.
- Signing bytes are injective only below 4 GiB per field. `HopSigning.InjectiveExactly`.

## Model

| member | source | states |
|---|---|---|
| StreamCrypto.EncryptStream | crypto.go:195-246 | success puts exactly the (1,3) stream of the source on the destination; a bad key, a failing source or a full destination leaves a strict prefix of such a stream |
| StreamCrypto.WriteChunks | crypto.go:217-245 | the loop with two swapped buffers and one chunk of lookahead writes the specified chunk sequence for every way the reader cuts up its data |
| StreamCrypto.ReadChunk | crypto.go:248-262 | fills the buffer or reports the end of the source, without losing or repeating a byte |
| StreamCrypto.WriteSealedChunk | crypto.go:421-441 | length, flag and ciphertext go out in this order, or a prefix of them when the destination fails |
| StreamCrypto.DecryptStream | crypto.go:267-309 | for every byte string: verdict and output are those of Decrypted when the destination takes the output, else the output is cut to what fits and the write error reported |
| StreamCrypto.ReadSealedChunks | crypto.go:330-358 | the loop shared by (1,2) and (1,3) refines the recursive reading of the format |
| StreamCrypto.ReadLegacyChunks | crypto.go:364-388 | so does the (1,1) loop |
| StreamFormat.RoundTrip | crypto.go:195-388 | for every plaintext and each of the three versions, decryption gives it back, and bytes after the stream change nothing |
| StreamAccepts.DecryptsExactly | crypto.go:267-388 | a byte string is accepted with a plaintext if and only if the key has 32 bytes, it starts with the header of a known version, byte for byte, and then with chunks of 1 to 65600 bytes that open under consecutive numbers to that plaintext, up to the first flagged 1, or for (1,1) up to a zero length |
| StreamAccepts.ForeignRejected | crypto.go:268-301 | any other key size or header is rejected with nothing written |
| StreamAccepts.ByVersion | crypto.go:278-301 | which header leads to which reading |
| StreamAccepts.BadSealedRejected | crypto.go:330-358 | after chunks that open, a bad length, a short chunk or one that does not open is rejected with the text of those chunks written and no more |
| StreamAccepts.CutSealedRejected | crypto.go:333-336 | so is a stream that ends before its last chunk |
| StreamAccepts.BadLegacyRejected | crypto.go:364-388 | the same of (1,1) |
| StreamAccepts.CutLegacyRejected | crypto.go:366-369 | and a (1,1) stream cut before its terminator |
| StreamFormat.StrictPrefixRejected | crypto.go:227-245 | every strict prefix of a written stream is rejected, after at most whole chunks of the plaintext; no unforgeability is assumed |
| StreamFormat.StreamIntegrity | crypto.go:330-358 | if nothing in a byte string opens but chunks sealed for this stream, it is accepted if and only if it starts with the written stream, with exactly the plaintext as output; otherwise only a chunk-aligned prefix comes out |
| StreamFormat.PlanShape | crypto.go:217-245 | max(1, ceil(n/65536)) chunks, all but the last full, only the last flagged final |
| StreamFormat.WrittenPlan | crypto.go:217-245 | the stream is those chunks sealed under counters 0, 1, 2, ... |
| StreamFormat.WrittenLengths | crypto.go:337-341 | every ciphertext length written is one the reader admits |
| StreamFormat.NoncesDistinct | crypto.go:453-466 | no nonce is used twice under one stream key over the 64-bit counter's range |
| StreamFormat.AssumptionsConsistent | crypto.go:407-441 | the laws asked of the cipher and the unforgeability hypothesis have a common witness, for streams of any number of chunks |
| LanFrames.WriteFrame | lanshare/protocol.go:116-132 | writes header and payload, or a prefix of them; refuses payloads whose length does not fit |
| LanFrames.WriteControl | lanshare/protocol.go:157-166 | the same for a control frame, and nothing at all for one over 64 KiB |
| LanFrames.ReadFrame | lanshare/protocol.go:136-155 | reads one frame or reports the error of the format, the cap before the payload |
| LanFrames.ReadBack | lanshare/protocol.go:116-155 | a frame within the cap is read back and what follows it is left alone; one over the cap is refused |
| LanFrames.CapsExactly | lanshare/protocol.go:136-155 | the caps in bytes: 65536 for a control frame, 69632 within a stream |
| LanFrames.CutFrame | lanshare/protocol.go:136-155 | no strict prefix of a frame is taken for a frame |
| LanFrames.CutConnection | lanshare/protocol.go:116-155 | a connection cut at any byte delivers a prefix of the frames written, never another one |
| LanSend.CtxCopyN | lanshare/send.go:208-237 | takes a prefix of the source of the length asked for, or says why it stopped; it succeeds when nothing fails |
| LanSend.HashSeekable | lanshare/send.go:189-203 | the digest of the whole file, which is left rewound |
| LanSend.StreamBodyFrom | lanshare/send.go:246-275 | every data frame carries the next bytes of the body, the end-of-stream goes out only after the last one, the digest goes on from what it held; it succeeds if and only if the connection takes the frames, when nothing else fails |
| LanSend.SendBody | lanshare/send.go:140-166 | resumed or not, the digest is of the whole body and the frames carry what follows the offset; an offset past the end sends nothing |
| LanSend.WireIsHonest | lanshare/send.go:246-275 | what a receiver parses from any prefix of those bytes is what the transfer results below call an honest sender |
| Transfers.Disk.ReceiveResumableToFile | lanshare/receive.go:540-645 | the resumable push loop, with its running digest and its file, does what PushAttempt says: which bytes are kept, dropped or placed on each ending |
| Transfers.Disk.ReceiveToFile | lanshare/receive.go:648-713 | the one-shot loop does what OneShot says, clean-up included |
| Transfers.Disk.ReceiveResumable | lanshare/broadcast.go:389-471 | the pull loop does what PullStream says |
| Transfers.Disk.Place | lanshare/receive.go:720-735 | rename when overwriting, else a link that refuses an existing name |
| Transfers.Disk.OpenPartial | lanshare/receive.go:546-571 | re-hashes and truncates to the offset, or starts afresh |
| PushRuns.ReceivePush | lanshare/receive.go:458-516 | the destination check, the resume offset and the receive loop composed |
| PushRuns.AttemptSafe | lanshare/receive.go:540-645 | whatever the sender does and wherever the attempt is cut: a placed file has the declared size and digest, the partial never outgrows the declared size, no third path changes |
| PushRuns.NeverClobbers | lanshare/receive.go:458-462 | without overwrite an existing destination keeps its content, also one that appears between the check and the link |
| PushRuns.FailureLeavesDestination | lanshare/receive.go:616-639 | an attempt that does not place its file leaves the destination alone |
| PushRuns.OneShotSafe | lanshare/receive.go:648-713 | size, digest, bounded writes, no temp file left after a failure, no clobbering of what was there or of what a rival puts there |
| PushRuns.OneShotHonest | lanshare/receive.go:648-713 | an honest one-shot push places exactly the sender's content |
| PushRuns.EveryPlacementRight | lanshare/receive.go:464-516 | over every run of attempts, deletions, other programs and tampering with the partial: every file placed has exactly the declared size and digest |
| PushRuns.HonestRunKeepsPrefix | lanshare/receive.go:540-645 | if all senders stream the declared content, the kept partial is a prefix of it in every reachable state and only that content is placed, whatever the hash |
| PushRuns.AtMostOneMismatch | lanshare/receive.go:616-630 | whatever the partial held, honest senders fail at most one digest check over a whole run |
| PushRuns.WholeAttempt | lanshare/receive.go:616-639 | an uninterrupted honest attempt places the file if and only if the resumed content has the declared digest, and otherwise clears the partial |
| PushRuns.SelfHealing | lanshare/broadcast.go:497-506 | after any run of honest attempts an uninterrupted one places the file or is the only mismatch and clears the partial; after a mismatch, or with a good or no resumable partial, it places exactly the sender's content |
| Endings.EveryCourse | lanshare/receive.go:578-644 | any inputs of a receive loop are payloads it takes in and then something that stops it |
| Endings.BrokenPushKeeps | lanshare/receive.go:578-612 | a push that is cut, runs out of inputs or is paused leaves exactly the resumed bytes and the payloads, and the next one resumes after all of them; a full disk leaves what fitted as well |
| Endings.BadPushDrops | lanshare/receive.go:572-644 | a cancel, an over-long or short stream, a wrong digest or a foreign frame removes the partial and changes nothing else |
| Endings.CompletePushIsPlaced | lanshare/receive.go:616-639 | a complete push is placed when everything works, and otherwise kept whole |
| Endings.NoStartNoChange | lanshare/receive.go:458-462 | an attempt that does not get to open the partial changes nothing |
| Endings.BrokenRunAddsUp | lanshare/receive.go:464-516 | after any number of broken attempts the partial has all they brought, once and in order, and the next goes on there |
| Endings.BrokenRunFinishes | lanshare/receive.go:464-516 | and when the rest of the body follows, exactly the body is placed |
| Endings.OneShotEndings | lanshare/receive.go:648-713 | a push without resume is placed if and only if it is complete and everything works; after any other ending nothing of it is left |
| SharedPartial.RightDigestRightFile | lanshare/receive.go:540-612 | over every schedule of handlers that look, open later and receive one body: one that has the whole body and the right digest has the right file if and only if the bytes it lost to later opens, and nobody sent again, are zeros short of the end |
| SharedPartial.RightForEveryBodyExactly | lanshare/receive.go:540-612 | so a schedule that gives it the right digest for every body gives it the right file for every body if and only if it loses no byte |
| SharedPartial.NeverCutBackLosesNothing | lanshare/receive.go:540-571 | it loses none if nobody opens the partial at a lower offset than it has got to; alone with the partial it never does |
| SharedPartial.StaleLookLosesTheStart | lanshare/receive.go:464-473 | a handler that looked before the first wrote, and opens after, leaves it the right digest over a file that starts with zeros |
| SharedPartial.FullSizeLookLosesEverything | lanshare/broadcast.go:497-506 | a full-size partial is not resumed but truncated: a handler that looks and opens just before the first meets its end of stream leaves it an empty file |
| SharedNames.StaysCompleteExactly | lanshare/receive.go:720-735 | over every schedule of looks, opens, ends, links, removes that may fail, drops and renames: a complete file, placed or not, stays the body at every moment if and only if nobody opens it by the partial's name |
| SharedNames.SafeOnceUnlinked | lanshare/receive.go:720-735 | so a placed file is safe from every handler, those that still have it open included, once its old name is gone: at once after a rename, else after a remove that works |
| SharedNames.SafeInPlace | lanshare/receive.go:458-462 | and without overwrite also if that remove never works, as long as the file stays at the destination and nobody had looked before it was there |
| SharedNames.BadEndTakesTheName | lanshare/receive.go:572-623 | a handler's short stream, wrong digest or cancel takes the partial's name from all the others, who can place nothing then; a cut takes nothing |
| SharedNames.WholeExactly | lanshare/receive.go:540-645 | over every schedule and for every file: it is the body if and only if, by the sizes and offsets of what was done to it, it has the size of the body and holes only where the body is zero |
| SharedNames.PlacesExactly | lanshare/receive.go:616-639 | a handler with the whole body and the right digest places the file that the partial's name leads to by then, its own or not, and that is the body if and only if that one is whole |
| SharedNames.LinkedFileIsEmptied | lanshare/receive.go:727-733 | without overwrite: a handler that looked early and opens between another's link and its remove leaves an empty file at the destination |
| SharedNames.AnothersFileIsPlaced | lanshare/receive.go:720-726 | with overwrite: of two handlers that completed one file, the second renames a third one's half-written partial over it |
| PullRuns.Download | lanshare/broadcast.go:275-384 | destination check, size checks, stream, report and placement composed |
| PullRuns.DownloadSafe | lanshare/broadcast.go:352-384 | from any peer: what is placed has the size agreed and the digest reported; without overwrite nothing existing changes |
| PullRuns.StreamBounded | lanshare/broadcast.go:437-447 | no write takes the partial past the total, or past the resumed length |
| PullRuns.HonestDownload | lanshare/broadcast.go:199-237 | from an honest broadcaster only a file with the broadcast file's digest is placed, and that file itself if what was resumed was a prefix of it |
| PullRuns.StalePartialDiscarded | lanshare/broadcast.go:376-380 | a completed session places the file if and only if the resumed part fits under the hash, and otherwise discards the stale partial |
| PullRuns.EveryPullRight | lanshare/broadcast.go:261-384 | over every run, with changing files and tampering: each file placed has the digest of the one broadcast then |
| PullRuns.SameBroadcastRun | lanshare/broadcast.go:389-471 | from one unchanging broadcast the partial stays a prefix and exactly the file is placed |
| Endings.BadSizeExactly | lanshare/broadcast.go:347-362 | for a free destination, a size is refused if and only if the agreed one is negative, over 2^40 or above a positive advertised one; space is refused only after that; neither changes a file |
| Endings.BrokenPullKeeps | lanshare/broadcast.go:421-455 | a pull that is cut, cancelled, ends early or finds the disk full leaves exactly the resumed bytes and what came in, and the next one asks for what follows |
| Endings.BadPullDrops | lanshare/broadcast.go:437-470 | an over-long stream or a foreign frame removes the partial |
| Endings.CompletePullIsPlaced | lanshare/broadcast.go:365-384 | a complete pull without a report is kept, with another digest dropped, and with the right one or none placed when everything works |
| Endings.GoodPullSucceeds | lanshare/broadcast.go:347-384 | a whole session with an honest broadcaster of a file no larger than advertised, from nothing or a part of it, places exactly that file |
| Endings.BrokenPullsAddUp | lanshare/broadcast.go:389-471 | broken pulls add up as broken pushes do |
| Endings.BrokenPullsFinish | lanshare/broadcast.go:389-471 | and finish with exactly the file |
| Broadcasts.HandleDownload | lanshare/broadcast.go:184-238 | byte by byte what goes out, wherever the connection fails: a refusal, an error for an offset outside the file, or the accept frame, the stream of what follows the offset, and the report only after all of it; all of it when nothing fails |
| Broadcasts.Serve | lanshare/broadcast.go:223-238 | the part from the accept frame on |
| Broadcasts.StreamedIsPrefix | lanshare/broadcast.go:223-238 | from any prefix of those bytes a downloader parses a prefix of the stream, and gets the report only after the whole of it |
| Broadcasts.ServedIsHonest | lanshare/broadcast.go:199-239 | what a downloader meets of those bytes, cut anywhere, is a session of an honest broadcaster |
| Broadcasts.PulledIsBroadcast | lanshare/broadcast.go:137-384 | both ends together: a placed file has the broadcast file's digest, and is that file if what was resumed was a prefix of it |
| Broadcasts.UndisturbedPull | lanshare/broadcast.go:137-384 | an undisturbed pull places the file if and only if the resumed part fits under the hash, and otherwise discards the partial |
| PushSession.Play | lanshare/send.go:60-185 | the invariant of the joint machine of Send and handleConn survives every schedule of moves and failures |
| PushSession.NeverConfused | lanshare/auth.go:52-132 | for all options and schedules neither end reads a frame of an unexpected type |
| PushSession.SendMeansPlaced | lanshare/send.go:170-184 | Send returns nil only after the receiver placed a file of the body's size and digest, the body itself unless a foreign partial was resumed |
| PushSession.NoDeadlock | lanshare/receive.go:352-530 | until both ends are done one of them can step, so a schedule that cannot be extended is over |
| PushSession.EveryMoveCounts | lanshare/send.go:246-275 | every move uses up some of a bounded amount of work |
| PushSession.EveryScheduleEnds | lanshare/send.go:60-185 | of any schedule, whatever fails, at most 2n + 23 moves happen for a body of n bytes |
| PushOutcome.OnlyWelcomeSendersLand | lanshare/receive.go:411-462 | a sender that fails authentication, the name check, approval or the overwrite check changes no file, and its Send never returns nil |
| PushOutcome.WelcomeSendersGetThrough | lanshare/receive.go:411-530 | without failures Send returns nil if and only if the sender is welcome, and then the destination holds the body; a foreign partial that is not resumed does no harm |
| PushOutcome.UndisturbedSessionsFinish | lanshare/receive.go:352-530 | however far a session without failures has got, it can be brought to its end, with that outcome |
| PushEnds.NilExactly | lanshare/send.go:120-185 | against any replies at all, Send returns nil if and only if they confirm the password, accept from an offset within the body and report success with no digest or the body's; by then it has written greetings, the rest of the body in frames of 1 to 65536 bytes, and the end |
| PushEnds.LetInExactly | lanshare/receive.go:370-425 | against any sender at all, the receiver comes to its decision if and only if the hello is valid, of at most 2^40 bytes, and proves the password or needs none; no file is touched before |
| PushEnds.RefusalsAreTold | lanshare/receive.go:374-516 | a receiver that ends on what it read, or by its own decision, tells the sender no |
| PushEnds.PartialExactly | lanshare/receive.go:464-516 | on every schedule the offset offered is the size of a shorter partial, else 0, and while receiving the partial is that part and what has come, with no other file changed |
| PushEnds.CutSessionKeeps | lanshare/receive.go:572-598 | a session cut off or paused at any point keeps its partial, and a later one is offered all of it; a cancelled one, or one without resume, leaves none |
| PushEnds.SecondSessionFinishes | lanshare/receive.go:464-516 | after any first session that was cut off, one without failures is offered all that came and places the body |
| Throttle.FilterInPlace | lanshare/receive.go:334-339 | the filter that writes into the slice it reads keeps exactly the recent times, in order |
| Throttle.IpThrottle.Prune | lanshare/receive.go:327-333 | the sweep of the map removes exactly the stale entries |
| Throttle.IpThrottle.Allow | lanshare/receive.go:319-346 | answer and new table are those of the specification, with slices extended in place or moved |
| Throttle.ThrottleRefinesHistory | lanshare/receive.go:306-346 | with a clock that does not go back, the throttle answers as one that keeps every allowed time for ever |
| Throttle.AllowedAttemptsAreSpaced | lanshare/receive.go:306-346 | in that history any max + 1 allowed times span at least the window |
| Throttle.ThrottleBoundsTheRate | lanshare/receive.go:306-346 | among any max + 1 attempts the throttle allows one address, the last comes at least a window after the first |
| Throttle.AllowedExactly | lanshare/receive.go:319-346 | every attempt of every run with a forward clock is allowed if and only if it has no address, or fewer than max of the attempts its address was allowed lie less than a window back |
| Throttle.SweepsExactly | lanshare/receive.go:327-333 | above 1024 addresses an attempt leaves, besides its own, exactly those whose last time is at most a window old; below, all |
| Throttle.ListsStayShort | lanshare/receive.go:340-345 | over every run no address ever holds more than max times |
| Admission.InflightCap.Acquire | lanshare/receive.go:279-290 | grants and counts, or refuses and changes nothing |
| Admission.InflightCap.Release | lanshare/receive.go:292-304 | takes one off, and the entry away at zero |
| Admission.AdmissionConserved | lanshare/receive.go:225-264 | in every reachable state each address's count is its number of live connections, at most 2, with no zero entries, and at most 8 handlers run |
| Admission.TurnedAwayExactly | lanshare/receive.go:238-241 | a connection is closed at once if and only if it is throttled or its address has 2 live ones |
| Admission.NothingLeaks | lanshare/receive.go:242-263 | once no connection is left, every count and every semaphore place is back |
| Admission.ReleaseTakesOne | lanshare/receive.go:292-304 | no release finds its count at zero |
| Admission.WaitsOnlyForHandlers | lanshare/receive.go:253-263 | an accept loop that waits for a place waits for a handler that can still leave |
| Admission.LimitsExactly | lanshare/receive.go:225-264 | in every reachable state at most 2 connections of an address are live and at most 8 handlers hold a place, and each kind of step is possible exactly when it should be |
| Admission.NoneIsLost | lanshare/receive.go:236-263 | over every schedule the connections admitted from an address are those still live and those that have ended |
| Admission.EndsExactly | lanshare/receive.go:225-264 | the loop ends with its listener or, one-shot, with a connection that is done, and accepts nothing after |
| PeerDelivery.FrameRoundTrip | p2p/session.go:760-775 | decodeFrame undoes the framing of writeFrame, and the empty payload is the terminator |
| PeerDelivery.DecodesExactly | p2p/session.go:760-775 | a message decodes to data if and only if it is that data, framed |
| PeerDelivery.EndsExactly | p2p/session.go:760-775 | a zero length is the end of the stream; anything but that and framed data is an error |
| PeerDelivery.WritesOnlyThePrefix | p2p/session.go:665-704 | under every interleaving, while the session is not closed under Receive: what is written is a prefix of the source, and nil means all of it |
| PeerDelivery.ReceivedMeansDeliveredExactly | p2p/session.go:272-285 | Receive nil means the whole source on every run if and only if the session is not closed under it, the source is empty, or the two ends never get past verification |
| PeerDelivery.DrainsBeforeFailing | p2p/session.go:684-699 | when Receive returns the peer's failure it has written everything that had arrived |
| PeerDelivery.ArrivesExactly | p2p/session.go:272-285 | OnMessage queues what decodes behind what is there, or drops it, and sets the failure latch for anything else |
| PeerDelivery.LatchesExactly | p2p/session.go:736-741 | the latch is set by a failure or a foreign message only, and is never reset |
| PeerDelivery.AckMeansReceivedExactly | p2p/session.go:585-603 | Send nil means Receive took the end of the stream on every run if and only if it is not the case that the sender skips verification and the receiver does not |
| PeerDelivery.SendMeansDelivered | p2p/session.go:542-580 | in matching modes, Send nil means the destination has the whole source |
| PeerProgress.UndisturbedEndsFinish | p2p/session.go:430-704 | two ends that get past the verification, when nobody fails, closes or gives up, finish in every order of their moves and the network's: at most 3n + 13 moves happen, and when no more can, both calls have returned nil and the file is there |
| PeerProgress.FinishExactly | p2p/session.go:430-704 | some run ends with both calls nil and the file delivered if and only if the two ends get past the verification |
| PeerProgress.FailureComesThrough | p2p/session.go:665-704 | once the latch is set a working receiver ends by itself: it writes what has arrived and returns the failure, or nil if the end was among it |
| Sas.BindingExactly | p2p/session.go:506-511 | for fingerprints without a bar, the binding is the same if and only if the unordered pair is |
| Sas.BindingSymmetric | p2p/session.go:506-511 | order does not matter, for any fingerprints |
| Sas.BindingDeterminesExactly | p2p/session.go:506-511 | for all fingerprints: a binding determines its pair if and only if every other bar in it has the greater part before it |
| Sas.BarsCollide | p2p/session.go:506-511 | with a bar inside a fingerprint, two different pairs share a binding |
| Sas.MacInputExactly | p2p/session.go:533-540 | role and binding can be read off the MAC's input |
| Sas.AcceptsExactly | p2p/session.go:464-479 | a peer accepts another's MAC if and only if it has the other role, the same secret and the same pair |
| Sas.SasAgreement | p2p/session.go:430-487 | through a relay that drops, reflects and substitutes: a peer that accepts has a counterpart that sent its MAC |
| Sas.CounterpartsMeet | p2p/session.go:443-487 | a peer accepts if and only if it has spoken and then heard what it expects, so two counterparts whose MACs get through both accept |
| Sas.CollisionFreedomIsConsistent | p2p/session.go:533-540 | the hypothesis on the MAC can be met for any set of peers |
| Signaling.Session.HandleOffer | p2p/session.go:372-387 | sets the description, flushes, then answers; each failure leaves the state it occurred in |
| Signaling.Session.HandleAnswer | p2p/session.go:389-397 | sets the description and flushes |
| Signaling.Session.HandleICE | p2p/session.go:399-415 | ignores the empty candidate, buffers before the description, hands over after |
| Signaling.Session.FlushPendingICE | p2p/session.go:419-428 | hands over everything buffered, in order |
| Signaling.Session.Fail | p2p/session.go:736-741 | only the first failure is recorded |
| Signaling.Session.RunSignaling | p2p/session.go:331-370 | dispatches until the first fatal message and records that failure; a transport that ends records one unless the session is over |
| Signaling.EveryCandidateOnce | p2p/session.go:399-428 | over every message sequence each non-empty candidate is handed over once, in order of arrival, never before the description, with none pending after |
| Signaling.FreshSession | p2p/session.go:331-428 | the same from a new session, spelt out |
| Signaling.EndsAtFirstFatal | p2p/session.go:331-370 | told without the handlers: the recorded failure is that of the first message that is a farewell, an error or has a failing call, and the transport's when there is none |
| Signaling.SessionExactly | p2p/session.go:331-428 | a whole session from its messages alone: the failure, and which candidates were handed over or wait |
| Signaling.GoodSession | p2p/session.go:331-428 | when nothing goes wrong every message is handled and every candidate handed over, or kept for a description that has not come |
| HopSigning.AppendField | crypto_sign.go:145-150 | appends the length-prefixed field |
| HopSigning.ComputeSigningBytes | crypto_sign.go:118-143 | the loop builds the specified bytes |
| HopSigning.SigningRoundTrip | crypto_sign.go:118-150 | a decoder recovers the domain and all twelve fields, the signed decimal timestamp included |
| HopSigning.SigningExactly | crypto_sign.go:118-150 | two claims have the same bytes if and only if they agree up to the whole second, for fields under 4 GiB |
| HopSigning.LongFieldsCollide | crypto_sign.go:145-150 | with one field of 4 GiB two different claims have the same bytes |
| HopSigning.InjectiveExactly | crypto_sign.go:118-150 | the bytes tell claims with fields of up to a bound apart if and only if the bound fits in 32 bits |
| HopSigning.AcceptedWasSigned | crypto_sign.go:173-204 | what verifies was signed with these very fields, to the second |
| HopSigning.ForgeriesLearnNothing | crypto_sign.go:192-198 | without a valid signature a hop is refused alike at every time, for every window, and whatever the fraction of its second |
| HopSigning.FreshExactly | crypto_sign.go:192-204 | a hop is accepted if and only if it is genuine and its age is within the window either way; exact also for the extreme windows, with Sub saturating |
| HopSigning.AuthenticExactly | crypto_sign.go:173-193 | a hop is not authentic if and only if key and signature are not 32 and 64 bytes or the signature does not verify over these claims |
| TrustCache.Store.SaveSignedTrust | lanid/trust_signed.go:163-188 | accepted key, verified list, unchanged pin; else nothing is written |
| TrustCache.Store.ResetTrust | lanid/trust_signed.go:191-202 | removes the cache file |
| TrustCache.Store.SaveTrustList | trust_binding.go:32-54 | saves, then binds, agrees, or resets and refuses |
| TrustCache.Store.Lookup | lanid/lanid.go:197-207 | finds a device of the verified cache by fingerprint, or there is none |
| TrustCache.OnlyTheServerGrants | lanid/trust_signed.go:104-124 | over every run, logins and arbitrary file replacement included: a trusted device is named by an unexpired list the server signed for the account logged in then, which without logins is the one bound all along, or bound on the way |
| TrustCache.ReachOfReplacement | lanid/trust_signed.go:109-124 | such runs can make a device trusted if and only if some unexpired list signed for such an account names it |
| TrustCache.BindingStays | trust_binding.go:43-53 | a bound account is never rebound but by a login |
| TrustCache.PinnedKeyStays | lanid/trust_signed.go:176-178 | a save never replaces one pinned key by another |
| TrustCache.OtherAccountRefused | trust_binding.go:50-52 | a list for another account is an error; once it got as far as the file nothing is trusted any more, removed or not |
| TrustCache.SavedListIsInForce | trust_binding.go:26-31 | after a successful save, and any failed or repeated saves and fetches after it, exactly the list's devices are trusted until it expires |
| TrustCache.SavesExactly | lanid/trust_signed.go:163-188 | a save succeeds if and only if the key is accepted, the list passes and is in date, no other key is pinned and writing works; it writes just this, or nothing |
| TrustCache.FetchesExactly | trust_binding.go:32-54 | and SaveTrustList if and only if also the list is still in date and for the account logged in, or one it can bind |
| TrustCache.FetchLeavesExactly | trust_binding.go:32-54 | what it leaves in each case, with the error |
| TrustCache.CachedExactly | lanid/trust_signed.go:104-124 | the devices Lookup looks among |
| TrustCache.RenewalTakesEffect | trust_binding.go:26-54 | whatever is cached, unless another key is pinned, a good list for the account takes effect, and over any quiet run after it exactly its devices are trusted |
| TrustCache.SecondListReplacesFirst | trust_binding.go:26-54 | in particular after a first list under the same key: what only that one named is not trusted any more |
| TrustCache.OnlyTheLastListCounts | lanid/trust_signed.go:163-188 | over every run in which nobody replaces the file, whatever is trusted was granted by the last list saved |
| Scan.AddNeighbours | lanshare/scan.go:271-283 | walks the interior of one network, at the top of the address space too |
| Scan.LocalScanTargets | lanshare/scan.go:256-286 | terminates, and gives without repeats exactly the interior hosts of usable networks other than the interface's own address, at most 1022 each; one is an address of this machine if and only if two interfaces share a network |
| Scan.SharesNetworkExactly | lanshare/scan.go:271-283 | sharing a network, as quotients and remainders of two addresses, is being walked over |
| Scan.TargetsExactly | lanshare/scan.go:256-283 | an address is a target if and only if some interface with an address outside 127.0.0.0/8 and 169.254.0.0/16 and a mask of 22 to 30 bits has it as another inner address of its block |
| Scan.ProbesItselfExactly | lanshare/scan.go:250-283 | an address of this machine is probed if and only if two different addresses of it have the same quotient by the network's size, the one an inner remainder |
| Scan.TwoInterfacesProbeThemselves | lanshare/scan.go:250-283 | such a pair of interfaces, and its addresses among the targets |
| Scan.TopOfTheSpace | lanshare/scan.go:271-277 | the last /24 there is |
| Scan.ScanTargets | lanshare/scan.go:222-248 | the caller's or the local targets, then each other peer once, reported apart |
| Bytes.U32RoundTrip | crypto.go:337-341 | big-endian 32-bit lengths are read back |

## Left out

- PushSession.SendMeansPlaced: requires a digest that is never empty, as SHA-256's is not.
- PushSession.NeverConfused: the peers are honest; what a hostile one can do is `PushEnds.NilExactly`, `PushEnds.LetInExactly`, `PushRuns.AttemptSafe` and `PushRuns.OneShotSafe`.
- PushOutcome.WelcomeSendersGetThrough: asks that a partial that is resumed be a prefix of the body; one that is not costs an attempt, which is `PushRuns.SelfHealing`.
- StreamFormat.StreamIntegrity: is about (1,3); the (1,1) format has an unauthenticated terminator by design, so only its round trip is claimed, and (1,2) shares the loop.
- StreamFormat.StreamIntegrity: holds for plaintexts of at most 2^64 chunks, the range of the counter, which would wrap after that.
- Sas.SasAgreement: fingerprints without a bar only.
- SharedPartial.RightDigestRightFile: is about the first handler that gets its end of stream, before anybody has dropped the partial; all senders stream one body, and opening, re-hashing and truncating are one step. What comes after is `SharedNames`.
- SharedNames.WholeExactly: schedules start without a partial, and all senders stream one body.
- Transfers.Disk.Place: after a link, a remove that fails leaves two names of one file, of which this makes two files. What that can do is `SharedNames.StaysCompleteExactly`; nothing, for one transfer at a time, while the file stays in place (`SharedNames.SafeInPlace`).
- PushRuns.AttemptSafe: takes a name for its file, so "no third path" leaves out other names of the partial's file, which a failed remove can leave behind.
- PushRuns.FailureLeavesDestination: likewise assumes that the partial's name does not lead to the placed file.
- Throttle.ThrottleRefinesHistory: the clock does not go back, as Go's monotonic clock does not.
- `Send`, `handleConn`, `Receive` and `Connect` as sequential Go programs: they are steps of state machines here, since what is proved is about their interleavings; their loops are methods.
- The access control of `handleDownload` is one answer, `admitted`; it would repeat the push's.
- A source file that changes between the readings of one push or broadcast.
- The Go memory model, mutexes and goroutine scheduling below the level of one step.
- TLS, X.509, PAKE arithmetic, WebRTC, mDNS, WebSocket signaling, the tailscale CLI, and the primitives inside AES-GCM, HKDF, HMAC, SHA-256, Ed25519 and base64.
- JSON bodies of control frames, sender names and their cleaning, `destPath`, free-space measurement and directory archives: each is one outcome in a configuration.
- Exact times: `transferDeadline`, the ACK and linger time-outs, and the buffer thresholds of the data channel.
- A reader that returns data and an error at once is modelled for the end of a stream only.
- `fingerprintFromSDP`: parsing text for one line.
- `TrustCacheStatus`, `List` and `PinnedTrustKey`: read-only views of the same check.
- HTTP client, agents, forms, configuration, credentials storage, caches, content classes, secret scanning, QR, tips and platform files.

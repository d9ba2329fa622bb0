# Orbit transfer: a verified model

Orbit moves one payload from a sender to a receiver through edge relays and an
optional direct link.  The sender splits the payload into K source symbols,
appends S LDPC and H dense XOR checks, and emits XOR combinations of these
K + S + H inputs without end; the receiver recovers the inputs by peeling.  This
project models the codec, the relay, both session loops, the direct link, the
wire format, the scheduler and the rate limiter in Dafny, and proves what they
promise together.

## Main results

* Round trip and confluence of the codec: `Codec.RoundTrip`,
  `Codec.EncodeAndDecode`, `DecoderSpec.Confluence`, `DecoderSpec.CompletesExactlyAtK`.
* Peeling preserves meaning: `DecoderSpec.MeaningPreserved`,
  `DecoderSpec.MeaningPreservedIffConsistent`.
* The indexed decoder refines the scanning one at linear cost:
  `Decoder.FountainDecoder.AddSymbol`, `Codec.WorkIsLinear`.
* The whole system: `TransferSafety.EndToEndSafety`, `TransferSafety.SafeUpToTheHash`,
  `TransferSafety.ReadyCausality`, `TransferSafety.EveryMessageIsFine`; and every
  transfer can succeed: `SuccessRun.SuccessIsPossible`.
* The direct link delivers what was sent exactly when no read crosses a frame's
  end: `DirectLink.FaithfulIffAligned`, `DirectLink.StrayMessage`.
* The relay conserves frames and bounds its buffers: `RelaySpec.Conservation`,
  `RelaySpec.EveryBufferIsLongestFit`.  Who gets what follows from the history of
  routed frames: `RelayHistory.ReadyReachesSender`,
  `RelayHistory.PayloadReachesReceiver`, `RelayHistory.EveryDirectHasOneFate`.
* After Ready a relay drops new frames, and a backlog goes out exactly once, to
  the next receiver that says Hello: `AfterReady.BacklogGoesOutOnce`,
  `AfterReady.SilentIffNoBacklog`, `ReadyRuns.OnlyOldFramesArrive`.
* Both session loops: `Sender.SenderSession.Run`, `Sender.AcceptedExactlyOnce`,
  `ReceiverSpec.VerdictDependsOnEsis`, `ReceiverSpec.FailuresAreExact`,
  `Receiver.ReceiverSession.Run`.
* Frames and streams: `Wire.RoundTrip`, `WireLayout.DecodesExactly`,
  `Framing.ByteBuf.ReceiveAll`.
* Exact arithmetic: `Precode.RowSearch`, `Scheduler.RelayPicksExact`,
  `RateLimiter.AtMostTwiceTheRate`, `RateLimiter.TwiceTheRateIsAttained`.

## How the files fit together

* `XorKernel`, `NatSets`, `LinearSystem`, `Peeling`: byte blocks under XOR, sums
  over sets of inputs, GF(2) systems, and peeling as a least fixpoint.
* `Precode`, `Soliton`, `FountainCode`, `OrbitCode`: sizes, neighbour selection
  and the code itself.
* `PeelingSpec`, `DecoderSpec`: a plain decoder that scans every equation at
  each step, with the theorems about it.  `ReverseIndex`, `Decoder`: the class
  with its slots, reverse index and queue, proved to reach the plain decoder's
  states.  `RippleCost`, `DecoderMeter`: what both cost, the class through ghost
  counters of its XORs, index visits and queue entries.
* `Encoder`, `Codec`: the encoder, and the round trip through both ends.
* `Bytes`, `Wire`, `WireLayout`, `Framing`, `DirectLink`: frames, their bytes by
  offset, byte streams, and the reader of the direct link.
* `RelaySpec`, `Relay`, `RelayNet`: critical sections as functions, the classes
  that implement them, and one relay with all its connections as a transition
  system.  `RelayHistory`: who gets what, told from the routed frames alone.
  `AfterReady`: what a relay still hands out once Ready was routed.
* `RateLimiter`, `Scheduler`: the two arithmetic helpers.
* `Sender`, `ReceiverSpec`, `Receiver`: the two session loops as classes.
* `Origin`, `Transfer`, `TransferSafety`: what one sender may put on the wire,
  the whole system as a transition system, and its theorems.  `ReadyRuns`: its
  relays after Ready.  `SuccessRun`: runs that succeed.  `Options`: the option type.

Two assumptions carry the codec.  Random draws are parameters (`Randomness`):
each seed has a stream that stays in range and in which every index comes up
(`Lawful`), so that rejection sampling ends; both ends use the same streams, as
they do in the program because seeds are derived from K and the ESI.  Symbol
data has the decoder's symbol size and K is at least one; the decoder does not
check either.

Where the code and its documentation differ, the model follows the code:

* L counts the H dense checks as well (`decoder.rs` line 53), although several
  comments say K + S.
* The rule for H is the one in section 5.4.2.3 of RFC 5053; the comment in
  `precode.rs` names RFC 6330.
* The Meta decoder asks for 20 bytes after the file name and then reads 24
  (`wire.rs` lines 146-154), so some malformed frames abort instead of giving an
  error; `Wire.PanicsExactlyOnShortMeta` says which.
* `binomial` stays within 128 bits far beyond the n = 60 its comment names.
* The rate limiter's comment says the long-term rate converges to `rate`; the
  sleep is credited again to the next call, so the bound is twice that, and runs
  of any length attain it.
* Equations left without inputs are dropped without looking at their data, so
  contradicting symbols can go unnoticed.  On decodable ESIs the meaning of the
  symbols is preserved if and only if they have a common solution; on others it
  is preserved if they have one.
* `recv_frames` is meant to read complete frames from any byte stream; each call
  has a fresh buffer, so bytes read behind a frame are lost and the next call may
  start inside one.  `DirectLink` says exactly when the messages are the sent
  ones.  The receiver does not look at the session of a Symbol on its listener
  either (`TransferSafety.ForeignSymbolsDecode`); in both cases only the checksum
  is left, which is why end-to-end safety is stated for orderly runs and `TransferSafety.SafeUpToTheHash` for all.
* Ready is meant to stop forwarding symbols to the receiver (`lib.rs` lines
  362-367), but a receiver's Hello drains the buffer without asking whether the
  room is done (lines 247-264).  A backlog buffered while no receiver was
  registered therefore goes out after Ready (`AfterReady.BacklogAfterReady`);
  `AfterReady.SilentIffNoBacklog` says exactly when nothing does.
* After decoding, a relay that refuses Ready or Close makes the session return an
  error although the payload was rebuilt (`Receiver.DeadRelayLosesPayload`).

## Model

| member | source | states |
|---|---|---|
| TransferSafety.EndToEndSafety | crates/orbit-transport/src/session.rs:528-673 | In every orderly run of the whole system (losses, repetitions, reorderings, evictions, dead paths, re-registrations, strangers) the payload the receiver rebuilds or returns is the sender's, and a decoded receiver whose hash agrees can rebuild nothing else. The hash plays no part in the equality. Orderly: nobody else writes Symbols to the direct listener, and each read that completes a frame there ends with it |
| TransferSafety.SafeUpToTheHash | crates/orbit-transport/src/session.rs:628-643 | In every run, orderly or not, what is returned has the sender's checksum and every relay took its Ready first |
| TransferSafety.EveryMessageIsFine | crates/orbit-relay/src/lib.rs:222-413 | In every run each message of the session in the sender's queues, in a relay or on the way from one is the sender's own Meta, the encoder's symbol for the ESI it names (already emitted), or a Ready that exists only once the receiver has a payload; in orderly runs also on the direct connection |
| TransferSafety.ForeignSymbolsDecode | crates/orbit-transport/src/session.rs:589-596 | After Meta, the K sources of any other payload of the same length, over the direct link and under any session identifier, complete the decoder; reconstruct gives that payload if its hash collides and an error otherwise |
| TransferSafety.ReadyCausality | crates/orbit-transport/src/session.rs:110-115 | If the sender has finished, an earlier state of the same run exists in which it had not and the receiver had decoded and held a payload with the sender's checksum, in orderly runs the payload itself |
| TransferSafety.AtLeastKSymbols | crates/orbit-transport/src/session.rs:251-319 | No receiver decodes on fewer than K distinct ESIs; in orderly runs those were all emitted, so no sender finishes having emitted fewer than K |
| TransferSafety.RebuiltIsPayload | crates/orbit-transport/src/session.rs:628-629 | For every decoded receiver of a tidy state reconstruct yields the sender's payload, and nothing if the hash disagrees |
| TransferSafety.StepKeeps | crates/orbit-transport/src/session.rs:251-319 | Each of the 23 kinds of step keeps the system invariant |
| TransferSafety.RunInv | crates/orbit-transport/src/session.rs:251-319 | The invariant holds after every run of steps |
| TransferSafety.StepKeepsTidy | crates/orbit-transport/src/direct.rs:47-87 | Each step of an orderly run keeps the direct connection tidy: held and unread bytes are exactly the frames written and not delivered |
| TransferSafety.RunTidy | crates/orbit-transport/src/direct.rs:47-87 | which therefore holds after every orderly run |
| TransferSafety.WatchOk | crates/orbit-transport/src/session.rs:110-137 | The Ready a sender's watcher reads comes after the receiver's reconstruction |
| TransferSafety.EmissionIsStep | crates/orbit-transport/src/session.rs:281-318 | Whatever the sender's loop does in one successful emission is a step of the system |
| SuccessRun.SuccessIsPossible | crates/orbit-transport/src/session.rs:239-331 | From the start of every transfer there is a run in which all K sources pass a relay, the receiver returns the payload and its Ready finishes the sender |
| SuccessRun.DirectCarries | crates/orbit-transport/src/direct.rs:47-87 | A symbol put on an idle direct link can reach the receiver's loop, and nothing else changes there |
| SuccessRun.LinkComesUp | crates/orbit-transport/src/session.rs:117-137 | An advertisement of the receiver can pass the relay and bring the direct link up |
| DirectLink.FaithfulIffAligned | crates/orbit-transport/src/direct.rs:47-65 | For every stream of frames cut into reads in any way and up to any point, what the reader delivers and holds back is exactly what arrived if and only if every read that completes a frame ends at that frame's end |
| DirectLink.DeliveredIffAligned | crates/orbit-transport/src/direct.rs:47-65 | A whole stream is delivered as it was sent under that condition and no other |
| DirectLink.FaithfulIffWholeReads | crates/orbit-transport/src/direct.rs:47-65 | The same with the condition read off the reader's buffer at each read |
| DirectLink.StrayMessage | crates/orbit-transport/src/direct.rs:47-65 | Two frames and two reads for which the reader delivers a message nobody sent: the bytes carried as data by the second frame |
| DirectLink.BytesBehindAreLost | crates/orbit-transport/src/direct.rs:48-53 | Bytes read behind a complete frame are discarded |
| DirectLink.DirectReader.RecvFrames | crates/orbit-transport/src/direct.rs:47-65 | One call starts from an empty buffer and returns the first frame, or fails at end of stream, oversized or malformed frames |
| DirectLink.DirectReader.ReadLoop | crates/orbit-transport/src/session.rs:429-441 | The reader task delivers exactly the messages the specification gives for the reads, until a call fails |
| RelayNet.NetStepKeeps | crates/orbit-relay/src/lib.rs:169-220 | No step of a relay, its handlers, its channels or the network invents a message, and none brings a message of another session to a connection of ours |
| RelayNet.RoutingFine | crates/orbit-relay/src/lib.rs:222-413 | Routing a frame leaves only permitted frames in rooms and pending sends, and sends to our own connections are of our session |
| RelayNet.ForwardFine | crates/orbit-relay/src/lib.rs:263-267 | The channel send after the lock is released keeps all that |
| ReceiverSpec.VerdictDependsOnEsis | crates/orbit-transport/src/session.rs:503-579 | Whether the receiver has decoded is a function of the first Meta and the set of received ESIs; order, duplicates, path and parking before Meta make no difference |
| ReceiverSpec.ReceiveOk | crates/orbit-transport/src/session.rs:535-626 | No packet is lost or made up: fed then parked packets are exactly the received ones in order, parking ends with Meta, counters match, the verdict is the decoder's |
| ReceiverSpec.JobIsFirstMeta | crates/orbit-transport/src/session.rs:551-580 | The first Meta fixes the decoder's parameters; later ones are ignored |
| ReceiverSpec.DrainOk | crates/orbit-transport/src/session.rs:570-578 | Feeding the parked packets stops exactly at completion and keeps the rest |
| Receiver.ReceiverSession.HandleSymbol | crates/orbit-transport/src/session.rs:503-524 | Parks before Meta, feeds afterwards; the new state is the specified one and the answer is completion |
| Receiver.ReceiverSession.DrainPending | crates/orbit-transport/src/session.rs:570-578 | The loop over parked packets refines the specified drain, and stops when complete |
| Receiver.ReceiverSession.StartDecoder | crates/orbit-transport/src/session.rs:562-568 | The decoder is built from the fields of Meta and matches the specification's, fed nothing yet |
| Receiver.ReceiverSession.TakeRelayed | crates/orbit-transport/src/session.rs:551-605 | What each relayed frame does, Done and repeated Meta included |
| Receiver.ReceiverSession.NoteLink | crates/orbit-transport/src/session.rs:597-624 | Closed streams do what the specification says; when that ends the session is ReceiverSpec.FailuresAreExact |
| Receiver.ReceiverSession.Handle | crates/orbit-transport/src/session.rs:550-625 | One turn of the loop is one specified step, for every kind of arrival |
| Receiver.ReceiverSession.Loop | crates/orbit-transport/src/session.rs:535-626 | The loop ends in the state the specification gives for the whole sequence, at the first verdict |
| Receiver.ReceiverSession.Conclude | crates/orbit-transport/src/session.rs:628-643 | Joined source blocks against the hash, then Ready and Close; on a mismatch an error and no Ready |
| Receiver.ReceiverSession.Acknowledge | crates/orbit-transport/src/session.rs:633-643 | Success exactly when every relay takes Ready and Close; Ready is sent to exactly the relays before the first that refuses it |
| Receiver.ReceiverSession.Run | crates/orbit-transport/src/session.rs:528-673 | If everything that arrived was made by one sender, a decoded session returns exactly that sender's payload when every relay takes Ready and Close, an error naming the first refusal otherwise, with Ready sent to exactly the relays before it; an undecoded one fails or waits and sends none; a decoded session has the sender's file name |
| Receiver.DeadRelayLosesPayload | crates/orbit-transport/src/session.rs:633-635 | With two relays, the first down, and Meta and all sources received, the session has decoded; the dead relay refuses Ready, so it returns an error and no relay gets Ready |
| Receiver.HonestRx | crates/orbit-transport/src/session.rs:528-626 | Among genuine arrivals the decoder is set up for the sender's payload and fed genuine symbols only |
| Receiver.FedIsPayload | crates/orbit-transport/src/session.rs:628-629 | Genuine symbols on which the decoder completes join to the payload, whatever the hash |
| Receiver.RepeatsMakeNoDifference | crates/orbit-fountain/src/decoder.rs:128-133 | Packets with an ESI already fed change nothing, so the first packet of each ESI decides |
| Receiver.SessionDecodesAtK | paper/paper.tex:296-297 | A session that only got source symbols, over any paths and in any order, has decoded exactly when it has Meta and all K of them |
| Receiver.SourcesDecodeSession | crates/orbit-transport/src/session.rs:535-626 | A session that gets Meta and the K sources decodes, whatever else arrives over any path, unless the sender aborts or all relays close |
| Receiver.OpenLinkDecodes | crates/orbit-transport/src/session.rs:617-624 | Meta and the K sources decode even when every relay is gone after Meta, as long as the direct link stays open and the sender does not abort |
| ReceiverSpec.NeverFails | crates/orbit-transport/src/session.rs:597-624 | Without an abort and with a relay left the loop never gives up |
| ReceiverSpec.FailuresAreExact | crates/orbit-transport/src/session.rs:602-624 | Each failure is the verdict exactly when the last arrival taken calls for it, told from the arrivals alone: Done over a relay; the last relay stream to end while no Meta has come; the end of all relay streams with no Meta or no open direct link |
| ReceiverSpec.KeepsGoing | crates/orbit-transport/src/session.rs:602-624 | Without such an arrival the session goes on or decodes |
| ReceiverSpec.OpenLinkKeepsSession | crates/orbit-transport/src/session.rs:617-624 | A session whose direct link stays open and whose links end only after Meta goes on or decodes, relays or not |
| ReceiverSpec.TallyCounts | crates/orbit-transport/src/session.rs:529-596 | The statistics are those of the arrivals taken: number of symbols, their bytes, and how many came over which kind of link |
| Sender.SenderSession.Dispatch | crates/orbit-transport/src/session.rs:193-205 | Queues on the first path, going round from the scheduled one, that is alive and has room; fails only if no path takes the message, and then changes nothing |
| Sender.SenderSession.DispatchOrWait | crates/orbit-transport/src/session.rs:215-233 | Gives up only if refused: unreachable exactly when every path is dead, stalled exactly when some path is alive and more than 30 s have passed since the last accepted message, otherwise the same symbol is retried; the clock restarts with an accepted message and only then |
| Sender.SenderSession.AnyPathAlive | crates/orbit-transport/src/session.rs:207-209 | True exactly if some path is alive |
| Sender.SenderSession.Send | crates/orbit-transport/src/session.rs:281-318 | Which path gets the symbol and what every path looks like afterwards; refusal keeps ESI, counters and log and means that no path takes anything; every accepted message restarts the stall clock |
| Sender.SenderSession.Emit | crates/orbit-transport/src/session.rs:270-318 | One emission accepts exactly the symbol of the current ESI or nothing: even ESIs start at the relay whose turn it is, odd ones at the direct link and then at the first relay; a dead direct link is dropped; the stall clock runs from the last accepted message |
| Sender.SenderSession.Advance | crates/orbit-transport/src/session.rs:317-318 | Counters and 32-bit ESI advance together and keep the accounting |
| Sender.SenderSession.OneTurn | crates/orbit-transport/src/session.rs:251-319 | A turn finishes exactly when Ready is among its events, which beats every other outcome; otherwise at most one symbol is placed, on the paths and the direct link as the events of the turn left them; it ends without progress only if more than 30 s have passed since the last accepted message |
| Sender.SenderSession.TakeEvents | crates/orbit-transport/src/session.rs:254-262 | All events of a turn are taken: Ready is noticed wherever it stands, and a new link replaces the direct one |
| Sender.SenderSession.Poll | crates/orbit-transport/src/session.rs:251-268 | What a turn does before its emission: Ready beats all, and only a turn without a direct link and with every path dead gives up |
| Sender.SenderSession.Run | crates/orbit-transport/src/session.rs:239-331 | At every loop head sent = direct + relay and the accepted messages are the emissions 0, 1, 2, ... once each; success only with a Ready event; no-progress only in a turn more than 30 s after the last accepted message, unreachable only with every path dead |
| Sender.AcceptedExactlyOnce | crates/orbit-transport/src/session.rs:251-319 | Until the ESI wraps the accepted messages are exactly the encoder's symbols for 0, 1, 2, ..., each once |
| Codec.RoundTrip | crates/orbit-fountain/src/decoder.rs:196-221 | Every complete decoder fed genuine symbols, in any order and multiplicity, joins its blocks to exactly the payload, empty and unaligned payloads included |
| Codec.JoinGivesPrefix | crates/orbit-fountain/src/decoder.rs:204-210 | Joined source blocks are a prefix of the payload at every step: padding never shows |
| Codec.EncodeAndDecode | crates/orbit-fountain/src/encoder.rs:30-121 | Encoder and decoder end to end: the payload comes back exactly when the ESIs sent are decodable, otherwise the decoder reports incomplete |
| Codec.SendAll | crates/orbit-fountain/src/decoder.rs:128-193 | The decoder saw every ESI of the list, or stopped early because it was complete; its counters stay within the degrees taken in |
| Codec.Finish | crates/orbit-fountain/src/decoder.rs:196-221 | Reconstruct on genuine symbols is Ok(payload) or Incomplete, never a mismatch |
| DecoderSpec.Confluence | crates/orbit-fountain/src/decoder.rs:128-193 | After any sequence of symbols the resolved inputs are exactly the least fixpoint of peeling over the checks and the received ESIs |
| DecoderSpec.OrderAndDuplicatesDoNotMatter | crates/orbit-fountain/src/decoder.rs:128-193 | More ESIs resolve at least as much; the same set of ESIs resolves the same |
| DecoderSpec.CompleteIffDecodable | crates/orbit-fountain/src/decoder.rs:122-124 | Completion is a property of the set of ESIs |
| DecoderSpec.BetweenKAndSources | crates/orbit-fountain/src/decoder.rs:128-193 | No run completes on fewer than K distinct ESIs; every run that has seen 0..K-1 is complete |
| DecoderSpec.CompletesExactlyAtK | paper/paper.tex:296-297 | Fed sources only, the decoder is complete exactly from the K-th distinct one on |
| DecoderSpec.MeaningPreserved | crates/orbit-fountain/src/decoder.rs:139-190 | For symbols with a common solution, decodable or not, the assignments satisfying checks and symbols are exactly those satisfying the decoder's state |
| DecoderSpec.MeaningPreservedIffConsistent | crates/orbit-fountain/src/decoder.rs:139-190 | On every decodable set of ESIs the state means the same as checks and symbols if and only if the symbols have a common solution |
| DecoderSpec.ContradictionGoesUnnoticed | crates/orbit-fountain/src/decoder.rs:129-131 | Concrete symbols without common solution that leave a solvable state |
| DecoderSpec.SolutionsSurvive | crates/orbit-fountain/src/decoder.rs:139-190 | Every solution of what was sent extends the resolved blocks and satisfies the active equations |
| DecoderSpec.ResolvedAreTheEncoders | crates/orbit-fountain/src/decoder.rs:139-190 | With genuine symbols each resolved block is the encoder's and each active equation's data is the XOR of the encoder's blocks at its remaining inputs, at least two |
| DecoderSpec.FeedIsGood | crates/orbit-fountain/src/decoder.rs:128-193 | Between calls the state is settled over exactly the checks and the received symbols |
| DecoderSpec.AbsorbSettles | crates/orbit-fountain/src/decoder.rs:150-190 | Resolving, storing or dropping what is left of a symbol and rippling ends settled |
| DecoderSpec.CancelledInputs | crates/orbit-fountain/src/decoder.rs:139-146 | Cancelling leaves exactly the unresolved neighbours |
| DecoderSpec.CancelledMeaning | crates/orbit-fountain/src/decoder.rs:139-146 | and an equation with the same solutions given the resolved blocks |
| DecoderSpec.FeedReceives | crates/orbit-fountain/src/decoder.rs:129-133 | ESIs are skipped only once decoding is complete |
| PeelingSpec.TouchKeeps | crates/orbit-fountain/src/decoder.rs:169-189 | Substituting a resolved input into one slot keeps the decoder invariant, with slots below it done and those above it not |
| PeelingSpec.RippleSettles | crates/orbit-fountain/src/decoder.rs:165-190 | The ripple ends with every resolved input substituted everywhere |
| PeelingSpec.SettledIsClosed | crates/orbit-fountain/src/decoder.rs:165-190 | Between calls active equations mention unresolved inputs only and at least two of them |
| PeelingSpec.SettledIsLeastFixpoint | crates/orbit-fountain/src/decoder.rs:165-190 | and the resolved inputs are the least fixpoint of peeling |
| PeelingSpec.ReceivedImpliesState | crates/orbit-fountain/src/decoder.rs:165-190 | At any point of a ripple every solution of what was received solves the state |
| PeelingSpec.StateImpliesReceived | crates/orbit-fountain/src/decoder.rs:165-190 | and conversely, if there is a solution at all |
| Peeling.PeelableIffDerivable | crates/orbit-fountain/src/decoder.rs:162-164 | The least fixpoint is what finite peeling derivations reach |
| Peeling.PeelableIsUnique | crates/orbit-fountain/src/decoder.rs:162-164 | A closed set inside every closed set is the fixpoint |
| Peeling.PeelableMonotone | crates/orbit-fountain/src/decoder.rs:162-164 | More equations peel no less |
| Decoder.FountainDecoder.constructor | crates/orbit-fountain/src/decoder.rs:50-99 | The fields hold exactly the S + H constraint equations of K, all indexed, one index entry per input |
| Decoder.FountainDecoder.AddLdpcChecks | crates/orbit-fountain/src/decoder.rs:68-74 | The S LDPC equations, in slot order |
| Decoder.FountainDecoder.AddHdpcChecks | crates/orbit-fountain/src/decoder.rs:79-85 | followed by the H dense ones |
| Decoder.FountainDecoder.AddSymbol | crates/orbit-fountain/src/decoder.rs:128-193 | The indexed decoder ends in the state of the plain one that scans all equations and answers whether it is complete; no index entry is visited twice, no input is queued twice, new entries are at most the symbol's degree, and XORs are those the plain decoder makes |
| Decoder.FountainDecoder.RunRipple | crates/orbit-fountain/src/decoder.rs:165-190 | The ripple through the reverse index reaches the state of the ripple that scans every slot, terminates, and leaves the index covering; it visits each listed entry at most once and queues each input at most once |
| Decoder.FountainDecoder.TouchListed | crates/orbit-fountain/src/decoder.rs:168-189 | Touching the listed slots in order equals scanning all slots, with one visit per listed entry and as many XORs as the scan |
| Decoder.FountainDecoder.TouchSlot | crates/orbit-fountain/src/decoder.rs:169-189 | One slot, including the branch whose last input is already resolved |
| Decoder.FountainDecoder.Store | crates/orbit-fountain/src/decoder.rs:154-160 | A stored equation is listed under each of its inputs |
| Decoder.FountainDecoder.Cancel | crates/orbit-fountain/src/decoder.rs:139-146 | The loop over neighbours computes the cancelled equation |
| Decoder.FountainDecoder.Absorb | crates/orbit-fountain/src/decoder.rs:148-160 | Resolve, store or drop |
| Decoder.FountainDecoder.IsComplete | crates/orbit-fountain/src/decoder.rs:122-124 | The count of resolved inputs reaches L exactly when the resolved inputs are all of 0 to L-1 |
| Decoder.FountainDecoder.Reconstruct | crates/orbit-fountain/src/decoder.rs:196-221 | Incomplete, mismatch or the joined blocks, exactly; complete decoders hold all K sources |
| ReverseIndex.CoversAfterScan | crates/orbit-fountain/src/decoder.rs:165-190 | Dropping a resolved input's entry after substituting it keeps every active slot listed under each of its inputs |
| ReverseIndex.ScanSkips | crates/orbit-fountain/src/decoder.rs:162-169 | Slots that do not mention the input may be skipped |
| Codec.WorkIsLinear | crates/orbit-fountain/src/decoder.rs:162-190 | Over a whole run visits of index entries and block XORs are each at most the degrees of the checks and of the distinct symbols; the log of queued inputs has no repetition and one entry per resolved input |
| DecoderMeter.SweptIsPaid | crates/orbit-fountain/src/decoder.rs:168-169 | Popping an input visits entries not visited before and leaves none of them listed |
| RippleCost.TotalWorkIsLinear | crates/orbit-fountain/src/decoder.rs:165-190 | The XORs of the plain decoder over a whole run are at most the degrees taken in less those left |
| RippleCost.RipplePays | crates/orbit-fountain/src/decoder.rs:165-190 | Every XOR of a ripple is paid by one edge that disappears |
| FountainCode.NeedsKSymbols | crates/orbit-fountain/src/decoder.rs:68-85 | No set of fewer than K ESIs decodes |
| FountainCode.SourcesSuffice | crates/orbit-fountain/src/decoder.rs:68-85 | The K sources decode: LDPC and HDPC inputs then resolve one after the other |
| FountainCode.SourcesDecodeAtK | paper/paper.tex:296-297 | Among sources exactly all K decode |
| FountainCode.ResolvableMonotone | crates/orbit-fountain/src/decoder.rs:128-193 | Decodability is monotone |
| FountainCode.PrecodedSolvesChecks | crates/orbit-fountain/src/precode.rs:83-107 | The encoder's precoded blocks satisfy every constraint equation the decoder starts from |
| LinearSystem.SubstituteKeepsMeaning | crates/orbit-fountain/src/decoder.rs:173-176 | Moving a resolved input to the right-hand side keeps the solutions |
| LinearSystem.LastInputIsForced | crates/orbit-fountain/src/decoder.rs:178-184 | The last input of an equation has the same value in every solution |
| OrbitCode.PrecodeNeighbors | crates/orbit-fountain/src/precode.rs:46-58 | Exactly the sources on the stride of i and the two wrapped ones, ascending and without duplicates |
| OrbitCode.LdpcCovers | crates/orbit-fountain/src/precode.rs:46-58 | A source is in LDPC check i exactly if it leaves i when divided by S, or is the i-th or the next one, counted round |
| OrbitCode.LdpcOverlaps | crates/orbit-fountain/src/precode.rs:46-58 | So every source is in the check of its remainder, and neighbouring checks share the source between them |
| OrbitCode.BuildPrecoded | crates/orbit-fountain/src/precode.rs:83-107 | The two layers of in-place XORs compute the specified precoded list |
| OrbitCode.LdpcLayer | crates/orbit-fountain/src/precode.rs:92-98 | The LDPC layer |
| OrbitCode.HdpcLayer | crates/orbit-fountain/src/precode.rs:99-105 | The HDPC layer over sources and LDPC blocks |
| Soliton.GetNeighbors | crates/orbit-fountain/src/soliton.rs:70-107 | The degree inverts the cumulative table at the deviate of the ESI (the first entry not below it, or 1 if all are); as many neighbours, ascending, distinct, in range and non-empty; [esi] in the systematic phase |
| Soliton.DegreeInverts | crates/orbit-fountain/src/soliton.rs:80-91 | The search through the cumulative table ends at the degree that inverts it |
| Soliton.InversionIsUnique | crates/orbit-fountain/src/soliton.rs:80-91 | and there is only one such degree |
| Soliton.HdpcNeighbors | crates/orbit-fountain/src/precode.rs:65-79 | Exactly half the inputs plus one, ascending, in range |
| Soliton.DrawDistinct | crates/orbit-fountain/src/soliton.rs:94-103 | Rejection sampling ends with exactly the first distinct draws selected |
| Soliton.LawfulExists | crates/orbit-fountain/src/soliton.rs:94-103 | The assumption about random streams can be met |
| Precode.Binomial | crates/orbit-fountain/src/precode.rs:36-43 | Each division is exact and the result is Pascal's binomial coefficient |
| Precode.SGrowsByHundreds | crates/orbit-fountain/src/precode.rs:14-19 | Two checks for up to two sources, ten below a hundred, one more for every further hundred |
| Precode.RowSearch | crates/orbit-fountain/src/precode.rs:25-32 | The least H >= 1 whose middle binomial coefficient reaches any 64-bit bound; never the fallback, never beyond 128 bits |
| Precode.HForSearch | crates/orbit-fountain/src/precode.rs:23-33 | The same for K + S |
| Precode.ChooseStep | crates/orbit-fountain/src/precode.rs:39-41 | C(n, i+1) (i+1) = C(n, i) (n-i), the reason the division is exact |
| Precode.NoOverflow | crates/orbit-fountain/src/precode.rs:35-41 | No intermediate product of a visited row leaves 128 bits |
| Encoder.FountainEncoder.constructor | crates/orbit-fountain/src/encoder.rs:30-64 | The blocks are the precoded source symbols of the payload |
| Encoder.FountainEncoder.SplitAndPad | crates/orbit-fountain/src/encoder.rs:38-47 | Byte j of block i is byte i * size + j of the payload, or zero behind its end |
| Encoder.SourceBytes | crates/orbit-fountain/src/encoder.rs:38-47 | The same of the specification of source blocks: payload bytes, then zeros |
| Encoder.FountainEncoder.EncodeSymbol | crates/orbit-fountain/src/encoder.rs:92-121 | The copy, pair and in-place branches all give the XOR of the chosen precoded blocks; symbols below K carry the payload bytes at their place, padded with zeros |
| Encoder.SourceCountCovers | crates/orbit-fountain/src/encoder.rs:35-36 | K symbols cover the payload and no whole symbol is padding; the empty payload has one symbol |
| XorKernel.XorInplace | crates/orbit-fountain/src/simd.rs:6-29 | Eight-byte words and a byte tail give the bytewise XOR for every length and either byte order |
| XorKernel.XorInto | crates/orbit-fountain/src/simd.rs:33-56 | The same for three buffers |
| XorKernel.WordXorIsByteXor | crates/orbit-fountain/src/simd.rs:16-20 | Unpacking the XOR of packed words is the bytewise XOR |
| XorKernel.PackRoundTrip | crates/orbit-fountain/src/simd.rs:17-19 | Packing and unpacking a word are inverse |
| Wire.RoundTrip | crates/orbit-protocol/src/wire.rs:61-208 | Decoding an encoded message gives it back if and only if its lengths fit their fields |
| Wire.PanicsExactlyOnShortMeta | crates/orbit-protocol/src/wire.rs:146-154 | Decoding aborts exactly on Meta frames whose last fields are one to four bytes short |
| Wire.ShortMetaPanics | crates/orbit-protocol/src/wire.rs:146-154 | and does so on a Meta frame with an empty name and 20 bytes behind it |
| Wire.OverlongFrameIsTruncated | crates/orbit-protocol/src/wire.rs:113-128 | A payload beyond 32 bits of length does not decode |
| WireLayout.HeadLayout | crates/orbit-protocol/src/wire.rs:61-118 | The first 13 bytes of every frame by offset and literal type code: code, length, session; numbers are weighed byte by byte, little endian |
| WireLayout.BodyLayout | crates/orbit-protocol/src/wire.rs:61-118 | Every field behind them by offset and width, message by message |
| WireLayout.DecodesExactly | crates/orbit-protocol/src/wire.rs:120-208 | A frame decodes to a message if and only if it is that message's frame, possibly with bytes behind the last field (none for Symbol), its length field counting them |
| WireLayout.ParsesByLength | crates/orbit-protocol/src/wire.rs:211-224 | A buffer waits, is refused above 512 MiB, or gives a frame by its first length field alone |
| Bytes.GetIsWeighed | crates/orbit-protocol/src/wire.rs:120-208 | A field reads as the sum of its bytes times powers of 256, the first byte weighing least |
| Framing.EncodeFrame | crates/orbit-protocol/src/wire.rs:61-118 | The appending encoder builds the specified frame |
| Framing.DecodeFrame | crates/orbit-protocol/src/wire.rs:120-208 | The consuming cursor computes the specified decoding, errors included |
| Framing.ByteBuf.ParseFrame | crates/orbit-protocol/src/wire.rs:211-224 | One frame off the front, or nothing consumed |
| Framing.ByteBuf.Receive | crates/orbit-protocol/src/wire.rs:211-224 | Repeated parsing drains the buffer as specified |
| Framing.ByteBuf.ReceiveAll | crates/orbit-protocol/src/wire.rs:211-224 | A stream of encoded messages fed in any chunks yields exactly the messages, in order, and an empty buffer |
| Framing.DrainInTwo | crates/orbit-protocol/src/wire.rs:211-224 | Draining in two instalments is draining at once |
| Framing.PrefixDrains | crates/orbit-protocol/src/wire.rs:211-224 | Any prefix of a stream drains to its whole frames and leaves exactly the unread suffix |
| Framing.FramesWithinIsExact | crates/orbit-protocol/src/wire.rs:211-224 | Those frames are all that fit |
| RelaySpec.BufferIsLongestFit | crates/orbit-relay/src/lib.rs:97-108 | Pushing frames in turn keeps the longest suffix that fits 256 MiB, or the newest frame alone |
| RelaySpec.EveryBufferIsLongestFit | crates/orbit-relay/src/lib.rs:222-438 | In every reachable state every room's buffer is the longest suffix, within 256 MiB, of the frames buffered since its last drain or removal, or the newest frame alone |
| RelaySpec.FrameLenIsEncodedLength | crates/orbit-relay/src/lib.rs:97-108 | The byte count of a buffered frame is the length of its encoding |
| RelaySpec.ApplyKeeps | crates/orbit-relay/src/lib.rs:222-438 | Every critical section keeps: a registered receiver means an empty buffer, a registered sender means no waiting advertisement, every stored frame belongs to its room, the cap holds |
| RelaySpec.RunKeeps | crates/orbit-relay/src/lib.rs:222-438 | and so does every run |
| RelaySpec.Conservation | crates/orbit-relay/src/lib.rs:230-413 | Over every run each accepted Symbol or Meta was handed over, evicted, dropped after Ready, discarded by Done, or is still buffered, exactly one of these |
| RelaySpec.HandedIsSent | crates/orbit-relay/src/lib.rs:263-267 | What is counted as handed over is what is left to be sent to the receiver |
| RelaySpec.ReadySticks | crates/orbit-relay/src/lib.rs:298-299 | Once Ready was routed the room stays done and every Symbol or Meta routed later is dropped, neither buffered nor sent, for as long as the room exists |
| AfterReady.BacklogAfterReady | crates/orbit-relay/src/lib.rs:247-264 | A frame buffered after the receiver was lost is sent to a receiver that says Hello after Ready |
| AfterReady.BacklogGoesOutOnce | crates/orbit-relay/src/lib.rs:247-264 | After Ready, over every run in which the room exists, the Symbols and Metas left to be sent are the backlog, once, whole and in order, if a receiver says Hello, and none otherwise; the buffer is then empty, otherwise unchanged |
| AfterReady.SilentIffNoBacklog | crates/orbit-relay/src/lib.rs:247-355 | No step after Ready leaves a Symbol or Meta to be sent if and only if there was no backlog or no receiver says Hello |
| AfterReady.OnlyOldFramesArrive | crates/orbit-relay/src/lib.rs:222-438 | At one relay with any traffic: after Ready each Symbol or Meta of the session in a channel was in that channel at Ready, or was then buffered or owed by a handler |
| ReadyRuns.StepIsEvent | crates/orbit-relay/src/lib.rs:222-438 | Every step of the whole system is at most one event at each relay |
| ReadyRuns.OnlyOldFramesArrive | crates/orbit-relay/src/lib.rs:222-438 | The same in every run of the whole system, at every relay |
| RelaySpec.SendsGoToTheRoom | crates/orbit-relay/src/lib.rs:222-413 | Every send left by routing a frame is of that frame's session and goes to a connection registered in its room: Symbol and Meta to the receiver, Ready and Direct to the sender |
| RelaySpec.RoomRemoval | crates/orbit-relay/src/lib.rs:408-437 | A room goes away only by Done or when the last connection leaves it with an empty buffer |
| RelaySpec.StaleLeaveIsHarmless | crates/orbit-relay/src/lib.rs:415-438 | A connection that is no longer registered changes nothing by leaving, except removing an idle room |
| RelaySpec.LeaveKeepsOthers | crates/orbit-relay/src/lib.rs:415-438 | Leaving never unregisters another connection or discards a buffered frame |
| RelayHistory.RegistrationsFollowHistory | crates/orbit-relay/src/lib.rs:230-438 | After every run the sender and the receiver of a room are those the history names: the last Hello in that role, unless its connection left or Done came since |
| RelayHistory.ReadyReachesSender | crates/orbit-relay/src/lib.rs:356-380 | After every run a Ready leaves exactly one send, to the registered sender, and none if there is none |
| RelayHistory.PayloadReachesReceiver | crates/orbit-relay/src/lib.rs:279-355 | After every run without Ready a Symbol or Meta leaves exactly one send, to the registered receiver, and without one it becomes the newest frame of the buffer |
| RelayHistory.HelloGetsBuffer | crates/orbit-relay/src/lib.rs:247-264 | After every run a receiver's Hello leaves the whole buffer to be sent to it, in order, and none of it behind |
| RelayHistory.FlushReachesSender | crates/orbit-relay/src/lib.rs:268-277 | An advertisement looked up again goes to the sender registered by then, and to nobody else |
| RelayHistory.DirectReachesSender | crates/orbit-relay/src/lib.rs:382-407 | After every run a Direct goes to the registered sender, or waits for one; a sender's Hello is handed the one that waits |
| RelayHistory.EveryDirectHasOneFate | crates/orbit-relay/src/lib.rs:231-438 | Over every run each Direct, as often as it came, was handed to a sender, replaced while it waited, lost with its room, or still waits |
| Relay.Room.PushBuffer | crates/orbit-relay/src/lib.rs:97-108 | The loop keeps the byte count exact and leaves the specified buffer |
| Relay.Room.DrainBuffer | crates/orbit-relay/src/lib.rs:111-118 | Everything in push order, count back to zero |
| Relay.RelayCore.RouteHello | crates/orbit-relay/src/lib.rs:231-278 | Registration, backlog and pending advertisement as specified |
| Relay.RelayCore.RoutePayload | crates/orbit-relay/src/lib.rs:279-355 | Receiver channel, buffer or nowhere as specified, with the traffic counters |
| Relay.RelayCore.RouteReady | crates/orbit-relay/src/lib.rs:356-381 | Marks the room done and names the connection specified; RelayHistory.ReadyReachesSender says that this is the registered sender |
| Relay.RelayCore.RouteDirect | crates/orbit-relay/src/lib.rs:382-407 | Sender or pending slot as specified; RelayHistory.DirectReachesSender says which |
| Relay.RelayCore.RouteDone | crates/orbit-relay/src/lib.rs:408-411 | Removes the room |
| Relay.RelayCore.FlushDirect | crates/orbit-relay/src/lib.rs:268-277 | The second critical section of a sender's Hello |
| Relay.RelayCore.LeaveRoom | crates/orbit-relay/src/lib.rs:415-438 | Unregisters only its own connection, removes an idle room |
| RateLimiter.Limiter.ThrottleBytes | crates/orbit-relay/src/lib.rs:49-73 | Credit, charge and requested sleep, with the credit within its cap; a limiter of rate zero aborts on any byte |
| RateLimiter.AtMostTwiceTheRate | crates/orbit-relay/src/lib.rs:49-73 | Over every run at most twice rate times elapsed time is released |
| RateLimiter.TwiceTheRateIsAttained | crates/orbit-relay/src/lib.rs:67-73 | For every m, m well-paced pairs of calls release exactly twice rate times elapsed time, so the long-term rate is twice the configured one |
| RateLimiter.RunIsPaid | crates/orbit-relay/src/lib.rs:49-73 | Every byte is paid by earlier credit, elapsed time or time slept |
| RateLimiter.IdleBurst | crates/orbit-relay/src/lib.rs:49-66 | A limiter idle for 10 ms or more lets what it sends in 10 ms through without sleep, and no byte more |
| Scheduler.MultiPathScheduler.constructor | crates/orbit-transport/src/scheduler.rs:14-26 | The relay share as an exact fraction, one half when both bandwidths are zero |
| Scheduler.MultiPathScheduler.Pick | crates/orbit-transport/src/scheduler.rs:41-50 | The specified choice and the next round-robin position |
| Scheduler.RelayPicksExact | crates/orbit-transport/src/scheduler.rs:41-50 | floor((n-1)p/q) + 1 of the first n symbols go to relays |
| Scheduler.ShareWithinOne | crates/orbit-transport/src/scheduler.rs:41-50 | within one of n p/q for every n |
| Scheduler.LoadsDifferByAtMostOne | crates/orbit-transport/src/scheduler.rs:44-46 | Loads of two relays differ by at most one after any sequence of calls |

## Left out

- TransferSafety.EndToEndSafety: assumes orderly runs and symbols that fit in a frame, which the program does not ensure on the direct link; a safety statement, since delivery under eviction or total loss is not promised.
- TransferSafety.EveryMessageIsFine: on the direct connection for orderly runs only.
- Scheduler.MultiPathScheduler.Pick: the relay share is the exact fraction p/q, so single-precision rounding of ESIs beyond 24 bits is not captured.
- Decoder.FountainDecoder.AddSymbol: symbol data has the decoder's symbol size; with other lengths the XOR kernel aborts as soon as two meet.
- Receiver.ReceiverSession.HandleSymbol: the same length of symbol data.
- Receiver.ReceiverSession.StartDecoder: Meta has K at least one and the session's symbol size.
- Receiver.ReceiverSession.TakeRelayed: the same K and symbol size.
- Receiver.ReceiverSession.Handle: the same K and symbol size.
- Receiver.ReceiverSession.Loop: the same K and symbol size, for every arrival.
- Receiver.ReceiverSession.Run: takes the merged arrivals and what the sinks accept as sequences; the drain of closed sockets after Ready is I/O.
- Sender.SenderSession.Run: what other tasks do between two turns of the loop is an input of the turn, so interleavings inside a turn are not modelled; Transfer interleaves the steps of a turn freely.
- RateLimiter.Limiter.ThrottleBytes: computes over real numbers instead of floating point.
- Codec.WorkIsLinear: counts block XORs, index visits and queue entries, not the cost of one hash map or byte operation.
- Random generator and degree table: ChaCha8, `gen_range` and the floating-point Robust Soliton table are parameters with the assumption above; probabilistic claims about overhead are not stated.
- Checksum: XXH3 is an arbitrary function of the bytes.
- Sorting and deduplication of neighbour lists: library calls, replaced by reading the selected positions in order.
- Blocks inside the codec: the decoder's and encoder's maps hold blocks by value; only the XOR kernel and the padding loop work in place on arrays, so sharing of buffers between fields is not captured.
- Hash map iteration order: sets and maps are iterated in an arbitrary order; results do not depend on it.
- Encryption of symbols: symbols travel unsealed; sealing and opening are library calls.
- I/O: WebSocket, TCP, QUIC, TLS, timers, signalling, the WASM bindings, command line and benchmarks. Clock readings are inputs.
- Overflow checks: the ESI wraps at 32 bits as in a release build; other counters are unbounded.
- UTF-8: names are byte strings with a well-formedness predicate.
- Utilities of session.rs: throughput statistics and the sender's closing handshake after Ready.
- Frames inside Relay, RelayNet and the relay side of Transfer: messages, not bytes, because a WebSocket carries one frame per message; Wire shows that encoding and decoding give the same message back within the length limits. The direct link is modelled byte by byte.
- Transfer: a party's connections are fixed in advance by their identifiers, identifiers are never reused, and strangers do not forge Meta, Symbol or Ready of the session at a relay.

# mock5g in Dafny

mock5g is a closed-loop benchmark: N gNB workers share one atomic sequence counter, each sends numbered
and timestamped request frames over its own session, and an AMF echoes them. A shared collector counts
what was sent, received and dropped, and is sampled at arbitrary moments. This project models that stack
in four layers and proves how they fit together.

1. **Codec** (`bytes.dfy`, `wire.dfy`). The 26-byte big-endian header and 16-bit-length payload. `Encoded`
   and `Decode` are inverse in both directions; `EncodeBuffer` fills a buffer in place and is proved equal
   to the function.
2. **Transports** (`stream.dfy`, `framing.dfy`, `channels.dfy`, `sctp.dfy`, `pipe.dfy`, `link.dfy`,
   `sendlock.dfy`, `deadline.dfy`). `Reader`, `Writer` and `MessageConn` are ordered byte streams and a
   message queue that choose every chunk size, every error and every arrival themselves. The channel
   methods are proved against predicates that say exactly what a call may do; `Pipes.Puts` and
   `Pipes.Takes` unite them for the three transports, and `Links.Link` is the channel of any of them.
3. **Protocol** (`amf.dfy`, `protocol.dfy`, `conservation.dfy`, `numbering.dfy`, `attribution.dfy`,
   `endtoend.dfy`, `solo.dfy`, `loops.dfy`, `composite.dfy`, `witnesses.dfy`, `misattribution.dfy`).
   Workers, handlers and snapshots form a transition system; a run is any interleaving of its steps. The
   handler loop and the worker loops are also given as methods over a link, a clock and the real collector.
4. **Statistics and pacing** (`metrics.dfy`, `pacing.dfy`, `sweep.dfy`). The collector class, percentiles,
   rate split, ticker interval and the throughput sweep.

## How the layers meet

`Protocol.Run` assumes nothing of the transport and of the time: a channel call may report any result and
leave anything in the pipe, and the clock may be set back. Conservation, numbering and the throughput sweep
are proved of all these runs, whatever the transport, TLS included. A run is `Faithful` when each Send did
what `Pipes.Puts` and each Recv what `Pipes.Takes` allows; the channel methods are proved to do no more than
that, so the theorems about faithful runs cover all three transports. It is `Steady` when the clock was never
set back, which only the sign of the latencies needs. The pipes of the system carry bytes or messages, not
frames. A Send takes effect when it starts and a Recv when it ends: bytes written later in a Send cannot be
read before the Send began, and a Recv returns nothing before it ends.

A `Links.Link` logs every Send and Recv with what it returned and left in its pipe, and each entry does to
the pipe, as the entries before have left it, what that transport's Send and Recv promise. `Loops.WorkerLoop`
and `Loops.HandleSession` take the steps of a session in the transition system, and the channel calls of
these steps are exactly the logged ones. Readers, writers and connections remember what their last read or
write returned, and every channel call is proved to report just that; so what the collector counts as a
timeout is a read that timed out. `Solo.SoloStepIsSystemStep` says that a session can take a step by
itself exactly when the system can, whatever the other sessions have done, with the same effect on the
counter, the clock and the collector; `Solo.WalkIsRun` lifts this to whole walks. The interleavings of
several loops are the runs of the system.

State components called history (`sent`, `handled`, `echoed`, `recvd`, `issued`, `hits`, `sampled`, `log`,
`puts`, `gots`, `causes`, `failed`) record what happened; no step is decided by them. `Numbering` says which frames are handed to
Send from the events of a run alone, and attribution is stated in those terms.

Three results have limits that come from the code itself:

- Attribution holds over plain SCTP in every faithful run, because a failed call moves no message there.
  Over a byte stream it holds in every run in which failed calls move no bytes (`CleanRun`): a call that
  times out inside a frame leaves the rest of it behind, and the worker goes on using the channel.
  `Misattribution.AlwaysAttributedIff` says that the hypothesis can be dropped exactly for plain SCTP and for
  payloads too long to be sent at all, and that it makes no difference if a single Recv that times out is
  the only unclean call. Such a Recv is one that its own RecvTimeout ends (pkg/load/load.go:81-82): it stops
  behind the header of a reply whose payload holds a reply (`LostHeaderMisattributes`), or, with every
  payload, inside the header, when the numbers and the readings of the clock happen to spell a header
  (`RecvTimeoutMisattributes`). The runs in which a Send of a worker or of the handler breaks off inside a
  frame need a stream that works again after a failed write; that is an assumption, and for QUIC a strong
  one. `Framing.FailureHarmlessIff` and `Framing.FailedSendHarmlessIff` say that later frames stay readable
  exactly when the failed Recv took nothing, and when the failed Send put nothing or everything.
  Conservation needs no such hypothesis.
- The error of Encode is discarded by the workers, and plain SCTP reads into 64 KiB.
  `Witnesses.AnsweredIff`: some run counts a reply exactly when the payload has at most 65535 bytes, or at
  most 65510 over plain SCTP.
- The repository's README says that the rate limit enforces the target rate.
  `Pacing.TickersWithinTargetIff`: the tickers stay within the target over every span from their start
  exactly when each worker gets at least one packet per second and the remainder of the split covers what
  the rounding of the interval adds (or the rate is so high that the interval is the fixed microsecond).
  Over spans that begin later a worker may be one tick ahead: `Pacing.BurstsWithinTargetIff` says that
  within this one tick per worker the target holds over every span under the same condition. More workers
  than packets fail it, and so does one worker at three packets per second
  (`Pacing.RoundingExceedsTarget`).

## Model

| member | source | states |
|---|---|---|
| Wire.EncodeBuffer | pkg/wire/frame.go:29-43 | The buffer filled in place is exactly the encoding; it fails exactly for payloads over 65535 bytes, and names their length. |
| Wire.SentBytesIff | pkg/load/load.go:74-75 | With the error dropped, what is sent is an encoding that decodes to the frame, or nothing, and nothing exactly for payloads over 65535 bytes. |
| Bytes.PutBEAt | pkg/wire/frame.go:35-40 | Every multi-byte field is big-endian: byte k holds the digit of weight 256^(n-1-k). |
| Wire.DecodeEncode | pkg/wire/frame.go:45-73 | Decoding an encoding, with any bytes after it, gives back the frame, negative timestamps included. |
| Wire.EncodeDecode | pkg/wire/frame.go:45-73 | What decodes is canonical: encoding the result gives back the bytes that were read. |
| Wire.DecodableIff | pkg/wire/frame.go:45-73 | Decode succeeds on exactly the inputs that begin with the encoding of some frame. |
| Wire.DecodeErrorIff | pkg/wire/frame.go:45-66 | Which inputs each error means and what it reports: too short; four other bytes than the magic number; another version; and truncated exactly when the input is a cut-off encoding. |
| Wire.UniquelyReadable | pkg/wire/frame.go:29-73 | No encoding is a strict prefix of another: a stream splits into a first frame and a rest in one way only. |
| Stream.ReadFull | pkg/transport/sctpkernel/sctpkernel_linux.go:242-248 | Under any chunking it succeeds exactly when the buffer is full, and always hands over the next bytes of the stream, in order; its error is that of the last read, but the end of the stream is unexpected once something has been read. |
| KernelChannel.Send | pkg/transport/sctpkernel/sctpkernel_linux.go:213-232 | Terminates for every writer that makes progress or fails; success appends exactly the message, failure a prefix of it; it fails exactly when its last write did, with that error, so a timeout is reported as one. |
| KernelChannel.Recv | pkg/transport/sctpkernel/sctpkernel_linux.go:234-262 | Success takes exactly the frame at the head of the stream; failure takes a strict prefix of it and reports the error of the read that failed, so a timeout is reported as one. |
| QuicChannel.WriteAll | pkg/transport/quic/quic.go:301-311 | Terminates; what is on the stream is the first `total` bytes, all of them unless an error is returned, which is that of the last write. |
| QuicChannel.Send | pkg/transport/quic/quic.go:126-142 | Success appends the length prefix and the message, failure a prefix of that; it fails exactly when its last write did, with that error; over 16 MiB nothing is sent. |
| QuicChannel.Recv | pkg/transport/quic/quic.go:144-161 | Success takes exactly one prefixed message; a refused length costs its four bytes; any other failure takes a strict prefix and reports the error of the read that failed. |
| Framing.DeliverableIff | pkg/transport/sctpkernel/sctpkernel_linux.go:249-250 | A message comes back whole exactly when its own length field is right (kernel) or it is within 16 MiB (QUIC). |
| Framing.EncodedDeliverable | pkg/wire/frame.go:33-41 | Every Encode output is deliverable on both stream backends and has at most 65561 bytes, so the QUIC limit never rejects it. |
| Framing.ParseWrapped | pkg/transport/sctpkernel/sctpkernel_linux.go:213-262 | Successive Recvs return any list of deliverable messages, exactly and in order, whatever follows on the stream. |
| Framing.ReadsAreFifo | pkg/transport/quic/quic.go:126-161 | However little of the stream has arrived, what was read is the first messages sent, and what is unread is the front of the others. |
| Framing.FramesRoundTrip | pkg/transport/sctpkernel/sctpkernel_linux.go:234-262 | Any list of frames followed by a frame that is still incomplete is read as exactly that list. |
| Framing.BackendsAgree | pkg/transport/quic/quic.go:126-161 | For any list of encoded frames the two stream backends hand Decode the same inputs. |
| Framing.CutShortIsIncomplete | pkg/transport/sctpkernel/sctpkernel_linux.go:243-260 | A message of which bytes are missing never reads as a message. |
| Framing.HeadStable | pkg/transport/sctpkernel/sctpkernel_linux.go:243-260 | Bytes arriving behind a complete message do not change what Recv returns. |
| Framing.FailureHarmlessIff | pkg/transport/sctpkernel/sctpkernel_linux.go:243-260 | After a failed Recv the pending messages are still readable if and only if it took no byte. |
| Framing.FailedSendHarmlessIff | pkg/transport/sctpkernel/sctpkernel_linux.go:221-231 | After a failed Send every later list of frames is still read whole and in order if and only if it put nothing or all of its frame on the stream. |
| SctpChannel.Send | pkg/transport/sctp/sctp.go:182-195 | Success adds the message as one message, failure adds nothing; it fails exactly when the write did, with that error. |
| SctpChannel.Recv | pkg/transport/sctp/sctp.go:197-216 | Success takes the first 64 KiB of the message at the head of the queue, failure takes nothing; it fails exactly when the read did, with that error. |
| SctpChannel.SurvivesBufferIff | pkg/transport/sctp/sctp.go:205-215 | What Recv returns for the frame at the head of the queue decodes to it if and only if its payload has at most 65510 bytes, and then nothing behind it is touched; a longer one fails as truncated and leaves at most a piece too short to decode. |
| SctpChannel.SessionDelivers | pkg/transport/sctp/sctp.go:182-216 | Of any frames sent in a session, what successive Recvs return decodes to exactly those of at most 65510 payload bytes, in order, whatever longer frames surround them. |
| Pipes.SessionReads | pkg/transport/transport.go:54-59 | The same session theorem for every transport: what was read decodes to the front of the frames it carries, and to all of them once everything has been read. |
| Links.Link.Send | pkg/transport/transport.go:54-59 | Over each transport a Send puts what that channel's Send puts, and no call does anything else; its error is that of the write under it; the log of calls gains it, and still chains along the pipe. |
| Links.Link.Recv | pkg/transport/transport.go:54-59 | Over each transport a Recv takes what that channel's Recv takes from all that has arrived by then; it is logged in the same way, with the error of the read that ended it, and it reports a timeout exactly when that read timed out. |
| SendLock.NeverInterleaved | pkg/transport/sctpkernel/sctpkernel_linux.go:213-232 | In every run of any goroutines the wire is one prefix per acquisition of the mutex, in acquisition order. |
| SendLock.SendIsOver | pkg/transport/sctpkernel/sctpkernel_linux.go:213-232 | In every run, once a Send has returned or a write has failed, its goroutine is outside, the mutex is free, and what it and those before it put on the wire is all they will ever put. |
| SendLock.WholeFramesInOrder | pkg/transport/sctpkernel/sctpkernel_linux.go:213-232 | While no write has failed the wire is whole messages in acquisition order, then a prefix of the holder's message. |
| SendLock.ReceiverSeesWholeFrames | pkg/transport/sctpkernel/sctpkernel_linux.go:213-262 | The receiver of that wire reads exactly the completed messages, in acquisition order. |
| Deadline.FdConn.Wait | pkg/transport/sctpkernel/sctpkernel_linux.go:547-592 | For ideal polls: interrupts and wakeups without an event decide nothing; the first other poll decides at its own time, an error or a hangup as an error, an expiry as a timeout, an event as ready; still blocked exactly when none decides. A timeout comes when the whole milliseconds left, at least one, have passed, or at once when none is left, so less than a millisecond from the deadline. |
| Deadline.ArmAndWait | pkg/transport/sctpkernel/sctpkernel_linux.go:237-241 | Recv and Send arm the deadline of their own context, for their own direction only, and wait for it as above whatever deadlines earlier calls had left; without one no timeout comes. |
| Deadline.NoDeadlineNoTimeout | pkg/transport/sctpkernel/sctpkernel_linux.go:580-582 | Without a deadline no poll expires and no wait ever times out. |
| Amf.ReactIff | pkg/app/amf.go:70-81 | The handler answers a message exactly when it begins with an encoded request, with the full encoding of a response that carries the same number, time, channel and payload; the discarded encode error is never set. |
| Amf.RepliesToMessages | pkg/app/amf.go:60-83 | For every list of messages, malformed ones and trailing bytes included, the replies are the echoes of the decodable requests, in order, and nothing else. |
| Amf.EchoPipeline | pkg/app/amf.go:60-83 | On either stream backend, from the client's byte stream (cut anywhere) through the handler and back: the client reads the echo of every complete request, in order. |
| Amf.HandlerHears | pkg/app/amf.go:60-83 | Over any transport, the replies to what the handler has read so far are the echoes of the requests in a front of the frames the transport carries, and of all of them once it has read everything. |
| Metrics.SortedUnique | pkg/metrics/metrics.go:127-128 | A sorted arrangement of the same samples is unique. |
| Metrics.SortSorts | pkg/metrics/metrics.go:127-128 | Sorting yields a sorted permutation. |
| Metrics.SortInPlace | pkg/metrics/metrics.go:128 | The in-place sort of the copy computes that arrangement. |
| Metrics.RankGuarantee | pkg/metrics/metrics.go:123-139 | Of no samples a percentile is 0; otherwise it is a sample of rank k, where k is p hundredths of the way from the first rank to the last, rounded down: at least k+1 samples are at most it and at most k are strictly below it. |
| Metrics.PercentileUnique | pkg/metrics/metrics.go:123-139 | No other value has that rank. |
| Metrics.PercentilesOrdered | pkg/metrics/metrics.go:129-139 | A higher percentile is never smaller. |
| Metrics.Percentiles | pkg/metrics/metrics.go:123-140 | Returns the 50th, 95th and 99th percentile in this sense, P50 <= P95 <= P99, and leaves its input as it was. |
| Metrics.OrderIndependent | pkg/metrics/metrics.go:45-121 | Any two interleavings of the same updates give the same row: counters, drop total, rate and percentiles. |
| Metrics.Collector.AddLatency | pkg/metrics/metrics.go:87-91 | Appends the latency in whole microseconds, truncated toward zero, and changes nothing else. |
| Metrics.Collector.TakeSnapshot | pkg/metrics/metrics.go:93-121 | Every figure of the row is the collector's: each counter, the drops by cause and in all, the whole replies per second of the time given (0 if none has passed), the three percentiles of the samples, and the labels it was called with; the collector stays unchanged. |
| Loops.SendRequest | pkg/load/load.go:72-79 | Takes the next number and the time and makes one Send, of the encoded request, which puts what Send may put; the collector gains one sendErr if that Send returned an error and one Tx if not. |
| Loops.Receive | pkg/load/load.go:82-100 | One Recv, which consumes what Recv may consume; the verdict is the one its result deserves, and a timeout exactly when the read under it timed out. |
| Loops.CountReply | pkg/load/load.go:84-102 | Every verdict adds one to its own counter and nothing to any other; a counted reply adds one sample, the time from the reply's timestamp to the clock in whole microseconds. |
| Loops.AwaitReply | pkg/load/load.go:82-102 | One Recv and nothing sent; what the collector gains is the count, and the sample, that the result of this Recv deserves, a dropTimeout exactly when its read timed out. |
| Loops.WorkerLoop | pkg/load/load.go:58-103 | For every behaviour of channel and clock the loop takes the steps of the transition system from top to exit, one number per pass, and the Sends and Recvs of these steps are exactly the calls logged on its link, which chain along both pipes; dropTimeout grows by the number of reads on its link that timed out; alone it is a run of the system that ends with the same number and tally, and its books are exact. |
| Loops.Handle | pkg/app/amf.go:70-82 | A message with a reply is one Send of exactly that reply, whose error is reported; any other message sends nothing and makes no call. |
| Loops.HandleSession | pkg/app/amf.go:54-84 | The loop reads messages in order from all that arrived, stops only on cancellation or a failed Recv and answers each message once; its rounds are steps of the session's handler, whose calls are exactly those logged on the link, but for the Recv that failed; when no Send failed it has put exactly the echoes of the decodable requests it read. |
| Solo.SoloStepIsSystemStep | pkg/load/load.go:58-103 | A session can take a step by itself exactly when the system can, whatever the rest of the system is doing, with the same effect on what both see and none on other workers. |
| Solo.WalkIsRun | pkg/load/load.go:58-103 | A whole walk of one session is a run of the system from every state in which the session is what it was. |
| Loops.WalkBalances | pkg/load/load.go:58-103 | A walk keeps the books balanced whatever was open when it began. |
| Conservation.AlwaysBalanced | pkg/load/load.go:58-103 | In every state of every run, with any result of any channel call, and in every row taken so far: seq-(tx+sendErr), tx-(rx+drops) and rx-samples are the numbers of workers at the matching program points and sum to at most the number of workers; no row shows less than an earlier one. |
| Conservation.RowShowsItsMoment | pkg/load/load.go:215-230 | In every run each row shows the counters, and the time since the start, of the moment at which it was taken, and nothing changes it later. |
| Conservation.FinalRowExact | pkg/load/load.go:107-111 | In the last row of every run Tx = Rx + Drop - DropSendErr, seq = Tx + DropSendErr and there is one sample per Rx; for flood Rx = 0 and Drop = DropSendErr. |
| Conservation.EveryCounterHasItsCause | pkg/load/load.go:75-101 | In every run Tx, Rx and each drop counter equal the number of channel calls that reported that cause, less the workers about to count theirs; the cause of Rx is a message that begins with an encoded response carrying the number of the request of that moment. |
| Conservation.FinalCauses | pkg/load/load.go:107-111 | In the last row each of them is exactly that number of calls. |
| Conservation.JudgeIff | pkg/load/load.go:92-100 | A received message is accepted, as the frame it begins with, exactly when that is an encoded response carrying the current number, is undecodable exactly when it begins with no encoding, and is a mismatch otherwise. |
| Numbering.RequestsAreNumbered | pkg/load/load.go:72-75 | In every run the k-th frame a worker hands to Send is the request with the k-th number it drew and the k-th time it read, and it has handed over one for each number, except the one it is preparing. |
| Numbering.HandedFields | pkg/load/load.go:72-75 | That frame carries this number and time, the payload of the run, the request type in a latency run and the flood type in a flood, and as channel the worker's index modulo the number of channels, if there are more than one. |
| Numbering.NumbersPartition | pkg/load/load.go:72 | Each of the numbers 1, 2, 3, ... drawn so far was drawn by exactly one worker. |
| Numbering.HandedOnce | pkg/load/load.go:72-75 | No two frames handed to Send, by any workers, carry the same number. |
| Attribution.CleanRunKeepsInv | pkg/load/load.go:72-102 | In every clean run both pipes of every session are whole frames: the unhandled requests and the undelivered echoes, in order. |
| Attribution.SctpRunsAreClean | pkg/transport/sctp/sctp.go:182-216 | Over plain SCTP every faithful run is clean. |
| Attribution.JudgeReply | pkg/load/load.go:92-100 | A received echo is accepted exactly when it answers the newest request, and is a mismatch otherwise. |
| Attribution.HandlerReads | pkg/app/amf.go:66-70 | The handler reads the oldest request it has not read yet, whole. |
| Attribution.RecvReads | pkg/load/load.go:82-92 | A successful Recv returns the oldest echo not yet received, whole. |
| EndToEnd.EveryRxIsOwnEcho | pkg/load/load.go:72-102 | In every clean run, in every run over plain SCTP, and for every payload: each counted Rx is the echo of a frame that very worker handed to Send, no two carry the same number, and each sample is the time from the timestamp of a counted reply to a reading of the clock, in microseconds truncated toward zero, saturating at the ends of the int64 range. |
| EndToEnd.LatenciesNotNegative | pkg/load/load.go:73-102 | If besides the clock is never set back during the run, no latency in the tally is negative. |
| EndToEnd.NeverAnswered | pkg/load/load.go:74-75 | With a payload the transport does not carry no reply is ever counted, in any faithful run, clean or not. |
| EndToEnd.ReplyPosition | pkg/load/load.go:75-102 | With a lossless AMF the k-th successful Recv returns the reply to the k-th successful Send; it is counted exactly when no earlier Recv of that worker failed, and is a mismatch otherwise. |
| EndToEnd.CountsPromptReplies | pkg/load/load.go:75-102 | Over a whole lossless run a worker counts exactly the echoes its Recvs returned before its first failed one, in request order, and none after it. |
| EndToEnd.FloodIsOneWay | pkg/load/load.go:150-157 | In every clean flood, and in every flood over plain SCTP, no handler ever sends anything and no worker ever receives. |
| EndToEnd.FloodFrameUnanswered | pkg/app/amf.go:79-80 | In every flood, whatever the channels do, no frame handed to Send is one that the handler answers. |
| Witnesses.AnsweredIff | pkg/transport/sctp/sctp.go:205-215 | Some run counts a reply if and only if the payload has at most 65535 bytes, or at most 65510 over plain SCTP. |
| Misattribution.AlwaysAttributedIff | pkg/load/load.go:75-91 | Every faithful run, clean or not, counts only echoes of the worker's own requests if and only if the transport is plain SCTP or the payload does not encode; the same holds of the runs in which at most one call is unclean, that call is a Recv that timed out, and the clock is never set back. |
| Misattribution.LostHeaderMisattributes | pkg/transport/sctpkernel/sctpkernel_linux.go:255-260 | On both stream backends, for every forged response with number 2 there is a run whose only unclean call is one Recv that times out behind the header, that counts it although it echoes nothing. |
| Misattribution.RecvTimeoutMisattributes | pkg/transport/sctpkernel/sctpkernel_linux.go:243-248 | On both stream backends, with every payload that encodes there is a run whose only unclean call is one Recv that times out inside the header, that counts a reply that echoes nothing the worker handed to Send. |
| Misattribution.SendFailureMisattributes | pkg/transport/sctpkernel/sctpkernel_linux.go:221-231 | On both stream backends, with every payload that encodes there is such a run whose only unclean call is one Send of the worker that breaks off, behind any rounds before it that succeed, on a stream that works again. |
| Misattribution.ReplyFailureMisattributes | pkg/app/amf.go:77-78 | The same with one Send of the handler that breaks off as the only unclean call. |
| Composite.SpliceReads | pkg/transport/quic/quic.go:301-311 | There is a cut of one frame behind which the next one is read as a message with its own type and number, and with a positive timestamp that is a piece of a header. |
| Composite.ForgedRead | pkg/transport/sctpkernel/sctpkernel_linux.go:242-262 | Behind the first 14 bytes of a reply with that time (and on QUIC that number), what is left of it and the next replies reads as a reply with another number, as soon as enough has arrived. |
| Pacing.RateSplit | pkg/load/load.go:49 | The workers' integer rates sum to at most the target if and only if there are no more workers than packets per second, and then fall short by less than the number of workers; otherwise each has a rate of one. |
| Pacing.TickersWithinTargetIff | pkg/load/load.go:49-54 | All tickers together stay within the target over every span from the start of the tickers if and only if there are no more workers than packets and the remainder of the split covers the rounding of the interval (or the interval is the fixed microsecond). |
| Pacing.BurstsWithinTargetIff | pkg/load/load.go:49-54 | Over every span, wherever it begins, they exceed the target by at most one tick per worker if and only if the same condition holds. |
| Pacing.RoundingExceedsTarget | pkg/load/load.go:49-54 | One worker at three packets per second ticks four times in less than four thirds of a second. |
| Pacing.IntervalBounds | pkg/load/load.go:50-53 | Up to 10^9, interval*ppw <= 10^9 < (interval+1)*ppw; above, it is the fixed microsecond. |
| Pacing.TicksAtLeast | pkg/load/load.go:49-54 | An ideal ticker keeps the per-worker rate over any time span. |
| Pacing.TicksAtMost | pkg/load/load.go:49-54 | It exceeds the rate only through the rounding of the interval. |
| Pacing.IntervalMonotoneIff | pkg/load/load.go:124-128 | A higher rate never ticks more slowly, except exactly when the division reaches zero and the interval jumps back to a microsecond. |
| Pacing.SweepNeverSlowsDown | pkg/load/load.go:186-191 | Over a sweep the tickers never slow down while a worker's rate is at most 10^9. |
| Sweep.EndsExact | pkg/load/load.go:107-111 | The rows of every latency run show its collector at the moments they were taken, for the rate asked for and the number of workers, at least one; the last one's counters add up and its percentiles are ordered. |
| Sweep.RowsNeverShrink | pkg/load/load.go:215-230 | Within a run no row shows a smaller counter than an earlier one. |
| Sweep.RunThroughputSweep | pkg/load/load.go:168-200 | Succeeds exactly when the step duration is positive, and then returns one row per step, exact and the last of a run with all else as configured. There are stepCount steps, at least one; the first targets stepStartPPS, or else basePPS, or else 1; each next one targets stepIncrement more, or else stepPPS, or else 1. |

## Left out

- Dial, listen, accept, TLS, certificates, flags, configuration, CSV and printing: input, output and library calls.
- `fdConn.Read` and `fdConn.Write`: their retry on EINTR and EAGAIN is part of the choice the streams make; that a Read or Write without an error makes progress is assumed of the system calls and of `tls.Conn`.
- Ticker waits and real time, and whether the latency loop has a ticker at all: the readings of the clock are any nanosecond times, and the context may end at any pass of a loop.
- EndToEnd.LatenciesNotNegative: covers runs in which the wall clock is not set back; otherwise a latency can be negative, and is recorded so.
- 64-bit wrap-around: a run numbers fewer than 2^64 requests and the collector counts in unbounded naturals.
- Floating point: the percentile index and the achieved rate are the exact integer floors.
- Integer overflow of the sweep's `startPPS + i*inc`: targets are unbounded integers.
- `fdConn.SetDeadline`: nothing in the repository calls it.
- Loops.WorkerLoop: the method runs one goroutine without interference; interleavings of several loops are the runs of `Protocol`.
- Attribution.CleanRunKeepsInv: assumes that failed channel calls move no bytes, because the code does not keep the stream aligned otherwise (see above).
- Sweep.RunThroughputSweep: takes the runs as an input, since the network, the scheduler and the snapshot ticker choose them; the cancellation of the sweep's own context only makes runs shorter.
- QuicChannel.Send: setting the write deadline is taken to succeed; its error would end the call before any byte moves.
- QuicChannel.Recv: the same for the read deadline.
- SctpChannel.Recv: assumes a session that preserves message boundaries and accepts or rejects a message as a whole, as SCTP does without TLS.
- A session that the AMF handler has closed: the client may still put bytes on the stream, and nobody reads them. The failed Recv on which the handler stopped is on its link's log, but the system leaves its pipe as it was.
- Liveness beyond the termination of each loop.

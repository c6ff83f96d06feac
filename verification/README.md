# Guarch transport, verified in Dafny

This project models the parts of Guarch that keep state and can go wrong over a long run,
and proves what they promise. `dafny verify dfyconfig.toml` checks all of it.

| modules | what they model |
|---|---|
| `Grouk`, `GroukObject`, `GroukNet`, `GroukComplete`, `GroukTiming`, `GroukLoss`, `GroukLife` | Grouk streams over UDP: numbering, send buffer, acks, retransmission, congestion window, reorder buffer, bounded read queue; two ends over a network that drops, duplicates and reorders |
| `Reader`, `Bytes` | the Read half that Grouk and mux streams share; big-endian integers, lists of byte strings |
| `PacketCodec` | the packet format: validation, marshalling, parsing, reading from a stream |
| `SecureChannel`, `SecureConnObject`, `SecureRuns`, `SecureLimits`, `SecureOrder`, `SecureWrap`, `SecureFifo` | the sealed channel: key-usage limits, sealing under the length field, replay check; runs on hostile bytes and on an honest byte stream |
| `MuxState`, `MuxObject`, `MuxRuns`, `MuxAccepts`, `MuxStreams` | many streams over one sealed channel, composed with the packet codec, two ends |
| `Fec`, `FecObject` | XOR parity groups and recovery of a missing packet |
| `RateLimiter`, `RateLimiterObject`, `Probe`, `ProbeObject`, `TimeWindow` | the handshake rate limiter and the probe detector: pruned logs against the full history |
| `Adaptive`, `AdaptiveObject` | adaptive cover traffic: traffic window and level hysteresis |
| `Listener`, `ListenerObject` | the Grouk listener's pending and authenticated sessions |

Each stateful object of the program is a class whose methods update its fields step by
step, and every method is proved to compute a function on values; the laws are lemmas about
runs of those functions. Clocks, random outcomes (timestamps, ciphertexts, the order in
which a map is walked, which ready case a select takes) and the network are arguments that
the laws quantify over. One step is one handler call, taken as atomic.

Three promises are not kept by the code on all inputs. Each has an exact condition for when
it is kept, and an input on which it is not.

* Opener to acceptor on a Grouk stream. The program's own README.md, lines 438-440, lets
  DATA start at number 1. In the code OPEN spends number 1 and DATA starts at 2, while the
  acceptor waits for 1. So nothing the opener writes is ever read: everything is read if and
  only if nothing was written (`GroukComplete.CompleteToAcceptorAsWritten`, with a run in
  `GroukComplete.OpenerLosesChunk`). The model follows the code; with the acceptor waiting
  for 2 everything is read (`GroukComplete.CompleteToAcceptorAligned`).
* At-most-once, in-order acceptance on a sealed channel. For every history of the sender it
  holds against all hostile input if and only if no DATA packet was sealed with number 0 or
  with a smaller number than one before it (`SecureOrder.AtMostOnceExactly`), which is a test
  that can be made before each call (`SecureOrder.RisingNext`). A refused Send still spends a
  32-bit number. Fewer than 3 * 2^30 refusals are harmless
  (`SecureOrder.FewRefusalsAscend`); enough of them bring the number round, to zero
  (`SecureWrap.AtMostOnceAfterRefusals`) or past it (`SecureWrap.OrderLostAcrossZero`).
* A sealed channel over an honest byte stream returns what was sent. The receiver counts 28
  bytes more per packet than the sender, against the same limit. Within the sender's limits
  every packet comes out if and only if the receiver's count is within 64 GiB too
  (`SecureFifo.LosslessCalls`); 1048304 Sends of 65535 bytes pass the one and not the other
  (`SecureFifo.ReceiverLimitFirst`).

## Model

| member | source | states |
|---|---|---|
| GroukNet.ExactlyOnceInOrder | pkg/transport/grouk.go:495-596 | in every run of two ends over a dropping, duplicating, reordering network, and in both directions: bytes returned by Read, then readBuf, then the queued chunks, are exactly the data of all numbers below recvNext, in order, and a prefix of what the peer's Write buffered |
| GroukNet.NoLoss | pkg/transport/grouk.go:320-349 | while a reader is open every chunk its peer ever sent is, with its own bytes, still in the peer's sendBuf, or delivered, or in recvBuf, whatever acks were duplicated or delayed |
| GroukNet.WindowBounds | pkg/transport/grouk.go:523-612 | in every run sendWin is the number of chunks not acked, 128 at most, and the congestion window is between 4 and 128 |
| Grouk.AcksAnyOrder | pkg/transport/grouk.go:598-612 | however acks are repeated, unknown or reordered, what they leave of sendBuf, sendWin and cwnd depends only on the set of buffered numbers acked |
| GroukNet.OpenerDirectionStuck | pkg/transport/grouk.go:370-394 | as the program numbers its packets, the acceptor's recvNext stays 1 in every run and its Read returns no data |
| GroukNet.MoveKeeps | pkg/transport/grouk.go:298-349 | every handler at either end keeps the invariant that ties logs, send buffers, packets in flight, acks, reorder buffers and delivered chunks of both ends together |
| GroukNet.DeliverKeeps | pkg/transport/grouk.go:577-596 | a whole deliverOrdered call, on an open or a closed stream, keeps the reader's and the link's invariant |
| GroukNet.ScanFrame | pkg/transport/grouk.go:614-657 | the walk of a tick changes clocks, retry counts and the congestion window only, never the set of buffered chunks or their bytes |
| GroukComplete.DeliverMaximal | pkg/transport/grouk.go:577-596 | one deliverOrdered call on an open stream moves the longest run of consecutive chunks that the queue has room for, in order and with wrap-around, removes exactly those from recvBuf, and stops at a full queue or a gap |
| GroukComplete.DeliverClosed | pkg/transport/grouk.go:577-596 | on a closed stream the same call moves a part of that run, as far as the select lets it send, and the next chunk, if it is there, is lost |
| GroukComplete.DrainReturnsAll | pkg/transport/grouk.go:495-596 | with nothing unacked, alternating deliverOrdered and Read with any positive buffer sizes returns every expected byte within as many rounds as there are missing bytes |
| GroukComplete.CompleteToOpener | pkg/transport/grouk.go:495-596 | acceptor to opener, once sendBuf is empty: the drained bytes are a prefix of everything written, and all of it if and only if no data follows a control number |
| GroukComplete.CompleteToAcceptorAligned | pkg/transport/grouk.go:476-489 | opener to acceptor with the first numbers lined up: the same equivalence |
| GroukComplete.CompleteToAcceptorAsWritten | pkg/transport/grouk.go:370-394 | opener to acceptor as the program is: everything is read if and only if nothing was written |
| GroukComplete.OpenerLosesChunk | pkg/transport/grouk.go:298-394 | a run in which the opener's chunk was acked and its buffer is empty, the acceptor is open, and no reading returns a byte |
| GroukTiming.ResentAtMostTen | pkg/transport/grouk.go:614-657 | in every run no chunk is sent again more than ten times, and while the stream is open that number is the entry's retry count |
| GroukTiming.ClosesNoSooner | pkg/transport/grouk.go:614-657 | a tick closes an open stream only when some unacked chunk was first sent more than 13 s ago |
| GroukTiming.ClosesNoLater | pkg/transport/grouk.go:614-657 | a chunk still unacked 13 s and eleven tick gaps after it was first sent means the stream is closed |
| GroukTiming.ScanEntry | pkg/transport/grouk.go:624-649 | one walk sends an overdue entry again once and restarts its timer, or only counts the eleventh retry, and leaves every other entry alone |
| GroukTiming.WaitsOfTen | pkg/transport/grouk.go:55-60 | the ten waits before the last repetition add up to 11 s and the eleventh wait is 2 s |
| GroukLoss.WalkHalves | pkg/transport/grouk.go:614-657 | whatever the order of a walk, when n entries have their first retry the congestion window c >= 4 becomes max(4, c / 2^n) and the threshold the same; with none both stay |
| GroukLoss.ResendsTheLate | pkg/transport/grouk.go:614-657 | a tick that leaves the stream open sends exactly the entries again that waited longer than 200 ms times one more than their retries, 2 s at most, each once, and those never repeated before are its first retries |
| GroukLoss.TickClosesExactly | pkg/transport/grouk.go:624-646 | a tick closes an open stream if and only if an entry that is late was repeated ten times already, and then one such entry is counted once more |
| GroukLife.ReadAnswers | pkg/transport/grouk.go:495-521 | in every run, at both ends: Read waits if and only if the stream is open and everything delivered in order was returned; an open stream is never told end of file; a closed one that returned everything always is |
| GroukLife.ClosedExactly | pkg/transport/grouk.go:614-674 | an end is closed if and only if some action of the run closed it: its own Close, the end of the session, a CLOSE packet that found it in the table, or a tick with a chunk late after ten repetitions |
| GroukLife.DataTaken | pkg/transport/grouk.go:565-575 | an open end keeps a DATA packet and delivers the longest run it can, and acks it; a closed one only acks |
| GroukLife.DeliveredInRuns | pkg/transport/grouk.go:565-657 | in every run, after every DATA packet and every tick an end that is open has a full queue or waits for a chunk that is not there |
| GroukLife.WindowMoves | pkg/transport/grouk.go:598-612 | only acks of buffered numbers, by one and below 128, and ticks change the congestion window; only ticks change the threshold |
| GroukLife.WindowWithoutLoss | pkg/transport/grouk.go:476-612 | until a tick finds a chunk late the congestion window is 16 and one more for every chunk acked, 128 at most, and the threshold is 64 |
| GroukObject.GroukStream.constructor | pkg/transport/grouk.go:476-489 | a new stream waits for number 1 with nothing in flight, a congestion window of 16 and a threshold of 64 |
| GroukObject.GroukStream.SendAvailable | pkg/transport/grouk.go:528-560 | the loop cuts p into full pieces of 1356 bytes, numbers them without a gap, and stops early only with the window full |
| GroukObject.GroukStream.Write | pkg/transport/grouk.go:523-563 | a closed stream refuses; otherwise the pieces sent are p up to `sent`, each buffered and in a packet under its number, and the result says whether that was all |
| GroukObject.GroukStream.Read | pkg/transport/grouk.go:495-521 | as much of a partly read chunk, else of the next chunk, as fits; waiting exactly when nothing is there and the stream is open; end of file exactly when it is closed, nothing is buffered, and nothing is queued or the select takes that case |
| GroukObject.GroukStream.HandleRecv | pkg/transport/grouk.go:565-575 | a closed stream ignores the chunk; otherwise it is stored and delivery is tried |
| GroukObject.GroukStream.DeliverOrdered | pkg/transport/grouk.go:577-596 | the loop leaves the state that the recursive delivery function gives, for every outcome of the select on a closed stream |
| GroukObject.GroukStream.HandleAck | pkg/transport/grouk.go:598-612 | an ack of a buffered number takes it out and opens the window; any other ack changes nothing |
| GroukObject.GroukStream.RetryOne | pkg/transport/grouk.go:624-649 | one entry of the walk: not overdue, sent again with its timer restarted and the windows set by GroukLoss.RetryWindows, or closing the stream at the eleventh retry |
| GroukObject.GroukStream.RetransmitTick | pkg/transport/grouk.go:614-657 | the walk resends what is overdue in the order of the walk, with the windows of GroukLoss.WalkHalves, stops when the stream closes, then delivers |
| GroukObject.GroukStream.Close | pkg/transport/grouk.go:659-667 | the first Close spends one number on the CLOSE packet; later ones nothing |
| Reader.TakeConserves | pkg/transport/grouk.go:495-521 | Read hands out bytes in order and loses none, for any buffer size |
| Reader.TakeAnswers | pkg/mux/mux.go:247-273 | Read waits if and only if nothing is buffered or queued and the stream is open; it says end of file if and only if the stream is closed, nothing is buffered, and nothing is queued or the select takes that case; otherwise it returns the beginning of the next piece |
| Reader.TakesAll | pkg/transport/grouk.go:495-521 | enough reads with any positive sizes return everything buffered and queued, in order, and leave nothing |
| Reader.ReadsArrived | pkg/transport/grouk.go:495-521 | when no chunk is empty, the answer follows from the bytes that arrived, the bytes returned before and the closed flag alone |
| Bytes.CutOne | pkg/mux/mux.go:275-295 | one more piece keeps the pieces well cut, and together they are what was cut so far |
| PacketCodec.UnmarshalEncode | pkg/protocol/packet.go:159-216 | Unmarshal of an encoding followed by any bytes gives back the packet, negative timestamps included |
| PacketCodec.EncodeUnmarshal | pkg/protocol/packet.go:180-216 | encoding an accepted buffer again gives exactly the bytes consumed, and what was accepted is valid |
| PacketCodec.UnmarshalExactly | pkg/protocol/packet.go:180-264 | a buffer decodes to p if and only if p is valid and its encoding begins the buffer |
| PacketCodec.Layout | pkg/protocol/packet.go:159-178 | where every field lies in an encoding, most significant byte first, the timestamp in two's complement |
| PacketCodec.AcceptedBytes | pkg/protocol/packet.go:180-264 | Unmarshal accepts a buffer if and only if it has 18 bytes, version 1, a type from 1 to 7, at most 1024 bytes of padding and as many bytes as its lengths say; for every other buffer, the error of the first check that fails |
| PacketCodec.EncodingsPrefixFree | pkg/protocol/packet.go:159-242 | a concatenation starting with an encoding starts with one packet only |
| PacketCodec.ReadFromExactly | pkg/protocol/packet.go:218-242 | ReadPacket returns p and leaves `rest` if and only if p is valid and the stream is its encoding followed by `rest` |
| PacketCodec.AcceptedStream | pkg/protocol/packet.go:218-264 | the same for ReadPacket, with the errors of a short stream and with what is left on the stream after each error |
| PacketCodec.TruncatedIsRefused | pkg/protocol/packet.go:180-242 | every proper prefix of an encoding is refused, with the error that belongs to its length |
| PacketCodec.ReadManyRoundTrip | pkg/protocol/packet.go:218-242 | n packets written one after the other are read back by n calls, and nothing more is consumed |
| PacketCodec.ConstructedIsValid | pkg/protocol/packet.go:70-157 | the data, padding, ping, pong and close constructors give valid packets with the number, time, type and payload asked for; a payload is refused if and only if it is longer than 65535 bytes, and padding is cut to 1..1024 bytes |
| PacketCodec.CopyInto | pkg/protocol/packet.go:159-178 | a field is copied to its place and the bytes around it stay |
| PacketCodec.Marshal | pkg/protocol/packet.go:159-178 | the filled buffer is the encoding of the packet if and only if its version is 1, its type 1 to 7, its length fields right and its padding at most 1024 bytes; otherwise the error of the first of these that fails |
| PacketCodec.ByteReader.ReadPacket | pkg/protocol/packet.go:218-242 | the two-step read from the stream, every error branch included, is the reading function that PacketCodec.AcceptedStream describes |
| SecureRuns.AtMostOnceInOrder | pkg/transport/conn.go:262-318 | whatever bytes the receiver is fed and however its turns and the sender's are mixed: when no number on the wire is zero or falls, accepted DATA packets are those sealed at growing places, and their payloads a subsequence of those given to Send |
| SecureRuns.NetRunInv | pkg/transport/conn.go:221-318 | in every run every seal has its own ciphertext, every DATA packet accepted is the one sealed at the place of its ciphertext, and accepted numbers that are not zero grow |
| SecureRuns.AcceptedWasSent | pkg/transport/conn.go:274-321 | of arbitrary bytes only the packet sealed under that ciphertext is accepted, and a DATA packet only with a number larger than the last one or with number zero |
| SecureLimits.UnframedIsRefused | pkg/transport/conn.go:274-292 | without four bytes, without as many as they say, or with a length above 1 MiB nothing is counted, and the error and what is left on the stream are told |
| SecureLimits.FrameIsCounted | pkg/transport/conn.go:274-300 | a whole frame is taken off the stream and counted with all its bytes, whatever becomes of it |
| SecureLimits.UnopenedIsRefused | pkg/transport/conn.go:208-305 | the limit error if and only if the frame goes past 2^30 packets or 64 GiB; the opening error if and only if it does not and the frame was never sealed under that length |
| SecureLimits.OpenedIsJudged | pkg/transport/conn.go:274-321 | what opens is accepted as p if and only if it begins with the encoding of a valid p that is no DATA packet, has number zero, or a number above the last; a replay and a plaintext that is no packet have their own errors; the last number moves exactly with accepted DATA packets |
| SecureLimits.ValidIsSealed | pkg/transport/conn.go:221-260 | a valid packet is counted in any case, and sealed, under the length of its encoding and 28, if and only if both limits still hold and sealing works |
| SecureLimits.SendSpends | pkg/transport/conn.go:262-272 | every Send spends the next number modulo 2^32, a payload of more than 65535 bytes changes nothing else, and a packet sent is DATA with that number and that payload |
| SecureLimits.SealedWithinLimits | pkg/transport/conn.go:193-206 | in every run a sender seals at most 2^30 packets and at most 64 GiB of them |
| SecureLimits.AcceptedWithinLimits | pkg/transport/conn.go:208-219 | whatever bytes arrive, a receiver accepts at most 2^30 packets, whose frames have at most 64 GiB together |
| SecureOrder.AtMostOnceExactly | pkg/transport/conn.go:262-318 | for every history of the sender: all interleavings with hostile input accept DATA packets in the order they were sealed and each at most once, told apart by place, if and only if none was sealed with number zero or with a smaller number than an earlier one |
| SecureOrder.RisingNext | pkg/transport/conn.go:262-272 | that condition survives one more packet exactly when its number is not zero and not below the last one sealed |
| SecureOrder.FewRefusalsAscend | pkg/transport/conn.go:193-272 | with fewer than 3 * 2^30 payloads refused for their size the limit of 2^30 messages keeps the numbers on the wire strictly growing |
| SecureOrder.TwoArrive | pkg/transport/conn.go:274-318 | a fresh receiver accepts two sealed DATA frames in the order they are fed when the second number is larger or zero |
| SecureWrap.AtMostOnceAfterRefusals | pkg/transport/conn.go:262-318 | a failing input by payloads: after k Sends refused for their size, a frame fed twice is accepted twice if and only if k + 1 is a multiple of 2^32 |
| SecureWrap.OrderLostAcrossZero | pkg/transport/conn.go:262-318 | a failing input without number zero: two packets sealed as 2^32 - 1 and 1 are accepted in the other order |
| SecureFifo.LosslessCalls | pkg/transport/conn.go:221-321 | any mix of Send and padding, ping, pong or close packets within the sender's limits is returned by as many RecvPacket calls as exactly the packets of those calls if and only if the receiver's count, 28 bytes more per packet, is within 64 GiB; then the stream is used up |
| SecureFifo.EveryCallIsSealed | pkg/transport/conn.go:193-272 | within both limits every call with a fitting payload or valid packet and a fresh ciphertext is sealed, under the number of its Send call, and counted |
| SecureFifo.ReceiverLimitFirst | pkg/transport/conn.go:193-219 | 1048304 Sends of 65535 bytes are all sealed, 68719472112 bytes by the sender's count, and do not all come out |
| SecureFifo.Lossless | pkg/transport/conn.go:221-321 | for every history of the sender: over an honest byte stream the first n results are exactly the first n packets sealed if and only if the receiver's count of those n is within 64 GiB and their numbers that are not zero grow |
| SecureFifo.PullOne | pkg/transport/conn.go:274-321 | one RecvPacket takes exactly one frame off the stream and returns its packet, or the limit error, or the replay error, each under its exact condition |
| SecureFifo.CountsDiffer | pkg/transport/conn.go:193-219 | the receiver counts 28 bytes more for a packet than its sender |
| SecureChannel.IdealCipher.SealWithAAD | pkg/crypto/aead.go:39-52 | sealing records the plaintext under ciphertext and associated data |
| SecureChannel.IdealCipher.OpenWithAAD | pkg/crypto/aead.go:58-72 | opening succeeds exactly on what was sealed under the same associated data |
| SecureConnObject.SecureConn.CheckSendKeyUsage | pkg/transport/conn.go:193-206 | counts the message first and then says whether both limits still hold |
| SecureConnObject.SecureConn.CheckRecvKeyUsage | pkg/transport/conn.go:208-219 | the same on the receiving side |
| SecureConnObject.SecureConn.SendPacket | pkg/transport/conn.go:221-260 | state, seal log, bytes written and result for every error branch |
| SecureConnObject.SecureConn.Send | pkg/transport/conn.go:262-272 | the number is spent, modulo 2^32, even when the payload is refused |
| SecureConnObject.SecureConn.RecvPacket | pkg/transport/conn.go:274-321 | what is taken off the stream, counted, opened, parsed and checked for replay, for every error branch |
| MuxRuns.PerStreamPrefix | pkg/mux/mux.go:57-135 | in every run of two endpoints, on every stream id: bytes returned, buffered and queued are a prefix of the bytes the peer wrote for that id, and all of them once every packet was taken and the stream is still in the table |
| MuxRuns.IdsDisjoint | pkg/mux/mux.go:167-185 | no id is opened twice, by one end or by both, while the client opened at most 10^9 streams |
| MuxRuns.NextKeeps | pkg/mux/mux.go:57-211 | every action at either end keeps the invariant that ties frames sent, the sealed channel, frames handled and stream objects together |
| MuxRuns.TakePacket | pkg/mux/mux.go:57-85 | the packet a read loop receives is the next one its peer sent, and it extends the handled frames by exactly its frame |
| MuxAccepts.AcceptedInOrder | pkg/mux/mux.go:97-211 | in every run AcceptStream returns the streams the peer opened, in the order it opened them and each once; with what is queued and being offered all of them, once every packet was taken and while the mux is open, and all but at most one of those heard of once it is closed |
| MuxAccepts.AcceptAnswers | pkg/mux/mux.go:187-197 | AcceptStream waits if and only if nothing is queued and the mux is open; it fails if and only if the mux is closed and nothing is queued or the select takes that case; otherwise it returns the oldest stream |
| MuxStreams.LeftIsClosed | pkg/mux/mux.go:87-211 | in every run a stream in the table is open, and every stream ever registered that left it, by a CLOSE heard, its own Close or Mux.Close, is closed; only the object of an OpenStream whose frame was not sent is apart |
| MuxStreams.ReadAnswers | pkg/mux/mux.go:247-273 | in every run, from the frames heard and the bytes returned before: Read on a stream not closed here waits if and only if everything heard was returned and no CLOSE came, says end of file only after a CLOSE, and then always once everything was returned; a stream in the table is never told end of file, one that left it never waits |
| MuxStreams.CloseDelivers | pkg/mux/mux.go:247-312 | when the writer's last frame for a stream is its CLOSE and every packet was taken, enough reads return exactly everything written, and every read after them says end of file |
| MuxStreams.BackPressure | pkg/mux/mux.go:97-120 | in every run the read loop waits with a frame if and only if 32 streams are queued and one more is being offered, or the frame is data for an open stream with 256 chunks queued |
| MuxStreams.RepliesToPings | pkg/mux/mux.go:130-134 | a ping is answered by a pong of the same id, nothing else is answered, and frames of no known command change nothing |
| MuxState.FrameRoundTrip | pkg/mux/mux.go:87-165 | the frame put together by sendFrame is the one that is parsed: a byte of command, four of id with the most significant first, the payload |
| MuxState.ShortIsNoFrame | pkg/mux/mux.go:87-94 | a packet is dropped if and only if it is shorter than five bytes |
| MuxObject.Stream.Read | pkg/mux/mux.go:247-273 | as much of a partly read chunk, else of the next chunk, as fits; waiting exactly when nothing is there and the stream is open; end of file exactly when it is closed, nothing is buffered, and nothing is queued or the select takes that case |
| MuxObject.Mux.SendFrame | pkg/mux/mux.go:153-165 | one frame becomes the payload of one Send |
| MuxObject.Mux.OpenStream | pkg/mux/mux.go:167-185 | a closed mux opens nothing; otherwise the next id is taken, the OPEN frame goes to the channel, and the new stream stays in the table exactly when it was sent |
| MuxObject.Mux.HandleFrame | pkg/mux/mux.go:87-135 | the new state for every command, as MuxStreams.LeftIsClosed and MuxStreams.BackPressure describe it, and the reply to a ping in the channel; a stream opened by the peer is in the table while it is still being offered, and a frame whose handler waits has changed nothing |
| MuxObject.Mux.AcceptStream | pkg/mux/mux.go:187-197 | the oldest stream, after which one being offered moves up; nothing yet; or the closed error |
| MuxObject.Mux.WriteStream | pkg/mux/mux.go:275-295 | one DATA frame per piece of at most 32768 bytes, in order, up to the first that cannot be sent; the count returned is the bytes of those before it |
| MuxObject.Mux.CloseStream | pkg/mux/mux.go:297-312 | the first Close sends CLOSE and takes the stream out of the table; later ones do nothing |
| MuxObject.Mux.Close | pkg/mux/mux.go:199-211 | every stream of the table is closed and taken out, streams no longer in it are untouched, and a second call does nothing |
| Fec.RecoverMissing | pkg/fec/fec.go:80-143 | a fresh decoder given the other packets in any order with repeats and the parity returns the missing index; the payload is the original if and only if it has at most 65535 bytes; the truncation branches are not reached |
| Fec.RecoverNeedsAllOthers | pkg/fec/fec.go:100-143 | with another packet of the group missing too, recovery is refused |
| Fec.HoldsTheLast | pkg/fec/fec.go:80-98 | whatever it is given, the decoder holds the last packet for every index and the last parity, and counts the indexes it has |
| Fec.RecoverExactly | pkg/fec/fec.go:100-143 | whatever it is given, recovery answers with index m if and only if a parity came and m is the only index of the group that never did; otherwise -1 and nothing |
| Fec.EncodeGroups | pkg/fec/fec.go:23-57 | Add returns one parity per complete group, of that group's payloads alone |
| Fec.EncodedGroup | pkg/fec/fec.go:23-52 | the packets of one group make the encoder return exactly the parity that recovery needs |
| Fec.ColumnSplit | pkg/fec/fec.go:42-143 | a parity column is the column of the other packets and the missing packet's byte, for packets of unequal length |
| Fec.UnpadPadded | pkg/fec/fec.go:127-143 | the length prefix gives the payload back, cut to its length modulo 65536, whatever zeros follow |
| Fec.UnpadTakes | pkg/fec/fec.go:127-143 | of any recovered bytes, what stands behind the two of the length, as far as the length and the bytes go |
| Fec.XorAssoc | pkg/fec/fec.go:42-52 | exclusive or is associative, bit by bit |
| FecObject.FECGroup.GenerateFEC | pkg/fec/fec.go:42-52 | the nested loops leave the exclusive or of every column, as long as the longest packet |
| FecObject.FECGroup.Add | pkg/fec/fec.go:23-40 | the packet joins the group; the last one yields the parity and starts a new group |
| FecObject.XorInto | pkg/fec/fec.go:42-52 | the first n bytes are combined and the others stay |
| FecObject.FECDecoder.AddPacket | pkg/fec/fec.go:80-93 | a packet fills its slot and is counted once; an index outside the group changes nothing |
| FecObject.FECDecoder.FindMissing | pkg/fec/fec.go:107-125 | the first empty slot, or -1 |
| FecObject.FECDecoder.TakeOut | pkg/fec/fec.go:107-143 | the loops leave the parity without every received packet |
| FecObject.FECDecoder.Recover | pkg/fec/fec.go:107-143 | index and payload, or (-1, nothing), for every branch |
| FecObject.FECDecoder.Reset | pkg/fec/fec.go:145-151 | the decoder is as new |
| RateLimiter.DecisionIsFullHistory | pkg/transport/grouk.go:97-153 | in every run with a clock that does not go back, an answer is the one a limiter that never forgets gives from that address's requests alone |
| RateLimiter.CleanupIsInvisible | pkg/transport/grouk.go:135-153 | leaving out every cleanup call changes no answer |
| RateLimiter.AtMostMaxRate | pkg/transport/grouk.go:83-119 | no half-open interval as long as the window, one minute when none is given, holds more requests allowed for one address than maxRate, ten when none is given |
| RateLimiter.CleanupForgets | pkg/transport/grouk.go:135-153 | after a cleanup an address is remembered if and only if a request of it was allowed within the last window, and then with exactly those times |
| RateLimiterObject.IPRateLimiter.constructor | pkg/transport/grouk.go:83-95 | limits that are not positive become 10 and one minute |
| RateLimiterObject.IPRateLimiter.Allow | pkg/transport/grouk.go:97-119 | the address's slice is filtered in its own array, extended when the request is allowed, and no other slice changes |
| RateLimiterObject.IPRateLimiter.Cleanup | pkg/transport/grouk.go:135-153 | every slice is filtered in its own array and addresses with nothing left are forgotten |
| TimeWindow.AfterAfter | pkg/transport/grouk.go:97-153 | pruning twice is pruning once at the later cutoff |
| TimeWindow.AfterKeeps | pkg/transport/grouk.go:97-153 | pruning keeps every time later than the cutoff as often as it occurs, and no other |
| TimeWindow.Prune | pkg/transport/grouk.go:101-110 | filtering in place leaves exactly the entries later than the cutoff, in order |
| Probe.CheckIsFullHistory | pkg/antidetect/probe.go:31-89 | Check is true exactly when this host's full history has more than maxRate attempts in the last window, whatever other hosts did and whenever cleanup ran, for any window |
| Probe.CleanupForgets | pkg/antidetect/probe.go:62-89 | after a cleanup a host is remembered if and only if its full history has an attempt within the last two windows |
| ProbeObject.ProbeDetector.Check | pkg/antidetect/probe.go:31-60 | the host's list is rebuilt from its later entries and this attempt |
| ProbeObject.ProbeDetector.Cleanup | pkg/antidetect/probe.go:62-89 | every host keeps exactly its entries of the last two windows, or is forgotten |
| Adaptive.TotalIsWindowSum | pkg/cover/adaptive.go:126-179 | the total is the full-history sum over the last minute less the truncated samples still in it; for sizes that are not negative never larger; for positive sizes equal if and only if nothing was truncated or the newest truncated sample is out of the window |
| Adaptive.SamplesBounded | pkg/cover/adaptive.go:126-141 | the window never holds more than 10000 samples |
| Adaptive.ProposedIsHighest | pkg/cover/adaptive.go:174-179 | the proposed level is the highest whose threshold the total meets |
| Adaptive.Hysteresis | pkg/cover/adaptive.go:157-211 | every change of level follows an unbroken run of recalculations proposing it that began at least 30 s earlier, and two changes are at least 30 s apart |
| Adaptive.ChangesExactlyWhenSustained | pkg/cover/adaptive.go:181-211 | a recalculation takes another level if and only if that level was proposed without a break since a recalculation at least 30 s ago |
| Adaptive.ZeroBranchUnreachable | pkg/cover/adaptive.go:181-211 | the branch for a pending level without a start time is never taken |
| Adaptive.ConfigOfLevel | pkg/cover/adaptive.go:67-124 | every level finds its own configuration: the rate, the number of domains, the threshold, the interval and the padding of the table, with the padding cut to the mode's cap |
| AdaptiveObject.AdaptiveCover.RecordTraffic | pkg/cover/adaptive.go:126-141 | the sample is appended, and beyond 10000 only the newest 5000 are kept |
| AdaptiveObject.AdaptiveCover.Compact | pkg/cover/adaptive.go:157-172 | the in-place loop leaves exactly the samples newer than the cutoff, in order, and adds up their bytes |
| AdaptiveObject.AdaptiveCover.Recalculate | pkg/cover/adaptive.go:157-211 | the window, the level and the pending level after one recalculation, for every branch |
| AdaptiveObject.AdaptiveCover.GetCurrentConfig | pkg/cover/adaptive.go:223-231 | the configuration of the current level |
| Listener.PendingCountIsExact | pkg/transport/grouk.go:957-1024 | in every run pendingCount is the number of pending sessions |
| Listener.AddCounts | pkg/transport/grouk.go:986-1000 | a handshake keeps that count right if and only if its id is not pending already |
| Listener.OneOutcome | pkg/transport/grouk.go:957-1024 | every session is still pending or has exactly one outcome: authenticated, rejected or timed out |
| Listener.OfferedWereVerified | pkg/transport/grouk.go:957-984 | every session in the table or offered to Accept was sent, after its own handshake, an AUTH packet with the MAC of the secret of that handshake; none is offered twice, until Close all are offered in the order of authentication, and after it all but at most the one that was being offered |
| Listener.OutcomesAreCaused | pkg/transport/grouk.go:837-849 | every outcome has its cause among the events: the right MAC for that session's secret, answered with the server's MAC; a payload that is not that MAC; or a cleanup more than 30 s after the handshake |
| Listener.AuthDecides | pkg/transport/grouk.go:957-984 | an AUTH packet for a pending session authenticates it if and only if its payload is the MAC of the secret of that session's handshake, and rejects it otherwise |
| Listener.AgreedIsFirst | pkg/transport/grouk.go:986-1000 | the secret and time held against a session are those of its first handshake |
| Listener.OnePlace | pkg/transport/grouk.go:957-1050 | in every run every session is pending, or in the table, or closed by the listener, and only one of these |
| Listener.ExpireExactly | pkg/transport/grouk.go:1002-1024 | cleanup leaves exactly the pending entries of at most 30 s, in whatever order the map is walked |
| Listener.PendingTimeOut | pkg/transport/grouk.go:1002-1024 | in every run a cleanup over all pending sessions gives up and closes exactly those whose handshake was more than 30 s ago |
| Listener.InactiveAreClosed | pkg/transport/grouk.go:1026-1050 | in every run a cleanup closes exactly the sessions whose last packet that reached them, else whose handshake, was more than five minutes ago, and leaves the others and all the rest of the listener as they were |
| Listener.AcceptAnswers | pkg/transport/grouk.go:1052-1062 | Accept waits if and only if nothing is queued and the listener is open; it fails if and only if the listener is closed and nothing is queued or the select takes that case; otherwise it returns the oldest session |
| Listener.NothingAfterClose | pkg/transport/grouk.go:957-1067 | a closed listener stays closed and authenticates nothing any more |
| ListenerObject.GroukListener.HandleAuth | pkg/transport/grouk.go:957-984 | an AUTH packet removes the pending entry either way; a wrong MAC closes the session, the right one is answered with the server's MAC and the session is offered |
| ListenerObject.GroukListener.CleanupPending | pkg/transport/grouk.go:1002-1024 | the walk times out and closes the entries that are too old and counts each once |
| ListenerObject.GroukListener.CleanupSessions | pkg/transport/grouk.go:1026-1050 | exactly the sessions that Listener.InactiveAreClosed speaks of are forgotten and closed |
| ListenerObject.GroukListener.Accept | pkg/transport/grouk.go:1052-1062 | the oldest offered session, after which a held offer moves up; nothing yet; or the closed error, for every outcome of the select |

## Left out

- GroukNet.ExactlyOnceInOrder: handlers are atomic steps. deliverOrdered runs from the packet path and from the tick and takes a chunk out of recvBuf before it advances recvNext; a duplicate stored in that gap is outside the model, and exactly-once does not hold there.
- GroukNet.ExactlyOnceInOrder: OPEN is delivered at most once (a second one replaces the stream), a stream has one writer and one reader, and fewer than 2^32 numbers are spent on it.
- GroukObject.GroukStream.Write: the wait for the window (wake-up channel and polling) is left out; a caller goes on with what was not sent. In runs a write is one chunk and may also happen after Close, which allows more than the code does. UDP send errors are losses in the network.
- GroukObject.GroukStream.Close: the closed flag and the done channel are one field. Taking the stream out of the session's table is part of `GroukNet.DoClose`, not of the object.
- GroukNet.NoLoss: no bound on recvBuf is claimed; stale duplicates stay in it, and acks do not wait for the reader.
- GroukTiming.ClosesNoLater: ticks are given by their times; that the ticker fires is not modelled. Overflow of durations is not modelled.
- SecureRuns.AtMostOnceInOrder: the AEAD is ideal, and a ciphertext that was produced before counts as a failure of the random source. The key exchange, the authentication messages and Recv, which is RecvPacket without the packet, are left out, so numbers start with the first payload.
- SecureConnObject.SecureConn.SendPacket: errors of raw.Write after the seal are not modelled, and the 64-bit usage counters are unbounded.
- MuxRuns.PerStreamPrefix: a DATA handler that waits for room in a queue is a step not taken yet, so its packet counts as still on the stream, and two frames of one end are never handled at once. A stream may still write after its mux was closed, which allows more than the code does.
- MuxObject.Mux.Close: closing the secure connection below is left out.
- ProbeObject.ProbeDetector.Check: splitting the port off an address is left out; hosts are plain strings.
- RateLimiterObject.IPRateLimiter.Allow: the growth of a slice is some larger array, not Go's growth policy.
- Adaptive.TotalIsWindowSum: byte totals are unbounded integers; the 64-bit sum is not modelled.
- Listener.OfferedWereVerified: the MAC is a function of the shared secret, and session ids are fresh. The check against the maximum of pending handshakes runs before a handshake is counted, so it bounds nothing and is left out.
- The sealing of Grouk packets, the dispatch of a session's packets to several streams, session keep-alive and the Grouk handshake.
- NewPaddedDataPacket, coarse timestamps and packet strings: easy members.
- AttemptCount, NeedsRotation, KeyUsageStats and the getters of single configuration fields: they only read state.
- pkg/interleave: Send overtakes queued data when its channel is full and takes numbers outside the send lock, so there is no order to prove.
- QUIC, connection pool, SOCKS5, padding and traffic shaping, decoy pages, configuration, commands and mobile bindings: I/O, library calls and plumbing.

# A model of the tunnel client

The repository is the client side of a tunnelling proxy: packets are encrypted, cut into shards with
Reed-Solomon parity, sent over a lossy transport, collected and decrypted, while streams are multiplexed,
buffered and rate limited around them. This project models that path and the concurrent structures beside it
in Dafny, and proves what they promise over every input, every run and every interleaving.
`dafny verify dfyconfig.toml` checks all of it.

How the parts fit together:

- `Fields.dfy`, `GF256.dfy`, `ErasureCode.dfy`, `ReedSolomon.dfy`: what the Reed-Solomon library has to do,
  written as a contract on a record of functions (any k of k+p shards of a word determine the word, and
  Reconstruct finds it), and a Reed-Solomon code that meets it for every legal k and p: interpolation over an
  arbitrary field, and the field of 256 elements built on eight booleans. Every other module holds for any library
  that meets the contract.
- `Fec.dfy`: splitting, padding, encoding, decoding, concatenating and truncating, in place over arrays.
- `Shards.dfy`, `CollectorSafety.dfy`, `Delivery.dfy`, `Isolation.dfy`: the collector as an object over a map of mutable groups, proved
  equal to a function of its state; what that function keeps for arbitrary bytes; and its refinement of an ideal
  receiver, which knows the packets and remembers which indices it has seen; and that one group does not depend on what arrives
  for others.
- `Adaptive.dfy`, `Encoding.dfy`: the loss estimator, the parity controller, and the encoder that frames shards.
- `Packets.dfy`, `Envelope.dfy`, `KeyCache.dfy`: wire formats, time windows, the encrypted envelope, and its key cache under
  any interleaving of the calls that share it.
- `Tunnel.dfy`, `Traffic.dfy`, `Session.dfy`, `Senders.dfy`: the whole path from a packet to the packet dispatched at the other
  end, for any run of the network; the same amid arbitrary bytes and packets sent without shards; a session at the sender, call
  by call; and any number of goroutines sending at once.
- `Mux.dfy`, `MuxClose.dfy`, `SequenceMax.dfy`, `Tallies.dfy`: lock-free code as step machines. A thread is a program counter,
  a run is any schedule of atomic steps, and the theorems are about every schedule.
- `Buffers.dfy`, `Streams.dfy`, `Datagrams.dfy`: the blocking buffers as monitors with sleeping and woken threads, the stream
  states in front of them, and datagrams framed in the byte stream that goes through them.
- `RateLimit.dfy`, `Ping.dfy`: the token bucket over every sequence of calls, and the ping time stamp bit by bit.

Where a promise of the source does not hold on all inputs, the exact condition is proved:

- `fec.New` accepts 256 shards and any packet length, but the header stores the count in one byte and the length in two.
  A packet comes back whole exactly when k+p is at most 255 and the length at most 65535 (`Delivery.FaithfulExactly`);
  with 256 shards every shard is refused (`Delivery.FullHouseRefused`).
- `MaxStreams` is checked and counted in separate atomic steps. n goroutines can hold n-1 streams too many, for every positive
  limit and every n (`Mux.BoundReached`), and never more (`Mux.StreamsBounded`).
- `Mux.Close` leaves the stream counter equal to the number of streams, in every run that then falls quiet, if and only if at the
  call there is one goroutine, or no stream is open and no other goroutine has a call in flight, or MaxStreams is not positive
  (`MuxClose.CloseExactly`, as long as stream ids have not wrapped round). The counter can end at -1 (`Mux.CounterBelowZero`).
- A cleanup of the key cache leaves no key more than two windows old, whatever interleaves with it, if and only if no call in
  flight at its start is still after such a key (`KeyCache.CleansUpExactly`), the clock not stepping back behind its start
  (`KeyCache.SteppedBack`). Then at most four keys are left until a later window begins (`KeyCache.KeysAfterCleanup`); with a stale
  call in flight there can be five (`KeyCache.FiveKeys`). Results never depend on any of this (`KeyCache.RunTransparent`).
- The bytes counted as uploaded obey the rate bound from the start of a run on (`RateLimit.UploadedInAll`). They are counted after
  a send that may block, so a window of counting time can exceed it: twice the capacity can be counted at one instant
  (`RateLimit.BurstAtOnce`). From a moment on, every run keeps the bound over every window from there if and only if the bytes
  granted and still uncounted at that moment, with the tokens in the bucket, are at most its capacity (`RateLimit.BoundKeptExactly`,
  and for whole numbers of bytes `RateLimit.BoundKeptWhole`).
- With the collector on, a packet sent without shards is dispatched when the collector refuses its bytes (`Traffic.WholeDispatched`).
  The collector may take it for a shard instead: under a user id it has no group for, it refuses it if and only if the two bytes
  of its stamp and the first byte of its nonce make no index, total and parity of a shard. A packet kept as a shard that is not
  the only data shard of its group is lost (`Traffic.WholeRefused`).
- `adjust` can look up a parity that has no cached encoder, and then ignores the change; with positive steps it never
  does (`Adaptive.LookupHits` gives the exact condition).
- `ConnectPayload.Serialize` does not check its address. What it writes is read back exactly when the address has the length
  that goes with its type (`Packets.ConnectRoundTrip`).
- `TakeWait` for more tokens than the bucket holds never returns (`RateLimit.TooMuchNever`). For at most that many, with a positive
  rate, a clock that does not step back and no other taker, it returns within a stated number of sleeps
  (`RateLimit.TokenBucket.TakeWait`). Several takers can starve one another, and nothing is claimed for them.

Time, random nonces, the size of each chunk a stream returns, the number of messages a transport accepts and the choice of
the next thread are inputs of the model. Integers have the width of the source where it matters (`byte`, `uint16`, `uint32`,
explicit remainders at every conversion); counters declared as uint64 are unbounded.

## Model

| member | source | states |
|---|---|---|
| ReedSolomon.RSMeetsContract | internal/fec/fec.go:20-38 | there is a library as the code assumes it, for all k, p of at least 1 with k+p up to 256: it accepts them, makes p parity shards of equal size, never alters a present shard, and recovers a word from any k of its shards |
| ReedSolomon.RebuildFinds | internal/fec/fec.go:109-111 | Reconstruct returns the very word the shards come from whenever at least k of them are present, whichever they are |
| ReedSolomon.WordSymbol | internal/fec/fec.go:80-82 | every byte of an encoded word, data or parity, is a value of the polynomial through its data bytes |
| ReedSolomon.SameSymbol | internal/fec/fec.go:109-111 | any k shards of a word define the same polynomials as its data shards |
| Polynomials.InterpolateAnyPoints | internal/fec/fec.go:109-111 | over any field, any k points of an interpolation polynomial interpolate to the same polynomial |
| Polynomials.InterpolateValues | internal/fec/fec.go:109-111 | k values of a polynomial with k coefficients determine it everywhere |
| GF256.GFIsField | internal/fec/fec.go:28-31 | byte arithmetic modulo x^8+x^4+x^3+x^2+1 is a field, with inverses |
| ErasureCode.EncodedIsWord | internal/fec/fec.go:80-84 | data shards followed by their parity shards pass Verify |
| Fec.ConcatSplit | internal/fec/fec.go:64-78 | the pieces of a split, joined again, are the data followed by zeros only |
| Fec.SizeCovers | internal/fec/fec.go:64-64 | k shards of the rounded-up size hold the whole packet |
| Fec.SizeLeast | internal/fec/fec.go:64-64 | a size holds the packet in k shards if and only if it is at least the computed one |
| Fec.CopyData | internal/fec/fec.go:71-78 | the copying loop, which stops early, leaves every data shard as the split says and the parity shards zero |
| Fec.FillParity | internal/fec/fec.go:80-82 | the library's Encode leaves the data shards of the slice alone and makes the rest their parity, or refuses shards of this size and changes nothing |
| Fec.EncodeShards | internal/fec/fec.go:64-84 | the filled slice is the word of the packet: its split followed by the library's parity; up to 256 shards the library never refuses |
| Fec.FEC.New | internal/fec/fec.go:20-38 | succeeds exactly for positive k and p with k+p at most 256 |
| Fec.FEC.Encode | internal/fec/fec.go:56-85 | empty data is refused, anything else gives the word of the packet in a fresh slice |
| Fec.DecodeErased | internal/fec/fec.go:88-134 | after any loss of shards Decode gives back the packet, cut to dataLen or followed by zeros when dataLen is larger, byte by byte, if k are left, and refuses if fewer are |
| Fec.DecodeSound | internal/fec/fec.go:109-133 | on arbitrary shards, a successful Decode returns the content of a word that agrees with every shard present |
| Fec.DecodeKeeps | internal/fec/fec.go:109-118 | on arbitrary shards Decode takes no shard away and changes no present one; it fills every slot if it gets as far as verifying and none otherwise; which error is reported when |
| Fec.FEC.Decode | internal/fec/fec.go:88-134 | result and in-place filling of the slice are those of the decoding function, all five error paths included |
| Fec.Reconstruct | internal/fec/fec.go:109-111 | the library's Reconstruct fills the slice with the recovered word, or reports an error and leaves it alone |
| Fec.Count | internal/fec/fec.go:97-102 | the loop counts the slots whose shard is neither nil nor empty |
| Fec.JoinShards | internal/fec/fec.go:121-133 | stopping the concatenation early and truncating gives the same as truncating the whole concatenation |
| Fec.FEC.CanRecover | internal/fec/fec.go:137-145 | true exactly when at least k shards are neither nil nor empty |
| Shards.HeaderRoundTrip | internal/fec/shards.go:29-56 | every header parses to itself, whatever follows it |
| Shards.HeaderInverse | internal/fec/shards.go:29-56 | parsing is total on fourteen bytes, and serializing gives the bytes back |
| Shards.HeaderLayout | internal/fec/shards.go:18-56 | which of the fourteen bytes hold which field, numbers with their most significant byte first |
| Shards.ShardGroup.Receive | internal/fec/shards.go:133-154 | storing a shard and decoding in place change a group as the group function says |
| Shards.ShardCollector.AddShard | internal/fec/shards.go:96-155 | state and result are those of the step function, for arbitrary bytes; no two groups ever share storage |
| Shards.RefusedExactly | internal/fec/shards.go:96-155 | which bytes are refused and with which error: too short, an index beyond the slots, or enough shards for counts no code has |
| Shards.GroupBegins | internal/fec/shards.go:103-136 | the first shard under an id makes a group with the total, parity, length and time stamp of its header |
| Shards.ShardCollector.DropExpired | internal/fec/shards.go:162-175 | the loop over the groups, in any order, drops and counts what the timeout says |
| Shards.ShardCollector.Cleanup | internal/fec/shards.go:158-176 | removes exactly the groups older than the timeout, returns their number, and counts as failed exactly the incomplete ones |
| Shards.ShardCollector.Stats | internal/fec/shards.go:187-204 | pending is the number of groups not complete |
| CollectorSafety.RunKeepsGood | internal/fec/shards.go:96-176 | for arbitrary bytes in any interleaving with Cleanup: groups created = completed + failed + pending, and no group counts more shards than it holds |
| CollectorSafety.AtMostOncePerLifetime | internal/fec/shards.go:125-151 | for arbitrary bytes, an id is delivered at most once more often than Cleanup has removed it |
| CollectorSafety.StepExtends | internal/fec/shards.go:96-176 | an event leaves a group with a later state of itself, and only a Cleanup that finds it older than the timeout removes it |
| CollectorSafety.RunExtends | internal/fec/shards.go:96-155 | for arbitrary bytes, as long as a group lives: the first shard at an index is never replaced, counts and length stay those of the first header, and a complete group never changes |
| Isolation.RunIsolates | internal/fec/shards.go:96-176 | for arbitrary bytes, what the collector keeps and returns for an id is what it keeps and returns when only the bytes naming that id, and the Cleanups, arrive |
| Isolation.RecoveredAmidNoise | internal/fec/shards.go:96-155 | in every lifetime of every id, whatever bytes arrive under other ids or under none, the packet is returned exactly once if at least k of its shards arrive, and never otherwise |
| Isolation.AnswerSound | internal/fec/shards.go:125-151 | for arbitrary bytes, whatever is returned is the content of a word that agrees with every shard the group has received |
| Delivery.RunRefines | internal/fec/shards.go:96-176 | over every run of deliveries of any packets' shards and Cleanups, from any state that agrees with the ideal receiver's, the collector returns at every event what the ideal receiver returns, and they agree again at the end; only the ids of live groups have to be distinct |
| Delivery.IdealReturns | internal/fec/shards.go:141-154 | from any state, what is returned for an id is the packet of its group once if the run brings the distinct indices seen up to k, and nothing otherwise |
| Delivery.RecoveredExactlyOnce | internal/fec/shards.go:96-155 | in every lifetime of every id, whatever packets the id has stood for before: despite loss, duplication, reordering and interleaving, the packet is returned exactly once if at least k of its shards arrive, and never otherwise |
| Delivery.NeverInvented | internal/fec/shards.go:96-155 | nothing is ever returned for an id none of whose shards arrive |
| Delivery.FullHouseRefused | internal/fec/encoder.go:69-76 | with 256 shards the collector never returns the packet, since the count wraps to zero in the header |
| Delivery.FaithfulExactly | internal/fec/encoder.go:69-76 | in every lifetime of every id, a packet whose shards arrive comes back unchanged if and only if k+p fits one byte and its length two |
| Delivery.FrameLayout | internal/fec/encoder.go:65-80 | which bytes of a frame hold id, index, total, parity, length, time stamp and shard, with the remainders that fit them |
| Adaptive.EstimateWithin | internal/fec/adaptive.go:65-102 | over any samples and resets the loss estimate is zero or within the range of the cumulative ratios sampled |
| Adaptive.SampledWithin | internal/fec/adaptive.go:72-102 | right after a sample the estimate itself lies within that range, the special case at zero included |
| Adaptive.Converges | internal/fec/adaptive.go:91-102 | while all ratios sampled are r, n updates bring a positive estimate x to r + (x - r) (7/8)^n |
| Adaptive.FallsShort | internal/fec/adaptive.go:91-102 | while all ratios sampled are at least r, n updates bring the estimate to at least r - g (7/8)^n from r - g |
| Adaptive.LossRaisesParity | internal/fec/adaptive.go:72-251 | from any estimate and parity, loss ratios of at least r above the threshold h bring the parity to its maximum, after n updates with (7 + n)(r - h) > 7 r and as many ticks as there are steps from minimum to maximum, in any interleaving |
| Adaptive.LossEstimator.RecordLost | internal/fec/adaptive.go:72-102 | the losses are added; the estimate becomes the new ratio if it was zero and moves an eighth of the way to it otherwise, and stays if nothing has been sent |
| Adaptive.LossEstimator.RecordSent | internal/fec/adaptive.go:65-69 | the count is added to what was sent, and nothing else changes |
| Adaptive.LossEstimator.Reset | internal/fec/adaptive.go:119-127 | rate and both counts are zero |
| Adaptive.Config.Normalize | internal/fec/adaptive.go:155-166 | the minimum becomes at least 1, the maximum at least the minimum, and the initial parity the nearest to its old value in between; a proper configuration is left alone |
| Adaptive.NewAdaptiveFEC | internal/fec/adaptive.go:154-192 | succeeds exactly when the library accepts every parity in the range, and then the cache holds exactly those encoders |
| Adaptive.AdjustAllSound | internal/fec/adaptive.go:213-251 | over any loss rates, thresholds and steps: parity within bounds, history the linked chain of the last min(count, 100) changes, ending at the current parity |
| Adaptive.HistoryIs | internal/fec/adaptive.go:231-250 | the history is the last hundred of all changes, each with the loss rate that brought it about, and the counter counts all of them |
| Adaptive.LookupHits | internal/fec/adaptive.go:217-236 | the cache lookup never misses, for any loss rate from zero up, if and only if no step such a rate can trigger leads out of the range |
| Adaptive.RisesTo | internal/fec/adaptive.go:222-224 | n adjustments under high loss give min(p + n StepUp, max) |
| Adaptive.FallsTo | internal/fec/adaptive.go:225-228 | n adjustments under low loss give max(p - n StepDown, min) |
| Adaptive.Holds | internal/fec/adaptive.go:222-230 | loss between the thresholds moves nothing and records nothing |
| Adaptive.AdaptiveFEC.AdjustParity | internal/fec/adaptive.go:213-251 | the object follows the controller function, and the active encoder is always the cached one for the current parity |
| Adaptive.AdaptiveFEC.Encode | internal/fec/adaptive.go:254-289 | for the same k and p the shards are those of the static encoder, and are counted as sent; only above 256 shards can the library refuse, and then nothing is counted |
| Adaptive.AdaptiveFEC.Decode | internal/fec/adaptive.go:292-353 | decodes as the static decoder does with the parity of the sender, in the cache or not; exactly the missing shards are recorded as lost |
| Encoding.FECEncoder.Encode | internal/fec/encoder.go:43-81 | the frames of the packet under the next group id with the parity in force, adaptive if it is switched on and static otherwise; the id is used up even on an error |
| Encoding.FrameShards | internal/fec/encoder.go:65-80 | the framing loop gives shard i the header that says so, with the conversions to one and two bytes |
| Encoding.GroupAfterIs | internal/fec/encoder.go:44-46 | the id after n packets is start + n as a uint32 |
| Encoding.GroupsRepeat | internal/fec/encoder.go:44-46 | two packets get the same group id if and only if a multiple of 2^32 packets lies between them |
| Packets.HeaderRoundTrip | internal/protocol/packet.go:78-97 | every clear header parses to itself, whatever follows it |
| Packets.Layout | internal/protocol/packet.go:78-130 | which bytes hold which field of the clear header and of a packet, numbers with their most significant byte first |
| Packets.PacketRoundTrip | internal/protocol/packet.go:100-130 | every packet parses to itself, apart from the header, which is not in the plaintext |
| Packets.PacketInverse | internal/protocol/packet.go:100-130 | every eighteen bytes or more are some packet, and serializing it gives them back |
| Packets.ParseConnectPayload | internal/protocol/packet.go:161-213 | the walk over the bytes, on arbitrary input, finds the request that the position-based reading defines, with the same error for every malformed one |
| Packets.ConnectRoundTrip | internal/protocol/packet.go:161-245 | a request is read back as written, whatever follows it, if and only if its address has the length that goes with its type |
| Packets.ConnectSound | internal/protocol/packet.go:161-245 | whatever is read is well-formed, and writing it gives the bytes read |
| Packets.ConnectLayout | internal/protocol/packet.go:216-245 | which bytes of a request hold which field, for the address types 1, 3 and 4 |
| Envelope.ToyIsIdeal | internal/crypto/cipher.go:66-89 | the assumptions on cipher and key derivation have an instance |
| Envelope.NearBounds | internal/crypto/timeslot.go:9-21 | clocks at most W apart always lie in the same or neighbouring windows, clocks 2W apart never do |
| Envelope.NearTight | internal/crypto/timeslot.go:9-21 | for every skew strictly between W and 2W both happen |
| Envelope.ValidateTimestamp | internal/crypto/timeslot.go:34-49 | accepts a 16-bit stamp if and only if some clock at most 2W away would have made it, across the wrap |
| Envelope.OpensExactly | internal/protocol/builder.go:171-233 | a packet sealed at one time and opened at another comes back with every field if the windows are at most one apart, and fails to decrypt otherwise; its header shows the later reading of the clock |
| Envelope.OpensPeer | internal/protocol/builder.go:197-233 | bytes a peer has sealed with the key it derives for a window, whatever text they hold, come out field by field if the window is at most one away from the clock and the text is a packet, and with the error that goes with the reason otherwise |
| Envelope.PeerOpens | internal/protocol/builder.go:171-194 | after the six-byte header and the nonce, a packet opens with the key derived for the clock divided by W to its serialization |
| Envelope.PacketBuilder.GetAEAD | internal/protocol/builder.go:155-168 | cached or not, the key returned is the one the key derivation gives for this very window |
| Envelope.PacketBuilder.EncryptPacket | internal/protocol/builder.go:171-194 | the result depends on secret, clock readings and nonce only, never on the cache, even when the clock has stepped back; a peer opens it with the key it derives for the window |
| Envelope.PacketBuilder.Build | internal/protocol/builder.go:42-152 | a built packet takes the next sequence number as a uint32 and is sealed with every field |
| Envelope.PacketBuilder.BuildStreamDataPacket | internal/protocol/builder.go:97-109 | at every time in a neighbouring window the bytes open to a stream-data packet with the ids, data and sequence number given |
| Envelope.PacketBuilder.DecryptPacket | internal/protocol/builder.go:197-233 | the trial loop over three windows gives what opening under the first key that fits gives, whatever the cache holds and the clock has shown before: what a peer has sealed in a window at most one away, and nothing else it has sealed |
| Envelope.PacketBuilder.CleanupAEADCache | internal/protocol/builder.go:236-246 | run alone, removes exactly the keys more than two windows old |
| KeyCache.RunTransparent | internal/protocol/builder.go:155-246 | in every interleaving of loads, stores, trials and cleanups by any number of goroutines, with any clock, every cached key is the derived one and every answer right |
| KeyCache.AnswersRight | internal/protocol/builder.go:171-233 | whatever the others do meanwhile, a call returns what secret and its own clock readings determine |
| KeyCache.RunBounded | internal/protocol/builder.go:155-168 | in every interleaving, with any clock, no key is more than one window after the latest reading |
| KeyCache.CleansUpExactly | internal/protocol/builder.go:236-246 | once a cleanup has ended no key is more than two windows older than it, in every run in which the clock shows no less than at its start, if and only if no call in flight at its start is after such a key |
| KeyCache.KeysAfterCleanup | internal/protocol/builder.go:236-246 | then the keys lie between two windows before the cleanup and one after the latest reading: at most four until a later window begins |
| KeyCache.StaleRun | internal/protocol/builder.go:155-168 | with a stale call in flight there is a run in which its key is left behind after the cleanup |
| KeyCache.SteppedBack | internal/protocol/builder.go:171-176 | so there is when the clock steps back after the cleanup |
| KeyCache.FiveKeys | internal/protocol/builder.go:155-246 | a schedule of two goroutines after which five keys are left |
| Tunnel.WholePath | internal/tunnel/tunnel.go:506-593 | over every run of the network, from any state that agrees with the ideal receiver's, the receiver dispatches exactly the expected packets: each on its k-th distinct shard if the clocks agree by then, with every field as sent, whatever parity each was coded with and whatever its id stood for before |
| Tunnel.PacketArrivesExactlyOnce | internal/tunnel/tunnel.go:506-593 | in every lifetime of an id, with clocks that agree, its packet is dispatched exactly once if at least k of its shards arrive, and never otherwise |
| Tunnel.HandleWhole | internal/tunnel/tunnel.go:554-576 | a packet sent whole, if the collector refuses its bytes, is dispatched as it was sent exactly when the clocks agree, and dropped if the collector keeps them |
| Traffic.WholeDispatched | internal/tunnel/tunnel.go:554-576 | the same at every place of every run, whatever frames and other bytes arrive around it |
| Traffic.WholeRefused | internal/fec/shards.go:96-155 | without a group under the user id, exactly which packets sent whole the collector refuses, from their stamp and nonce, and which it keeps and loses |
| Traffic.DispatchedAmidNoise | internal/tunnel/tunnel.go:554-585 | in every lifetime of an id, with clocks that agree, its packet is dispatched exactly once if at least k of its shards arrive and never otherwise, whatever bytes arrive under other ids or under none |
| Session.Transmit | internal/tunnel/tunnel.go:418-525 | for calls that follow one another: any sequence of encryptions, sends, adjustments and reported losses leaves on the wire exactly the frames planned for it, in order, each packet cut off where the transport fails |
| Session.PlannedId | internal/fec/encoder.go:43-46 | the i-th packet of a session goes out under id start + i + 1 as a uint32 |
| Session.PlannedSplits | internal/fec/adaptive.go:213-289 | each packet is cut with the parity that the adjustments and losses before it have led to |
| Session.PlannedCarries | internal/tunnel/tunnel.go:506-525 | the i-th packet sent is the i-th to be sent, with the clock readings and nonce of its encryption |
| Session.PlannedValid | internal/fec/adaptive.go:213-289 | whatever the controller does, every packet of a session can be received when k + MaxParity is at most 255 |
| Session.LandsFromWire | internal/tunnel/tunnel.go:506-525 | every frame the modelled network delivers is one the session left on the wire |
| Session.TimelyPossible | internal/fec/encoder.go:43-46 | the ids of live groups are distinct as long as no frame arrives of a packet sent 2^32 or more packets away from that of a live group |
| Session.ShortTimely | internal/fec/encoder.go:43-46 | in a session of at most 2^32 packets that is always so |
| Session.EndToEnd | internal/tunnel/tunnel.go:506-593 | from session to dispatch: while the parity adapts and the network loses, duplicates and reorders frames, the receiver dispatches exactly what it should |
| Senders.RunTraced | internal/tunnel/tunnel.go:506-525 | with any number of goroutines sending at once, in every interleaving with each other and the adjustment loop: every message on the wire is a frame of a call, under the id the call drew and cut with the parity it found, and the frames of each call are there once each and in order |
| Senders.StepOwned | internal/fec/encoder.go:43-81 | no two goroutines are ever in the same call, and what a goroutine is about to do fits what its call has done |
| Senders.StepModes | internal/fec/adaptive.go:213-289 | what each step does to the encoder: a packet is cut with the parity in force, its shards are counted as sent, losses are counted, and the adjustment loop adjusts |
| Senders.RunCarries | internal/fec/encoder.go:43-81 | in every interleaving the i-th call to draw an id carries the packet it was given, cut with a parity in range |
| Senders.OnWire | internal/tunnel/tunnel.go:506-525 | every frame counted as posted is on the wire |
| Senders.AllPosted | internal/tunnel/tunnel.go:506-525 | as long as the transport takes every message, once all goroutines have come out every packet drawn is on the wire with all its frames |
| Senders.ConcurrentEndToEnd | internal/tunnel/tunnel.go:506-593 | from concurrent senders to dispatch: whatever they interleave and the network does, the receiver dispatches exactly what it should |
| Tunnel.Tunnel.SendPacket | internal/tunnel/tunnel.go:506-525 | what reaches the transport are the frames in order, cut off where it first fails |
| Tunnel.Tunnel.SendAll | internal/tunnel/tunnel.go:513-517 | the send loop stops at the first failure; what was sent before it stays sent |
| Tunnel.Tunnel.HandleReceived | internal/tunnel/tunnel.go:554-585 | what is dispatched is decided by the collector's step and, at a later reading of the clock, the opening function; a packet sent whole is dispatched if there is no collector or it refuses the bytes, and the clocks agree |
| RateLimit.Conservation | internal/buffer/ratelimit.go:62-91 | tokens granted plus tokens left never exceed tokens at the start plus refill, and 0 <= tokens <= max throughout |
| RateLimit.Balance | internal/buffer/ratelimit.go:62-91 | tokens granted, left and run over are together the tokens at the start and the refill, in every run |
| RateLimit.ConservedExactly | internal/buffer/ratelimit.go:62-91 | tokens granted and left are together the tokens at the start and the refill if and only if the capacity never cuts off a refill |
| RateLimit.GrantedTogether | internal/buffer/ratelimit.go:62-91 | requests at one instant that together ask for no more than is at hand are granted in full, and cost exactly that |
| RateLimit.RateBound | internal/buffer/ratelimit.go:62-91 | in every run and between any two calls, tokens granted are at most max + rate times the time between |
| RateLimit.UploadBound | internal/tunnel/tunnel.go:418-446 | the bytes counted in any window of counting time are at most those granted and uncounted at its start, the tokens in the bucket then, and the refill in the window, however long each send blocks and whichever fail |
| RateLimit.BoundKeptExactly | internal/tunnel/tunnel.go:418-446 | every continuation of a run keeps the plain bound over every window from a moment on if and only if the bytes uncounted and the tokens at that moment are together at most the capacity |
| RateLimit.BoundKeptWhole | internal/tunnel/tunnel.go:418-446 | the same when further calls can ask only for whole numbers of bytes, from a bucket of whole capacity and positive rate as the tunnel makes it |
| RateLimit.UploadedInAll | internal/tunnel/tunnel.go:418-446 | the bytes counted by any time are at most what the bucket held at first and the refill since |
| RateLimit.BurstAtOnce | internal/tunnel/tunnel.go:418-446 | for every capacity and rate there is a run that counts twice the capacity at one instant |
| RateLimit.GrantedWindow | internal/buffer/ratelimit.go:62-91 | tokens granted in any window of time, whether or not it begins at a call, are at most max + rate times its length |
| RateLimit.TooMuchNever | internal/buffer/ratelimit.go:62-80 | requests beyond the capacity are never granted |
| RateLimit.TokenBucket.Take | internal/buffer/ratelimit.go:62-91 | refill by the time elapsed, capped; then the request is granted exactly if it is at most that, and costs what it asks for |
| RateLimit.TokenBucket.Available | internal/buffer/ratelimit.go:94-99 | refills, takes nothing |
| RateLimit.TokenBucket.TakeWait | internal/buffer/ratelimit.go:76-80 | a single taker within the capacity returns; all naps but the last together refill less than what was missing, and n tokens have been taken from the refill of the whole time, capped |
| Buffers.RunKeepsGood | internal/buffer/buffer.go:34-99 | in every reachable state a sleeping reader faces an empty open buffer and a sleeping writer one its data does not fit; the size limit holds; read followed by buffered is written |
| Buffers.ReadsPrefix | internal/buffer/buffer.go:34-158 | what has been read from either buffer is a prefix of what it has accepted |
| Buffers.AllRead | internal/buffer/buffer.go:34-82 | once a single writer has returned and the open buffer is drained, everything it wrote has been read |
| Buffers.ReadsDrain | internal/buffer/buffer.go:57-82 | from every state, open or closed, an idle reader with room and a positive burst empties the buffer in exactly as many reads as it holds chunks of the smaller of the two; all bytes come out in order and everybody wakes |
| Buffers.AllArrives | internal/buffer/buffer.go:34-82 | so once a single writer has returned, that number of reads gives everything it wrote |
| Buffers.WriterServed | internal/buffer/buffer.go:34-82 | a sleeping writer whose data the buffer can hold gets them in after the reads that empty it |
| Streams.ReadsPushed | internal/tunnel/stream.go:92-151 | with Close and Reset in any interleaving, what is read from a stream is a prefix of what was pushed and accepted |
| Streams.AllPulled | internal/tunnel/stream.go:92-105 | from an open stream an idle reader gets everything pushed and not yet read, in that number of calls |
| Streams.CallThrough | internal/tunnel/stream.go:92-151 | while the stream is open, a call does to the buffer what the buffer's own call does |
| Streams.PhaseExactly | internal/tunnel/stream.go:117-141 | a stream has been reset if and only if somebody reset it, and closed if and only if somebody closed it while it was open and nobody reset it |
| Streams.EndTakesEffect | internal/tunnel/stream.go:117-141 | once all who have closed or reset the stream have come out, its buffer is closed and nobody sleeps |
| Streams.OverForGood | internal/tunnel/stream.go:92-151 | once a stream has ended and no call is past its look at the state, nothing is accepted or read any more, and what is left in the buffer is lost |
| Streams.TurnedAway | internal/tunnel/stream.go:92-96 | from then on every call is turned away by its look at the state and changes nothing |
| Streams.LatePush | internal/tunnel/stream.go:117-151 | before that, bytes can still be accepted after the stream has been closed |
| Streams.EndWakesReaders | internal/tunnel/stream.go:92-141 | once a stream has been closed or reset and nobody is still about to close its buffer, no reader sleeps |
| Buffers.BlockedTogether | internal/buffer/buffer.go:34-82 | readers and writers sleep together only if some writer asks for more than maxSize |
| Buffers.ClosedWakesAll | internal/buffer/buffer.go:92-99 | nobody sleeps in a closed buffer |
| Buffers.WrittenInOrder | internal/buffer/buffer.go:34-54 | with one writer the accepted bytes are those offered, in order, apart from the write in progress |
| Buffers.Buffer.WriteSection | internal/buffer/buffer.go:122-138 | one critical section of Write, of either buffer, is a step of the monitor; which outcome it has when; data is appended if it succeeds, and nothing changes in the buffer otherwise |
| Buffers.Buffer.ReadSection | internal/buffer/buffer.go:57-82 | one critical section of Read, of either buffer, is a step of the monitor; it returns the first bytes of the buffer, as many as room and burst allow or all there are |
| Buffers.Buffer.Close | internal/buffer/buffer.go:92-99 | closing is the monitor's step Shut, and wakes every sleeper |
| Datagrams.ReadsBack | internal/proxy/udp_associate.go:52-78 | any sequence of datagrams of up to 65535 bytes is read back as written |
| Datagrams.FrameReads | internal/proxy/udp_associate.go:52-78 | a frame is the length in four bytes, the most significant first, and the data, and is read back if and only if they are at most 65535 bytes |
| Datagrams.PrefixReads | internal/proxy/udp_associate.go:64-78 | from a stream cut off anywhere, exactly the complete datagrams are read |
| Datagrams.ThroughBuffer | internal/proxy/udp_associate.go:52-78 | through a bounded buffer, one writer and readers in any interleaving and any chunks, the datagrams read are at every moment a prefix of those sent |
| Datagrams.AllThrough | internal/proxy/udp_associate.go:52-78 | once the writer has returned from all its writes and the open buffer is drained, the datagrams read are exactly those sent |
| Datagrams.AllArrive | internal/proxy/udp_associate.go:52-78 | once the writer has returned, a number of reads known beforehand gives exactly the datagrams sent |
| Datagrams.DrainedReads | internal/proxy/udp_associate.go:52-78 | from a drained buffer, closed or not, the first n datagrams have been read if and only if their frames fit into the bytes accepted |
| Datagrams.Source.ReadFull | internal/proxy/udp_associate.go:65-76 | whatever the chunks, the next bytes of the stream or an error at its end |
| Datagrams.Source.ReadDatagram | internal/proxy/udp_associate.go:64-78 | takes the first datagram off the stream, or reports the end or an excessive length |
| Datagrams.Sink.WriteDatagram | internal/proxy/udp_associate.go:52-61 | without an error one frame has been written; after one, what was written holds no complete datagram |
| Mux.CounterTracksMap | internal/tunnel/mux.go:61-80 | before Close deletes a stream, for any number of goroutines in any interleaving: counter = streams - stored but uncounted + deleted but still counted |
| Mux.RunDrifts | internal/tunnel/mux.go:61-144 | from any state until Close resets the counter, it never falls behind that balance, not even once ids have wrapped round |
| Mux.StepDrifts | internal/tunnel/mux.go:61-144 | only storing over a stream, Close's deletions and its reset upset the balance, and by how much |
| Mux.FreshId | internal/tunnel/mux.go:70-77 | until 2^32 ids have been drawn, a stream about to be stored overwrites none and shares its id with no other |
| Mux.IdsDistinct | internal/tunnel/mux.go:70-70 | any two ids drawn in a run differ, unless 2^32 draws lie between |
| Mux.NthId | internal/tunnel/mux.go:70-77 | the n-th id drawn is n as a uint32, and the stream is stored under it |
| Mux.StaysExactly | internal/tunnel/mux.go:61-144 | until ids wrap round, an open stream stays in the table under its id exactly until CloseStream is called for that id or Close deletes it, and never comes back |
| Mux.StreamsBounded | internal/tunnel/mux.go:66-78 | n goroutines never hold more than MaxStreams + n - 1 streams, a single one never exceeds the limit, and with a limit that is not positive no stream is ever held |
| Mux.BoundReached | internal/tunnel/mux.go:66-78 | for every positive limit and every n some interleaving reaches that bound |
| MuxClose.CloseExactly | internal/tunnel/mux.go:119-144 | Close leaves the counter equal to the number of streams in every run that then falls quiet, if and only if at the call there is one goroutine, or no stream is open and no other call in flight, or the limit is not positive |
| MuxClose.WrongByOther | internal/tunnel/mux.go:61-144 | each kind of call in flight, and an idle goroutine while a stream is open, has a continuation that leaves the counter wrong for good |
| Mux.CountAfterClose | internal/tunnel/mux.go:130-144 | how far the counter ends up off is the imbalance, at the reset, between the calls in flight and the streams left |
| Mux.CounterBelowZero | internal/tunnel/mux.go:119-144 | CloseStream racing with Close can leave an empty table and a counter of -1 |
| SequenceMax.RunKeepsGood | internal/tunnel/session.go:59-69 | under any interleaving the value never decreases and covers every call that has returned |
| SequenceMax.EndsWithMaximum | internal/tunnel/stream.go:164-174 | when all calls have returned, the value is the maximum of the initial value and all arguments |
| SequenceMax.StepWorks | internal/tunnel/session.go:59-69 | every atomic step, failed swaps included, reduces a measure of the whole system |
| SequenceMax.RunsEnd | internal/tunnel/session.go:59-69 | n concurrent calls take at most n(2n+2) steps in all, in any interleaving |
| Ping.Stamp | internal/tunnel/tunnel.go:266-271 | the shift loop writes the 64 bits of the time, big end first, negative times included |
| Ping.Sent | internal/tunnel/tunnel.go:687-691 | the loop of shifts and ors reads them back |
| Ping.PingPong | internal/tunnel/tunnel.go:266-271 | the two loops are inverse for every int64 |

## Left out

- The inside of the Reed-Solomon library: the contract says what the code relies on. What it does with more than 256 shards, which
  the adaptive encoder does not refuse, is left open: it may accept or refuse them, and nothing is claimed about receiving them.
- ChaCha20-Poly1305 (section 2.8 of RFC 8439) and HKDF (section 2 of RFC 5869): ideal functions, for the 64-bit windows of one
  pre-shared key. Nothing is claimed about bytes that were not sealed under it. Derived keys have 32 bytes, so the branches for a
  key of the wrong length are dead.
- ShardGroup: the outer slice of shards is an array updated in place; an inner shard is a value, so aliasing of its bytes is not modelled.
- `sync.Map` and the atomics: each operation is one step, and a Range visits every entry that stays from its beginning to its end.
- Envelope.PacketBuilder.CleanupAEADCache: says what one cleanup does without interference; `KeyCache` lets everything interleave.
- Session.Transmit: the calls of a session follow one another; `Senders` lets them interleave, as a step machine.
- Floating point: loss rates, tokens and clocks of the bucket are reals.
- RTT, reasons and times of parity changes, and the reporting of statistics: only easy members. The connection counter is
  decremented by both ends of a close and does not count open streams.
- `RecordLost` is called only by `AdaptiveFEC.Decode`, which the collector does not use: the samples of the estimator are arbitrary inputs.
- `AcceptStream`: nothing calls it, and `OpenStream` does not look whether an id exists. The step model has no remote streams.
- `CleanExpiredStreams`: a goroutine that calls CloseStream for ids of any choice; which ids have expired is not modelled.
- `Session` of the proxy beyond sequence numbers, and of `Stream` the send buffer, callbacks and targets.
- The read errors of `io.ReadFull` (end of file, or in the middle) are one error.
- Delivery over the network is not claimed to be in order, and a full receive buffer drops data: `handleStreamData` is not modelled.
- Sockets, TLS, dialing, retries, tickers, relays, DNS, text forms of addresses, the HTTP interface, configuration and logging.

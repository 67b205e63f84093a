# Shimakaze, modelled and proved in Dafny

Shimakaze is a KCP tunnel. Between the sockets and KCP stands code of its own: forward error correction, stream
multiplexing, a framed compression stream, a permutation cipher, packet encryption and a paced send queue. This project
models that code for Dafny 4.11 and proves what it is for. `dafny verify dfyconfig.toml` checks all of it.

Every module follows one shape. The C++ object is a class with the same fields, whose methods are proved against
functions (or a step relation) on values; the theorems are about those functions, over all inputs or over all runs.

| files | what they model | main results |
|---|---|---|
| Gf256, Gf256Polynomial, LinearAlgebra, GaussJordan, Polynomials, CodeMatrix, ReedSolomon, ErasureRecovery | GF(256), in-place Gauss-Jordan inversion, the systematic Vandermonde code | any data_shards of the shards of a group restore it, for every size, length and loss pattern |
| FecFormat (modules FecFormat, FecSteps), FecCodec (module Fec), FecDecoder, FecNetwork, FecTiming, FecAcrossWrap | the stateful codec; a decoder fed any packets; an encoder and a decoder with a network that loses, reorders and duplicates | bounded memory against any packets; soundness; completeness within reach, also across the wrap; when parity leaves, and that a group with parity survives any loss within it |
| SmuxFrame, SmuxTransport, SmuxState, SmuxFlush, SmuxDispatch, Smux | smux frames, the parser, streams, sessions and their handlers | parsing inverts the layout, does not depend on how bytes are cut and refuses exactly the bad frames; bounded buffer; how data is cut into frames |
| SmuxProtocol, SmuxPair, SmuxStreamPair, SmuxSystem, SmuxEndToEnd, SmuxFrameLimit | two sessions over a reliable channel, first of frames, then of bytes | end-to-end prefix delivery, window safety, no credit deadlock, frame size, over every run of frames and of bytes |
| SmuxProgress, SmuxLife, SmuxBatch | what can always still happen in a run, who has a stream when, and how often a receiver reports | socket writes start and run dry; from any point all that was read can be written at the other end; the end of a stream is told exactly once |
| SnappyStream, Crc | the framed Snappy stream (framing_format.txt, sections 3 and 4.1 to 4.6) and the two checksums | round trip under any cutting, exactly the completed chunks at every point; burst detection |
| Qpp, QppShuffle, QppStream, Ciphers | pads, the shuffle, the generators | permutations and their reversal, the Fisher-Yates law of the shuffle, round trip under any two splittings, equal tables from equal seeds |
| PacketCrypt | nonce, checksum, cipher feedback, xor and Salsa20 streams | round trip for every method and length, locality of cipher feedback, damage rejected |
| PacedQueue | the rate-limited UDP queue | rate bound over any window, no packet waits longer than the limit asks, order, timer armed |

How the smux theorems are built: a `View` is one end of one stream, with its history of bytes and the frames it sent and
received. `PairOk` relates the two ends (SmuxProtocol), every handler keeps it (SmuxPair, SmuxStreamPair), the frames of
a session are projected onto its streams so that every move of a session is a step of one stream and leaves the others
alone (SmuxSystem), and a run over bytes, with histories of its own, is shown to be a run over frames with the same local
events (SmuxEndToEnd), which carries the three results over to bytes. The position-indexed cipher that smux relies on is
what QppStream is proved to be.

Things that come from outside are parameters: the readings of the clock, the nonce, block ciphers, the Salsa20
keystream, HMAC and AES in the pad shuffle (`Primitives`), the words derived from a seed, Snappy compression (`Library`,
with the one law that uncompressing undoes compressing). Socket completions, timer expiries and arriving bytes are events.

Notes on the reading of the code:

- The FEC decoder gives out a data packet's payload before it looks for duplicates, so delivery is at least once.
- The decoder pads a complete set to its longest present shard. That is the right length because reconstruction is
  only called when a data shard is missing, and then a parity shard is present (`FecNetwork.PaddingLength`).
- A payload of more than 65533 bytes does not survive the 16-bit length field; `FecFormat.PayloadSurvives` says exactly
  when one does. KCP packets are bounded by the configured mtu and stay far below.
- `long double` division in the pacing code is exact before truncation for packets below 64 KiB and a 32-bit rate, so
  the pause is modelled by integer division.
- The guards `EncoderOk`, `DecoderOk` and `Ready` in the step relations are part of the proved invariants; they make the
  step functions well defined and exclude no reachable state.
- A socket write that had completed when its stream closed is still counted, and reported while the session lives
  (smux.cpp:293-312); `LateWrite` is that event. A read that completes late only fills a queue that a closed stream never
  sends from (smux.cpp:215-220), so it is no event.
- A Read event may come at any time while a stream is open, since an update can start a second read while one is
  outstanding; a failed write sends FIN while data may still be pending. Nothing is claimed that would need otherwise.

## Model

| member | source | states |
|---|---|---|
| `Gf256.GfMul` | shimakaze/src/shimakaze/fec.cpp:28-43 | The shift-and-xor loop returns the field product, for all 65536 pairs. |
| `Gf256Polynomial.MulIsPolynomialRemainder` | shimakaze/src/shimakaze/fec.cpp:28-43 | That product is an independent notion: the carry-less polynomial product of the two bytes equals a multiple of x^8+x^4+x^3+x^2+1 plus the result. |
| `Gf256.MulComm` | shimakaze/src/shimakaze/fec.cpp:28-43 | The product is commutative. |
| `Gf256.MulAssoc` | shimakaze/src/shimakaze/fec.cpp:28-43 | The product is associative. |
| `Gf256.MulAddLeft` | shimakaze/src/shimakaze/fec.cpp:28-43 | The product distributes over xor. |
| `Gf256.NoZeroDivisors` | shimakaze/src/shimakaze/fec.cpp:28-43 | A zero product has a zero factor. |
| `Gf256.PowAdd` | shimakaze/src/shimakaze/fec.cpp:45-52 | Powers with added exponents multiply. |
| `Gf256.GfPow` | shimakaze/src/shimakaze/fec.cpp:45-52 | The loop computes the power, 1 for exponents that are not positive. |
| `Gf256.InverseLaw` | shimakaze/src/shimakaze/fec.cpp:54-60 | The 254th power of a non-zero byte is its two-sided inverse (proved through Frobenius squarings, not by enumeration of products). |
| `Gf256.GfInv` | shimakaze/src/shimakaze/fec.cpp:54-60 | Fails exactly on zero; otherwise the result times the value is 1. |
| `GaussJordan.SwapKeepsKernel` | shimakaze/src/shimakaze/fec.cpp:91-98 | Swapping two rows of the working matrix changes no kernel vector. |
| `GaussJordan.ScaleKeepsKernel` | shimakaze/src/shimakaze/fec.cpp:103-108 | Scaling a row by a non-zero factor changes no kernel vector. |
| `GaussJordan.EliminateKeepsKernel` | shimakaze/src/shimakaze/fec.cpp:109-117 | Adding a multiple of one row to another changes no kernel vector. |
| `GaussJordan.MissingPivotIsSingular` | shimakaze/src/shimakaze/fec.cpp:100-102 | When a column has no pivot left, back substitution yields a non-zero vector that the input maps to zero. |
| `GaussJordan.ForwardPhase` | shimakaze/src/shimakaze/fec.cpp:90-118 | The in-place first phase either reports singular, and then the input has a non-zero kernel vector, or leaves an upper triangle with unit pivots and the same kernel. |
| `GaussJordan.BackwardPhase` | shimakaze/src/shimakaze/fec.cpp:120-130 | The in-place second phase turns the triangle into the identity and keeps the kernel. |
| `GaussJordan.ReducedIsInverse` | shimakaze/src/shimakaze/fec.cpp:120-136 | When the left half is the identity and the kernel is that of [A, E], the right half is the two-sided inverse of A. |
| `GaussJordan.InvertMatrix` | shimakaze/src/shimakaze/fec.cpp:79-137 | Succeeds if and only if the input has no non-zero kernel vector, and then returns B with A x = y if and only if x = B y. |
| `Polynomials.TooManyRoots` | shimakaze/src/shimakaze/fec.cpp:139-156 | A polynomial with as many distinct roots as coefficients is zero (by synthetic division). |
| `CodeMatrix.SystematicIsIdentity` | shimakaze/src/shimakaze/fec.cpp:139-156 | The first data_shards rows of the code matrix are unit vectors. |
| `CodeMatrix.AnyRowsNonsingular` | shimakaze/src/shimakaze/fec.cpp:202-207 | Every choice of data_shards different rows is invertible, so reconstruction never reaches the "singular" error. |
| `CodeMatrix.VandermondeTopNonsingular` | shimakaze/src/shimakaze/fec.cpp:150-155 | The block inverted during construction is invertible. |
| `ReedSolomonCoder.MultiplyMatrix` | shimakaze/src/shimakaze/fec.cpp:64-77 | The product matrix maps every vector to left (right x). |
| `ReedSolomonCoder.BuildRsMatrix` | shimakaze/src/shimakaze/fec.cpp:139-156 | For all 1 <= data_shards <= total <= 256 construction succeeds, and row i of the result maps data to the value at point i of the polynomial that interpolates the data. |
| `ReedSolomonCoder.ReedSolomon.constructor` | shimakaze/src/shimakaze/fec.cpp:162-168 | A coder of any size within 256 shards can be made and holds such a matrix. |
| `ReedSolomonCoder.ReedSolomon.Encode` | shimakaze/src/shimakaze/fec.cpp:170-187 | Each parity shard is, byte column by byte column, its matrix row applied to the data, short shards counting as zero padded. |
| `ReedSolomonCoder.ReedSolomon.ReconstructData` | shimakaze/src/shimakaze/fec.cpp:189-229 | Returns true if and only if at least data_shards shards are present; then only missing data shards change, and the outcome encodes to the first present shards. |
| `Erasure.SystematicShard` | shimakaze/src/shimakaze/fec.cpp:170-187 | A data shard is its own encoding. |
| `Erasure.ErasureRecovery` | shimakaze/src/shimakaze/fec.cpp:189-229 | Whatever at least data_shards shards of an encoded group are present, any restored outcome is the original data. |
| `Erasure.RoundTrip` | shimakaze/src/shimakaze/fec.cpp:170-229 | Encode, lose any shards but data_shards, reconstruct: the data come back, for every size, length and loss pattern. |
| `FecFormat.SealRoundTrip` | shimakaze/src/shimakaze/fec.cpp:455-470 | The header of a sealed packet reads back as the sequence number and type that were written. |
| `FecFormat.PayloadSurvives` | shimakaze/src/shimakaze/fec.cpp:392-399 | A padded data shard gives its payload back if and only if the payload is at most 65533 bytes. |
| `FecSteps.GroupFits` | shimakaze/src/shimakaze/fec.cpp:263 | A group that starts below paws_ ends at or below it, and below 2^32, so no sum of sequence numbers inside a group overflows. |
| `FecSteps.EncodeKeepsNumbering` | shimakaze/src/shimakaze/fec.cpp:270-315 | Between calls next_seq_ < paws_ and next_seq_ % shard_size_ == shard_count_ < data_shards_, with parity or without and across the wrap. |
| `FecSteps.EncodedNumbers` | shimakaze/src/shimakaze/fec.cpp:282-308 | In every encoder state, across the wrap too: packet k of a call has index shard_count_ + k in the group of next_seq_, so data packets get 0..d-1 and parity packets d..d+p-1, and its type says which it is. |
| `FecSteps.EncodedCount` | shimakaze/src/shimakaze/fec.cpp:289-315 | A call gives one data packet; when it fills a group, all parity packets leave with it if the call before read the clock less than 500 ms earlier and not as zero, and none otherwise. Every call leaves its own reading for the next. |
| `FecSteps.ParityNeedsHaste` | shimakaze/src/shimakaze/fec.cpp:289-314 | Of two calls in turn, the second one filling the group: all parity packets leave if the first reading is not zero and the second is less than 500 ms later, none otherwise. |
| `FecSteps.DecodeKeepsSets` | shimakaze/src/shimakaze/fec.cpp:317-421 | After any packet whatever, each stored set holds at least one and fewer than data_shards shards. |
| `Fec.FecCodec.constructor` | shimakaze/src/shimakaze/fec.cpp:253-266 | Enabled exactly for positive counts with sum at most 256. |
| `Fec.FecCodec.SealPacket` | shimakaze/src/shimakaze/fec.cpp:465-470 | Writes the current number and type, and advances modulo paws_. |
| `Fec.FecCodec.SkipParity` | shimakaze/src/shimakaze/fec.cpp:472-475 | Skips the parity numbers; the 32-bit sum does not overflow. |
| `Fec.FecCodec.EmitParity` | shimakaze/src/shimakaze/fec.cpp:294-305 | Pads the group to its longest shard and seals one parity packet per parity row, numbered consecutively. |
| `Fec.FecCodec.Encode` | shimakaze/src/shimakaze/fec.cpp:270-315 | The object takes exactly the encoder step, keeps its invariant, leaves the decoder alone, remembers the reading of the clock, and sends parity with the last packet of a group exactly when the reading before was not zero and less than 500 ms ago. |
| `Fec.FecCodec.RecoverSet` | shimakaze/src/shimakaze/fec.cpp:367-408 | A complete set is padded to its longest present shard and reconstructed; the payloads of its missing data shards come out in order, at most one for each. |
| `Fec.FecCodec.DiscardOldShards` | shimakaze/src/shimakaze/fec.cpp:477-488 | Removes exactly the sets more than three groups behind, whatever order they are visited in. |
| `Fec.FecCodec.AbsorbShard` | shimakaze/src/shimakaze/fec.cpp:347-418 | A new shard joins its set; a complete set is restored and removed; the newest group advances. |
| `Fec.FecCodec.Decode` | shimakaze/src/shimakaze/fec.cpp:317-421 | The object takes exactly the decoder step on any bytes: short and foreign packets pass unchanged, out-of-band ones give nothing, a data packet gives its payload at once, whatever the group and the numbering. |
| `FecDecoder.TimeDiffExact` | shimakaze/src/shimakaze/fec.cpp:16-19 | Below 2^31 the wrapped signed comparison is the comparison of group numbers. |
| `FecNetwork.PaddingLength` | shimakaze/src/shimakaze/fec.cpp:368-386 | Once a parity shard is present, the longest present shard has the length the group was encoded with. |
| `FecDecoder.AdvanceLeavesFour` | shimakaze/src/shimakaze/fec.cpp:413-418 | Advancing over any stored sets below 2^31 leaves none ahead of the newest group, and at most four, all in newest-3..newest, when the newest moved. |
| `FecDecoder.DecodeKeepsWindow` | shimakaze/src/shimakaze/fec.cpp:317-421 | Any one packet with a number below 2^31, genuine or not, keeps every stored set at or behind newest_shard_id_; when that advances at most four sets are left, all in newest-3..newest. |
| `FecDecoder.DecoderBoundedMemory` | shimakaze/src/shimakaze/fec.cpp:317-488 | The same over every sequence of such packets from the start, corrupted and forged ones included. |
| `FecNetwork.RunInv` | shimakaze/src/shimakaze/fec.cpp:270-421 | Over every run with loss, reordering and duplication: the encoder matches the payload history, every packet in the network is genuine, stored shards are genuine, outputs are sound, and groups in reach are complete or hold all that arrived. |
| `FecNetwork.FecSoundness` | shimakaze/src/shimakaze/fec.cpp:317-421 | Every payload the decoder gives out was given to the encoder. |
| `FecNetwork.FecCompleteness` | shimakaze/src/shimakaze/fec.cpp:317-421 | Once data_shards different packets of a group have arrived while newest_shard_id_ <= id + 3, all its payloads have been given out. |
| `FecNetwork.FecBoundedMemory` | shimakaze/src/shimakaze/fec.cpp:342-418 | In particular in every run with the lossy, reordering, duplicating network. |
| `FecTiming.CallGenuine` | shimakaze/src/shimakaze/fec.cpp:282-308 | Packet k of a call carries number shard_count_ + k of the group of its payload, and the data or the parity that the payloads of the group encode to. |
| `FecTiming.FilledGroup` | shimakaze/src/shimakaze/fec.cpp:270-315 | In every run: once a call has filled a group, all its data packets have left, and its parity packets are in the network from then on if and only if the call before read the clock less than 500 ms earlier and not as zero; otherwise they never are. |
| `FecTiming.FilledGroupSurvives` | shimakaze/src/shimakaze/fec.cpp:270-421 | In every run: a group filled in time gives all its payloads whichever of its packets are lost, up to as many as it has parity packets, if the others arrive while newest_shard_id_ <= id + 3. |
| `FecAcrossWrap.TimeDiffAround` | shimakaze/src/shimakaze/fec.cpp:16-19 | Wherever a group lies in the numbering, the signed difference to a group k further is k groups, and the unused numbers more when the numbering wraps in between. |
| `FecAcrossWrap.ReachAround` | shimakaze/src/shimakaze/fec.cpp:477-488 | The decoder keeps a group while the newest is at most three groups on, exactly two when the numbering wraps in between. |
| `FecAcrossWrap.RecoveredAcrossWrap` | shimakaze/src/shimakaze/fec.cpp:317-421 | Anywhere in the numbering, across the wrap too, and among any other packets: once data_shards different shards of a group have arrived while it stayed in reach, all its payloads have been given out. |
| `Crc.MakeTable` | shimakaze/src/shimakaze/crypto.cpp:50-60 | Entry i of the table is eight bit steps of i. |
| `Crc.TableChecksum` | shimakaze/src/shimakaze/crypto.cpp:62-67 | The table-driven loop equals the bit-at-a-time definition on all inputs, for either polynomial. |
| `Crc.BurstDetected` | shimakaze/src/shimakaze/crypto.cpp:48-68 | Two payloads of equal length that differ only within four consecutive bytes have different checksums. |
| `SnappyStream.SnappyStreamEncoder.MakeDataChunk` | shimakaze/src/shimakaze/snappy_stream.cpp:78-95 | The chunk is compressed exactly when that is shorter, and carries the masked checksum of the plain bytes; its length fits 24 bits. |
| `SnappyStream.SnappyStreamEncoder.Encode` | shimakaze/src/shimakaze/snappy_stream.cpp:99-113 | The identifier comes out once, before the first chunk; the input is cut into pieces of at most 65536 bytes. |
| `SnappyStream.SnappyStreamDecoder.Decode` | shimakaze/src/shimakaze/snappy_stream.cpp:115-166 | The loop gives out all complete chunks and keeps the rest, or fails with the error of the first bad chunk. |
| `SnappyStream.SnappyStreamDecoder.PlainChecksum` | shimakaze/src/shimakaze/snappy_stream.cpp:18-43 | The table-driven Castagnoli loop and the mask give the masked checksum of the definition. |
| `SnappyStream.PiecesConcat` | shimakaze/src/shimakaze/snappy_stream.cpp:99-113 | The pieces put together are the input. |
| `SnappyStream.DrainMore` | shimakaze/src/shimakaze/snappy_stream.cpp:115-166 | Decoding a longer buffer is decoding its front and going on from the state that leaves. |
| `SnappyStream.FeedIsDrain` | shimakaze/src/shimakaze/snappy_stream.cpp:115-166 | Any cutting of the same bytes into calls gives the same output, state and error. |
| `SnappyStream.SkippableIsSkipped` | shimakaze/src/shimakaze/snappy_stream.cpp:133-134 | Chunks of the kinds 0x80 to 0xfe leave no trace: the output, the state and the error are those of what follows. |
| `SnappyStream.IdentifierMayRepeat` | shimakaze/src/shimakaze/snappy_stream.cpp:128-132 | A stream identifier may come at any point and is passed over (section 4.1 of framing_format.txt). |
| `SnappyStream.RefusedChunks` | shimakaze/src/shimakaze/snappy_stream.cpp:135-160 | Data before an identifier and chunks of the kinds 0x02 to 0x7f give nothing and make the decoder fail. |
| `SnappyStream.Unmasked` | shimakaze/src/shimakaze/snappy_stream.cpp:40-43 | The checksum comes back from the masked one by the formula of section 3 of framing_format.txt. |
| `SnappyStream.SnappyRoundTrip` | shimakaze/src/shimakaze/snappy_stream.cpp:99-166 | Fed any prefix of what an encoder emitted over any calls, cut anywhere, the decoder never fails and its output is exactly the pieces whose chunks are complete; with everything fed it is the whole input. |
| `SnappyStream.DamagedChunkFails` | shimakaze/src/shimakaze/snappy_stream.cpp:142-156 | An uncompressed chunk changed within four consecutive data bytes makes the decoder fail. |
| `Qpp.Xoshiro256ss` | shimakaze/src/shimakaze/qpp.cpp:75-87 | The in-place update is the simultaneous xoshiro256** step. |
| `Qpp.AdvanceAdd` | shimakaze/src/shimakaze/qpp.cpp:163-199 | The generator after m and then n bytes is the generator after m + n bytes. |
| `Qpp.ModBigEndian` | shimakaze/src/shimakaze/qpp.cpp:104-111 | The running remainder is that of the whole big-endian number. |
| `Qpp.SwapKeepsPermutation` | shimakaze/src/shimakaze/qpp.cpp:263 | Whenever two places of a pad exchange what they hold, the pad stays a permutation. |
| `Qpp.SwapInPad` | shimakaze/src/shimakaze/qpp.cpp:263 | In place: one place holds what the other held and the other way round; nothing else changes, in this pad or another. |
| `Qpp.ShufflePad` | shimakaze/src/shimakaze/qpp.cpp:241-265 | The in-place loop is the Fisher-Yates shuffle driven by the stirred digest, and touches no other pad. |
| `Qpp.ShuffledIsPermutation` | shimakaze/src/shimakaze/qpp.cpp:241-265 | After any number of swaps the pad holds every byte value once. |
| `QppShuffle.StirredIsChained` | shimakaze/src/shimakaze/qpp.cpp:255-261 | One stirring encrypts the two halves of the digest apart, each under every AES key in the order of the keys. |
| `QppShuffle.PlaceIsChosen` | shimakaze/src/shimakaze/qpp.cpp:254-264 | Of any shuffle by exchanges from the last place down: place i of the result is what stood at the place chosen for it when its turn came. |
| `QppShuffle.DifferentChoicesDifferentPads` | shimakaze/src/shimakaze/qpp.cpp:254-264 | Two shuffles of one pad end in the same pad if and only if they made the same choices. |
| `QppShuffle.EveryArrangementIsReached` | shimakaze/src/shimakaze/qpp.cpp:254-264 | Every arrangement of a pad is the result of some choices j_i <= i, and so of exactly one sequence of them. |
| `QppShuffle.PadIsShuffled` | shimakaze/src/shimakaze/qpp.cpp:241-265 | Every pad comes from the identity by such exchanges, and place i holds what stood, at its turn, at the place that the digest of that turn, read big-endian modulo i + 1, names. |
| `QppShuffle.PadsDifferWithChoices` | shimakaze/src/shimakaze/qpp.cpp:241-265 | Pads of any two seeds and numbers are equal if and only if their digests chose the same places. |
| `Qpp.ReversePad` | shimakaze/src/shimakaze/qpp.cpp:233-239 | The reversed pad undoes the pad. |
| `Qpp.SlotsReverse` | shimakaze/src/shimakaze/qpp.cpp:120-147 | Pads reversed one by one make a table that decryption can use for every byte. |
| `Qpp.QppPad.constructor` | shimakaze/src/shimakaze/qpp.cpp:120-147 | Every pad is the one the seed determines, so two ends build the same table, and its reversal is in place. |
| `Qpp.QppPad.Encrypt` | shimakaze/src/shimakaze/qpp.cpp:163-180 | In place, each byte is treated as the generator stands after the bytes before it; the generator moves on by the length. |
| `Qpp.QppPad.Decrypt` | shimakaze/src/shimakaze/qpp.cpp:182-199 | The same for decryption. |
| `Qpp.KeyBytesAreTheWord` | shimakaze/src/shimakaze/qpp.cpp:169 | The eight key bytes of a generator word, lowest first, are the word: every bit is used once. |
| `Qpp.EveryPadIsChosen` | shimakaze/src/shimakaze/qpp.cpp:168 | For up to 65536 pads, each one is chosen by some value of the low 16 bits of the word. |
| `Qpp.ByteRoundTrip` | shimakaze/src/shimakaze/qpp.cpp:163-199 | In equal generator states decrypting undoes encrypting. |
| `Qpp.CallsAreAt` | shimakaze/src/shimakaze/qpp.cpp:163-199 | However the bytes are cut into calls, byte n is treated by the key of position n. |
| `Qpp.QppRoundTrip` | shimakaze/src/shimakaze/qpp.cpp:163-199 | Decrypting under any split restores what was encrypted under any other split. |
| `QppStreams.QppStream.Encrypt` | shimakaze/src/shimakaze/qpp.cpp:276-281 | With or without a pad, the stream applies its position-indexed cipher and moves its write position only. |
| `QppStreams.QppStream.Decrypt` | shimakaze/src/shimakaze/qpp.cpp:283-288 | The same for the read position. |
| `QppStreams.QppStream.CipherIsLawful` | shimakaze/src/shimakaze/qpp.cpp:267-288 | With a pad or without, what the stream encrypts at a position it decrypts there. |
| `QppStreams.SameSeedIsLawful` | shimakaze/src/shimakaze/qpp.cpp:120-147 | Two ends with pads from the same seed: one decrypts what the other encrypts, position by position. |
| `PacketCrypts.BlockCfbCrypt` | shimakaze/src/shimakaze/crypto.cpp:312-341 | In place, for block size 8 or 16 and any length: encrypting leaves a ciphertext whose cipher-feedback plaintext (section 6.3 of NIST SP 800-38A) is what was there, decrypting leaves that plaintext. |
| `PacketCrypts.CfbFeedsBack` | shimakaze/src/shimakaze/crypto.cpp:312-341 | A plaintext and its ciphertext differ by the block function applied to the ciphertext block before, or to the initial vector. |
| `PacketCrypts.CfbLocality` | shimakaze/src/shimakaze/crypto.cpp:312-341 | Plaintext block i depends only on ciphertext blocks i-1 and i. |
| `PacketCrypts.CfbInjective` | shimakaze/src/shimakaze/crypto.cpp:312-341 | Different ciphertexts have different plaintexts, so the decryption contract fixes the encryption. |
| `PacketCrypts.Salsa20Crypt` | shimakaze/src/shimakaze/crypto.cpp:343-352 | Packets of at most eight bytes pass; otherwise the first eight bytes stay, and byte i after them is xored with byte i of the keystream for them. |
| `PacketCrypts.SalsaTwice` | shimakaze/src/shimakaze/crypto.cpp:343-352 | Applied twice it is the identity. |
| `PacketCrypts.XorCrypt` | shimakaze/src/shimakaze/crypto.cpp:354-364 | Byte k is xored with byte k of the table as far as the table goes; the rest stays. |
| `PacketCrypts.AddedTwice` | shimakaze/src/shimakaze/crypto.cpp:354-364 | Adding a key twice is the identity. |
| `PacketCrypts.DescrambledInjective` | shimakaze/src/shimakaze/crypto.cpp:185-257 | For every method, no two packets decrypt to the same bytes. |
| `PacketCrypts.PacketCrypt.Encrypt` | shimakaze/src/shimakaze/crypto.cpp:185-219 | The packet decrypts to nonce, checksum and payload, and for "null" to the payload itself. |
| `PacketCrypts.PacketCrypt.Decrypt` | shimakaze/src/shimakaze/crypto.cpp:221-257 | Nothing for packets under 20 bytes or with a wrong checksum, otherwise the payload. |
| `PacketCrypts.RoundTrip` | shimakaze/src/shimakaze/crypto.cpp:185-257 | For null, none, block, salsa20 and xor, every nonce and every length, decrypting gives the payload back. |
| `PacketCrypts.DamageRejected` | shimakaze/src/shimakaze/crypto.cpp:252-255 | For the methods without feedback, a packet whose payload was changed within four consecutive bytes is not accepted. |
| `PacedQueues.PacedQueue.EnqueueUdpPacket` | shimakaze/src/shimakaze/kcp_transport.cpp:227-242 | The object takes the enqueue step: without a limit the packet leaves at once, with one it waits and the timer is armed. |
| `PacedQueues.UnlimitedLeavesAtOnce` | shimakaze/src/shimakaze/kcp_transport.cpp:229-238 | In every run without a limit, a packet leaves at the moment it comes. |
| `PacedQueues.PacedQueue.ScheduleRateLimitedSend` | shimakaze/src/shimakaze/kcp_transport.cpp:244-257 | Arms the timer for the later of the next send time and now, unless closing, armed or empty. |
| `PacedQueues.PacedQueue.OnRateTimer` | shimakaze/src/shimakaze/kcp_transport.cpp:258-280 | The handler clears the flag on error or close; otherwise it sends the front packet, sets the next time by the pause, which the rows on rate and waiting bound from both sides, and arms again. |
| `PacedQueues.RunOk` | shimakaze/src/shimakaze/kcp_transport.cpp:227-281 | The invariant of the queue holds after every sequence of events. |
| `PacedQueues.SentInOrder` | shimakaze/src/shimakaze/kcp_transport.cpp:227-281 | Packets leave in the order in which they came, each once: sent ones followed by waiting ones are all that came. |
| `PacedQueues.TimerArmed` | shimakaze/src/shimakaze/kcp_transport.cpp:244-281 | While not closing, a waiting packet has the timer armed, and an expiry at any time not before the set one sends exactly that packet. |
| `PacedQueues.RateBound` | shimakaze/src/shimakaze/kcp_transport.cpp:244-281 | Between any two sends of a run, 10^9 times the bytes sent from the first up to the second is at most ratelimit times (the nanoseconds between them plus 1000 per packet). |
| `PacedQueues.Pause` | shimakaze/src/shimakaze/kcp_transport.cpp:266-271 | The pause is a whole number of microseconds, at least one, short of what the limit asks by less than a microsecond, and never longer than what it asks unless it is one microsecond. |
| `PacedQueues.WaitingLeavesInTime` | shimakaze/src/shimakaze/kcp_transport.cpp:244-280 | In every run whose expiries are taken at their times: when a packet leaves and others wait, the timer is armed, and the next packet leaves no later after it than max(1 microsecond, size / ratelimit), or when the handler itself was through if that was later. |
| `PacedQueues.IdleIsDueInTime` | shimakaze/src/shimakaze/kcp_transport.cpp:240-257 | In every run: a packet handed to an idle queue is due at once, or no later after the last send than that. |
| `PacedQueues.NothingAfterClosing` | shimakaze/src/shimakaze/kcp_transport.cpp:246-262 | In every run with a limit: once the transport is closing nothing leaves any more. |
| `SmuxFrame.ParseEncoded` | shimakaze/src/shimakaze/smux.cpp:520-601 | Parsing the layout that send_frame writes gives the frame and its size back, whatever follows. |
| `SmuxFrame.ParsePartial` | shimakaze/src/shimakaze/smux.cpp:539-541 | A frame that is not complete makes the parser wait. |
| `SmuxFrame.ParserRefuses` | shimakaze/src/shimakaze/smux.cpp:535-581 | The parser refuses a frame if and only if its version byte differs, or it is complete and its command is unknown or is an update outside version 2 or not of eight bytes. |
| `SmuxFrame.LeftoverBound` | shimakaze/src/shimakaze/smux.cpp:528-587 | What is left in the buffer of an open session is less than 8 + 65535 bytes. |
| `SmuxFrame.FeedIsSplit` | shimakaze/src/shimakaze/smux.cpp:520-587 | With room for the largest leftover and part, the frames dispatched, the rest and the error depend only on the concatenated bytes, and no overflow occurs. |
| `SmuxFrame.SplitEncoded` | shimakaze/src/shimakaze/smux.cpp:520-601 | A prefix of the bytes of frames splits into a prefix of the frames, without error. |
| `SmuxTransport.WireAppend` | shimakaze/src/shimakaze/smux.cpp:589-610 | Sending a frame appends its encoding, compressed or not, to what is on the wire. |
| `SmuxTransport.DispatchedPrefix` | shimakaze/src/shimakaze/smux.cpp:499-610 | Whatever prefix of the wire has arrived, in whatever parts and through compression, the frames dispatched are the first k frames sent, and all of them once everything has arrived. |
| `SmuxDispatch.DispatchIsSplit` | shimakaze/src/shimakaze/smux.cpp:528-587 | The loop that parses and handles in turn does what parsing everything first and then handling does; a bad frame closes the session after exactly the frames before it were handled. |
| `SmuxDispatch.ClosesOnRefusal` | shimakaze/src/shimakaze/smux.cpp:528-587 | Dispatching closes the session if and only if, behind the complete frames, a refused one stands at the front. |
| `SmuxDispatch.ConsumeWithin` | shimakaze/src/shimakaze/smux.cpp:522-526 | Bytes that do not fit max(1, smuxbuf) close the session without being looked at. |
| `SmuxDispatch.BufferStaysSmall` | shimakaze/src/shimakaze/smux.cpp:499-587 | Whatever bytes arrive, in whatever parts, compressed or not, an open session never holds more than max(1, smuxbuf) bytes. |
| `SmuxFlush.InflightGrows` | shimakaze/src/shimakaze/smux.cpp:255-262 | The wrapping difference of the counters follows a chunk, although both may wrap. |
| `SmuxFlush.WindowShrinks` | shimakaze/src/shimakaze/smux.cpp:239-261 | A chunk takes at least its length off the window, even where the sign check cuts in. |
| `SmuxFlush.FlushSpec` | shimakaze/src/shimakaze/smux.cpp:215-253 | The frames sent carry the next queued bytes encrypted at their positions and nothing else; no more than the window; something stays pending only when the window is closed. |
| `SmuxFlush.FlushFrames` | shimakaze/src/shimakaze/smux.cpp:221-251 | Every frame sent carries at least one and at most max(1, framesize) bytes, and each one shorter than that ends its buffer or, in version 2, is the last because it has used up the window. |
| `SmuxFrameLimit.SmuxFramesFit` | shimakaze/src/shimakaze/smux.cpp:215-253 | In every run, every PSH frame that an end has sent carries between 1 and max(1, framesize) bytes of that end's configuration. |
| `SmuxFrameLimit.BytesFramesFit` | shimakaze/src/shimakaze/smux.cpp:215-253 | The same in every run over bytes. |
| `SmuxProtocol.WindowExact` | shimakaze/src/shimakaze/smux.cpp:255-262 | While less than 2^31 bytes are in flight the wrapping counters give the window of unbounded ones. |
| `SmuxProtocol.MarkKeepsBatch` | shimakaze/src/shimakaze/smux.cpp:322-336 | incr_ equals what was written less what was last reported, stays below half the buffer, and the first consumption is always reported. |
| `SmuxPair.ReadKeeps` | shimakaze/src/shimakaze/smux.cpp:182-191 | A completed read keeps the books of the stream: bytes, positions, counters, credit. |
| `SmuxPair.WriteDoneKeeps` | shimakaze/src/shimakaze/smux.cpp:307-311 | A completed write keeps them. |
| `SmuxPair.LateKeeps` | shimakaze/src/shimakaze/smux.cpp:293-312 | A write that completes after its stream closed keeps them, whether its report still goes out or the session is closed. |
| `SmuxPair.DataKeeps` | shimakaze/src/shimakaze/smux.cpp:269-277 | A PSH frame keeps them: what is handed over grows by the decryption of the payload. |
| `SmuxPair.UpdateKeeps` | shimakaze/src/shimakaze/smux.cpp:365-373 | An UPD frame keeps them: the consumption it tells was sent, written, and no less than before. |
| `SmuxStreamPair.OpenerOpens` | shimakaze/src/shimakaze/smux.cpp:482-497 | Opening starts a stream for which nothing was ever sent or received at either end. |
| `SmuxStreamPair.OpenerAccepts` | shimakaze/src/shimakaze/smux.cpp:543-582 | Any frame that comes to the end that opened keeps the invariant of both ends. |
| `SmuxStreamPair.AcceptorAccepts` | shimakaze/src/shimakaze/smux.cpp:543-582 | Any frame that comes to the end that accepted keeps it, a SYN being the first and only one. |
| `SmuxStreamPair.EnqueuedIsPrefix` | shimakaze/src/shimakaze/smux.cpp:205-277 | What one end hands to its socket is a prefix of what the other end read from its own. |
| `SmuxStreamPair.WindowIsExact` | shimakaze/src/shimakaze/smux.cpp:231-262 | The window computed from the wrapping counters is the granted one less the bytes sent and not yet reported as written. |
| `SmuxStreamPair.NoCreditDeadlock` | shimakaze/src/shimakaze/smux.cpp:222-373 | With the stream open at both ends, nothing under way and everything received written out, the window is positive, nothing is pending, and all that was read has been written. |
| `SmuxSystem.OpenIsPossible` | shimakaze/src/shimakaze/smux.cpp:482-491 | A stream can be opened if and only if the session is not closed and the next number fits 32 bits. |
| `SmuxSystem.NextIsFree` | shimakaze/src/shimakaze/smux.cpp:482-497 | The number that open_stream takes is in no stream and no frame ever sent. |
| `SmuxSystem.MoveKeepsEnds` | shimakaze/src/shimakaze/smux.cpp:149-675 | Every handler at either end keeps the invariant of every stream of both sessions. |
| `SmuxSystem.Run` | shimakaze/src/shimakaze/smux.cpp:149-675 | Every sequence of events, late write completions and deliveries at the two ends leads to a world that satisfies the invariant. |
| `SmuxSystem.SmuxDeliversPrefix` | shimakaze/src/shimakaze/smux.cpp:205-277 | In every run, in either direction and for every stream, the plaintext handed to the socket is a prefix of what the peer read. |
| `SmuxSystem.SmuxWindowSafety` | shimakaze/src/shimakaze/smux.cpp:231-336 | In every run of version 2, bytes sent and not yet written out by the receiver never exceed max(262144, its streambuf). |
| `SmuxSystem.SmuxWindowExact` | shimakaze/src/shimakaze/smux.cpp:231-262 | In every run of version 2 and for streams of any length, the window computed from the wrapping counters and the sign check equals the one from unbounded counters: granted less sent but not yet reported as written. |
| `SmuxSystem.SmuxNoCreditDeadlock` | shimakaze/src/shimakaze/smux.cpp:222-373 | In every run, for a stream that both sessions still have: when both channels are empty and the receiver has written out all it received, the sender has a positive window and nothing pending, and all bytes have been written. |
| `SmuxProgress.ActStartsWrite` | shimakaze/src/shimakaze/smux.cpp:285-314 | A stream whose socket becomes ready or has completed a write has the next write under way if anything waits, and no event but a failed write ends that. |
| `SmuxProgress.DataStartsWrite` | shimakaze/src/shimakaze/smux.cpp:264-292 | Data that come to an open stream are queued decrypted, and a write is under way if the socket is ready. |
| `SmuxProgress.SmuxWritesStart` | shimakaze/src/shimakaze/smux.cpp:264-314 | In every run, a stream that is open and ready and has something to write has a write under way, unless one of its writes has failed. |
| `SmuxProgress.SmuxWritesOut` | shimakaze/src/shimakaze/smux.cpp:285-314 | From any point of such a run, as many completed writes as there are parts waiting are possible one after the other, and then nothing waits. |
| `SmuxProgress.SmuxReadIsWritten` | shimakaze/src/shimakaze/smux.cpp:205-373 | From any point of any run in which both ends have the stream and the receiver is ready and none of its writes has failed: deliveries and completed writes, each possible when it comes, lead to a point where all that was read has been written and the sender has credit and nothing pending. |
| `SmuxProgress.BytesWritesStart` | shimakaze/src/shimakaze/smux.cpp:264-314 | The first of these in every run over bytes. |
| `SmuxLife.SmuxKeepsStream` | shimakaze/src/shimakaze/smux.cpp:482-582 | In every run, a session has a stream from its first frame on until the stream or the session is closed at this end, so no frame for it is dropped. |
| `SmuxLife.SmuxEndTold` | shimakaze/src/shimakaze/smux.cpp:375-444 | In every run, exactly one FIN has been sent on a stream if its socket was read to the end or a write failed or the stream was closed there, and none otherwise. |
| `SmuxLife.SmuxEndToldOnce` | shimakaze/src/shimakaze/smux.cpp:338-384 | In every run, at most one FIN goes out, and an open stream is marked as having sent one or received one exactly when it has. |
| `SmuxLife.SmuxReadIsDelivered` | shimakaze/src/shimakaze/smux.cpp:205-582 | From any point of any run: if the other end has closed neither stream nor session and no write there has failed, then deliveries, its socket becoming ready and completed writes, each possible when it comes, lead to a point where all that was read on a stream has been written there. |
| `SmuxBatch.SmuxReportsSpaced` | shimakaze/src/shimakaze/smux.cpp:322-336 | In every run, from one report of an end to its next lie at least max(1, streambuf / 2) written bytes, but for the point where the 32-bit count comes round to zero. |
| `SmuxEndToEnd.PartCompletes` | shimakaze/src/shimakaze/smux.cpp:499-587 | The frames that one more part of the byte stream completes are exactly the next ones sent, and handling them is what on_transport_bytes does. |
| `SmuxEndToEnd.DeliverMany` | shimakaze/src/shimakaze/smux.cpp:520-587 | Handling a batch of frames is delivering them one by one, histories included. |
| `SmuxEndToEnd.ByteRun` | shimakaze/src/shimakaze/smux.cpp:499-610 | Every run over bytes, cut and compressed in any way, has the sessions and the histories of a run over frames with the same local events. |
| `SmuxEndToEnd.BytesDeliverPrefix` | shimakaze/src/shimakaze/smux.cpp:499-610 | In every run over bytes, in either direction and for every stream, the plaintext handed to the socket is a prefix of what the peer read. |
| `SmuxEndToEnd.BytesCloseOnlyOnRequest` | shimakaze/src/shimakaze/smux.cpp:499-587 | In every run over bytes no protocol error occurs: a closed session was told to close. |
| `SmuxEndToEnd.BytesWindowSafety` | shimakaze/src/shimakaze/smux.cpp:231-336 | In every run over bytes of version 2, bytes sent and not yet written out by the receiver never exceed max(262144, its streambuf). |
| `SmuxEndToEnd.AllBytesAllFrames` | shimakaze/src/shimakaze/smux.cpp:499-587 | Once all bytes sent have arrived, all frames sent have been handled. |
| `SmuxEndToEnd.BytesNoCreditDeadlock` | shimakaze/src/shimakaze/smux.cpp:222-373 | In every run over bytes, for a stream that both sessions still have: once all bytes sent have arrived and the receiver has written out all it got, the sender has credit and nothing pending, and all bytes have been written. |
| `Smux.SmuxStream.PeerWindow` | shimakaze/src/shimakaze/smux.cpp:255-262 | The method returns the window of the stream, zero when the sign bit of the difference is set. |
| `Smux.SmuxStream.TryFlushOutbound` | shimakaze/src/shimakaze/smux.cpp:215-253 | The loop over the queue leaves the stream and the sent frames as the flush function says, and nothing on a closed stream; the frames are cut as FlushFrames says: none empty, none over max(1, framesize), none short without need. |
| `Smux.SmuxStream.ReadCompleted` | shimakaze/src/shimakaze/smux.cpp:182-191 | Queues the bytes read and flushes. |
| `Smux.SmuxStream.SocketReady` | shimakaze/src/shimakaze/smux.cpp:107-118 | Once connected, a write is under way if anything waits. |
| `Smux.SmuxStream.OnData` | shimakaze/src/shimakaze/smux.cpp:264-292 | Queues the decrypted payload for the socket; on an open and ready stream a write is under way afterwards. |
| `Smux.SmuxStream.MarkPayloadConsumed` | shimakaze/src/shimakaze/smux.cpp:322-336 | Counts the bytes and reports them when half the buffer is reached or at the first time. |
| `Smux.SmuxStream.WriteCompleted` | shimakaze/src/shimakaze/smux.cpp:293-312 | Pops the written buffer, counts it; on an open and ready stream the next write is under way if anything waits. |
| `Smux.SmuxStream.OnUpdate` | shimakaze/src/shimakaze/smux.cpp:365-373 | Takes over the two numbers and flushes. |
| `Smux.SmuxStream.SendLocalFin` | shimakaze/src/shimakaze/smux.cpp:375-384 | Sends FIN once, and never from a closed stream. |
| `Smux.SmuxStream.Close` | shimakaze/src/shimakaze/smux.cpp:416-444 | Sends FIN if it was not sent, marks the stream closed and removes it from its session. |
| `Smux.SmuxSession.SendFrame` | shimakaze/src/shimakaze/smux.cpp:589-610 | A frame of at most 65535 payload bytes from an open session is appended to the wire in the layout, through the compressor if there is one; otherwise nothing happens. |
| `Smux.SmuxSession.OpenNewStream` | shimakaze/src/shimakaze/smux.cpp:482-497 | Succeeds if and only if the session is not closed and the next number fits 32 bits; then a fresh stream is registered under that number and one SYN is sent, and otherwise nothing changes. |
| `Smux.SmuxSession.Handle` | shimakaze/src/shimakaze/smux.cpp:543-582 | Dispatches a frame to its stream, touching no other stream. |
| `Smux.SmuxSession.ParseFront` | shimakaze/src/shimakaze/smux.cpp:529-573 | Looks at the front of the buffer with the checks in the order of the header. |
| `Smux.SmuxSession.ConsumeStreamBytes` | shimakaze/src/shimakaze/smux.cpp:520-587 | The loop leaves the session as the dispatch function says; more bytes than max(1, smuxbuf) close it, and so does a bad frame. |
| `Smux.SmuxSession.OnTransportBytes` | shimakaze/src/shimakaze/smux.cpp:499-518 | Decompresses if configured, closes on a decoding error, and otherwise consumes the chunks in order. |
| `Smux.SmuxSession.Close` | shimakaze/src/shimakaze/smux.cpp:658-675 | Marks the session closed, closes every stream without sending, and forgets them. |

## Left out

- FecNetwork.FecSoundness: for payloads of at most 65533 bytes and sequence numbers below 2^31, where group numbers compare without wrapping.
- FecNetwork.FecCompleteness: at least once rather than exactly once, and below 2^31; FecAcrossWrap.RecoveredAcrossWrap is the form without that bound, for packets that do not outlive one round of the numbering.
- ReedSolomonCoder.ReedSolomon.Encode: the parity vectors passed by reference are returned as values; so are the shards of ReconstructData. Aliasing between shards is not modelled.
- Fec.FecCodec.Decode: the packet statistics are not modelled.
- FecTiming.FilledGroupSurvives: under the same bounds, 65533 bytes and 2^31; FecTiming.FilledGroup likewise.
- SmuxLife.SmuxReadIsDelivered: what can still happen from any point, not that it must; that sockets and the network go on is an assumption about the outside.
- SmuxSystem.SmuxNoCreditDeadlock: about credit at rest while both sessions have the stream; a receiver that has closed its stream reports no more, and its sender may stay without credit; that a stream finally closes is not claimed, because flushing after an update does not look whether the stream is finished.
- SmuxEndToEnd.ByteRun: the transport is reliable and in order, both ends use the same version and compression setting, and smuxbuf is at least 65542 bytes more than the largest part; the calls that an accept handler makes are events of their own.
- Smux.SmuxSession.OnTransportBytes: the time of last activity and the keepalive timeout are not kept; a timeout is a close event.
- Smux.SmuxStream.OnFin: the socket shutdown and the close timer that follow a FIN are not modelled; closing is an event.
- Smux.SmuxStream.TryFlushOutbound: the lifetime of the session behind the weak pointer; the session is passed as an argument.
- Smux.SmuxStream.OnData: the stream keeps its two cipher positions instead of holding a QppStream object; QppStreams proves that such an object is a cipher of that kind.
- PacketCrypts.BlockCfbCrypt: the block function is any function of the right size; that a particular cipher is secure is not a statement of this model.
- AES-GCM packets: a library call with its own nonce and tag.
- Qpp.QppPad.constructor: the derivation of seed chunks, AES keys and pad names by PBKDF2 and HMAC is represented by parameters; so is that of the generator words.
- validate_qpp_params: advice on configuration values.
- KCP itself (`ikcp_*`): taken as a reliable byte transport above, and as a source of packets no larger than the mtu below.
- PacedQueues.PacedQueue.OnRateTimer: the UDP send is recorded, not carried out; its completion and its statistics are not modelled.
- Sockets, resolvers, acceptors, timers, logging, statistics, configuration and address parsing, and the client and server accept loops: plumbing.
- kcp_session.cpp and compression.cpp: not part of the build, and they would only add easier forms of the same claims.

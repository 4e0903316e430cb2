# Verified model of librist's protocol engine and bundled codecs

A Dafny model of the RIST library that the application embeds (`app/src/main/jni/external/rist`): the
retransmission engine of receiver and sender, the request packets between them, the peer scheduler, the
output queue, and the third-party code that the library carries with it (LZ4, SHA-256 and PBKDF2, AES,
SRP-6a, `getopt`'s argument permutation, MPEG-TS null packet deletion). `dafny verify dfyconfig.toml` checks
the whole project with Dafny 4.11.

Code that changes buffers and structures step by step is modelled by methods on arrays and classes with the
same loops and branches; what these methods compute is stated by functions, and the properties of these
functions are lemmas. Where two threads meet without a lock, at the output queue and at the receiver's ring,
the model is a state machine over single steps.

## The components

**LZ4 block codec** (`Lz4Format`, `Lz4Compress`, `Lz4Decode`, `Lz4Decompress`, `Lz4RoundTrip`, `Lz4Accept`,
`Lz4`). `Lz4Format` says what a block is, independently of both programs: a parse of the source into sequences
that keep the end-of-block restrictions. The compressor, with its hash table, step acceleration, backwards
extension, follow-up matches and both output modes, produces such an encoding for every hash function and
every acceleration. The decoder, on the output array with its oversized copies, the 4+4+8-byte copy with
its two adjustment tables, the two-stage shortcut and all bounds checks, is proved against a step-by-step
specification for every input, well-formed or not; that specification gives the source back for every
well-formed block, and `Lz4Accept` says exactly which inputs it takes for blocks.

**Receiver** (`ReceiverQueue`, `MissingList`, `MissingRuns`, `ReceiverFlow`, `ReceiverRuns`, `RingRace`). The ring
of 65536 packets with its byte count, the linked list of missing numbers with its tail, counter and request buffer,
the output loop and the restart rules. The invariant `Flow.Valid` is kept by arrivals, output, resets, statistics
and request passes in any order: every packet in the slot of its number, a byte count of at least the stored bytes,
a consistent list, and a stream of delivered blocks in which every unflagged block continues its predecessor.
`Flow.Clean` (the slot behind the output index is empty, no stored packet is empty) is kept as well, as long as no
empty packet arrives. `Flow.Excess` is the surplus of the byte count: only a replacement in a slot with another
source time raises it, by the size of the packet replaced, so on runs of whole calls without one the "should never
happen" full circle of the output loop cannot be reached; when it is, the surplus is cleared. In the code storing a
packet and taking packets out run in two threads, and storing takes no lock once a flow is running. `RingRace`
interleaves the single steps of the two: the full circle stays out of reach as long as, besides, no packet leaves
between its pointer store and its count (`RingRace.PatientRun`), and `RingRace.FullCircleIff` names the states from
which it comes. `ReceiverRuns` follows each packet from its arrival to the time at which it leaves, through every
run of calls in any order: when it is put out, that it leaves once, what becomes of duplicates, and that none is
lost. For a request pass, `Survivors`, `Requested` and `PassGroups` say what stays, what is asked for and how it is
sent; the budget of an entry (count, age, spacing, first request) is proved over whole runs of passes, and so is
the other side (`MissingRuns`): at which looks a request is made, and that an entry gets all its requests if there
are enough passes that suit.

**Sender** (`SenderQueue`). The ring of 524288 packets with its three indices, the byte count and the
table from 16-bit numbers to slots, against the log of all packets ever stored: what is in which slot, that
nothing is deleted before it is sent, that a retransmission request finds what a search would find, and what
becomes of a ring that is full.

**Request packets** (`NackRecords`, `Rtcp`, `RtcpBuffer`, `RtcpReader`, `RtcpFormat`). Range and bit-mask records,
the three RTCP packets of a request (sections 6.4 to 6.7 of RFC 3550, section 6.2.1 of RFC 4585), their writers in
place on the buffer, and the reader's loop over packets of every type, with every byte that it needs. `RtcpFormat`
states the packets in the literal numbers of the standards.

**Scheduler** (`Scheduler`). The weighted election of a peer for each packet, over any number of rounds.

**Output queue** (`OutputFifo`, `OutputStream`). One producer and one consumer on a ring with two indices and an
overflow flag, in every interleaving, with weak compare-and-swaps that may fail for no reason; and what the
application reads, compared with the stream that the receiver offers to the queue.

**Hashing and key derivation** (`Sha256`, `Sha256Constants`, `Pbkdf2`). The streaming context against the one-shot
hash of FIPS 180-4, HMAC of RFC 2104, and the key derivation from cached midstates against section 5.2 of RFC 8018.

**AES** (`AesTables`, `Gf256`, `AesField`, `AesStandard`, `Aes`, `AesCipher`, `AesModes`). The look-up tables, that
the substitution is the affine map of the inverse in GF(2^8) and the product table its multiplication, the round
steps in place on the state, their inversion, and the CBC and CTR modes of NIST SP 800-38A on buffers that may
overlap completely.

**SRP-6a** (`Srp`, `SrpSession`). Both sides of section 2.6 of RFC 5054 over mathematical integers and
arbitrary hash functions, and a run between them with any two passwords.

**Argument permutation** (`PermuteArgs`). The block exchange by gcd cycles. **Null packet deletion**
(`NullPackets`, `Bits`). Suppression and expansion, section 8.3 of VSF TR-06-2.

## What the code does that its comments do not say

- LZ4: the decoder accepts more than blocks, exactly as `Lz4Accept.AcceptsIff` says. The shortcut does not
  repeat the checks of the ordinary path (`Lz4Accept.ShortcutAccepts`), an offset of zero puts out zeros
  (`Lz4Accept.ZeroOffset`), and the error of a literal length that runs into its limit is ignored
  (`Lz4Accept.LimitIgnored`). None of this touches blocks that the compressor can produce.
- Between its pointer store and its count a packet of the receiver's ring can leave (`RingRace.UncountedLeaves`):
  the byte count wraps, the output loop goes full circle and stops the flow. `RingRace.PatientRun` and
  `RingRace.FullCircleIff` say exactly when; a packet that leaves even earlier has its fields written through
  an empty slot (`RingRace.BrokenIff`).
- `expected_seq` is masked with 65534 instead of 65535, so after an even number it is the number found last
  that passes as expected (`ReceiverFlow.ExpectedIs`), and packets in order can be taken for late ones
  (`ReceiverFlow.InOrderArrival`).
- Marking a gap when the last number found arrives again queues the other 65535 numbers (`MissingList.GapExact`).
- Replacing a packet in its slot leaves the old size in the byte count (`ReceiverFlow.Flow.Put`).
- An empty packet can survive the restart of a flow, as emptying the ring stops when the byte count is zero
  (`ReceiverFlow.ZeroLengthStays`); `ReceiverFlow.BehindRestart` says exactly when the slot behind the output
  index is then occupied.
- The sender's ring has no check for being full. With every slot in use it looks empty (`SenderQueue.IndicesMeet`,
  `SenderQueue.Overfill`), and the next packet replaces the oldest one, whose bytes stay in the count
  (`SenderQueue.Sender.Enqueue`).
- The first packet sent reaches no weighted peer, as the counts start at zero and the second election is
  switched off before it can happen (`Scheduler.FirstPacketElectsNobody`).
- The padding of a description copies bytes behind the name; for a name of 126 or more bytes it reaches beyond
  the 128 bytes of the name array (`Rtcp.NameFits`), which is why the writers here ask for enough bytes behind
  the name.
- The reader of compound packets takes the bytes left as one more than they are and checks no packet against its
  type, so it can read past the buffer (`RtcpReader.HeaderOutside`, `RtcpReader.ExtensionOutside`), copy a name
  past its array (`RtcpReader.NameOverruns`) and stay at a packet or at a block for ever
  (`RtcpReader.StuckInput`, `RtcpReader.BlockStuck`). `RtcpReader.ReaderIff` and `RtcpReader.EndlessIff` say
  exactly when; none of it happens to packets that the writers produce (`RtcpReader.CompoundRoundTrip`).
- PBKDF2's block count is cast to 32 bits before the division (`Pbkdf2.WritesAllIff`).
- SRP reduces the client's exponent modulo N, which is not the order of the group (`Srp.AgreeIff`,
  `Srp.SecretsAgree`, `Srp.ReductionMatters`).
- `UNSET_BIT` keeps the bit it should clear and clears the others, so a payload with a wrong first byte leaves
  the flags at 128 (`NullPackets.SuppressNullPackets`).
- Expanding starts at bit 6 while suppression starts at the bit of the packet count less one, so only payloads
  of seven packets, or without null packets, come back (`NullPackets.GivesBackIff`).
- The buffer for a suppressed payload is four bytes too small for six packets of 204 bytes
  (`NullPackets.CallSiteFits`).
- A group of requests is not sent, and stays in the buffer, while the flow has no peer; the buffer is emptied
  when it reaches 200, and the entries count as requested all the same (`MissingList.NothingSent`).
- The overflow mark of a block read does not say where blocks are missing: it can come with the block before
  the gap (`OutputStream.UnmarkedGap`, `OutputStream.MarkComes`).

## Model

| member | source | states |
|---|---|---|
| `Lz4.CompressAndDecompress` | app/src/main/jni/external/rist/contrib/lz4/lz4.c:1248-1264 | whatever the hash function and the acceleration: if compression returns a non-zero size, decompressing that block into a buffer of at least the source size returns the source size and exactly the source; with a destination of the bound size it does return one |
| `Lz4RoundTrip.RoundTrip` | app/src/main/jni/external/rist/contrib/lz4/lz4.c:1843-2067 | decoding, with any capacity of at least the source size, gives back the source for every block that encodes a parse keeping the end-of-block restrictions, so also for blocks of other encoders |
| `Lz4RoundTrip.DecodeParse` | app/src/main/jni/external/rist/contrib/lz4/lz4.c:1844-1956 | the decoder, started anywhere in an encoded parse with the bytes before that point already put out, completes the source |
| `Lz4RoundTrip.StepReadsSequence` | app/src/main/jni/external/rist/contrib/lz4/lz4.c:1845-2054 | one turn of the decoder reads exactly one encoded sequence, by the shortcut or by the checked path, and passes every bounds check as long as six bytes follow |
| `Lz4RoundTrip.StepReadsLast` | app/src/main/jni/external/rist/contrib/lz4/lz4.c:1900-1956 | the last literals are recognised as the last sequence and end the decoding with the whole source put out |
| `Lz4RoundTrip.RepetitionIsCopy` | app/src/main/jni/external/rist/contrib/lz4/lz4.c:2007-2054 | a stretch of the source that equals itself `offset` earlier is what the overlapping byte-by-byte copy produces |
| `Lz4RoundTrip.ReadRunExtension` | app/src/main/jni/external/rist/contrib/lz4/lz4.c:1626-1645 | reading a length extension undoes writing it, and the third result says exactly whether the limit was kept |
| `Lz4Format.BlockSizeBound` | app/src/main/jni/external/rist/contrib/lz4/lz4.c:607 | every encoding of n bytes has between 1 and n + n/255 + 2 bytes, within the promised n + n/255 + 16 |
| `Lz4Format.EncodeAllCost` | app/src/main/jni/external/rist/contrib/lz4/lz4.c:959-1140 | the sequences that cover k bytes of the source cost at most k + k/255 bytes, each one being paid for by what it covers |
| `Lz4Compress.CompressFast` | app/src/main/jni/external/rist/contrib/lz4/lz4.c:1180-1200 | the size is never above the capacity; a non-zero size is that of an encoding of the source; it is non-zero whenever the capacity reaches the bound, and zero above the largest input |
| `Lz4Compress.CompressGeneric` | app/src/main/jni/external/rist/contrib/lz4/lz4.c:789-1177 | with any table of indices and in either output mode the result is an encoding of the source or zero; zero only in limited mode, above the largest input or for an input too large for 16-bit indices |
| `Lz4Compress.WriteSequences` | app/src/main/jni/external/rist/contrib/lz4/lz4.c:856-1140 | the main loop puts out an encoded parse of what it has covered |
| `Lz4Compress.FindMatch` | app/src/main/jni/external/rist/contrib/lz4/lz4.c:882-948 | whatever the hash, a candidate is accepted only if four bytes repeat at most 65535 back; every table entry stays behind the position |
| `Lz4Compress.CatchUp` | app/src/main/jni/external/rist/contrib/lz4/lz4.c:951-953 | extending a match backwards keeps its distance and stops exactly at the anchor, at the start, or at the first difference |
| `Lz4Compress.CommonBytes` | app/src/main/jni/external/rist/contrib/lz4/lz4.c:463-532 | the number of leading bytes in which two words agree, and no more |
| `Lz4Compress.Count` | app/src/main/jni/external/rist/contrib/lz4/lz4.c:536-559 | the length counted by words of eight, four, two and one is the exact length of the repetition before the limit |
| `Lz4Compress.TestNext` | app/src/main/jni/external/rist/contrib/lz4/lz4.c:1089-1137 | an immediate follow-up match is taken only if it repeats four bytes within the distance |
| `Lz4Compress.EmitLiterals` | app/src/main/jni/external/rist/contrib/lz4/lz4.c:958-984 | the token, the length and the literals of a sequence are written after what is there, or there is no room in limited mode |
| `Lz4Compress.EmitMatch` | app/src/main/jni/external/rist/contrib/lz4/lz4.c:986-1077 | offset, match length and token complete an encoded sequence that describes the source; without a limit there is always room |
| `Lz4Compress.MeasureMatch` | app/src/main/jni/external/rist/contrib/lz4/lz4.c:1030-1032 | the match leaves the last five bytes alone and starts at least twelve before the end |
| `Lz4Compress.WriteMatch` | app/src/main/jni/external/rist/contrib/lz4/lz4.c:1002-1077 | in limited mode it fails exactly if the sequence and the last literals would not fit, and otherwise the buffer holds the encoded sequence |
| `Lz4Compress.MatchRoom` | app/src/main/jni/external/rist/contrib/lz4/lz4.c:959-963 | without limits the bound on the block leaves room for every sequence |
| `Lz4Compress.WriteMatchTail` | app/src/main/jni/external/rist/contrib/lz4/lz4.c:1061-1074 | the match length extension written four bytes of 255 at a time is the one written byte by byte |
| `Lz4Compress.WriteLast` | app/src/main/jni/external/rist/contrib/lz4/lz4.c:1142-1168 | the last literals complete the block |
| `Lz4Decompress.Decompress` | app/src/main/jni/external/rist/contrib/lz4/lz4.c:2074-2079 | the in-place decoder stays inside both buffers for every input and returns the size and the bytes, or the negative error position, that the specification of the format reader gives |
| `Lz4Decompress.OneStep` | app/src/main/jni/external/rist/contrib/lz4/lz4.c:1844-2055 | one turn of the main loop on the buffer performs one step of the specification, the shortcut with its oversized copies included |
| `Lz4Decompress.ReadVariableLength` | app/src/main/jni/external/rist/contrib/lz4/lz4.c:1626-1645 | a length extension is read up to the limit, with the sum modulo 2^32 |
| `Lz4Decompress.LiteralPart` | app/src/main/jni/external/rist/contrib/lz4/lz4.c:1900-1956 | literals are copied or finish the block or fail exactly as the parsing restrictions say |
| `Lz4Decompress.MatchPart` | app/src/main/jni/external/rist/contrib/lz4/lz4.c:1958-2055 | from the offset on: fails exactly if the offset points before the output, the length cannot be read or the last five bytes would be touched |
| `Lz4Decompress.CopyMatch` | app/src/main/jni/external/rist/contrib/lz4/lz4.c:2007-2055 | the copies by four, eight and more bytes that may overrun give the overlapping byte-by-byte copy, and it fails exactly if the last five bytes would be touched |
| `Lz4Decompress.CopyEight` | app/src/main/jni/external/rist/contrib/lz4/lz4.c:2026-2039 | for every offset, the first eight bytes and the new match position after the two adjustment tables continue the period of the match |
| `Lz4Decompress.CopyFour` | app/src/main/jni/external/rist/contrib/lz4/lz4.c:2027-2031 | the first four bytes one at a time, and four zeros for an offset of zero |
| `Lz4Decompress.WildCopy8` | app/src/main/jni/external/rist/contrib/lz4/lz4.c:359-366 | copying eight bytes at a time from a distance that is a multiple of the period continues the period, whatever is overwritten behind the end |
| `Lz4Decompress.CopyNearEnd` | app/src/main/jni/external/rist/contrib/lz4/lz4.c:2041-2049 | near the end of the buffer the copy falls back to single bytes and stays inside |
| `Lz4Decompress.CopyEighteen` | app/src/main/jni/external/rist/contrib/lz4/lz4.c:1877-1881 | the 18 bytes copied for a short match contain the match |
| `Lz4Decode.StepProgress` | app/src/main/jni/external/rist/contrib/lz4/lz4.c:1844-2055 | every turn consumes input and keeps the output within the capacity, for every input |
| `Lz4Accept.AcceptsIff` | app/src/main/jni/external/rist/contrib/lz4/lz4.c:1843-2079 | for every input, capacity and result: decoding returns the result if and only if the input can be read as sequences and last literals by the loose rules stated there, and they give it; with no capacity, only the block of nothing is decoded |
| `Lz4Accept.DecodeOfReads` | app/src/main/jni/external/rist/contrib/lz4/lz4.c:1843-2067 | what can be read by the loose rules from any point on is what the decoder returns from there |
| `Lz4Accept.ReadsOfDecode` | app/src/main/jni/external/rist/contrib/lz4/lz4.c:1843-2067 | whenever the decoder returns data there is such a reading |
| `Lz4Accept.ShortcutAccepts` | app/src/main/jni/external/rist/contrib/lz4/lz4.c:1862-1899 | eighteen bytes that end in a match by the shortcut are decoded, although by the format they are not a block of anything they could stand for |
| `Lz4Accept.ZeroOffset` | app/src/main/jni/external/rist/contrib/lz4/lz4.c:2026-2031 | a sequence with an offset of zero is read and puts out zeros |
| `Lz4Accept.LimitIgnored` | app/src/main/jni/external/rist/contrib/lz4/lz4.c:1888-1897 | a literal length that runs into its limit is used all the same: a block is given for which the reader reports the error and the decoder returns data |
| `PermuteArgs.PermuteArgs` | app/src/main/jni/external/rist/contrib/getopt-shim.c:159-188 | the two adjacent blocks are exchanged exactly, each in its own order, and nothing else changes, for all lengths of the first block and every positive length of the second |
| `PermuteArgs.Gcd` | app/src/main/jni/external/rist/contrib/getopt-shim.c:139-151 | the result divides both numbers and every common divisor divides it |
| `PermuteArgs.AllCycles` | app/src/main/jni/external/rist/contrib/getopt-shim.c:173-187 | the outer loop, one cycle for each residue modulo the gcd, moves every element of the two blocks to its place |
| `PermuteArgs.OneCycle` | app/src/main/jni/external/rist/contrib/getopt-shim.c:174-186 | the inner loop walks one cycle and moves each of its elements on by one stop |
| `PermuteArgs.MoveContents` | app/src/main/jni/external/rist/contrib/getopt-shim.c:177-185 | one swap of the inner loop changes the arrangement in exactly the two cells that the walk says |
| `PermuteArgs.AtEnd` | app/src/main/jni/external/rist/contrib/getopt-shim.c:153-157 | when every cycle has been walked the arrangement is the second block followed by the first |
| `PermuteArgs.BezoutInverse` | app/src/main/jni/external/rist/contrib/getopt-shim.c:168-171 | divided by the gcd, the length of the first block is invertible modulo the cycle length |
| `PermuteArgs.StopInverse` | app/src/main/jni/external/rist/contrib/getopt-shim.c:176-180 | the walk meets every stop of its cycle once: the step number can be recovered from the stop |
| `PermuteArgs.PosMove` | app/src/main/jni/external/rist/contrib/getopt-shim.c:177-180 | the two branches that move the position are the same step round the cycle |
| `OutputFifo.RunInv` | app/src/main/jni/external/rist/src/rist-common.c:950-972 | the invariant of the ring, its two indices, the flag and both threads holds after every interleaving of their single atomic steps |
| `OutputFifo.InOrderAndComplete` | app/src/main/jni/external/rist/src/rist.c:183-208 | in every reachable state what was read is a prefix, in order, of what was stored, and every other stored block is still in its slot or in the reader's hands: none lost, none read twice |
| `OutputFifo.StoresIntoEmptySlot` | app/src/main/jni/external/rist/src/rist-common.c:953-961 | a block is only ever stored in an empty slot: no unread block is overwritten |
| `OutputFifo.RefusedIffFull` | app/src/main/jni/external/rist/src/rist-common.c:950-957 | a block is refused exactly if the queue has no size or, as the producer last saw it, one slot less than its size is taken |
| `OutputFifo.AssertionHolds` | app/src/main/jni/external/rist/src/rist.c:197 | the assertion after the read loop never fires, and a read that gets there has a block |
| `OutputFifo.ReadDeliversNext` | app/src/main/jni/external/rist/src/rist.c:183-208 | with a block published and the producer quiet, a read delivers the next stored block in ten steps, or eleven if the overflow flag is up |
| `OutputFifo.MarkedIffRefused` | app/src/main/jni/external/rist/src/rist.c:201-206 | a delivered block carries the overflow mark exactly if a block has been refused since the last report |
| `OutputFifo.DistanceIsDifference` | app/src/main/jni/external/rist/src/rist-common.c:952 | the masked unsigned difference of the two indices is the number of blocks between them, across every wrap |
| `OutputFifo.StoreInv` | app/src/main/jni/external/rist/src/rist-common.c:953-961 | storing keeps the invariant: the slot was free because the reader had moved past it |
| `OutputFifo.SwapInv` | app/src/main/jni/external/rist/src/rist.c:189-193 | winning the compare-and-swap keeps the invariant: the slot won holds the next block |
| `OutputStream.ReadsFollowIff` | app/src/main/jni/external/rist/src/rist.c:183-208 | of two blocks read one after the other, in any run, with no flag on the second or on a block refused between them, the numbers follow each other if and only if a multiple of 65536 blocks was refused between them |
| `OutputStream.ReadsOfFlow` | app/src/main/jni/external/rist/src/rist-common.c:915-972 | that holds for the blocks that the receiver hands over, whatever their stream is |
| `OutputStream.FlowOffersStream` | app/src/main/jni/external/rist/src/rist-common.c:915-972 | what the receiver hands over is a stream in which an unflagged block continues the one before it |
| `OutputStream.MarkComes` | app/src/main/jni/external/rist/src/rist.c:201-206 | when blocks were refused before a block that has been read, it or one read before it carries the overflow mark for them |
| `OutputStream.UnmarkedGap` | app/src/main/jni/external/rist/src/rist.c:183-208 | a run in which block 7 is read right after block 5 with neither flag nor mark: the mark came with block 5 |
| `OutputStream.AlwaysKept` | app/src/main/jni/external/rist/src/rist-common.c:950-972 | in every run the stored blocks are the offered ones without the refused, and a read is marked exactly if it reports something new, then at least what came before its block |
| `Sha256.HashChunks` | app/src/main/jni/external/rist/contrib/sha256.c:108-167 | however a message is cut into pieces, the streamed hash is the one-shot hash of FIPS 180-4 of the whole message |
| `Sha256.Context.Update` | app/src/main/jni/external/rist/contrib/sha256.c:108-121 | a context that has taken in m has taken in m followed by the new bytes, for every piece for which the loop ends |
| `Sha256.CounterEndsIff` | app/src/main/jni/external/rist/contrib/sha256.c:108-121 | the loop over a piece, with its 32-bit counter, ends if and only if the piece has fewer than 2^32 bytes |
| `Sha256.Context.TakeByte` | app/src/main/jni/external/rist/contrib/sha256.c:111-120 | a context that has taken in m has taken in m and the byte: a full buffer is compressed and the bit count kept |
| `Sha256.Context.PadBuffer` | app/src/main/jni/external/rist/contrib/sha256.c:127-154 | the buffer padded in place, with one more block when fewer than nine bytes are free, gives the state of the padded message |
| `Sha256.Context.Final` | app/src/main/jni/external/rist/contrib/sha256.c:123-167 | the digest of exactly what was taken in |
| `Sha256.Context.Transform` | app/src/main/jni/external/rist/contrib/sha256.c:53-92 | the expanded schedule and the 64 rounds on the state words are the compression function of section 6.2.2 of FIPS 180-4 |
| `Sha256.Context.Init` | app/src/main/jni/external/rist/contrib/sha256.c:94-106 | an initialised context has taken in nothing |
| `Sha256Constants.KIs` | app/src/main/jni/external/rist/contrib/sha256.c:41-50 | each of the 64 round constants is the first 32 bits of the fractional part of the cube root of its prime |
| `Sha256Constants.H0Is` | app/src/main/jni/external/rist/contrib/sha256.c:98-105 | each word of the initial value is the first 32 bits of the fractional part of the square root of its prime |
| `Sha256.PadParts` | app/src/main/jni/external/rist/contrib/sha256.c:129-141 | the padding of section 5.1.1 of FIPS 180-4 is one or two blocks after the whole blocks of the message, by how much of the last one is used |
| `Sha256.HashBlocksSnoc` | app/src/main/jni/external/rist/contrib/sha256.c:114-118 | compressing block by block is the same as compressing the longer message |
| `Pbkdf2.Derive` | app/src/main/jni/external/rist/contrib/fastpbkdf2.c:243-269 | the output is the derived key of section 5.2 of RFC 8018 over HMAC-SHA-256, for every password, salt, iteration count and output length, as far as the block count reaches; bytes beyond that are untouched |
| `Pbkdf2.WritesAllIff` | app/src/main/jni/external/rist/contrib/fastpbkdf2.c:256 | the whole output is written if and only if its length plus 31 is below 2^32, as the cast comes before the division |
| `Pbkdf2.BlockF` | app/src/main/jni/external/rist/contrib/fastpbkdf2.c:200-241 | one block is F of section 5.2 of RFC 8018: the exclusive-or of U_1 to U_c |
| `Pbkdf2.LaterU` | app/src/main/jni/external/rist/contrib/fastpbkdf2.c:221-240 | from U_1 in the block and in the outer hash, the rest of the function puts F into the output |
| `Pbkdf2.Iterate` | app/src/main/jni/external/rist/contrib/fastpbkdf2.c:225-237 | the loop over cached midstates computes the same U_2 to U_c and their exclusive-or |
| `Pbkdf2.NextU` | app/src/main/jni/external/rist/contrib/fastpbkdf2.c:228-236 | two raw compressions from the cached midstates are one HMAC of the previous 32-byte value |
| `Pbkdf2.MidstateHash` | app/src/main/jni/external/rist/contrib/fastpbkdf2.c:229-231 | one raw compression of the cached key state over a block that ends in the prepared padding is the full hash of key block and value |
| `Pbkdf2.PadOfBlockAndHash` | app/src/main/jni/external/rist/contrib/fastpbkdf2.c:209-211 | the padding prepared once is that of every 96-byte message |
| `Pbkdf2.MdPad` | app/src/main/jni/external/rist/contrib/fastpbkdf2.c:90-96 | the 0x80 byte, zeros and the bit length modulo 2^32 after the used bytes |
| `Pbkdf2.FirstU` | app/src/main/jni/external/rist/contrib/fastpbkdf2.c:216-220 | the first U, by the streaming HMAC over salt and counter |
| `Pbkdf2.PrepareKey` | app/src/main/jni/external/rist/contrib/fastpbkdf2.c:141-162 | a key longer than a block is hashed, any other is filled up with zeros |
| `Pbkdf2.HmacContext.Init` | app/src/main/jni/external/rist/contrib/fastpbkdf2.c:138-182 | the two hashes have taken in the inner and the outer key block of section 2 of RFC 2104 |
| `Pbkdf2.HmacContext.Update` | app/src/main/jni/external/rist/contrib/fastpbkdf2.c:184-188 | the message taken in so far grows by the new bytes |
| `Pbkdf2.HmacContext.Final` | app/src/main/jni/external/rist/contrib/fastpbkdf2.c:190-196 | the result is the HMAC of everything taken in |
| `Pbkdf2.HmacContext.Copy` | app/src/main/jni/external/rist/contrib/fastpbkdf2.c:216 | a copy continues from the same state without touching the original |
| `Pbkdf2.DigestBytesXor` | app/src/main/jni/external/rist/contrib/fastpbkdf2.c:306-317 | exclusive-or of the state words is exclusive-or of the output bytes |
| `Pbkdf2.XorState` | app/src/main/jni/external/rist/contrib/fastpbkdf2.c:306-317 | the state becomes the exclusive-or of the two states, word by word |
| `Pbkdf2.Extract` | app/src/main/jni/external/rist/contrib/fastpbkdf2.c:274-285 | the eight words, most significant byte first |
| `Pbkdf2.NextBlock` | app/src/main/jni/external/rist/contrib/fastpbkdf2.c:260-268 | each turn adds one block of the key to the output, cut at its end |
| `AesCipher.BlockInverse` | app/src/main/jni/external/rist/contrib/aes.c:940-1080 | decryption undoes encryption for every block, every array of round keys and all three key sizes |
| `Aes.DecryptUndoesEncrypt` | app/src/main/jni/external/rist/contrib/aes.c:940-1080 | the inverse rounds undo the rounds for any number of rounds |
| `Aes.InvRoundsUndo` | app/src/main/jni/external/rist/contrib/aes.c:1013-1080 | from any round down, the inverse rounds lead back to the state before the first round key |
| `Aes.MixColumnUndone` | app/src/main/jni/external/rist/contrib/aes.c:756-934 | the inverse column mixing undoes the mixing, with the products taken from the table |
| `Aes.SubUndone` | app/src/main/jni/external/rist/contrib/aes.c:652-746 | substitution and row shift are undone by their inverses in the order in which decryption applies them |
| `Aes.AddKeyUndone` | app/src/main/jni/external/rist/contrib/aes.c:603-644 | adding a round key twice changes nothing |
| `AesTables.SubInverse` | app/src/main/jni/external/rist/contrib/aes.c:54-91 | the inverse substitution table undoes the substitution table, for all 256 bytes |
| `AesTables.SubInverse2` | app/src/main/jni/external/rist/contrib/aes.c:54-91 | the substitution table undoes the inverse one, for all 256 bytes |
| `AesStandard.SubIs` | app/src/main/jni/external/rist/contrib/aes.c:54-71 | for all 256 bytes: the substitution is the affine map of z, where b * z = 1 in GF(2^8), or z = 0 for b = 0 (section 5.1.1 of FIPS 197) |
| `AesStandard.InvSubIs` | app/src/main/jni/external/rist/contrib/aes.c:74-91 | for all 256 bytes: the inverse substitution takes that value back to b |
| `AesStandard.AffineBits` | app/src/main/jni/external/rist/contrib/aes.c:54-71 | bit i of the affine map is the sum of bits i, i+4, i+5, i+6, i+7 and bit i of 0x63 (equation 5.1) |
| `AesStandard.MixIs` | app/src/main/jni/external/rist/contrib/aes.c:756-844 | the mixing of a column is the product with the matrix of twos, threes and ones in GF(2^8) (equation 5.6) |
| `AesStandard.RoundExample` | app/src/main/jni/external/rist/contrib/aes.c:940-960 | the first round of the example in appendix B of FIPS 197 |
| `AesField.Mul9Is` | app/src/main/jni/external/rist/contrib/aes.c:98-227 | column 2 of the product table is multiplication by 9 in GF(2^8), for all 256 bytes |
| `AesField.Mul11Is` | app/src/main/jni/external/rist/contrib/aes.c:98-227 | column 3 of the product table is multiplication by 11 in GF(2^8), for all 256 bytes |
| `AesField.Mul13Is` | app/src/main/jni/external/rist/contrib/aes.c:98-227 | column 4 of the product table is multiplication by 13 in GF(2^8), for all 256 bytes |
| `AesField.Mul14Is` | app/src/main/jni/external/rist/contrib/aes.c:98-227 | column 5 of the product table is multiplication by 14 in GF(2^8), for all 256 bytes |
| `AesField.MixUndone` | app/src/main/jni/external/rist/contrib/aes.c:756-934 | one byte of the inverse mixing of a mixed column is the original byte |
| `AesField.Coefficients` | app/src/main/jni/external/rist/contrib/aes.c:846-934 | the four products of the two coefficient rows sum to one and to zero |
| `AesCipher.EncryptBlock` | app/src/main/jni/external/rist/contrib/aes.c:940-1011 | the steps in place on the 4 by 4 state, with the extra rounds of the larger keys, are the encryption of the specification |
| `AesCipher.RoundsIs` | app/src/main/jni/external/rist/contrib/aes.c:940-1011 | six more rounds than the key has words |
| `AesCipher.DecryptBlock` | app/src/main/jni/external/rist/contrib/aes.c:1013-1080 | the inverse steps in place are the decryption |
| `AesCipher.MixColumnInPlace` | app/src/main/jni/external/rist/contrib/aes.c:756-844 | one column is mixed in place and the others stay |
| `AesCipher.InvMixColumnInPlace` | app/src/main/jni/external/rist/contrib/aes.c:846-934 | one column is unmixed in place and the others stay |
| `AesCipher.ShiftRows` | app/src/main/jni/external/rist/contrib/aes.c:697-720 | row i moves left by i |
| `AesCipher.InvShiftRows` | app/src/main/jni/external/rist/contrib/aes.c:723-746 | row i moves right by i |
| `AesCipher.SubBytes` | app/src/main/jni/external/rist/contrib/aes.c:652-670 | every byte is replaced through the table |
| `AesCipher.InvSubBytes` | app/src/main/jni/external/rist/contrib/aes.c:672-690 | every byte is replaced through the inverse table |
| `AesCipher.AddRoundKey` | app/src/main/jni/external/rist/contrib/aes.c:603-644 | each column is added to its word of the key, most significant byte first |
| `AesModes.CbcInverse` | app/src/main/jni/external/rist/contrib/aes.c:242-311 | CBC decryption undoes CBC encryption for any number of blocks (section 6.2 of NIST SP 800-38A) |
| `AesModes.EncryptCbc` | app/src/main/jni/external/rist/contrib/aes.c:242-263 | fails exactly if the length is not a multiple of 16; otherwise the output is the chained encryption of the input, also when both are the same buffer |
| `AesModes.DecryptCbc` | app/src/main/jni/external/rist/contrib/aes.c:290-311 | fails exactly if the length is not a multiple of 16; otherwise the output is the chained decryption of the input, also when both are the same buffer |
| `AesModes.CtrSelfInverse` | app/src/main/jni/external/rist/contrib/aes.c:330-357 | CTR applied twice gives back the input, for any length |
| `AesModes.CtrAt` | app/src/main/jni/external/rist/contrib/aes.c:330-351 | byte k is added to byte k modulo 16 of the encryption of counter block k/16 (section 6.5 of NIST SP 800-38A) |
| `AesModes.CounterValue` | app/src/main/jni/external/rist/contrib/aes.c:316-326 | counter block i, as a big-endian number, is iv + i modulo 2^128 |
| `AesModes.IncIsPlusOne` | app/src/main/jni/external/rist/contrib/aes.c:316-326 | the carry through the bytes adds one, and wraps from the largest value to zero |
| `AesModes.IncrementIv` | app/src/main/jni/external/rist/contrib/aes.c:316-326 | the last bytes of the buffer are incremented in place as a counter of that size |
| `AesModes.EncryptCtr` | app/src/main/jni/external/rist/contrib/aes.c:330-351 | the in-place loop with its short last block is CTR of the input, also when input and output are the same buffer |
| `ReceiverFlow.Flow.Enqueue` | app/src/main/jni/external/rist/src/rist-common.c:499-697 | the exact fate of every packet (ignored, first, late, for a full buffer, duplicate, stored), the return code, the new ring, the counts that stop the flow and whether it stops, the last number found, and what is added to the missing list; a stored packet holds what arrived and is to be put out the recovery time after its packet time, the first one after the arrival; every packet sits in the slot of its number, the byte count is at least the stored bytes and gains exactly the size of a packet that is replaced; after a first packet the slot behind the output index is empty if and only if it was empty before, or there was a surplus, or bytes were stored from it on |
| `ReceiverFlow.Flow.Insert` | app/src/main/jni/external/rist/src/rist-common.c:402-420 | a packet is put into the slot of its number and its size is added, as one event |
| `ReceiverFlow.Flow.Put` | app/src/main/jni/external/rist/src/rist-common.c:644-663 | replacing a packet leaves the size of the old one in the byte count |
| `ReceiverFlow.Flow.EmptyQueue` | app/src/main/jni/external/rist/src/flow.c:45-63 | once round the ring from the output index until the count is zero: with a surplus everything is cleared, otherwise exactly what lies up to the last packet with bytes; the surplus of the byte count stays |
| `ReceiverFlow.EmptyingStep` | app/src/main/jni/external/rist/src/flow.c:49-62 | as long as the count is above zero, clearing one more slot is due |
| `ReceiverFlow.BehindRestart` | app/src/main/jni/external/rist/src/rist-common.c:520-544 | after a restart the slot behind the new output index is empty if and only if it was empty before, or the count had a surplus, or a packet with bytes lay in or after it; when no stored packet is empty, only the first packet is left |
| `ReceiverFlow.Flow.StartFlow` | app/src/main/jni/external/rist/src/rist-common.c:514-555 | the first packet of a flow, or after a reset: the ring is what the emptying leaves, with the packet in its slot, the missing numbers are dropped, and the next block handed over is marked as a start |
| `ReceiverFlow.Flow.DropLate` | app/src/main/jni/external/rist/src/rist-common.c:604-619 | a late packet is counted, and the flow stops exactly if more than five times as many were late as received |
| `ReceiverFlow.Flow.DropFull` | app/src/main/jni/external/rist/src/rist-common.c:627-643 | a packet for the slot behind the output index is counted, and the flow stops exactly after more than 100 of them |
| `ReceiverFlow.Flow.Store` | app/src/main/jni/external/rist/src/rist-common.c:644-697 | the stored packet, to be put out the recovery time after its packet time, the count, and the gap that it reveals |
| `ReceiverFlow.Flow.Output` | app/src/main/jni/external/rist/src/rist-common.c:825-1016 | packets leave in ring order, each from its slot, once its output time has come or it is older than 1.1 times the buffer by the clock read for it, and each is handed over if and only if it is no older than twice the buffer; exactly those slots change; the blocks handed over, their flags and the count of lost packets are functions of the packets that left; it does not stop before nothing is stored, the next packet is not due or not reached, or the flow starts over or shuts down; the counters of old packets and of silence are exact; the full-circle branch is taken only if the byte count had a surplus, and removes it |
| `ReceiverFlow.TimelyIs` | app/src/main/jni/external/rist/src/rist-common.c:875-909 | a packet that leaves by the reading t had reached its output time or was older than 1.1 times the buffer, and is handed over exactly if it was no older than twice the buffer |
| `ReceiverFlow.AgesOfExits` | app/src/main/jni/external/rist/src/rist-common.c:825-1016 | every packet that leaves in a run of the output keeps that rule, in numbers, by the reading of the clock for its turn |
| `ReceiverFlow.NothingDueStays` | app/src/main/jni/external/rist/src/rist-common.c:825-1016 | when the output stops at a packet, then because of it: a packet that is reached and due stays if and only if the flow starts over for old packets, which happens when it is older than twice the buffer and 100 in a row have been dropped before it |
| `ReceiverRuns.Session` | app/src/main/jni/external/rist/src/rist-common.c:499-1016 | every run of calls in any order: each packet that left carries what its arrival brought, left once, not before packet time (of a first packet, arrival) plus recovery time unless older than 1.1 times the buffer, and was handed over exactly if no older than twice the buffer; every packet stored is still there, has left, or was displaced by one with its number or by the start of a flow; the packets handed over are the packets of the stream, in order |
| `ReceiverRuns.PutOut` | app/src/main/jni/external/rist/src/rist-common.c:825-1016 | after a run of the output the next packet waits only if, in the numbers of its arrival, it is not due or behind a hole not reached, unless the flow starts over |
| `ReceiverRuns.TakeIn` | app/src/main/jni/external/rist/src/rist-common.c:499-697 | an arrival keeps all that is known of the run: refused as a duplicate only if a packet with its number and source time was stored and has not left, and stored only if every such packet has left or was displaced; refused as late only more than 1.1 times the buffer after its time |
| `ReceiverRuns.AgeInTime` | app/src/main/jni/external/rist/src/rist-common.c:402-420 | the rule of the output in the fields of a packet is that rule in the fields of its arrival |
| `ReceiverRuns.NotedFates` | app/src/main/jni/external/rist/src/rist-common.c:604-663 | a call in which nothing leaves keeps the laws on duplicates and late packets |
| `ReceiverRuns.ServedPasses` | app/src/main/jni/external/rist/src/rist-common.c:875-909 | a run of the output keeps the time rule for all packets that ever left |
| `ReceiverRuns.ServedOnce` | app/src/main/jni/external/rist/src/rist-common.c:989-995 | a run of the output lets no arrival leave twice |
| `ReceiverRuns.ServedConserved` | app/src/main/jni/external/rist/src/rist-common.c:989-995 | a run of the output loses no packet |
| `ReceiverRuns.NotedConserved` | app/src/main/jni/external/rist/src/rist-common.c:514-663 | an arrival loses no packet but those that it displaces |
| `ReceiverRuns.HandedOverMore` | app/src/main/jni/external/rist/src/rist-common.c:915-989 | the packets of the blocks of a run are those handed over in it, in order |
| `ReceiverFlow.Flow.TurnAlone` | app/src/main/jni/external/rist/src/rist-common.c:835-1013 | one turn on its own keeps the invariant and the clean state, so arrivals may come between the turns of the loop |
| `ReceiverFlow.MovedMore` | app/src/main/jni/external/rist/src/rist-common.c:915-989 | the blocks of the turns so far and those of one more turn are the blocks of all packets that left, with the flags that the stream position gives them |
| `ReceiverFlow.Flow.Turn` | app/src/main/jni/external/rist/src/rist-common.c:835-1013 | one turn of the output loop, with every way in which it can end: a packet leaves by the rule of its age, or stays because it is not due, not reached, or one old packet too many |
| `ReceiverFlow.Flow.Choose` | app/src/main/jni/external/rist/src/rist-common.c:837-910 | which packet is next and whether it leaves, and then handed over exactly if it is no older than twice the buffer; after more than 100 old packets in a row the flow starts over |
| `ReceiverFlow.Flow.FindFirst` | app/src/main/jni/external/rist/src/rist-common.c:841-858 | the first stored packet after the holes, or none exactly if the ring is empty |
| `ReceiverFlow.Flow.Judge` | app/src/main/jni/external/rist/src/rist-common.c:875-909 | hands over, drops or leaves a packet by its age |
| `ReceiverFlow.Flow.Deliver` | app/src/main/jni/external/rist/src/rist-common.c:915-989 | the gap flag is set exactly if holes were skipped or the number is not the next one, the start flag exactly for the first block of a flow |
| `ReceiverFlow.Flow.Remove` | app/src/main/jni/external/rist/src/rist-common.c:989-1012 | the slot is cleared, the output index moves past it, and a flow that has been empty for longer than the buffer starts over |
| `ReceiverFlow.Flow.LeaveSlot` | app/src/main/jni/external/rist/src/rist-common.c:915-1012 | the packet leaves: its block, its flags, what it adds to the lost ones, and the work on the ring go on behind it |
| `ReceiverFlow.Flow.Locate` | app/src/main/jni/external/rist/src/rist-common.c:837-873 | as one event: the full circle without data happens only if the byte count had a surplus |
| `ReceiverFlow.Flow.Reset` | app/src/main/jni/external/rist/src/rist-common.c:1861-1863 | a change of flow id makes the flow start over |
| `ReceiverFlow.Flow.TakeStats` | app/src/main/jni/external/rist/src/stats.c:277 | the statistics are taken and cleared, and nothing else changes |
| `ReceiverFlow.Flow.NackOutput` | app/src/main/jni/external/rist/src/rist-common.c:1059-1204 | a pass over the missing list against the ring of the flow: the entries that stay, the groups sent and what is left in the buffer, with or without a peer and from any buffer |
| `ReceiverFlow.Flow.constructor` | app/src/main/jni/external/rist/src/flow.c:185-230 | a new flow is empty, consistent and clean |
| `ReceiverFlow.Consecutive` | app/src/main/jni/external/rist/src/rist-common.c:917-989 | in the stream of any run, from one block to a later one with no flag in between the numbers go up by one each, modulo 2^16, across late drops, skipped holes, restarts and resets |
| `ReceiverFlow.LabelledAppend` | app/src/main/jni/external/rist/src/rist-common.c:917-935 | a block that is not flagged must continue the last one |
| `ReceiverFlow.ExitStep` | app/src/main/jni/external/rist/src/rist-common.c:990-995 | taking out the packet behind some holes advances the work on the ring by exactly these slots, within one turn of it |
| `ReceiverFlow.ClearedFar` | app/src/main/jni/external/rist/src/rist-common.c:843-848 | two stretches without packets in a row cannot pass the starting point again |
| `ReceiverFlow.CountTurn` | app/src/main/jni/external/rist/src/rist-common.c:884-897 | the count of old packets in a row and the time of the last output follow from the packets that left |
| `ReceiverFlow.ZeroLengthStays` | app/src/main/jni/external/rist/src/rist-common.c:520-527 | a run that ends with the slot behind the output index occupied: an empty packet stays behind a restart |
| `ReceiverFlow.ExpectedIs` | app/src/main/jni/external/rist/src/rist-common.c:603 | the number taken as the expected one is the next number after an odd one, and after an even one that number again |
| `ReceiverFlow.InOrderArrival` | app/src/main/jni/external/rist/src/rist-common.c:603-626 | of the packets that come in order, exactly those after an even number whose time is behind the highest so far are treated as out of order: dropped if they are too late as well, and otherwise stored without moving the last number found |
| `ReceiverQueue.BytesUpdate` | app/src/main/jni/external/rist/src/rist-common.c:402-420 | storing changes the byte sum of the ring by the difference of the two sizes |
| `ReceiverQueue.EmptyOfNoBytes` | app/src/main/jni/external/rist/src/flow.c:49-62 | a byte sum of zero means an empty ring only if no empty packet is stored |
| `RingRace.PatientRun` | app/src/main/jni/external/rist/src/rist-common.c:841-873 | in every interleaving of the single steps of storing with those of the output loop in which no packet is replaced and none leaves before it is counted, the loop never goes full circle and the byte count agrees with the ring |
| `RingRace.FullCircleIff` | app/src/main/jni/external/rist/src/rist-common.c:841-873 | from the top of the loop the full circle comes next if and only if the ring is empty and a packet with bytes has left it that is still to be counted |
| `RingRace.StepUnhurried` | app/src/main/jni/external/rist/src/rist-common.c:402-420 | each such step keeps the books and the uncounted packet in its slot |
| `RingRace.UncountedLeaves` | app/src/main/jni/external/rist/src/rist-common.c:402-420 | from a state in order, a run in which a packet of 1316 bytes leaves before it is counted: the count wraps, the loop goes full circle, stops the flow and sets the count to zero, and the size is then added to an empty ring |
| `RingRace.BrokenIff` | app/src/main/jni/external/rist/src/rist-common.c:410-417 | the fields of a packet are written through an empty slot if and only if it has left before that |
| `RingRace.BehindIff` | app/src/main/jni/external/rist/src/rist-common.c:627-643 | a step fills the slot behind the output index if and only if it puts a packet there that was checked before the index moved, or moves the index past a slot filled again |
| `RingRace.StoredAtOnce` | app/src/main/jni/external/rist/src/rist-common.c:402-420 | with no step of the output in between, the three steps of storing are the one event of `Flow.Insert` |
| `MissingList.List.MarkMissing` | app/src/main/jni/external/rist/src/rist-common.c:422-467 | exactly the entries of the gap are appended, or none while the link has collapsed or too many numbers are outstanding |
| `MissingList.GapExact` | app/src/main/jni/external/rist/src/rist-common.c:422-467 | the numbers queued are those strictly between the two if and only if the distance is 1 to 32768: a wider gap is left out, and when the last number found comes again all other 65535 are queued |
| `MissingList.GapHas` | app/src/main/jni/external/rist/src/rist-common.c:422-467 | a number is queued if and only if it is no further from the last one found than the gap is long |
| `MissingList.GapInOrder` | app/src/main/jni/external/rist/src/rist-common.c:442-466 | the queued numbers ascend without a break from the last one found, each once |
| `MissingList.List.Append` | app/src/main/jni/external/rist/src/flow.c:14-43 | the entry is linked in at the end, and the tail is the last node |
| `MissingList.List.Flush` | app/src/main/jni/external/rist/src/flow.c:65-77 | the list is empty and the counter is zero |
| `MissingList.NewRecord` | app/src/main/jni/external/rist/src/flow.c:14-26 | a new entry has not been requested, first waits the given round trip, and was inserted no later than now: at the time given if that is within the buffer, never earlier than the buffer reaches back |
| `MissingList.NackTimeIs` | app/src/main/jni/external/rist/src/rist-common.c:432-458 | the times of a gap rise in equal steps, modulo 2^64 |
| `MissingList.TailAndCounter` | app/src/main/jni/external/rist/src/rist-common.c:1069-1199 | in every consistent state the counter is the number of entries requested at least once, and the tail is the last node of a list that is not empty |
| `MissingList.List.Unlink` | app/src/main/jni/external/rist/src/rist-common.c:1184-1191 | unlinking keeps the order of the others, moves the tail if it was the last, and corrects the counter |
| `MissingList.List.Update` | app/src/main/jni/external/rist/src/rist-common.c:734-749 | the first request of an entry counts it |
| `MissingList.List.ProcessEntry` | app/src/main/jni/external/rist/src/rist-common.c:699-766 | an entry is removed for its retries or its age, requested, or left, and the request is noted in the group |
| `MissingList.List.MakeRoom` | app/src/main/jni/external/rist/src/rist-common.c:1152-1175 | a buffer of 199 goes out if the flow has a peer, one of 200 is emptied, and any other stays |
| `MissingList.List.SendNackGroup` | app/src/main/jni/external/rist/src/rist-common.c:1018-1057 | a group that is not empty is sent whole and cleared, if the flow has a peer |
| `MissingList.List.Decide` | app/src/main/jni/external/rist/src/rist-common.c:1078-1177 | the decision about one entry, in the order of the checks, with the groups sent and the buffer |
| `MissingList.List.Visit` | app/src/main/jni/external/rist/src/rist-common.c:1077-1199 | one entry is decided, then unlinked or passed, with the list consistent and the groups accounted for |
| `MissingList.List.NackOutput` | app/src/main/jni/external/rist/src/rist-common.c:1059-1204 | a pass leaves exactly the entries that should stay, in order, and sends exactly the groups that `PassGroups` says, with or without a peer and from any buffer |
| `MissingList.GroupsHoldRequests` | app/src/main/jni/external/rist/src/rist-common.c:1147-1204 | with a peer in the flow the groups of a pass are what waited in the buffer and then exactly the numbers requested, in order, at most 199 in each and none of them empty, and the buffer ends empty |
| `MissingList.NothingSent` | app/src/main/jni/external/rist/src/rist-common.c:1147-1204 | without a peer no group goes out and the buffer is emptied whenever it is full: what it holds in the end are the last of the numbers requested, the others are lost although their entries count as requested |
| `MissingList.List.Request` | app/src/main/jni/external/rist/src/rist-common.c:1147-1177 | room is made, and the entry is requested, removed or left |
| `MissingList.PassStep` | app/src/main/jni/external/rist/src/rist-common.c:1077-1199 | each entry adds its own outcome and request to those of the entries before it |
| `MissingList.Budget` | app/src/main/jni/external/rist/src/rist-common.c:699-766 | over any number of passes under a monotone clock an entry is requested at most its retries, never when older than 1.1 times the buffer, and then at least 1.1 clamped round trips (of 4294967 ticks for a millisecond) apart |
| `MissingList.BudgetOfNewRecord` | app/src/main/jni/external/rist/src/flow.c:14-26 | from the moment it is queued an entry is requested at most its retries, first no earlier than the given wait, never when older than 1.1 times the buffer, and then at least 1.1 clamped round trips apart |
| `MissingList.BudgetOverPasses` | app/src/main/jni/external/rist/src/rist-common.c:1059-1204 | that budget (count, first request, age, spacing) holds for every entry of the whole list, through any run of passes with other entries queued and removed in between |
| `MissingList.RetryDelayIs` | app/src/main/jni/external/rist/src/rist-common.c:747 | the wait between requests is 11 * 4294967 * rtt / 10 ticks |
| `MissingList.ClampedRttIs` | app/src/main/jni/external/rist/src/rist-common.c:728-733 | the round trip is an eighth of the sum kept, within its limits |
| `MissingRuns.AskedIff` | app/src/main/jni/external/rist/src/rist-common.c:699-766 | an entry looked at with requests enabled, an empty slot, no collapsed link, retries left and within the age limit is requested at that look if and only if it has not been requested and the reorder wait is over, or 1.1 round trips have passed since the last request |
| `MissingRuns.AfterRemembers` | app/src/main/jni/external/rist/src/rist-common.c:699-766 | the count, the next time and the insertion time of an entry are those that its requests say |
| `MissingRuns.EnoughLooks` | app/src/main/jni/external/rist/src/rist-common.c:699-766 | with m suitable looks an entry is requested at least m more times or as often as it may be, and with enough of them exactly as often as it may be |
| `MissingRuns.RequestedOverPasses` | app/src/main/jni/external/rist/src/rist-common.c:1059-1204 | through any run of passes, from the moment a number is queued: with m passes that suit (slot empty, no collapsed link, in time, spaced by the waits) it is requested at least m times or maxRetries times, and with at least maxRetries of them exactly maxRetries times |
| `MissingRuns.OneMore` | app/src/main/jni/external/rist/src/rist-common.c:727-752 | a suitable look makes a request unless one has been made since the last suitable one or none are left |
| `MissingRuns.GoneIsUsed` | app/src/main/jni/external/rist/src/rist-common.c:699-766 | an entry that nothing else removes is gone only when its retries are used up |
| `MissingRuns.LooksAre` | app/src/main/jni/external/rist/src/rist-common.c:1077-1199 | there is one look for every pass until one removes the entry, at the ring and the peer of the pass |
| `MissingList.EntryInPass` | app/src/main/jni/external/rist/src/rist-common.c:1077-1199 | an entry that stays moves up by the entries removed before it, and its request comes after theirs |
| `SenderQueue.Sender.Enqueue` | app/src/main/jni/external/rist/src/udp.c:861-873 | the packet goes to the slot of its place in the log; as nothing checks for a full queue, the packet after the one that fills the last slot replaces the oldest one, whose bytes stay in the count |
| `SenderQueue.IndicesMeet` | app/src/main/jni/external/rist/src/udp.c:861-873 | with every slot in use the write index is the delete index, as in an empty ring |
| `SenderQueue.Overfill` | app/src/main/jni/external/rist/src/udp.c:861-873 | such a state is reached by storing as many packets as there are slots before the first pass: then a pass sends nothing and deletes nothing, whatever the clock |
| `SenderQueue.Sender.SendData` | app/src/main/jni/external/rist/src/rist-common.c:2917-2961 | the next packets go out in order, up to the count and one more or as far as stored; the branch for an empty slot is never taken |
| `SenderQueue.Sender.Clean` | app/src/main/jni/external/rist/src/udp.c:118-163 | at most nine packets are deleted, oldest first, each old enough when looked at, no fewer unless nothing is left or the oldest is too young; nothing is deleted that has not been sent, given that all is sent or nine are; with every slot in use nothing is deleted, whatever the clock |
| `SenderQueue.Sender.CleanOne` | app/src/main/jni/external/rist/src/udp.c:124-160 | the oldest packet is deleted exactly if the two indices differ and it is old enough; the branch for an empty slot is never taken |
| `SenderQueue.Sender.Pass` | app/src/main/jni/external/rist/src/rist-common.c:3152-3163 | one locked pass sends up to 101 packets and then deletes up to nine, and keeps deleted <= sent <= stored, the byte count equal to the stored bytes, and the index of numbers; with every slot in use it deletes nothing, and sends nothing if nothing has been sent |
| `SenderQueue.Sender.constructor` | app/src/main/jni/external/rist/src/rist.c:359-365 | the initial indices are consistent with an empty queue |
| `SenderQueue.FindAgrees` | app/src/main/jni/external/rist/src/udp.c:985-1031 | a request resolves only to a stored packet with its number, and to the last one sent with it whenever that one is stored |
| `SenderQueue.YoungIsFound` | app/src/main/jni/external/rist/src/udp.c:998-1031 | the last packet sent with a number, if younger than the recovery time, is what a request finds |
| `SenderQueue.AgeIs` | app/src/main/jni/external/rist/src/udp.c:142-146 | a packet is younger than so many milliseconds exactly if 4294967 ticks for each have not passed |
| `SenderQueue.LastSentIsSearch` | app/src/main/jni/external/rist/src/rist-common.c:2955-2956 | the packet that the index stands for is what a search of all sent packets from the end finds |
| `SenderQueue.IndexedSend` | app/src/main/jni/external/rist/src/rist-common.c:2955-2956 | sending a packet makes the index agree with the search again |
| `SenderQueue.WindowStore` | app/src/main/jni/external/rist/src/udp.c:861-873 | storing in the next slot extends the window of stored packets by one |
| `SenderQueue.WindowDelete` | app/src/main/jni/external/rist/src/udp.c:155-160 | clearing the slot at the delete index takes the oldest packet out of the window |
| `RtcpReader.CompoundRoundTrip` | app/src/main/jni/external/rist/src/rist-common.c:2044-2163 | for every name of up to 128 bytes and every list of 1 to 200 numbers, parsing the compound packet yields exactly receiver report, description with the name, and request, and consumes it all; the numbers requested are those of the list |
| `NackRecords.RangesRoundTrip` | app/src/main/jni/external/rist/src/udp.c:739-774 | range records stand for exactly the list they were made from, in order and with repetitions |
| `NackRecords.MasksRoundTrip` | app/src/main/jni/external/rist/src/udp.c:706-738 | bit-mask records stand for exactly the set of numbers they were made from |
| `RtcpReader.NackParsed` | app/src/main/jni/external/rist/src/rist-common.c:1494-1565 | a request anywhere in a packet is parsed to its numbers and the parser goes on behind it |
| `RtcpReader.SdesParsed` | app/src/main/jni/external/rist/src/rist-common.c:2108-2150 | a description anywhere in a packet is parsed to its name, whatever the padding, and the reader goes on behind it; a name of more than 128 bytes overruns the array of the reader |
| `RtcpReader.RrParsed` | app/src/main/jni/external/rist/src/rist-common.c:2101-2106 | an empty receiver report anywhere in a packet is recognised and the parser goes on behind it |
| `RtcpReader.RecordsReadBack` | app/src/main/jni/external/rist/src/rist-common.c:1515-1560 | records are read back as they were written |
| `RtcpFormat.RequestIs` | app/src/main/jni/external/rist/src/rist-common.c:1494-1565 | in literal numbers: a packet of version 2 and type 205, or of type 204 with subtype 0 and the name RIST, is a request, for x if and only if a record says so: first number or bit x - first - 1 of the mask, or the range from the first with so many more |
| `RtcpFormat.ReportAndNameAre` | app/src/main/jni/external/rist/src/rist-common.c:2101-2123 | a packet of type 201 is a report, one of type 202 a description with the name behind its length byte |
| `RtcpFormat.RrIs` | app/src/main/jni/external/rist/src/udp.c:560-567 | the bytes of the empty report: 0x80, 201, one word more, the source with its most significant byte first |
| `RtcpFormat.SdesIs` | app/src/main/jni/external/rist/src/udp.c:611-628 | the bytes of the description: 0x81, 202, its length in words less one, the source, item 1, the name and at least one byte of padding |
| `RtcpFormat.NackIs` | app/src/main/jni/external/rist/src/udp.c:689-782 | the bytes of the request header: 0x80, 204, source and RIST, or 0x81, 205, zero and source, with two more words than there are records |
| `RtcpBuffer.WriteRanges` | app/src/main/jni/external/rist/src/udp.c:746-772 | the loop over the list writes the range records, extending the open one while numbers are consecutive and its count fits |
| `RtcpBuffer.WriteMasks` | app/src/main/jni/external/rist/src/udp.c:713-736 | the loop writes the bit-mask records, setting a bit for a number at most 16 after the start |
| `RtcpBuffer.WriteNack` | app/src/main/jni/external/rist/src/udp.c:689-782 | the request is written at its place: records first, then the header with their count |
| `RtcpBuffer.WriteSdes` | app/src/main/jni/external/rist/src/udp.c:611-628 | the description is written with its length rounded up to words |
| `Rtcp.NameFits` | app/src/main/jni/external/rist/src/udp.c:611-628 | the copy of the name with its padding stays inside the array of 128 bytes if and only if the name has at most 125 |
| `RtcpBuffer.WriteEmptyRr` | app/src/main/jni/external/rist/src/udp.c:560-567 | the empty receiver report |
| `RtcpBuffer.SendNacks` | app/src/main/jni/external/rist/src/udp.c:689-782 | the buffer to be sent is the compound packet |
| `RtcpBuffer.AppendNack` | app/src/main/jni/external/rist/src/udp.c:689-782 | the request follows what has been written so far |
| `RtcpReader.RecvRtcp` | app/src/main/jni/external/rist/src/rist-common.c:2044-2163 | the loop visits the packets one after the other, with every read outside, every overrun and every endless loop marked, until one of these or a malformed packet ends it |
| `RtcpReader.ReaderIff` | app/src/main/jni/external/rist/src/rist-common.c:2044-2163 | for every packet: it is read outside the buffer if and only if a visited packet needs more bytes than are there, a name overruns its array if and only if a visited description has one of more than 128 bytes, and reading does not end if and only if a visited packet is handled and has a length field of 16383 modulo 16384, or is an extended report that holds the reader |
| `RtcpReader.EndlessIff` | app/src/main/jni/external/rist/src/rist-common.c:1960-2006 | the loop over the blocks of an extended report does not end if and only if it comes to a block inside the buffer, of no delay to another source, whose length field is 16383 modulo 16384 |
| `RtcpReader.WalkBlocks` | app/src/main/jni/external/rist/src/rist-common.c:1960-2006 | the loop over the blocks of an extended report: how far it reads, and whether it ends |
| `RtcpReader.FittingStaysInside` | app/src/main/jni/external/rist/src/rist-common.c:2044-2163 | if every visited packet is as long as its type needs and ends inside the buffer, nothing outside is read |
| `RtcpReader.VisitEvent` | app/src/main/jni/external/rist/src/rist-common.c:2064-2160 | what one visit leads to, in terms of the header fields |
| `RtcpReader.StuckInput` | app/src/main/jni/external/rist/src/rist-common.c:2064-2163 | a report with the length field 16383 is handled for ever |
| `RtcpReader.HeaderOutside` | app/src/main/jni/external/rist/src/rist-common.c:2055-2064 | of a rest of three bytes a header of four is read |
| `RtcpReader.ExtensionOutside` | app/src/main/jni/external/rist/src/rist-common.c:2073-2076 | of an extension packet of one word the number behind it is read |
| `RtcpReader.NameOverruns` | app/src/main/jni/external/rist/src/rist-common.c:2108-2123 | a name of 129 bytes is copied into an array of 128 |
| `RtcpReader.BlockStuck` | app/src/main/jni/external/rist/src/rist-common.c:1960-2006 | an extended report with a block whose length field is 65535 is read for ever |
| `SrpSession.Handshake` | app/src/main/jni/external/rist/contrib/srp.c:686-1150 | a whole run, for every modulus and also with a wrong password, with arbitrary hash functions: the server accepts exactly if the checks on A, B and u pass and the proofs agree, the user exactly if the server does and the answers agree; with equal secrets both accept exactly if the checks pass, and then the session keys are equal |
| `SrpSession.RightPassword` | app/src/main/jni/external/rist/contrib/srp.c:686-1150 | with the right password the secrets of a run are equal if and only if reducing the exponent of the user keeps the power of g^b, and so whenever a + u*x is below the modulus |
| `SrpSession.FactsAre` | app/src/main/jni/external/rist/contrib/srp.c:686-1150 | what a run sends and computes, for the registered exponent x and the entered y: B - k*g^x is congruent to g^b, the secret of the user to (g^b + k*(g^x - g^y))^((a + u*y) mod N), that of the server to g^(b*(a + u*x)) |
| `Srp.SecretsAgree` | app/src/main/jni/external/rist/contrib/srp.c:779-1104 | for every modulus: client and server compute the same secret if and only if the power of g^b to the reduced exponent is that to a + u*x, and so whenever that is below the modulus |
| `Srp.SecretsAre` | app/src/main/jni/external/rist/contrib/srp.c:771-1104 | the secret of the server is g^b to the power a + u*x, that of the client g^b to the power of its reduced exponent, modulo N |
| `Srp.SecretsAgree256` | app/src/main/jni/external/rist/contrib/srp.c:651-656 | for 256-bit values every modulus of at least 2^512 + 2^256 is large enough |
| `Srp.AgreeIff` | app/src/main/jni/external/rist/contrib/srp.c:1093-1104 | for any modulus the secrets agree for every b if and only if reducing the exponent modulo N does not change the power of g |
| `Srp.ReductionMatters` | app/src/main/jni/external/rist/contrib/srp.c:1093-1096 | with a small modulus the reduced exponent gives different secrets: N = 5, g = 2, a = 1, x = 1, u = 4 |
| `Srp.ServerSecretIs` | app/src/main/jni/external/rist/contrib/srp.c:771-782 | the secret of the server is g to the power b*(a + u*x) |
| `Srp.UserSecretIs` | app/src/main/jni/external/rist/contrib/srp.c:1091-1104 | the secret of the client is g to the power b times its reduced exponent |
| `Srp.PublicIs` | app/src/main/jni/external/rist/contrib/srp.c:771-775 | what the server sends, less k times the verifier, is congruent to g^b |
| `Srp.UserPowerIs` | app/src/main/jni/external/rist/contrib/srp.c:1091-1104 | the secret of the client, for any B: (B - k*g^x) to the power (a + u*x) mod N |
| `Srp.EnteredSecretIs` | app/src/main/jni/external/rist/contrib/srp.c:771-1104 | with the exponent y against a verifier for x the secret of the client is (g^b + k*(g^x - g^y)) to the power (a + u*y) mod N |
| `Srp.CongPow` | app/src/main/jni/external/rist/contrib/srp.c:1104 | congruent bases, negative ones too, have congruent powers |
| `SrpSession.User.ProcessChallenge` | app/src/main/jni/external/rist/contrib/srp.c:1032-1143 | there is an answer exactly if B and u are not zero, with key, proof and expected proof; the secret is congruent to (B - k*g^x) to the power (a + u*x) mod N |
| `SrpSession.Verifier.Challenge` | app/src/main/jni/external/rist/contrib/srp.c:686-826 | there is a challenge exactly if A is not zero modulo N, with key, expected proof and proof; B is below N, and less k*v congruent to g^b |
| `SrpSession.Verifier.VerifySession` | app/src/main/jni/external/rist/contrib/srp.c:874-883 | the proof of the server is given out and the session authenticated exactly if the proof of the user is the expected one |
| `SrpSession.User.VerifySession` | app/src/main/jni/external/rist/contrib/srp.c:1146-1150 | the session is authenticated exactly if the proof of the server is the expected one |
| `SrpSession.CreateVerificationKey` | app/src/main/jni/external/rist/contrib/srp.c:625-678 | the verifier is g to the power x |
| `Scheduler.Fair` | app/src/main/jni/external/rist/src/udp.c:893-983 | over any number of whole rounds from a refill each peer is elected exactly its weight times the number of rounds |
| `Scheduler.RestOfRound` | app/src/main/jni/external/rist/src/udp.c:893-983 | from any point of a round the rest of it elects each peer as often as its count says, and ends in a refill |
| `Scheduler.StepBalanced` | app/src/main/jni/external/rist/src/udp.c:893-983 | the counter of the round stays the sum of the counts of the peers, and a peer is always elected |
| `Scheduler.ElectIsMax` | app/src/main/jni/external/rist/src/udp.c:893-945 | the elected peer is the first one with the largest count, and none is elected only if every count is zero |
| `Scheduler.FirstPacketElectsNobody` | app/src/main/jni/external/rist/src/udp.c:893-983 | with all counts zero, as at the start, the packet reaches no weighted peer and the counts are refilled |
| `Scheduler.Sender.SendBalanced` | app/src/main/jni/external/rist/src/udp.c:878-983 | each packet goes to every peer of weight zero and to the elected one, and the counts step accordingly |
| `Scheduler.Sender.Consider` | app/src/main/jni/external/rist/src/udp.c:893-945 | the loop over the peers serves those of weight zero, in order, and elects the first of the others with the largest count |
| `NullPackets.Transfer` | app/src/main/jni/external/rist/src/mpegts.c:12-80 | for every payload of seven packets of 188 or 204 bytes: suppression fails exactly if the first byte is not 0x47, and if it removes a packet then expansion restores length and order, every kept packet, and the canonical null packet in place of each removed one, and reports the same number |
| `NullPackets.RoundTrip` | app/src/main/jni/external/rist/src/mpegts.c:12-80 | for seven packets the expansion of what was kept, with the bits that were sent, is the canonical payload |
| `NullPackets.NullIs` | app/src/main/jni/external/rist/src/mpegts.c:30-40 | a null packet is one with the identifier 8191 and no flag, and the packet put in is one with sync byte 0x47 |
| `NullPackets.GivesBackIff` | app/src/main/jni/external/rist/src/mpegts.c:22-80 | for up to seven packets the payload comes back whatever the buffer held before if and only if there are seven or none of them is a null packet |
| `NullPackets.ShortPayloadFails` | app/src/main/jni/external/rist/src/mpegts.c:33-66 | with fewer than seven packets it fails if a kept packet comes after a null packet, and otherwise if the bytes behind the kept packets are not a null packet by chance |
| `NullPackets.Diverges` | app/src/main/jni/external/rist/src/mpegts.c:54-80 | an expansion that is ahead of the payload by a packet or more misses the first null packet, unless the buffer held one there |
| `NullPackets.ExpandRestores` | app/src/main/jni/external/rist/src/mpegts.c:62-78 | a buffer that holds the kept packets is expanded to the canonical payload from any point on |
| `NullPackets.SuppressNullPackets` | app/src/main/jni/external/rist/src/mpegts.c:12-52 | the result, the payload, its length and the bits for every input, into any output that takes what is written: refused for a length of neither packet size, for more than seven packets and for a wrong first byte |
| `NullPackets.CallSiteFits` | app/src/main/jni/external/rist/src/udp.c:846-851 | the buffer at the only call takes what is written if and only if the payload is not one of seven packets of 204 bytes of which at most one is a null packet |
| `NullPackets.RoomForNext` | app/src/main/jni/external/rist/src/mpegts.c:33-47 | at every packet copied the output has room for what has been written and that packet |
| `NullPackets.RunSuppress` | app/src/main/jni/external/rist/src/mpegts.c:33-47 | the loop keeps the other packets in order and marks each null packet in its bit |
| `NullPackets.ExpandNullPackets` | app/src/main/jni/external/rist/src/mpegts.c:54-80 | the loop with its moves inside the buffer is the expansion, with the number of packets put in and the new length |
| `NullPackets.InsertInPlace` | app/src/main/jni/external/rist/src/mpegts.c:66-74 | the rest moves up by a packet and a null packet is written |
| `NullPackets.MarkedMarks` | app/src/main/jni/external/rist/src/mpegts.c:33-37 | bit n - 1 - i is set exactly for a null packet at position i |
| `NullPackets.CountsAgree` | app/src/main/jni/external/rist/src/mpegts.c:54-80 | the bits set are as many as the packets removed, and their bytes make up the length |
| `Bits.SetBitIs` | app/src/main/jni/external/rist/src/udp-private.h:14-15 | setting a bit sets that bit and no other |

## Left out

Modelling choices:

- Clock readings are parameters, monotone where a property needs it. Times do not wrap when added; 64-bit
  wrap-around is modelled in subtractions. The factor 1.1 is exact (`10 * x > 11 * y`), where the code rounds
  in floating point.
- Each call on the receiver's flow is one event, and each turn of its output loop. The code takes the flow's mutex
  for the first packet of a flow and for the output, but not for the other packets (`rist-common.c:556-697`), and
  the request pass reads the ring without it. `RingRace` interleaves storing and output step by step; there a packet
  in the way is looked at and freed in one step, and the freed memory itself is not modelled.
- The passes of the missing list see one state of the ring each. The sender's queue is locked by its code in every
  call that changes it.
- The two step-by-step models assume sequential consistency, and the output queue one consumer, as its code does;
  its `unsigned long` has 64 bits.
- The packet time of an arrival and the highest one so far are inputs: the clock offset, its drift
  correction, the arrival-time interpolation and the RTC timing mode are not modelled.
- Settings of a peer are a function of its identity, and its measurements a function per pass.
- Hash functions and random numbers of SRP are parameters, big integers are mathematical.

Parts of the repository that are not modelled:

- The fast decoding loop, dictionaries, streaming, partial decoding, `LZ4_compress_destSize` and the
  pointer table of 32-bit machines in LZ4.
- AES key expansion, CBC-MAC and CCM. The round keys are arbitrary here, but for the example of FIPS 197.
- The bandwidth checks, the queue of pending retransmissions and the statistics behind
  `rist_retry_dequeue`; `Find` is its look-up.
- Weights of dead or unauthenticated peers, children of listening peers, and the choice among the peers of a
  flow when a group of requests is sent; a flow that has peers but none that takes requests loses the group.
- RTCP packets inside the sender's ring, out-of-memory paths, logging, most statistics.
- Sockets, threads, the event loop, configuration by URL, EAP framing, encryption of packets, JNI and the
  Android user interface; multi-consumer reads of the output queue.

Contracts that say less than the code or its documentation might suggest:

- ReceiverFlow.Flow.Enqueue: one event; what other threads can see of its steps is the subject of `RingRace`.
- ReceiverFlow.Flow.Insert: one event; `RingRace.StoredAtOnce` says when its three steps are that.
- ReceiverFlow.Flow.Locate: for calls as events; `RingRace.FullCircleIff` has the case of a packet that leaves before it is counted.
- ReceiverFlow.Flow.NackOutput: one state of the ring for the whole pass, and no choice of the peer that a group goes to.
- ReceiverRuns.Session: the calls are whole events; when a flow starts over, a packet that the emptying leaves in its slot counts as displaced all the same.
- MissingRuns.RequestedOverPasses: for passes that find the number still missing; in between, other entries come and go freely.
- RingRace.PatientRun: for runs that replace no packet; a replacement alone leaves a surplus (`ReceiverFlow.Flow.Put`).
- Sha256.Context.Update: for pieces below 2^32 bytes, as the loop does not end for longer ones (`Sha256.CounterEndsIff`).
- Pbkdf2.Derive: for passwords and salts below 2^32 bytes, for the same reason, and for iteration counts that fit their 32 bits.
- NullPackets.Transfer: seven packets; `NullPackets.GivesBackIff` settles the shorter payloads.
- NullPackets.SuppressNullPackets: for payloads that are not empty, as the code reads the first byte before looking at the count.
- OutputFifo.MarkedIffRefused: the mark says that blocks were refused before this read; `OutputStream.MarkComes` says where they are missing.
- RtcpReader.CompoundRoundTrip: the buffer behind the name has to hold the padding that is copied from there, and the name has to fit the reader's array.
- RtcpReader.RecvRtcp: positions are unbounded, where the code counts them in 16 bits, enough for every datagram.
- SenderQueue.YoungIsFound: the recovery time is constant over the run.
- SenderQueue.Sender.Enqueue: after a replacement only the new ring, log and byte count are stated, and the other calls ask for a ring without one.
- Scheduler.Fair: all peers are alive and authenticated, and their weights do not change.

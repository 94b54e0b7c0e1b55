# Channel codecs and stream handling of starcoder

A Dafny model of the parts of starcoder, a satellite ground-station toolkit, whose correctness
rests on arithmetic, bit order and the order of events. The model follows the code branch by
branch; loops and objects that change in place are loops and classes here, each proved against
functions and predicates whose own properties are then proved.

| part | modules |
|---|---|
| Reed-Solomon (255,223), CCSDS 131.0-B | `Gf256`, `GfPoly`, `RsAlgebra`, `RsShortest`, `RsGenerator`, `RsCode`, `RsEncoder`, `RsDecoder` |
| Viterbi decoder, rate 1/2, constraint length 7 | `ViterbiCode`, `ViterbiSurvivors`, `ViterbiDecoder`, `ViterbiCorrection`, `ViterbiChannel`, `BitIo` |
| space packets out of frames, CCSDS 732.0-B section 4.1.4.2 | `PacketReassembly`, `PacketLink`, `PacketDelivery` |
| JPEG entropy coding, ITU-T T.81 Annex C and section F.2.2 | `Huffman`, `JpegTables`, `JpegBlocks`, `JpegMarks`, `BitReader` |
| AX.25 link layer, AX.25 v2.2 sections 3.6, 3.7 and 3.9 | `Ax25Fcs`, `Ax25Frame`, `Ax25Encoder`, `Ax25Decoder`, `Ax25Stream`, `Ax25Link`, `Ax25Wire`, `Ax25Recovery` |
| extended Golay (24,12) code | `Golay24`, `GolayDecoder`, `GolayChannel` |
| AR2300 sample framing | `Ar2300Framing` |
| message queue and stream handlers | `StringQueues`, `StreamLifecycle` |
| PRBS link measurement | `Prbs`, `PrbsPackets` |

## Main results

- **Reed-Solomon corrects 16 errors.** `EccEncode` turns any message into a codeword and keeps
  the message. `EccDecode` turns every word within 16 bytes of a codeword into that codeword and
  returns the number of corrections. For every other word too the result is settled: it is the
  degree of a shortest polynomial that reproduces the syndromes, or -1 if that has fewer roots;
  up to length 16 there is only one such polynomial. The proof goes through the tables of the field, the
  invariant of Berlekamp-Massey, the root search and Forney's formula, on the arrays and logs of
  the code.
- **Viterbi decoding is maximum likelihood, and corrects.** If no 16-bit sum wraps, every group of
  bits is taken from a path of least cost. A frame is *tolerable* when every soft value has the
  right sign and a strength of at least 25, or when its values have strength at least 77 apart
  from bad ones, with at most 3 + n/28 bad values (wrong or weak, by any amount) in each n
  consecutive steps. On a tolerable frame nothing wraps and the bits come out as sent; a
  noiseless frame is tolerable. `DecodeFrame` says this of signed values and of the numbers of
  bytes. The errors that the decoder keeps are exact if and only if no sum wraps.
- **AX.25 streams survive.** Whatever messages are sent, the concatenated transmissions decode to
  exactly those, in order, with both blocks at work and buffers of any sizes. On arbitrary input the
  receiver stays within its buffers and publishes only frames that pass every check, however the
  input is cut. It recovers: after any input, an aborted frame or a still line takes nothing from
  the frames that follow, with the exact condition under which two flags are too few.
- **AR2300 samples.** For every stream and every way of cutting it into calls, the calls find what a
  scan of the whole stream finds exactly if each cut meets a condition that can be checked there.
  Only windows that pass the check are ever output, and no byte is used twice.
- **Packets over a lossy link.** A packet is delivered if and only if all frames that matter to it
  arrive; deliveries are in order and never repeated. Frames and packets are given by the layout of
  their fields in bytes.
- **JPEG blocks, Golay messages and PRBS packets** come back as they were sent, and what was not
  sent is not accepted.
- **The queue drains without loss and handlers close at most once,** in every interleaving, with the
  exact condition for each; a handler that finishes does get closed while the manager serves.

## Where the code differs from what it says

- The comment at `gr-starcoder/include/starcoder/ax25.h:231` says that the FCS is sent most
  significant bits first; the code sends its low byte first, each byte low bit first. The model
  does what the code does.
- The 16-bit error sums of the Viterbi decoder do wrap on weak input, as the interval between
  renormalisations allows for the growth of the least error but not for the spread of the others.
  The errors are the true minima exactly as long as no sum wraps (`ExactWhileNoWrap`).
  `SilenceWraps` gives an input and the step, `WrapMisleads` one on which a wrapped sum wins and the
  survivor of a state is not a path of least cost. Whether bits that are written out can then be
  wrong is not shown.
- `write_bitlist_reversed` loses the pending byte when the list is too short to complete it.
  `WriteBitlistReversed` states exactly when; the Viterbi decoder never does this.
- `encode_ar2300` does not treat every stream as if it were read in one piece. `CutsThatAgree` gives
  the exact condition on the cuts, `CleanCutsAreHarmless` a simple guard that is enough, and
  `LeftoverCanBeDropped`, `WarningsSurvive` and `DroppedIsNotCounted` the ways in which a cut matters:
  a sample that starts among bytes left over is lost, a rebuilt sample leaves the warning count as
  it is, and windows among bytes that are dropped are not counted.
- With header stripping, a frame of 16 or 17 bytes with a good FCS has a published length below
  zero. `FramePublicationsJustified` states that this is exactly when it happens, and `LengthWraps`
  that such frames can come in.
- The AX.25 receiver does not find every frame that comes after two flags. A first zero that seems
  to end a flag, after six ones, costs it both (`SixOnesMislead`); `FrameWhileHunting` gives the
  exact condition, and a third flag is always enough.
- The taps that the PRBS generator is given are places in its register counted from zero, so the
  delays of the sequence are one more than these numbers (`Recurrence`).
- A deregistration can be consumed before its registration, and that handler is then closed only by
  shutdown or by another deregistration (`EarlyFinishIsLost`, `ClosedWhenAsked`).
- An empty or oversized message that reaches the front while a closed queue is being drained ends
  the loop with messages left behind. `SafeExactly` gives the exact condition.

## Model

| member | source | states |
|---|---|---|
| Gf256.AlphaIsPow | gr-starcoder/lib/meteor/meteor_ecc.cc:50-93 | the antilog table holds the powers of the primitive element, defined by repeated doubling modulo the field polynomial, and the log table undoes it |
| Gf256.IdxIsLog | gr-starcoder/lib/meteor/meteor_ecc.cc:76-93 | the log table is the discrete logarithm of every nonzero byte |
| Gf256.MulByTables | gr-starcoder/lib/meteor/meteor_ecc.cc:181-184 | adding logs modulo 255 and taking the antilog is the field product, defined bit by bit |
| RsGenerator.GeneratorRoots | gr-starcoder/lib/meteor/meteor_ecc.cc:96-99 | the generator table is the log form of a polynomial that vanishes at all 32 roots whose powers the decoder evaluates |
| RsEncoder.FeedByte | gr-starcoder/lib/meteor/meteor_ecc.cc:120-130 | one round of the encoder in place is one step of division by the generator; the message bytes keep their values |
| RsEncoder.RemainderStep | gr-starcoder/lib/meteor/meteor_ecc.cc:119-131 | the loop invariant: at every root the register is the message so far times the 32nd power, that is, the remainder modulo the generator |
| RsEncoder.EccEncode | gr-starcoder/lib/meteor/meteor_ecc.cc:114-132 | for every message and pad: the message bytes are unchanged and the word is a codeword, one whose 32 syndromes are zero |
| RsCode.ErrorSyndromes | gr-starcoder/lib/meteor/meteor_ecc.cc:150-160 | the syndromes of a received word are power sums of the error values at the error locators |
| RsCode.MinimumDistance | gr-starcoder/lib/meteor/meteor_ecc.cc:150-168 | two different codewords differ in at least 33 bytes, so what the encoder appends is the only completion of the message and at most one codeword is within 16 |
| RsDecoder.ComputeSyndromes | gr-starcoder/lib/meteor/meteor_ecc.cc:150-160 | the two nested loops evaluate the word at the 32 roots |
| RsDecoder.Discrepancy | gr-starcoder/lib/meteor/meteor_ecc.cc:179-185 | the inner loop is a coefficient of the product of locator and syndrome polynomial |
| RsAlgebra.BmGrow | gr-starcoder/lib/meteor/meteor_ecc.cc:198-205 | the step that lengthens the register keeps the iteration invariant |
| RsAlgebra.BmKeep | gr-starcoder/lib/meteor/meteor_ecc.cc:206-209 | the step that keeps the length keeps the iteration invariant |
| RsAlgebra.LengthBound | gr-starcoder/lib/meteor/meteor_ecc.cc:198-199 | when the length grows to r - el there must be at least r - el errors |
| RsShortest.ConvSwap | gr-starcoder/lib/meteor/meteor_ecc.cc:179-185 | a times (b times s) is b times (a times s), in each coefficient: what compares two polynomials by their products with the syndromes |
| RsShortest.BmShortest | gr-starcoder/lib/meteor/meteor_ecc.cc:170-213 | for every word, the iteration ends with a shortest polynomial: with constant term 1 it reproduces the syndromes from its length on, and no shorter length does |
| RsShortest.ShortestIsUnique | gr-starcoder/lib/meteor/meteor_ecc.cc:170-213 | up to length 16 there is one shortest polynomial |
| RsDecoder.BmRound | gr-starcoder/lib/meteor/meteor_ecc.cc:178-213 | one iteration on the arrays keeps the invariant of Berlekamp-Massey and the bound of its length by the distance to every codeword within 16 |
| RsDecoder.BerlekampMassey | gr-starcoder/lib/meteor/meteor_ecc.cc:170-213 | after 32 iterations the polynomial reproduces all syndromes, with a length no greater than the number of errors of any codeword within 16 |
| RsAlgebra.BmOutcome | gr-starcoder/lib/meteor/meteor_ecc.cc:170-213 | with at most 16 errors the length is exactly their number and the polynomial vanishes at every error locator |
| RsAlgebra.LocatorDegree | gr-starcoder/lib/meteor/meteor_ecc.cc:215-219 | the degree found by the loop is the number of errors |
| RsAlgebra.OnlyErrorsAreRoots | gr-starcoder/lib/meteor/meteor_ecc.cc:226-251 | the locator polynomial has no root that is not an error |
| RsDecoder.ChienSearch | gr-starcoder/lib/meteor/meteor_ecc.cc:221-249 | the search finds exactly the roots, each with its byte position, and stops early only when all are found |
| RsAlgebra.Forney | gr-starcoder/lib/meteor/meteor_ecc.cc:253-289 | the error value times the formal derivative is the evaluator times the 111th power, and neither is zero |
| RsDecoder.ComputeOmega | gr-starcoder/lib/meteor/meteor_ecc.cc:253-261 | the evaluator is the product of locator and syndromes, truncated |
| RsDecoder.CorrectErrors | gr-starcoder/lib/meteor/meteor_ecc.cc:263-290 | exactly the located bytes inside the word are changed, each by its computed value |
| RsShortest.VerdictIs | gr-starcoder/lib/meteor/meteor_ecc.cc:251 | the verdict on a polynomial is -1 exactly if it has fewer distinct nonzero roots than its degree, and its degree otherwise |
| RsShortest.DoubleRootGivenUp | gr-starcoder/lib/meteor/meteor_ecc.cc:251 | syndromes that alternate between 1 and 0 have the shortest polynomial 1 + x^2, of degree two with one root, and are given up |
| RsDecoder.VerdictFound | gr-starcoder/lib/meteor/meteor_ecc.cc:215-251 | the degree loop and the search together give the verdict on the shortest polynomial |
| RsDecoder.OneOutcome | gr-starcoder/lib/meteor/meteor_ecc.cc:134-293 | up to length 16 result and data do not depend on which shortest polynomial is taken |
| RsDecoder.EccDecode | gr-starcoder/lib/meteor/meteor_ecc.cc:134-293 | for every word, pad and codeword at distance at most 16: the data becomes that codeword and the result is the distance. For every word at all: there is a shortest polynomial for its syndromes, and any of length at most 16 will do, such that the result is its degree if it has that many roots and -1 otherwise; with a positive result the bytes at its roots are changed by the values computed for them and no others, with 0 or -1 none |
| Ax25Fcs.TableIsClock8 | gr-starcoder/include/starcoder/ax25.h:35-65 | each table entry is eight clocks of the reflected CRC with polynomial 0x8408 |
| Ax25Fcs.ComputeFcs | gr-starcoder/include/starcoder/ax25.h:113-119 | the table-driven loop computes the bit-at-a-time CRC, preset and inverted |
| Ax25Fcs.BurstDetected | gr-starcoder/include/starcoder/ax25.h:113-119 | two frames of equal length that differ only inside 16 consecutive transmitted bits never share an FCS |
| Ax25Wire.CheckValue | gr-starcoder/include/starcoder/ax25.h:113-119 | the FCS of the nine digits is 0x906E, the check value of CRC-16/X-25 |
| Ax25Wire.Residue | gr-starcoder/include/starcoder/ax25.h:230-233 | after any frame with its FCS the register holds 0xF0B8 |
| Ax25Wire.GoodIsResidue | gr-starcoder/lib/ax25_decoder_bm_impl.cc:340-344 | a received frame has a matching FCS if and only if its register is 0xF0B8, the rule of the standard |
| Ax25Frame.CreateAddrField | gr-starcoder/include/starcoder/ax25.h:129-161 | writes both padded callsigns with their SSID bytes |
| Ax25Wire.AddressReadsBack | gr-starcoder/include/starcoder/ax25.h:129-161 | callsigns and SSIDs can be read back from the address as numbers: twice each character, spaces behind, destination first |
| Ax25Frame.AddrFieldEnds | gr-starcoder/include/starcoder/ax25.h:135-159 | the low bit is set in byte 13 of the address and in no other |
| Ax25Frame.AddrLength | gr-starcoder/include/starcoder/ax25.h:168-175 | the first of bytes 13, 20 and 27 with its low bit set ends the address |
| Ax25Frame.PrepareFrame | gr-starcoder/include/starcoder/ax25.h:188-237 | flags, content, FCS low byte first, flags; 0 exactly for an oversized info field or a bad address or control length |
| Ax25Frame.BitStuffing | gr-starcoder/include/starcoder/ax25.h:342-379 | the output is the flags, the stuffed body and the flags, for every input |
| Ax25Frame.DestuffStuff | gr-starcoder/include/starcoder/ax25.h:359-369 | dropping each zero after five ones gives back the bits |
| Ax25Frame.StuffLength | gr-starcoder/include/starcoder/ax25.h:359-369 | at most one bit in five is added |
| Ax25Frame.NoFlagInside | gr-starcoder/include/starcoder/ax25.h:365-368 | the stuffed body never holds six ones in a row |
| Ax25Wire.AirOrder | gr-starcoder/include/starcoder/ax25.h:358-369 | bit 8*i + k of the frame, before stuffing, is bit k of byte i: each byte goes out with its lowest bit first |
| Ax25Encoder.NrziConcat | gr-starcoder/lib/ax25_encoder_mb_impl.cc:158-162 | NRZI can be cut anywhere if the level is carried over |
| Ax25Wire.NrziChanges | gr-starcoder/lib/ax25_encoder_mb_impl.cc:158-162 | a one keeps the line as it was and a zero changes it |
| Ax25Encoder.Encoder.LoadFrame | gr-starcoder/lib/ax25_encoder_mb_impl.cc:112-150 | the frame buffer holds the whole frame and what is pending is all its symbols |
| Ax25Encoder.Encoder.Emit | gr-starcoder/lib/ax25_encoder_mb_impl.cc:156-165 | what is handed out, followed by what is still pending, is what was pending before |
| Ax25Encoder.Encoder.Work | gr-starcoder/lib/ax25_encoder_mb_impl.cc:98-170 | over calls of any size a frame is handed out as one stream, from the line level 0 on; every call makes progress |
| Ax25Decoder.Decoder.ResetState | gr-starcoder/lib/ax25_decoder_bm_impl.cc:278-285 | everything is as at the start |
| Ax25Decoder.Decoder.DoEnterDecoding | gr-starcoder/lib/ax25_decoder_bm_impl.cc:295-326 | the first byte is replayed through the stuffing check |
| Ax25Decoder.Decoder.DoEnterFrameEnd | gr-starcoder/lib/ax25_decoder_bm_impl.cc:328-366 | short frames vanish; others are published on the good or the failed port by their FCS |
| Ax25Decoder.Decoder.Decode | gr-starcoder/lib/ax25_decoder_bm_impl.cc:184-271 | a call consumes a prefix, not empty, and does to the state what that many single steps do; it stops early only on a change of state |
| Ax25Decoder.Decoder.Feed | gr-starcoder/lib/ax25_decoder_bm_impl.cc:427-442 | offering the rest again until nothing is left runs the whole input |
| Ax25Decoder.RunConcat | gr-starcoder/lib/ax25_decoder_bm_impl.cc:184-271 | any cut of the input gives the same state and the same publications |
| Ax25Decoder.StepInv | gr-starcoder/lib/ax25_decoder_bm_impl.cc:184-271 | one symbol keeps the invariant and publishes only what is justified |
| Ax25Decoder.RunSafe | gr-starcoder/lib/ax25_decoder_bm_impl.cc:184-366 | on arbitrary input: fewer than 8 pending bits, fewer bytes than the maximum, and every published frame has a matching FCS, at least 14 bytes before it and an address that ends at byte 13 |
| Ax25Decoder.HeaderIsSixteen | gr-starcoder/lib/ax25_decoder_bm_impl.cc:349-352 | in a frame that passed the byte check the stripped header is 16 bytes |
| Ax25Decoder.FrameVerdict | gr-starcoder/lib/ax25_decoder_bm_impl.cc:328-360 | what a frame that passed the byte check leads to: nothing below 16 bytes; otherwise it is published as good exactly if its last two bytes are those that a sender appends to the rest |
| Ax25Decoder.FramePublicationsJustified | gr-starcoder/lib/ax25_decoder_bm_impl.cc:328-360 | the published length wraps below zero exactly when headers are stripped from a good frame of 16 or 17 bytes |
| Ax25Stream.BuiltAddress | gr-starcoder/include/starcoder/ax25.h:129-161 | every address field the sender builds passes the byte check of the receiver |
| Ax25Stream.FrameRun | gr-starcoder/lib/ax25_decoder_bm_impl.cc:184-366 | any acceptable frame between flags is received, with its stuffed bits removed, and leaves the receiver idle |
| Ax25Stream.FrameRoundTrip | gr-starcoder/lib/ax25_encoder_mb_impl.cc:111-170 | one message, encoded, modulated and decoded, is published as it was |
| Ax25Stream.StreamRoundTrip | gr-starcoder/lib/ax25_decoder_bm_impl.cc:184-366 | for any list of messages the concatenated encoder outputs decode to exactly those messages, in order, with no failed frame |
| Ax25Link.SendAndReceive | gr-starcoder/lib/ax25_decoder_bm_impl.cc:427-442 | both blocks at work, with output buffers of any sizes: exactly the messages are published, in order |
| Ax25Link.LengthWraps | gr-starcoder/lib/ax25_decoder_bm_impl.cc:349-355 | any address the sender builds, sent with its FCS and at most one byte more, makes a receiver that strips headers publish a length that has wrapped |
| Ax25Recovery.AbortResets | gr-starcoder/lib/ax25_decoder_bm_impl.cc:226-228 | from every state of decoding that can be reached, seven ones lead back to hunting for a flag |
| Ax25Recovery.StillSettles | gr-starcoder/lib/ax25_decoder_bm_impl.cc:184-271 | 24 symbols alike bring every state that can be reached to hunting, with nothing left over and a register that cannot mislead |
| Ax25Recovery.FrameWhileHunting | gr-starcoder/lib/ax25_decoder_bm_impl.cc:189-251 | from every state of hunting, with any register and any level of the line, a frame after two or more flags is received and leaves the receiver idle, except exactly when the register ends in six ones above a zero, the line is where the sender starts and there are just two flags |
| Ax25Recovery.StreamWhileHunting | gr-starcoder/lib/ax25_decoder_bm_impl.cc:184-366 | so all messages of a stream are published, in order, after three flags or when the receiver is not misled |
| Ax25Recovery.RecoversFromAbort | gr-starcoder/lib/ax25_decoder_bm_impl.cc:184-366 | for any input that ends inside a frame, then seven or more ones, then frames after three flags: exactly those frames follow what was published before |
| Ax25Recovery.RecoversFromStill | gr-starcoder/lib/ax25_decoder_bm_impl.cc:184-366 | for any input, then 24 or more symbols alike, then frames after two flags: the same |
| Ax25Recovery.SixOnesMislead | gr-starcoder/lib/ax25_decoder_bm_impl.cc:189-216 | when six symbols alike come first, a new receiver loses the frame that follows after two flags |
| Ax25Recovery.FrameRefused | gr-starcoder/lib/ax25_decoder_bm_impl.cc:230-247 | a frame is given up as soon as a byte is complete that the byte check refuses, without a word, or that fills the buffer, as failed |
| ViterbiCode.OutputIsParity | gr-starcoder/lib/meteor/meteor_viterbi.cc:80-83 | the output table holds the parities of the register under taps 79 and 109 |
| ViterbiCode.NewestFlipsBoth | gr-starcoder/lib/meteor/meteor_viterbi.cc:134-142 | the two successors of a state have complementary outputs, which is why four pair keys suffice |
| ViterbiCode.DistanceLinear | gr-starcoder/lib/meteor/meteor_viterbi.cc:94-126 | the metric is linear in the soft values and the metrics of complementary pairs sum to 1020 |
| ViterbiCode.OptIsMinimum | gr-starcoder/lib/meteor/meteor_viterbi.cc:178-260 | the recurrence of add-compare-select is the minimum over all inputs that reach a state, and some input attains it |
| ViterbiCode.StatesClose | gr-starcoder/lib/meteor/meteor_viterbi.cc:188-256 | from step 6 on no state costs more than 6 * 512 above another |
| ViterbiCode.MinGrows | gr-starcoder/lib/meteor/meteor_viterbi.cc:188-256 | the least cost never falls and grows by at most 510 a step |
| ViterbiSurvivors.SurvivorStep | gr-starcoder/lib/meteor/meteor_viterbi.cc:219-247 | a survivor is that of its predecessor with the newest bit added |
| ViterbiSurvivors.TrailAt | gr-starcoder/lib/meteor/meteor_viterbi.cc:385-402 | walking the decisions backwards reads the survivor from its end |
| ViterbiSurvivors.StepExact | gr-starcoder/lib/meteor/meteor_viterbi.cc:188-256 | if no sum passes 65535, a step leaves every kept state with its minimum, renormalisation taken out, and a survivor that attains it |
| ViterbiSurvivors.Renormalized | gr-starcoder/lib/meteor/meteor_viterbi.cc:326-329 | subtracting the least error keeps the errors exact for the new base |
| ViterbiSurvivors.EndDecided | gr-starcoder/lib/meteor/meteor_viterbi.cc:175 | the last traceback emits the end of a best path into state zero and leaves the decided groups as they are |
| ViterbiSurvivors.ExactIffFits | gr-starcoder/lib/meteor/meteor_viterbi.cc:203-246 | after exact errors a step writes exact errors if and only if no sum passes 65535; otherwise some kept error comes out below the true minimum |
| ViterbiSurvivors.ExactWhileNoWrap | gr-starcoder/lib/meteor/meteor_viterbi.cc:188-259 | over any run, the errors that are kept are the true minima at every step if and only if no sum has passed 65535 |
| ViterbiSurvivors.SilenceWraps | gr-starcoder/lib/meteor/meteor_viterbi.cc:60 | on all-zero input the sums pass 65535 from step 130 on, and not before |
| ViterbiSurvivors.WrapMisleads | gr-starcoder/lib/meteor/meteor_viterbi.cc:212-225 | after 129 silent steps and one pair of strong values, the survivor of state zero costs 512 more than the best path to it |
| ViterbiSurvivors.SilentTies | gr-starcoder/lib/meteor/meteor_viterbi.cc:212-225 | on silence all sums are equal, and the kept predecessor is the low one in the main part and the high one in the tail |
| ViterbiDecoder.MetricSoftDistance | gr-starcoder/lib/meteor/meteor_viterbi.cc:94-126 | the branch metric, with both bytes read as signed |
| ViterbiChannel.MetricOfValues | gr-starcoder/lib/meteor/meteor_viterbi.cc:94-126 | for all pairs of values from -128 to 127, sent as two's complement: the metric is the sum of their distances from 255 for a zero and from -255 for a one |
| ViterbiChannel.CostOfPath | gr-starcoder/lib/meteor/meteor_viterbi.cc:188-256 | the cost of a path is the sum, over its code word, of the distances of the values; the code word is given by delays, 0, 1, 2, 3, 6 and 0, 2, 3, 5, 6 |
| ViterbiDecoder.CreateTable | gr-starcoder/lib/meteor/meteor_viterbi.cc:80-83 | the table of code outputs |
| ViterbiDecoder.PairLookupCreate | gr-starcoder/lib/meteor/meteor_viterbi.cc:128-143 | every state gets the key of its pair of outputs and the keys stay within 1 to 4 |
| ViterbiDecoder.Viterbi.constructor | gr-starcoder/lib/meteor/meteor_viterbi.cc:62-90 | establishes the tables |
| ViterbiDecoder.Viterbi.PairLookupFillDistance | gr-starcoder/lib/meteor/meteor_viterbi.cc:407-415 | each key holds both distances of its pair, packed |
| ViterbiDecoder.Viterbi.InnerColumn | gr-starcoder/lib/meteor/meteor_viterbi.cc:195-255 | all 64 successors get the lesser 16-bit sum and its decision, ties to the low predecessor |
| ViterbiDecoder.Viterbi.TailColumn | gr-starcoder/lib/meteor/meteor_viterbi.cc:276-310 | every skip-th successor gets the lesser sum, ties to the high predecessor |
| ViterbiDecoder.Viterbi.HistoryBufferSearch | gr-starcoder/lib/meteor/meteor_viterbi.cc:338-351 | the state found has the least error among those searched |
| ViterbiDecoder.Viterbi.HistoryBufferRenormalize | gr-starcoder/lib/meteor/meteor_viterbi.cc:353-358 | subtracts the error of the given state from all |
| ViterbiDecoder.Viterbi.HistoryBufferTraceback | gr-starcoder/lib/meteor/meteor_viterbi.cc:360-405 | the written stream grows by exactly the columns that are old enough, along the trail of the given state, in order, and only the young ones remain |
| ViterbiDecoder.Viterbi.HistoryBufferProcessSkip | gr-starcoder/lib/meteor/meteor_viterbi.cc:317-336 | the column joins the history; a full ring is traced back from a best state; every 128th column is brought down |
| ViterbiDecoder.Viterbi.ErrorBufferSwap | gr-starcoder/lib/meteor/meteor_viterbi.cc:417-421 | the buffers trade places, but for the first call, which hands back the zeros |
| ViterbiDecoder.Viterbi.VitInner | gr-starcoder/lib/meteor/meteor_viterbi.cc:178-260 | keeps the meaning of errors, history and written bits up to the tail |
| ViterbiDecoder.Viterbi.VitTail | gr-starcoder/lib/meteor/meteor_viterbi.cc:262-315 | keeps it through the tail |
| ViterbiDecoder.Viterbi.VitConvDecode | gr-starcoder/lib/meteor/meteor_viterbi.cc:158-176 | every bit but the last six is decided once and emitted in order; if no sum wraps, each group lies on a path of least cost at its time and the last one on a best path into state zero; the recorded errors of all steps are exact if and only if no sum wraps |
| ViterbiCorrection.Climb | gr-starcoder/lib/meteor/meteor_viterbi.cc:50-51 | a difference that lasts gains code weight: at least a quarter for every step |
| ViterbiCorrection.DyingOut | gr-starcoder/lib/meteor/meteor_viterbi.cc:50-51 | a difference that dies out has weight at least eight |
| ViterbiCorrection.Excess | gr-starcoder/lib/meteor/meteor_viterbi.cc:94-126 | another path costs more by twice the strength bound for each differing code bit, less what bad values take back |
| ViterbiCorrection.OtherCostsMore | gr-starcoder/lib/meteor/meteor_viterbi.cc:158-315 | on a tolerable frame every other path that has rejoined, or has been apart for 42 steps, costs more |
| ViterbiCorrection.BestAgrees | gr-starcoder/lib/meteor/meteor_viterbi.cc:360-378 | a best path agrees with the sent one but for the last 41 bits |
| ViterbiCorrection.NothingWraps | gr-starcoder/lib/meteor/meteor_viterbi.cc:60 | on a tolerable frame no 16-bit sum wraps |
| ViterbiCorrection.DecidedIsSent | gr-starcoder/lib/meteor/meteor_viterbi.cc:158-176 | what is decided along best paths is what was sent |
| ViterbiCorrection.VitDecode | gr-starcoder/lib/meteor/meteor_viterbi.cc:152-176 | every frame ending in six zeros that arrives tolerably is decoded to its own bits, in every whole byte |
| ViterbiCorrection.NoiselessIsReceived | gr-starcoder/lib/meteor/meteor_viterbi.cc:158-176 | a frame sent at full strength is tolerable |
| ViterbiCorrection.ReceivedIsBest | gr-starcoder/lib/meteor/meteor_viterbi.cc:158-315 | a tolerable frame is the one path of least cost, so no other frame explains the same values |
| ViterbiChannel.FairIsTolerable | gr-starcoder/lib/meteor/meteor_viterbi.cc:152-176 | the frames that are corrected, described by their signed values and code words alone |
| ViterbiChannel.DecodeFrame | gr-starcoder/lib/meteor/meteor_viterbi.cc:152-176 | every frame that ends in six zeros and whose signed values arrive fairly, sent as two's complement bytes, comes out as the numbers of its bytes |
| ViterbiChannel.FairIsClosest | gr-starcoder/lib/meteor/meteor_viterbi.cc:158-315 | it is closer to the values than every other frame |
| BitIo.Writer.WriteBitlistReversed | gr-starcoder/lib/meteor/meteor_bit_io.cc:77-132 | the stream grows by the reversed list exactly when nothing is pending or the list completes the pending byte; otherwise it falls back to its whole bytes |
| BitReader.Reader.PeekNBits | gr-starcoder/lib/meteor/meteor_bit_io.cc:54-62 | the number that the next n bits spell |
| BitReader.Reader.FetchNBits | gr-starcoder/lib/meteor/meteor_bit_io.cc:66-70 | the same, and the position moves on |
| BitReader.ByteIsValue | gr-starcoder/lib/meteor/meteor_bit_io.cc:54-62 | eight bits from the start of a byte spell its value, so the highest bit comes first |
| PacketReassembly.Packeter.ParsePartial | gr-starcoder/lib/meteor/meteor_packet.cc:105-121 | a packet is handed on exactly when all of it is there |
| PacketReassembly.Packeter.ParsePackets | gr-starcoder/lib/meteor/meteor_packet.cc:170-183 | the loop hands on every complete packet and saves the start of the last |
| PacketReassembly.Packeter.ParseCvcdu | gr-starcoder/lib/meteor/meteor_packet.cc:129-184 | one frame: empty, lost, continued or completed, by the header pointer and the counter |
| PacketLink.LaidIsRead | gr-starcoder/lib/meteor/meteor_packet.cc:132-147 | a frame laid out from its fields, high byte first (version, craft and id; 24-bit counter; 11-bit pointer), is read back as those fields, for all their values |
| PacketLink.PacketIsRead | gr-starcoder/lib/meteor/meteor_packet.cc:105-121 | a packet whose length field, high byte first, is its length less seven is taken whole, whatever follows |
| PacketLink.EmptyIsIgnored | gr-starcoder/lib/meteor/meteor_packet.cc:147 | a frame of version 0 or id 0 changes nothing |
| PacketLink.UnfinishedIsGivenUp | gr-starcoder/lib/meteor/meteor_packet.cc:147-183 | if a header pointer says that a packet ends where it does not, what is pending is given up and the frame is taken as if nothing had been, unless it holds nothing else |
| PacketLink.ScanStream | gr-starcoder/lib/meteor/meteor_packet.cc:172-183 | scanning a stretch of the packet stream from a packet start delivers the packets that end in it and keeps the cut-off one |
| PacketLink.StepKeeps | gr-starcoder/lib/meteor/meteor_packet.cc:129-184 | one frame, after any loss, keeps deliveries in order and what is pending the start of a sent packet |
| PacketLink.LossyDelivery | gr-starcoder/lib/meteor/meteor_packet.cc:147-183 | whatever frames are lost, deliveries are sent packets, in order and at most once |
| PacketDelivery.DeliveredExactly | gr-starcoder/lib/meteor/meteor_packet.cc:147-183 | a packet is delivered if and only if all frames from the one it starts in to the one that completes it arrive |
| PacketDelivery.NothingLost | gr-starcoder/lib/meteor/meteor_packet.cc:147-183 | without loss a prefix is delivered and at most one complete packet is pending |
| PacketDelivery.FrameFits | gr-starcoder/lib/meteor/meteor_packet.cc:153-162 | on such a link the 2048-byte buffer is never overrun |
| PacketDelivery.ReceiveAll | gr-starcoder/lib/meteor_decoder_sink_impl.cc:99-111 | the receiver object, fed frame by frame, delivers exactly the packets whose frames arrive |
| Huffman.PrefixFree | gr-starcoder/lib/meteor/meteor_image.cc:97-126 | for any table of counts that fits, no canonical code begins with another |
| Huffman.OneMatch | gr-starcoder/lib/meteor/meteor_image.cc:164-172 | at most one code is the start of a 16-bit word |
| Huffman.LookupFinds | gr-starcoder/lib/meteor/meteor_image.cc:164-172 | a word that starts with a code is looked up as that code |
| JpegTables.TablesFit | gr-starcoder/lib/meteor/meteor_image.h:69-84 | both code tables leave room for all their codes |
| JpegTables.IndexFinds | gr-starcoder/lib/meteor/meteor_image.h:69-82 | every run and size that can occur has a code |
| JpegTables.FillValues | gr-starcoder/lib/meteor/meteor_image.cc:89-95 | the symbols are stored by code length and rank |
| JpegTables.CodeRanges | gr-starcoder/lib/meteor/meteor_image.cc:97-107 | the first and last canonical code of each length |
| JpegTables.FillTable | gr-starcoder/lib/meteor/meteor_image.cc:109-126 | entry n of the table is the n-th canonical code with its run and size |
| JpegTables.GetAcReal | gr-starcoder/lib/meteor/meteor_image.cc:164-172 | the search finds the canonical code that the word starts with, or none |
| JpegTables.DcLookup | gr-starcoder/lib/meteor/meteor_image.cc:136-162 | the nested tests find the category whose canonical code the word starts with |
| JpegTables.DcCode | gr-starcoder/lib/meteor/meteor_image.cc:136-162 | the lengths and numbers of all twelve DC codes |
| JpegMarks.StandardAcCodes | gr-starcoder/lib/meteor/meteor_image.h:69-84 | the codes for the end of a block, for sixteen zeros and for the shortest run are those of Annex K.3 of ITU-T T.81 |
| JpegTables.InitHuffmanTable | gr-starcoder/lib/meteor/meteor_image.cc:82-134 | both 65536-entry lookups are the searches |
| JpegBlocks.MapRangeInverts | gr-starcoder/lib/meteor/meteor_image.cc:261-268 | mapping a category and its bits back gives the value |
| JpegMarks.CategoryMeans | gr-starcoder/lib/meteor/meteor_image.cc:261-268 | category n holds exactly the values of n binary digits, with either sign |
| JpegMarks.NumbersAscend | gr-starcoder/lib/meteor/meteor_image.cc:261-268 | the numbers of a category stand for its values in ascending order, the negative ones first |
| JpegBlocks.AcRoundTrip | gr-starcoder/lib/meteor/meteor_image.cc:335-367 | the AC coefficients from any position on, coded as runs, ZRL and EOB, decode to themselves |
| JpegBlocks.BlockRoundTrip | gr-starcoder/lib/meteor/meteor_image.cc:324-367 | so does a block with its DC difference |
| JpegBlocks.BlocksRoundTrip | gr-starcoder/lib/meteor/meteor_image.cc:321-377 | and any sequence of blocks, one DC difference after the other |
| JpegMarks.BadCodeCuts | gr-starcoder/lib/meteor/meteor_image.cc:321-328 | coded blocks followed by nine ones, which begin no DC code, decode to exactly those blocks |
| JpegBlocks.Imager.DecodeAcs | gr-starcoder/lib/meteor/meteor_image.cc:335-367 | the AC loop on the array and the reader does what the decoding function says |
| JpegBlocks.Imager.DecodeOne | gr-starcoder/lib/meteor/meteor_image.cc:324-367 | a whole block into the array |
| JpegBlocks.Imager.DecMcus | gr-starcoder/lib/meteor/meteor_image.cc:321-379 | all blocks; a bad code ends it and the blocks before it stand |
| JpegBlocks.DecodePacket | gr-starcoder/lib/meteor/meteor_image.cc:307-379 | the bytes of any 14 blocks within the limits, coded, decode to those blocks |
| Golay24.TimesXor | gr-starcoder/lib/golay24.c:104-109 | multiplication by the parity matrix is linear |
| Golay24.TimesTwice | gr-starcoder/lib/golay24.c:49-53 | the parity matrix is its own inverse |
| Golay24.MinWeight | gr-starcoder/lib/golay24.c:49-53 | a codeword other than zero has at least eight ones |
| GolayChannel.MatrixIsRotated | gr-starcoder/lib/golay24.c:49-53 | the matrix, entry by entry: eleven rotations of the same row, a row of ones below them and a column of ones beside |
| GolayDecoder.EncodeGolay24 | gr-starcoder/lib/golay24.c:55-68 | the result is the codeword that carries the twelve message bits |
| GolayDecoder.OneExplanation | gr-starcoder/lib/golay24.c:78-127 | at most one error of weight three has a given syndrome, and then none of weight four |
| GolayDecoder.FindError | gr-starcoder/lib/golay24.c:85-129 | steps 2 to 7 find the error of weight at most three if there is one, and find nothing otherwise |
| GolayDecoder.DecodeGolay24 | gr-starcoder/lib/golay24.c:70-137 | the codeword within three bits and its distance; -1 and the word unchanged otherwise, in particular at distance four |
| GolayDecoder.NearIsUnique | gr-starcoder/lib/golay_decoder_impl.cc:66-92 | the codewords near a message are determined by it |
| GolayDecoder.FourIsTooFar | gr-starcoder/lib/golay24.c:128-129 | four flipped bits are noticed |
| GolayDecoder.DecodeUnits | gr-starcoder/lib/golay_decoder_impl.cc:66-92 | units are decoded in turn, up to the first that cannot be corrected |
| GolayDecoder.MsgHandler | gr-starcoder/lib/golay_decoder_impl.cc:59-100 | prefix, message bits and suffix are published if and only if every unit is within three bits of a codeword; a unit with four flips stops publication |
| GolayChannel.Receive | gr-starcoder/lib/golay_decoder_impl.cc:59-100 | on bytes: whatever came in, if each unit differs in at most three bits from what is sent for a message, those messages come out; a unit with four flips keeps anything from coming out |
| Ar2300Framing.Source.ScanLoop | gr-starcoder/lib/ar2300_source_impl.cc:87-114 | the loop that steps its index back does what taking windows one after the other does, and ends |
| Ar2300Framing.ValidIsMarked | gr-starcoder/lib/ar2300_source_impl.cc:130-139 | a sample is valid exactly if byte 1 is odd and bytes 3, 5 and 7 are even |
| Ar2300Framing.Source.EncodeAr2300 | gr-starcoder/lib/ar2300_source_impl.cc:70-120 | one call with the bytes left over from the last; a call that fails leaves those as they were |
| Ar2300Framing.OneCall | gr-starcoder/lib/ar2300_source_impl.cc:76-85 | one call finds the samples and the verdict of an uncut scan if and only if: a rebuilt sample is followed by a stretch on which the kept count does not matter; or no sample starts among the bytes left over and both reach the limit or neither does |
| Ar2300Framing.CutsThatAgree | gr-starcoder/lib/ar2300_source_impl.cc:70-120 | for any bytes and any calls, all calls are in step with a scan of the uncut stream exactly if every cut meets that condition |
| Ar2300Framing.CleanCall | gr-starcoder/lib/ar2300_source_impl.cc:76-85 | if nothing is left over, or it begins a sample and no window has just been rejected, the call agrees with the uncut scan in everything |
| Ar2300Framing.CleanCutsAreHarmless | gr-starcoder/lib/ar2300_source_impl.cc:70-120 | with that guard at each cut any stream, resynchronised or not, is treated as if it were uncut |
| Ar2300Framing.ChunkingIsIrrelevant | gr-starcoder/lib/ar2300_source_impl.cc:70-120 | an aligned stream of valid samples meets the guard and yields every one of them, however it is cut into calls |
| Ar2300Framing.OnlyValidated | gr-starcoder/lib/ar2300_source_impl.cc:70-120 | on arbitrary bytes and calls, only windows of the stream that pass the check are output, in order, and no byte belongs to two |
| Ar2300Framing.LeftoverCanBeDropped | gr-starcoder/lib/ar2300_source_impl.cc:76-85 | from the start of a stream: bytes left over that do not begin a sample are dropped, and a sample that starts among them is lost |
| Ar2300Framing.WarningsSurvive | gr-starcoder/lib/ar2300_source_impl.cc:76-85 | from the start of a stream: a rebuilt sample does not clear the count, so a call fails where the uncut stream does not |
| Ar2300Framing.DroppedIsNotCounted | gr-starcoder/lib/ar2300_source_impl.cc:76-85 | from the start of a stream: windows that begin among dropped bytes are not counted, so calls succeed where the uncut stream fails |
| Ar2300Framing.ReadAll | gr-starcoder/lib/ar2300_source_impl.cc:52-68 | a new receiver, fed buffer by buffer, outputs the samples of the stream that the calls find |
| StringQueues.StringQueue.Push | cqueue/string_queue.cc:26-33 | appends, unless the queue is full |
| StringQueues.StringQueue.Pop | cqueue/string_queue.cc:35-44 | takes the oldest; an empty or oversized message reads as nothing |
| StringQueues.StringQueue.BlockingPop | cqueue/string_queue.cc:46-59 | the same once the wait is over |
| StringQueues.StringQueue.Close | cqueue/string_queue.cc:61-66 | closes and leaves the messages in place |
| StringQueues.SendTheRest | server/starcoder.go:276-285 | sends what is left, up to the first empty or oversized message |
| StringQueues.LosslessDrain | server/starcoder.go:254-289 | in every interleaving of push, pop and close the loop that returns has sent exactly the accepted messages, once and in order, if all are good |
| StringQueues.AllPushedIsSent | server/starcoder.go:254-289 | if no more messages are pushed than fit and all are good, the loop that returns has sent all that were pushed |
| StringQueues.NothingVanishes | server/starcoder.go:254-289 | at any time, what is sent, in hand and queued is what was accepted |
| StringQueues.DoneIsComplete | server/starcoder.go:254-289 | in every interleaving, if the accepted messages are safe, the loop that returns has sent every one that can be sent |
| StringQueues.LossIsPossible | server/starcoder.go:254-289 | if they are not safe, some interleaving loses a message that can be sent |
| StringQueues.SafeExactly | server/starcoder.go:254-289 | so the messages that are always sent whole are exactly the safe ones |
| StringQueues.SentInOrder | server/starcoder.go:254-289 | even when sends fail, messages are sent in the order in which they were accepted, and none twice |
| StringQueues.SentIsSucceeded | server/starcoder.go:254-289 | as many messages are recorded as sent as sends have succeeded |
| StringQueues.LoopReturns | server/starcoder.go:254-289 | once the queue is closed the loop can always go on and every step brings its end nearer |
| StreamLifecycle.StepKeeps | server/starcoder.go:127-149 | every step of every participant keeps each handler in one place |
| StreamLifecycle.RunsExactly | server/starcoder.go:127-149 | after any run an event is possible if and only if the events so far allow it, said of those events alone |
| StreamLifecycle.FinishedIsClosed | server/starcoder.go:133-138 | while the manager serves, a registered handler that finishes can be taken in, is then closed once and no longer registered, and the gauge is one lower |
| StreamLifecycle.RequestsGetThrough | server/starcoder.go:133-138 | while it serves, every deregistration not yet taken in can be |
| StreamLifecycle.ClosedAtMostOnce | server/starcoder.go:372-386 | in every run each handler is closed at most once, so its stop channel is |
| StreamLifecycle.GaugeCounts | server/starcoder.go:130-138 | until shutdown the gauge is the number of registered handlers: those taken in and not closed |
| StreamLifecycle.ShutdownClosesAll | server/starcoder.go:141-146 | after shutdown every handler that was taken in has been closed |
| StreamLifecycle.ShutdownReturns | server/starcoder.go:141-146 | shutdown is never stuck and takes a step for each handler left |
| StreamLifecycle.ClosedWhenAsked | server/starcoder.go:130-138 | without shutdown a handler is closed if and only if a deregistration was taken in after its registration |
| StreamLifecycle.EarlyFinishIsLost | server/starcoder.go:133-138 | a deregistration that overtakes the registration is lost for good |
| Prbs.Generator.constructor | gr-starcoder_utils/python/prbs_generator.py:34-45 | the store holds one period |
| Prbs.Generator.GenerateAndStore | gr-starcoder_utils/python/prbs_generator.py:47-54 | the register in place yields the next stretch of the period |
| Prbs.Recurrence | gr-starcoder_utils/python/prbs_generator.py:47-54 | each bit is the sum of two earlier ones, whose delays are one more than the taps named |
| Prbs.Generator.GenerateNBits | gr-starcoder_utils/python/prbs_generator.py:59-72 | from the store or the register: the next n bits of the periodic stream |
| Prbs.SliceSplit | gr-starcoder_utils/python/prbs_generator.py:59-72 | a stretch of the stream in two calls is the stretch in one |
| Prbs.Generator.GenerateNBitsAfterX | gr-starcoder_utils/python/prbs_generator.py:74-85 | the n bits from any position of the periodic stream |
| PrbsPackets.HeaderAdder.AddHeader | gr-starcoder_utils/python/add_incrementing_header_pdu.py:47-57 | the message number in front, lowest byte first |
| PrbsPackets.HeaderRoundTrip | gr-starcoder_utils/python/prbs_sink_pdu.py:97-102 | the number is read back |
| PrbsPackets.PackBits | gr-starcoder_utils/python/utils.py:25-43 | whole bytes, most significant bit first; bits that do not fill a byte are dropped |
| PrbsPackets.PackedSpells | gr-starcoder_utils/python/utils.py:25-43 | each byte is the number that its eight bits spell, first bit highest |
| PrbsPackets.Sink.VerifyPacket | gr-starcoder_utils/python/prbs_sink_pdu.py:104-116 | the number of a packet whose bytes are the expected ones, or -1 |
| PrbsPackets.Sink.CorrectedHandler | gr-starcoder_utils/python/prbs_sink_pdu.py:73-94 | each packet is counted as of wrong length, erroneous or correct, and the correct ones under their number |
| PrbsPackets.Sink.Evaluate | gr-starcoder_utils/python/prbs_sink_pdu.py:118-133 | correct packets are the unique ones and the duplicates |
| PrbsPackets.SentIsAccepted | gr-starcoder_utils/python/prbs_sink_pdu.py:73-94 | packet i, packed and numbered, is accepted as i |
| PrbsPackets.AcceptedWasSent | gr-starcoder_utils/python/prbs_sink_pdu.py:73-94 | nothing but packet i is accepted as i |
| PrbsPackets.UniqueAndDuplicates | gr-starcoder_utils/python/prbs_sink_pdu.py:122-131 | the sum of the counts splits into unique packets and duplicates |

## Left out

- The scrambled branches of AX.25: the shift register they use is in GNU Radio and is not part of this model.
- `ax25_decode` and `ax25_nrz_bit_stuffing`, which the encoder and decoder blocks do not call on these paths.
- Ax25Frame.CreateAddrField: requires callsigns of at most 6 characters; the source writes longer ones over what follows them.
- Ax25Frame.BitStuffing: requires a frame that holds its flags; for a shorter one the length in the source goes below zero.
- Ax25Encoder.Encoder.LoadFrame: requires an info field of at most 256 bytes; for a longer one the source goes on with the zero length that it got, into the case above.
- Ax25Encoder.Encoder.Work: the same.
- ViterbiDecoder.Viterbi.VitConvDecode: claims best paths only if no 16-bit sum wraps; ViterbiCorrection.NothingWraps gives received frames for which none does, and ViterbiSurvivors.WrapMisleads one where a wrapped sum wins.
- ViterbiCode.OptIsMinimum: sums distances from the second step on, as the first buffer swap discards those of the first.
- The last two decided bits of a Viterbi frame, which stay in the writer because they do not fill a byte; the reading of two soft values as one little-endian word; the count of corrected bits, which the code does not compute either; the synchronisation search around the decoder.
- RsDecoder.EccDecode: when no codeword is within 16 bytes the word that comes out need not be a codeword, as the code does not check its result; for lengths above 16 some shortest polynomial gives the outcome, and which one is not said.
- Ax25Recovery.RecoversFromAbort: for frames broken off inside the data; from other states StillSettles gives 24 symbols.
- RsDecoder.BerlekampMassey: the one array that the source overwrites with logs halfway is an array of values and then one of logs; interleaving is left out.
- PacketReassembly.Packeter.ParseCvcdu: requires that the copies fit the packet buffer, which the source does not check; PacketDelivery.FrameFits proves it for links of valid packets.
- PacketLink.LossyDelivery: frame counters do not wrap, and packets have at most 2048 bytes.
- What `parse_apd` does with a packet: a delivered packet is appended to a list.
- JpegBlocks.Imager.DecMcus: requires that no run passes coefficient 63 and that 16 bits can be read at each code, neither of which the source checks. A category of 0 makes the source shift by -1; either outcome of that test gives the value 0.
- JpegBlocks.Imager.DecodeAcs: the same.
- JpegBlocks.Imager.DecodeOne: the same.
- JpegBlocks.DecodePacket: the same.
- Dequantisation, the inverse transform, pixels and `progress_image`: floating point and image layout.
- GolayDecoder.MsgHandler: requires a message that is long enough for its units, which the source does not check; 32-bit words are lists of bits.
- GolayDecoder.DecodeUnits: the same.
- Ar2300Framing.Source.EncodeAr2300: calls have at least eight bytes, as the caller drops shorter reads; a sample is its eight bytes; scaling them to a complex float is left out, and so is the log.
- StringQueues.StringQueue.BlockingPop: the wait is a precondition; wake-ups, the memory of the lock-free queue and gRPC are left out. Messages pushed after closing are not part of a run.
- StringQueues.LosslessDrain: supposes that sending to the client succeeds; StringQueues.SentInOrder is for sends that fail.
- Use of a queue after its deletion, and the wait group: whether a loop has been counted before the wait depends on the scheduler.
- StreamLifecycle.ShutdownClosesAll: a handler offered for registration after the manager has gone is never taken in, and is not closed.
- Prbs.Generator.GenerateNBits: generating without the store supposes that the register is in step with the position, as it is in the constructor.
- PrbsPackets.HeaderAdder.AddHeader: fewer than 2^32 messages; beyond that the conversion to 32 bits is up to the array library.
- Frame error rate and the count of all packets received before decoding: a division and a counter.
- Device and network I/O, GNU Radio ports and tags, logging, Python embedding, PNG writing and plots.

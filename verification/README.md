# Verified model of the LTE channel-coding chain

This project models the forward-error-correction code of the repository (`srslte/lib/fec`) and the
resource arithmetic that feeds it (`srslte/lib/phch`), and proves what that code is for: that a message
which is encoded, rate matched, received without contradiction, combined over retransmissions and decoded
comes back unchanged, and that every fast form (byte tables, compacted lookup tables, SIMD chunks,
butterflies, packed decision words) computes the same thing as the simple form it replaces.

Code that the repository writes as loops over buffers is written here as methods over arrays and classes
with mutable fields. Each such method is proved against a specification function, and the theorems below
are about those functions. Bits are `bool`, packed bytes are `bv8`, CRC registers are `bv64`, Viterbi
decision words are `bv32`, path metrics are integers modulo 2^32. Soft values are `real` inside the turbo
decoder and unbounded `int` in the rate matchers and soft buffers.

## How the parts fit

| part | files | main results |
|---|---|---|
| arithmetic | NumberTheory, Permutations | Bezout, Euclid, cancellation of coprime factors, inverses of permutations |
| turbo code | TurboInterleaver, Trellis, TurboEncoder, TurboEncoderLut, MapDecoder, TurboDecoder | the interleaver is a bijection, the MAP pass is exact, any number of iterations decodes, the byte-table encoder refines the bit encoder |
| convolutional code | ConvolutionalCode, ViterbiMetrics, ViterbiCorrection, ViterbiSharpness, TailBiting, Viterbi37, Words | butterflies compute optimal path metrics, chainback finds an optimal path, the free distance is 15, noise is corrected in zero-terminated frames exactly up to a limit, and in tail-biting frames up to a bound |
| rate matching | SubBlock, CircularBuffer, RateMatchTurbo, RateMatchTurboTables, RateMatchTurboLut, RateMatchTurboRx, RateMatchTurboHarq, RateMatchConv | table and direct forms agree, soft combining conserves every received value |
| CRC | Gf2Division, CrcRegister, CrcTable, Crc | the table-driven register is long division over GF(2), bursts are noticed |
| transport block | CodeBlockSizes, Segmentation, TransportBlock, SharedChannelEncoder, SharedChannelDecoder, SharedChannelRoundTrip | segmentation tiles the block, encoding, sending and decoding returns the data |
| UMTS interleaver | PrimitiveRoots, UmtsInterleaver | every tabulated root is primitive, so for every block length the generated tables are inverse permutations |
| control region | ReferenceSignals, RegGrid, RegAllocation, PdcchInterleaver, ControlRegion | element groups are disjoint and fill the region but for the references, no group is given to two channels, what is put is got |
| shared channel mapping | Symbols, PdschMapping, PdschReferences | the copy moves what the separate count says, get undoes put, and exactly when reference symbols are overwritten |
| resource blocks | DistributedVrb | the distributed allocation is a block interleaver, its slots are N_gap apart; with the first gap it never takes a block twice, with the second it does not exactly when it is short enough for where it starts |

## Model

| member | source | states |
|---|---|---|
| TurboInterleaver.QppInjective | srslte/lib/fec/tc_interl_lte.c:83-94 | for every K, f1, f2 with f1 coprime to K and every prime of K dividing f2, two different indices never share an image |
| TurboInterleaver.RowMeetsCondition | srslte/lib/fec/tc_interl_lte.c:35-66 | all 188 rows (f1, f2) of the tables meet that premise for their block size |
| TurboInterleaver.QppTableIsPermutation | srslte/lib/fec/tc_interl_lte.c:69-97 | for each of the 188 sizes the generated table is a permutation of [0, K) |
| TurboInterleaver.QppBends | srslte/lib/fec/tc_interl_lte.c:88-94 | the polynomial without its formula: 0 at 0, (f1 + f2) mod K at 1, and second differences 2 f2 modulo K everywhere |
| TurboInterleaver.QuadraticIsQpp | srslte/lib/fec/tc_interl_lte.c:88-94 | no other table has these three properties |
| TurboInterleaver.Interleaver.Fill | srslte/lib/fec/tc_interl_lte.c:86-94 | the loop stores the quadratic permutation polynomial in `forward`, and `forward` and `reverse` are mutually inverse whenever the polynomial permutes |
| TurboInterleaver.Interleaver.LteGen | srslte/lib/fec/tc_interl_lte.c:69-97 | error code exactly for too long blocks, tables untouched on error; for every table size `forward` starts with 0 and f1 + f2, its second differences are 2 f2 modulo K, and it and `reverse` are mutually inverse permutations |
| CodeBlockSizes.CbIndex | srslte/lib/fec/cbsegm.c:108-119 | returns the smallest table size that holds the request, an error exactly above 6144 |
| CodeBlockSizes.CbSize | srslte/lib/fec/cbsegm.c:124-130 | the table size for a valid index, an error otherwise |
| CodeBlockSizes.TableIsBlockSize | srslte/lib/fec/cbsegm.c:35-49 | the 188 literals of the table are the four arithmetic progressions of table 5.1.3-3 of TS 36.212 |
| CodeBlockSizes.BlockSizeIncreasing | srslte/lib/fec/cbsegm.c:35-49 | the sizes are strictly increasing, which the linear search relies on |
| CodeBlockSizes.IndexForExact | srslte/lib/fec/cbsegm.c:108-119 | the search returns exactly the requested size if and only if the request is a table size |
| Trellis.TailClears | srslte/lib/fec/turbocoder.c:123-176 | the three termination inputs drive any register state to zero |
| Trellis.ParityRecurrence | srslte/lib/fec/turbocoder.c:98-117 | the transfer function: at every step z(t) + z(t-2) + z(t-3) == u(t) + u(t-1) + u(t-3) modulo 2, for every input from the zero state, section 5.1.3.2.1 of TS 36.212 |
| Trellis.RunAppend | srslte/lib/fec/turbocoder.c:86-121 | running the encoder over a concatenation is running it over the parts in turn, states and parities alike |
| TurboEncoder.Clock | srslte/lib/fec/turbocoder.c:98-104 | one clock of the constituent encoder produces the trellis parity and the trellis successor |
| TurboEncoder.TurboCoder.Encode | srslte/lib/fec/turbocoder.c:69-180 | for every input (filler nulls included) the output is the merged systematic and parity streams of the two trellises, the second over the interleaved input, then the 12 tail bits; nothing else in the buffer moves |
| TurboEncoder.TurboCoder.EncodeBits | srslte/lib/fec/turbocoder.c:86-121 | the main loop writes each triple from the current trellis states and ends in the states reached by the two inputs |
| TurboEncoder.TurboCoder.EncodeTail | srslte/lib/fec/turbocoder.c:123-176 | writes the six tail bits of the current state and leaves the register at zero |
| TurboEncoder.StreamWithoutFillers | srslte/lib/fec/turbocoder.c:69-180 | without filler bits the stream is the plain codeword of the message and its interleaved copy |
| TurboEncoder.CodewordIs | srslte/lib/fec/turbocoder.c:86-176 | symbol by symbol: input and both parities in turn, then the last three inputs and parities of the first encoder, then those of the second |
| TurboEncoderLut.LutCoder.Encode | srslte/lib/fec/turbocoder.c:183-280 | for every table size and every byte input the systematic, first-parity and nibble-shifted second-parity streams, with the re-dealt tail bits, are the three de-interleaved streams of the bit encoder's codeword |
| TurboEncoderLut.StateTables | srslte/lib/fec/turbocoder.c:282-333 | each byte table entry holds the eight parities and the state after feeding those eight bits to the trellis |
| TurboEncoderLut.LutCoder.Lookup | srslte/lib/fec/turbocoder.c:196-213 | a table lookup is eight clocks of the trellis |
| TurboEncoderLut.LutCoder.FirstParity | srslte/lib/fec/turbocoder.c:196-205 | the first parity bytes are the parities of the input bits from state zero, and the final state is the state reached |
| TurboEncoderLut.LutCoder.SecondParity | srslte/lib/fec/turbocoder.c:207-220 | the second parity is the parity stream of the interleaved input shifted by one nibble, with the nibble before and after it clear |
| TurboEncoderLut.ShiftedStep | srslte/lib/fec/turbocoder.c:207-220 | splitting one parity byte over two output bytes extends the shifted stream by exactly its eight bits |
| TurboEncoderLut.CodewordAt | srslte/lib/fec/turbocoder.c:222-276 | how the last four triples of the codeword re-deal the 12 tail bits |
| TurboEncoderLut.CarriesCodeword | srslte/lib/fec/turbocoder.c:183-280 | three streams with the right data, parities and dealt tails carry the codeword bit for bit |
| MapDecoder.LlrIsExact | srslte/lib/fec/turbodecoder_gen.c:51-196 | each output is the best score over all trellis paths with that bit 1 minus the best score with that bit 0, with the start and end bias; both extremes are attained |
| MapDecoder.LlrSplits | srslte/lib/fec/turbodecoder_gen.c:98-163 | the output is the systematic input of the bit plus an extrinsic value, the exact LLR with that input replaced by zero |
| MapDecoder.PositiveMeansOne | srslte/lib/fec/turbodecoder_gen.c:349-356 | an output is positive exactly when the best path with the bit 1 beats the best with the bit 0 |
| MapDecoder.BackwardIsTrellis | srslte/lib/fec/turbodecoder_gen.c:51-96 | the hand-unrolled beta recursion is the encoder's trellis run backwards |
| MapDecoder.ForwardIsTrellis | srslte/lib/fec/turbodecoder_gen.c:98-163 | the hand-unrolled alpha recursion is the same trellis run forwards |
| MapDecoder.BetaBounds | srslte/lib/fec/turbodecoder_gen.c:51-96 | no continuation of a state scores above its beta metric |
| MapDecoder.BetaAttained | srslte/lib/fec/turbodecoder_gen.c:51-96 | some continuation scores exactly the beta metric |
| MapDecoder.AlphaBounds | srslte/lib/fec/turbodecoder_gen.c:98-163 | no path into a state scores above its alpha metric |
| MapDecoder.AlphaAttained | srslte/lib/fec/turbodecoder_gen.c:98-163 | some path into the state scores exactly the alpha metric |
| MapDecoder.LlrFollowsCode | srslte/lib/fec/turbodecoder_gen.c:185-196 | on inputs whose signs match a terminated code path, every output is at least as decided for the path's bit as the systematic input was |
| MapDecoder.MapGen.BetaPass | srslte/lib/fec/turbodecoder_gen.c:51-96 | after the loop every row of `beta` holds the eight backward metrics |
| MapDecoder.MapGen.AlphaPass | srslte/lib/fec/turbodecoder_gen.c:98-163 | with those rows the forward loop writes the exact LLR of each bit and nothing beyond the block |
| MapDecoder.MapGen.Dec | srslte/lib/fec/turbodecoder_gen.c:185-196 | one MAP pass turns the two soft streams into the exact LLRs of the block |
| TurboDecoder.Decoder.Iteration | srslte/lib/fec/turbodecoder_gen.c:282-331 | one iteration is both MAP passes through the interleaver, and leaves in the a-priori vector, for each bit, the extrinsic value of the second pass: its exact LLR at the de-interleaved place with the systematic input there replaced by zero |
| TurboDecoder.NextIsExtrinsic | srslte/lib/fec/turbodecoder_gen.c:325-327 | the same of the specification function, for every input and a-priori vector; and the bit is decided by the sign of its soft value plus the two extrinsic values |
| TurboDecoder.SecondStartsFrom | srslte/lib/fec/turbodecoder_gen.c:308-312 | the second pass starts from the soft value of the interleaved bit plus the extrinsic value of the first pass: the a-priori value is not counted twice |
| TurboDecoder.ScoresCorrelate | srslte/lib/fec/turbodecoder_gen.c:282-331 | what the passes maximise: the score of a path pair is the correlation of the soft input with the codeword of its message, plus the a-priori and the exchanged values of its bits |
| TurboDecoder.Decoder.FirstPass | srslte/lib/fec/turbodecoder_gen.c:292-306 | first MAP pass over the systematic stream plus a-priori values and the first parity stream, tails included |
| TurboDecoder.Decoder.SecondPass | srslte/lib/fec/turbodecoder_gen.c:308-325 | second MAP pass over the interleaved extrinsic values and the second parity stream, tails included |
| TurboDecoder.Decoder.UpdateApriori | srslte/lib/fec/turbodecoder_gen.c:327-330 | the extrinsic difference is de-interleaved and added to each a-priori value |
| TurboDecoder.Decoder.Reset | srslte/lib/fec/turbodecoder_gen.c:333-347 | clears the a-priori values of the block and selects its table, error exactly for too long blocks |
| TurboDecoder.Decoder.Decision | srslte/lib/fec/turbodecoder_gen.c:349-356 | writes the de-interleaved signs |
| TurboDecoder.Decoder.DecisionByte | srslte/lib/fec/turbodecoder_gen.c:358-377 | writes the same signs packed most significant bit first |
| TurboDecoder.Decoder.RunAll | srslte/lib/fec/turbodecoder_gen.c:379-396 | for every iteration count and every table size, any message whose codeword the soft input does not contradict (nonzero systematic values of the right sign, other values of the right sign or zero) is the decoded output |
| TurboDecoder.IterationRoundTrip | srslte/lib/fec/turbodecoder_gen.c:282-377 | the invariant: on such input, if the a-priori vector never opposes the message, after the iteration it still does not, and the decision is the message |
| TurboDecoder.TurboRoundTrip | srslte/lib/fec/turbodecoder_gen.c:282-396 | decoding after any number of earlier iterations returns the encoded message |
| TurboDecoder.AprioriSupports | srslte/lib/fec/turbodecoder_gen.c:282-331 | the invariant over whole runs, from the reset on |
| ConvolutionalCode.Encode | srslte/lib/fec/convcoder.c:36-65 | the 32-bit shift-register loop emits the codeword of the seven-bit window machine, for zero-terminated and tail-biting frames; short frames are refused with the buffer untouched |
| ConvolutionalCode.AtIsWindow | srslte/lib/fec/convcoder.c:54-62 | the encoder state after t inputs is exactly the last six inputs, whatever came before |
| ViterbiMetrics.Optimal | srslte/lib/fec/viterbi37_port.c:104-235 | the metric of a state is attained by the survivor path into it and no path into it costs less, over every start state and every input sequence |
| ViterbiMetrics.BestIsLeast | srslte/lib/fec/viterbi37_port.c:150-235 | no path into a state costs less than its metric |
| ViterbiMetrics.SurvivorAttains | srslte/lib/fec/viterbi37_port.c:104-137 | the survivor traced back through the decisions costs exactly the metric at every step |
| ViterbiMetrics.DecisionIsInput | srslte/lib/fec/viterbi37_port.c:121-136 | the decision bit read six steps ahead is the input bit the survivor took |
| ViterbiMetrics.BestBelow | srslte/lib/fec/viterbi37_port.c:150-235 | metrics stay at or below 63 + 765 t |
| ViterbiMetrics.SpreadBounded | srslte/lib/fec/viterbi37_port.c:150-166 | any two metrics differ by at most 63 + 6 * 765, so the signed comparison of wrapped 32-bit metrics is right for frames of any length |
| ViterbiCorrection.Corrects | srslte/lib/fec/viterbi.c:69-72 | with the LTE polynomials, every message whose codeword is within a distortion D with 2 D < 63 + 8 * 255 is decoded exactly |
| ViterbiCorrection.FourFlips | srslte/lib/fec/viterbi.c:69-72 | hard inputs with up to four flipped code bits anywhere in a zero-terminated frame are decoded exactly |
| ViterbiSharpness.LimitIsSharp | srslte/lib/fec/viterbi.c:69-72 | for every frame length and every D: all frames within distortion D are decoded exactly if and only if 2 D < 63 + 8 * 255 |
| ViterbiSharpness.FourIsSharp | srslte/lib/fec/viterbi.c:69-72 | for every frame length any m flipped hard bits are corrected if and only if m <= 4 |
| ViterbiSharpness.Misled | srslte/lib/fec/viterbi37_port.c:49-68 | the frames one step past the limit: a path from start state 24 is cheaper than that of the message, whatever its start state |
| ViterbiCorrection.FreeDistance | srslte/lib/fec/convcoder.c:36-65 | the codewords of two different messages of the same length differ in at least 15 bits |
| ViterbiCorrection.OneBitApart | srslte/lib/fec/convcoder.c:36-65 | and flipping one bit of a message, whichever, flips exactly 15 coded bits |
| ViterbiCorrection.EventWeight | srslte/lib/fec/convcoder.c:54-62 | a difference of two paths that leaves state zero and comes back weighs at least 15 |
| ViterbiCorrection.CostsApart | srslte/lib/fec/viterbi37_port.c:150-166 | between any two times the costs of two paths add up to at least 255 times the code bits in which they differ |
| TailBiting.FrameRepeats | srslte/lib/fec/convcoder.c:44-62 | a tail-biting frame ends in the state it starts from, so that three copies of it are one path of the encoder |
| TailBiting.LongPathWeight | srslte/lib/fec/convcoder.c:54-62 | a difference of two paths that is never at rest in state zero gains weight 2 in every three steps, less a constant |
| TailBiting.BestAlong | srslte/lib/fec/viterbi37_port.c:150-235 | from any time on the metrics grow no faster than the cost of any path |
| TailBiting.EventCost | srslte/lib/fec/viterbi.c:61-68 | wherever the survivor into state zero leaves the path of the message, the distortion of the message over that stretch pays for the weight of the difference |
| TailBiting.TailBitingCorrects | srslte/lib/fec/viterbi.c:61-68 | with the LTE polynomials a tail-biting frame of n bits at distortion D from the codeword of a message is decoded to it if 2 D < 15 * 255 and 18 D + 53 * 255 < 2 n * 255 |
| TailBiting.FlippedFrame | srslte/lib/fec/viterbi.c:61-68 | up to seven flipped hard bits in a tail-biting frame are corrected, if 18 times their number plus 53 is below 2 n |
| Viterbi37.ButterflyBranches | srslte/lib/fec/viterbi37_port.c:150-166 | for full-length odd polynomials the one stored branch metric determines the other three by symmetry |
| Viterbi37.Compare | srslte/lib/fec/viterbi37_port.c:150-166 | add-compare-select on wrapped metrics keeps the two better predecessors and their decision bits |
| Viterbi37.V37.Init | srslte/lib/fec/viterbi37_port.c:49-68 | clears all decisions and sets every start metric to 63, zero for a known start state |
| Viterbi37.V37.BranchTable | srslte/lib/fec/viterbi37_port.c:70-81 | the table holds the encoder's output for each even register value |
| Viterbi37.V37.Butterfly | srslte/lib/fec/viterbi37_port.c:150-166 | one butterfly updates two metrics and two packed decision bits and no other |
| Viterbi37.V37.Step | srslte/lib/fec/viterbi37_port.c:171-235 | the 32 butterflies of one trellis step produce all 64 metrics and decisions of the recursion |
| Viterbi37.V37.Update | srslte/lib/fec/viterbi37_port.c:173-213 | over any number of symbols, with the buffers swapped each step, metrics and packed decisions stay those of the recursion; later decision words stay blank |
| Viterbi37.V37.BestState | srslte/lib/fec/viterbi37_port.c:214-226 | the last state of least stored metric, and of least true metric as long as no metric has wrapped |
| Viterbi37.V37.Chainback | srslte/lib/fec/viterbi37_port.c:104-137 | reading the packed decision bits backwards writes the inputs of the survivor into the given state when six steps of tail follow; without the tail it writes six zeros and then the inputs of the survivor into state zero, whatever state was given |
| Viterbi37.ViterbiDecoder.Decode | srslte/lib/fec/viterbi.c:47-75 | a zero-terminated frame gives the inputs of an optimal path into state zero, a tail-biting frame the middle third of those of an optimal path over three copies; both are every message within the respective correction limit; too long frames are refused |
| Words.SignedCompare | srslte/lib/fec/viterbi37_port.c:150-166 | the sign of a wrapped difference decides the true order while the true values are less than 2^31 apart |
| SubBlock.ColumnTables | srslte/lib/fec/rm_turbo.c:53-54 | the column permutation of the turbo rate matcher is its own inverse, and the two convolutional tables are inverse to each other |
| SubBlock.PermsReverseBits | srslte/lib/fec/rm_turbo.c:53-54 | the turbo permutation reverses the five bits of the column number, the convolutional one also flips the lowest bit of the result |
| SubBlock.PlaceOfCell | srslte/lib/fec/rm_turbo.c:556-576 | reading a matrix written by rows column by column is undone by the closed-form place |
| SubBlock.CellIs | srslte/lib/fec/rm_turbo.c:556-576 | row i of column j is read j R + i-th and is cell 32 i + P(j) |
| CircularBuffer.ReadStep | srslte/lib/fec/rm_turbo.c:594-602 | a circular scan that skips empty positions delivers the n-th occupied position after the start, and each skip gets nearer to one, so it terminates |
| CircularBuffer.SelectsNext | srslte/lib/fec/rm_turbo.c:594-602 | what is selected first is the first kept position from the start on, and what is selected next the first kept one behind the last |
| TurboCircularBuffer.SlotOfPosition | srslte/lib/fec/rm_turbo.c:556-586 | every coded bit has exactly one place in the circular buffer, and that place holds it |
| TurboCircularBuffer.PositionOfSlot | srslte/lib/fec/rm_turbo.c:556-586 | every occupied place holds exactly one coded bit |
| TurboCircularBuffer.TotalIsLength | srslte/lib/fec/rm_turbo.c:556-586 | exactly 3 n of the places are occupied |
| TurboCircularBuffer.BufferIs | srslte/lib/fec/rm_turbo.c:556-586 | the layout by row and column: the systematic stream in the first K_p places, the parity streams alternating behind them, the second one cell later, dummies at the start of the first row, sections 5.1.4.1.1 and 5.1.4.1.2 of TS 36.212 |
| TurboCircularBuffer.StartIsColumn | srslte/lib/fec/rm_turbo.c:591-592 | the start of redundancy version rv is column 24 rv + 2 and lies inside the buffer |
| RateMatchTurboTx.RmTurboTx | srslte/lib/fec/rm_turbo.c:529-604 | for every length, output length and version with a bit to send: error codes, the filled buffer, and each output bit as the k-th non-null buffer entry from the start; the 16-bit row count of lengths above 3 * 65536 included |
| RateMatchTurboTx.FillStream | srslte/lib/fec/rm_turbo.c:558-575 | the first two streams fill their lanes of the buffer by the sub-block interleaver and touch no other lane |
| RateMatchTurboTx.FillThird | srslte/lib/fec/rm_turbo.c:577-585 | the third stream fills its lane by the shifted interleaver |
| RateMatchTurboTx.TransmittedIsSent | srslte/lib/fec/rm_turbo.c:588-602 | without null bits the transmitted bit is the coded bit given by the transmit order |
| RateMatchTurboTables.GenTableSystematic | srslte/lib/fec/rm_turbo.c:67-90 | after the systematic loop the table lists the systematic sources in buffer order and k0 counts the occupied places before each start met so far |
| RateMatchTurboTables.GenTableParity | srslte/lib/fec/rm_turbo.c:92-134 | the parity loop continues both to the end of the buffer |
| RateMatchTurboTables.K0Complete | srslte/lib/fec/rm_turbo.c:80-86 | every version's k0 entry is set and is the number of occupied positions before its start |
| RateMatchTurboTables.CompactSends | srslte/lib/fec/rm_turbo.c:265-279 | reading the compacted buffer round from that entry visits the coded bits in the transmit order |
| RateMatchTurboTables.CompactIsPermutation | srslte/lib/fec/rm_turbo.c:67-134 | the compacted buffer holds every coded bit exactly once |
| RateMatchTurboTables.SystematicPart | srslte/lib/fec/rm_turbo.c:67-90 | exactly n places of the first third are occupied, so the parity part starts at bit n |
| RateMatchTurboLut.RmTurboTables.constructor | srslte/lib/fec/rm_turbo.c:214-241 | all transmit, k0 and receive tables of all 188 sizes and 4 versions are what the two rate matchers need |
| RateMatchTurboLut.RmTurboTxLut | srslte/lib/fec/rm_turbo.c:243-285 | version 0 fills the compacted buffer, the other versions leave it; every output bit is the buffer read round from k0; bits before the offset stay; the copy loop terminates |
| RateMatchTurboLut.FillSqueezed | srslte/lib/fec/rm_turbo.c:254-263 | the two table-driven bit gathers leave the compacted circular buffer of the block |
| RateMatchTurboLut.CopyRound | srslte/lib/fec/rm_turbo.c:265-279 | the chunked copy loop equals reading the compacted buffer bit by bit with wrap-around |
| RateMatchTurboLut.LutRefinesDirect | srslte/lib/fec/rm_turbo.c:243-604 | for every size, version and bit, the table form sends the same bit as the direct form |
| RateMatchTurboLut.RmTurboRxLut | srslte/lib/fec/rm_turbo.c:287-493 | in the scalar, 8-lane and 16-lane form: an error with the buffer untouched exactly for an invalid size index or version, otherwise each received value is added once to the receive table's entry for it |
| RateMatchTurboRx.GenTableReceive | srslte/lib/fec/rm_turbo.c:138-212 | the receive table is the transmit order of its version, and only entries written for this size are read |
| RateMatchTurboRx.SentIsPermutation | srslte/lib/fec/rm_turbo.c:138-212 | the transmit order of every version visits each of the 3 n coded bits once |
| RateMatchTurboRx.SentPeriodic | srslte/lib/fec/rm_turbo.c:296-302 | and repeats with period 3 n, which is why the index modulo the length is right |
| RateMatchTurboRx.RxLutScalar | srslte/lib/fec/rm_turbo.c:287-309 | adds each received value once to the table's entry for it |
| RateMatchTurboRx.RxLutSimd | srslte/lib/fec/rm_turbo.c:313-493 | the 8-lane and 16-lane loops with their last-4 and last-12 fix-ups do exactly the same additions for every input length |
| RateMatchTurboRx.LastEntries | srslte/lib/fec/rm_turbo.c:464-482 | the fix-up length is exactly what is left of the table, given that its length is 4 modulo 8 |
| RateMatchTurboHarq.ReceivedIsArrived | srslte/lib/fec/rm_turbo.c:287-309 | what a receive table accumulates for a coded bit is the sum of all its received copies |
| RateMatchTurboHarq.ArrivedOnce | srslte/lib/fec/rm_turbo.c:287-309 | a transmission of up to 3 n values brings each, unchanged, to the coded bit it was sent for |
| RateMatchTurboHarq.NothingLost | srslte/lib/fec/rm_turbo.c:287-309 | whatever the length, the soft buffer as a whole gains the sum of the values received |
| RateMatchTurboHarq.HarqConserves | srslte/lib/fec/rm_turbo.c:287-309 | after any sequence of receptions at any versions and lengths each soft value is its initial value plus the exact sum of all values received for that coded bit |
| RateMatchTurboHarq.CleanTotals | srslte/lib/fec/rm_turbo.c:287-309 | receptions that never contradict the codeword sum to values that do not contradict it, and are nonzero for every covered bit |
| RateMatchTurboHarq.ThirdStreamOpen | srslte/lib/fec/rm_turbo.c:640-668 | however many fillers there are, the third stream has an open position, so the direct receiver always finds one |
| RateMatchTurboHarq.RmTurboRx | srslte/lib/fec/rm_turbo.c:611-714 | the direct receiver deposits each value at the next open position and reads every coded bit from its place, filler positions and null values included |
| RateMatchTurboHarq.DepositedIsArrived | srslte/lib/fec/rm_turbo.c:611-714 | without fillers the direct receiver accumulates the same sum as the table receiver |
| RateMatchConv.OrderIsPermutation | srslte/lib/fec/rm_conv.c:42-87 | the convolutional transmit order visits each coded bit exactly once per round |
| RateMatchConv.BufferIsConv | srslte/lib/fec/rm_conv.c:60-73 | the layout by row and column: the three streams one behind the other, each read by permuted columns, dummies at the start of the first row |
| RateMatchConv.RmConvTx | srslte/lib/fec/rm_conv.c:42-87 | for every length and output length: error codes, and each output bit is the coded bit of the transmit order, repeated as often as asked |
| RateMatchConv.RmConvRx | srslte/lib/fec/rm_conv.c:93-220 | every output is the sum of exactly the received copies of that coded bit, 0 if none |
| RateMatchConv.DepositedIsArrivedConv | srslte/lib/fec/rm_conv.c:113-130 | what lands in a buffer place is the sum of the copies of the coded bit living there |
| RateMatchConv.ArrivedOnceConv | srslte/lib/fec/rm_conv.c:113-130 | a frame of up to 3 n values brings each, unchanged, to the coded bit it was sent for |
| RateMatchConv.EveryBitSent | srslte/lib/fec/rm_conv.c:74-84 | every coded bit is among the first 3 n transmitted |
| RateMatchConv.ConvRoundTrip | srslte/lib/fec/rm_conv.c:42-153 | with at least 3 n received values that do not contradict the codeword, every coded bit is recovered by its sign |
| Gf2Division.RegisterDivides | srslte/lib/fec/crc.c:34-60 | the shift register computes a quotient and remainder of data times x^order by the generator over GF(2) |
| Gf2Division.DivisionUnique | srslte/lib/fec/crc.c:34-60 | there is only one such quotient and remainder |
| Gf2Division.RemainderLinear | srslte/lib/fec/crc.c:114-151 | the checksum of an XOR is the XOR of the checksums |
| Gf2Division.ChecksExactly | srslte/lib/fec/crc.c:182-190 | data followed by check bits has checksum zero if and only if the check bits are the data's checksum |
| Gf2Division.BurstDetected | srslte/lib/fec/crc.c:114-151 | a nonzero error burst no longer than the order always gives a nonzero checksum |
| CrcRegister.FeedBitsIsFeedAll | srslte/lib/fec/crc.c:34-49 | the 64-bit register with mask and high bit is that polynomial register, for orders 8, 16 and 24 |
| CrcRegister.CoefficientsDetermine | srslte/lib/fec/crc.c:34-49 | a masked register is determined by its coefficients |
| CrcTable.TableStepFeeds | srslte/lib/fec/crc.c:51-60 | one table lookup on the unmasked register feeds exactly the eight bits of the byte |
| CrcTable.StepsBackUndo | srslte/lib/fec/crc.c:62-73 | running the register backwards undoes any number of appended zero bits |
| Crc.CrcHandle.Init | srslte/lib/fec/crc.c:85-112 | accepts exactly the orders divisible by 8 and leaves mask, high bit and table consistent |
| Crc.CrcHandle.GenTable | srslte/lib/fec/crc.c:34-49 | each of the 256 entries is eight register steps of its byte |
| Crc.CrcHandle.Table | srslte/lib/fec/crc.c:51-60 | a byte step of the handle is eight bit steps of the specification |
| Crc.CrcHandle.Reverse | srslte/lib/fec/crc.c:62-73 | the reverse loop is the specification's backward run |
| Crc.CrcHandle.SetInit | srslte/lib/fec/crc.c:75-83 | stores the start value and reports whether it fits the mask |
| Crc.CrcHandle.Checksum | srslte/lib/fec/crc.c:114-151 | for every bit length, multiple of 8 or not, the result is the GF(2) remainder of the data |
| Crc.CrcHandle.ChecksumByte | srslte/lib/fec/crc.c:154-167 | the byte form gives the same remainder for the unpacked bits |
| Crc.CrcHandle.Attach | srslte/lib/fec/crc.c:182-190 | appends the check bits, after which the checksum of the whole is zero |
| Crc.CrcHandle.AttachByte | srslte/lib/fec/crc.c:169-177 | the same on packed bytes |
| Crc.CheckBitsDivide | srslte/lib/fec/crc.c:114-151 | the checksum is the remainder of long division, and any remainder of any division is it |
| Crc.BurstNoticed | srslte/lib/fec/crc.c:114-151 | the checksum of a damaged codeword is nonzero for every burst up to the order |
| Crc.AttachedChecks | srslte/lib/fec/crc.c:169-190 | bits followed by their check bits have checksum zero |
| Crc.LtePolynomials | srslte/lib/fec/crc.c:85-112 | the four LTE polynomials meet what the register proofs ask of a polynomial |
| Segmentation.CbSegm.Segment | srslte/lib/fec/cbsegm.c:52-103 | succeeds for every size; C is 1 exactly up to 6144 bits with the CRC, and above the least number of blocks of 6120 that suffices; C1 >= 1, adjacent table sizes, C1 K1 + C2 K2 = B' + F and 0 <= F < K1 - K2 when C > 1 |
| Segmentation.BlocksAreFewest | srslte/lib/fec/cbsegm.c:64-71 | above 6144 bits c blocks of 6120 suffice if and only if c is at least the number chosen |
| Segmentation.BlockFits | srslte/lib/fec/cbsegm.c:64-71 | the size searched for is at most 6144 for every transport block, and above 40 when there is more than one block, so K2 exists |
| Segmentation.SplitSizes | srslte/lib/fec/cbsegm.c:88-93 | the division leaves at least one large block and less than one size step of filler |
| TransportBlock.SegmentationPlans | srslte/lib/fec/cbsegm.c:52-103 | whenever segmentation needs no filler its result is a valid plan for the encoder and the decoder |
| TransportBlock.Plan.PayloadsTile | srslte/lib/phch/sch.c:236-297 | the payloads of the blocks add up to data plus 24 parity bits |
| TransportBlock.Plan.PiecesJoin | srslte/lib/phch/sch.c:236-297 | the pieces read by the encoder, joined, are the data followed by its CRC24A |
| TransportBlock.Plan.SentAddsUp | srslte/lib/phch/sch.c:252-256 | the per-block E values add up to Qm floor(G / Qm) |
| TransportBlock.Plan.SentIs | srslte/lib/phch/sch.c:252-256 | the first C - G' mod C blocks send Qm floor(G' / C) bits, the others Qm more |
| TransportBlock.CrcPolynomials | srslte/include/srslte/common/phy_common.h:56-57 | the terms of the generators CRC24A and CRC24B of section 5.1.1 of TS 36.212 |
| SharedChannelEncoder.SchEncoder.EncodeTb | srslte/lib/phch/sch.c:189-303 | for every plan, modulation order, version and length: the error cases, and each block's bits in `e_bits` are its coded block in transmit order; retransmissions from the stored buffer send the same coded block; the bits before the offset stay, on an error all of them |
| SharedChannelEncoder.SchEncoder.AllBlocks | srslte/lib/phch/sch.c:234-297 | the read and write pointers keep earlier blocks' output intact while later blocks are written |
| SharedChannelEncoder.SchEncoder.LoadBlock | srslte/lib/phch/sch.c:263-279 | the input buffer holds the block's piece, with the transport parity in the last one and CRC24B when there are several |
| SharedChannelEncoder.CarriesIsCodedBlock | srslte/lib/fec/rm_turbo.c:254-263 | the byte encoder's output is what the table rate matcher takes for the coded block |
| SharedChannelEncoder.StoredIsSent | srslte/lib/phch/sch.c:286-292 | reading a stored buffer from k0 sends the coded block in the transmit order of the version |
| SharedChannelDecoder.SchDecoder.DecodeTb | srslte/lib/phch/sch.c:320-480 | whatever is received: the blocks up to the first that fails are combined and decoded as below and the rest left alone, the data and parity are what the decoded blocks spell, and success is returned if and only if every block checks, the whole checks and CRC24A of the data is nonzero; when what has been received for every block does not contradict it and covers its systematic bits, the data comes back exactly |
| SharedChannelDecoder.SchDecoder.DecodeBlock | srslte/lib/phch/sch.c:399-426 | turbo decoding with CRC early stop: the bits are the decisions after exactly as many iterations as it takes until they check, at least one and at most the limit, and a block is good if and only if its bits check |
| SharedChannelDecoder.SchDecoder.Combine | srslte/lib/phch/sch.c:386-390 | every place of the soft buffer gains exactly the sum of the values that arrived for its coded bit |
| SharedChannelDecoder.SchDecoder.AllBlocks | srslte/lib/phch/sch.c:361-451 | block by block the values sent for it are combined into its buffer, it is decoded from there and its payload appended; the loop stops at the first bad block, and later buffers keep their contents |
| SharedChannelDecoder.StopsOnce | srslte/lib/phch/sch.c:399-426 | the number of iterations is determined: there is exactly one after which decoding stops |
| SharedChannelDecoder.RunOnce | srslte/lib/phch/sch.c:361-451 | so is the whole run: what is received determines the soft buffers, the decoded blocks and the outcome |
| SharedChannelDecoder.CleanRun | srslte/lib/phch/sch.c:361-451 | on uncontradicted input such a run is good and its blocks spell the transport block |
| SharedChannelDecoder.CleanBlock | srslte/lib/phch/sch.c:399-426 | soft values in support of a block that checks are decoded to it, in whichever iteration decoding stops |
| SharedChannelDecoder.SchDecoder.Verdict | srslte/lib/phch/sch.c:459-475 | compares the received parity with the recomputed one and refuses a zero parity |
| SharedChannelDecoder.ParityDecides | srslte/lib/phch/sch.c:459-475 | comparing parities is the same as asking that data and parity together check |
| SharedChannelDecoder.BlocksCheck | srslte/lib/phch/sch.c:411-424 | if the transport block checks then every code block checks under the polynomial the decoder uses for it |
| SharedChannelDecoder.HarqClean | srslte/lib/phch/sch.c:386-390 | any history of receptions that never contradicts the block, with its systematic bits covered, makes the next reception decodable |
| SharedChannelDecoder.FirstTransmissionClean | srslte/lib/phch/sch.c:320-480 | what the encoder sends, as soft values of the right sign in empty buffers, meets the decoder's condition, provided every block's systematic bits are all among those sent |
| SharedChannelDecoder.RoundSendsSystematic | srslte/lib/phch/sch.c:252-256 | they are, for every version, when E is at least the three streams of the block |
| SharedChannelDecoder.ZeroDataRefused | srslte/lib/phch/sch.c:459-475 | bytes of zeros, however many, check to zero with and without their parity: the data that are recovered and refused |
| SharedChannelDecoder.ZeroBlockExists | srslte/lib/phch/sch.c:459-475 | two such bytes in the smallest code block are a valid transport block |
| SharedChannelRoundTrip.EncodedIsClean | srslte/lib/phch/sch.c:189-480 | the blocks that the encoder reports as sent, behind any offset in `e_bits` and over an error-free channel, are received clean |
| SharedChannelRoundTrip.Transfer | srslte/lib/phch/sch.c:189-480 | encoder, error-free channel and decoder in a row return the data bytes for every plan in which each block is sent at least once round; success is reported if and only if the CRC24A of the data is not zero |
| PrimitiveRoots.TableOfRoots | srslte/lib/fec/tc_interl_umts.c:48-54 | each of the 52 tabulated roots v generates all units modulo its prime p: the powers below p - 1 are nonzero and differ |
| PrimitiveRoots.RootFromPrimes | srslte/lib/fec/tc_interl_umts.c:48-54 | a number is a primitive root when its power to (p - 1) / 2 is -1 and its power to (p - 1) / q is not 1 for any odd prime q of p - 1 |
| PrimitiveRoots.OrderDivides | srslte/lib/fec/tc_interl_umts.c:149-152 | the least exponent that gives one divides every exponent that does |
| UmtsInterleaver.Mcd | srslte/lib/fec/tc_interl_umts.c:262-272 | the remainder loop returns the greatest common divisor |
| UmtsInterleaver.GcdIsOne | srslte/lib/fec/tc_interl_umts.c:141-147 | it is one if and only if no prime divides both numbers |
| UmtsInterleaver.Advance | srslte/lib/fec/tc_interl_umts.c:142-145 | the search for the next exponent ends within p - 1 steps at the least number above the last one coprime to p - 1 |
| UmtsInterleaver.Exponents | srslte/lib/fec/tc_interl_umts.c:138-147 | q holds 1 and then the numbers above 6 coprime to p - 1 in order |
| UmtsInterleaver.ExponentsInOrder | srslte/lib/fec/tc_interl_umts.c:138-147 | no number coprime to p - 1 is skipped from 7 on |
| UmtsInterleaver.ThirdExponentOf17 | srslte/lib/fec/tc_interl_umts.c:141-147 | these need not be primes: for p = 17 the third is 9 |
| UmtsInterleaver.ShapeIsSound | srslte/lib/fec/tc_interl_umts.c:106-136 | for every length up to 5120 the chosen matrix holds the block, fits the work array and uses a primitive root |
| UmtsInterleaver.ShapeIs | srslte/lib/fec/tc_interl_umts.c:106-136 | which matrix: 5, 10 or 20 rows by the length, the first tabulated prime that suffices (53 for 481 to 530 bits), and the fewest of p - 1, p and p + 1 columns that do |
| UmtsInterleaver.FindShape | srslte/lib/fec/tc_interl_umts.c:106-136 | rows, prime, root and columns are those of the specification; the prime search stays inside the table |
| UmtsInterleaver.StrideDistinct | srslte/lib/fec/tc_interl_umts.c:221-227 | multiplying column numbers by an exponent coprime to p - 1 permutes them |
| UmtsInterleaver.CellDistinct | srslte/lib/fec/tc_interl_umts.c:221-242 | every row of the matrix is a permutation of its columns, for p - 1, p and p + 1 columns and with the exchange in the last row |
| UmtsInterleaver.Entries | srslte/lib/fec/tc_interl_umts.c:221-242 | what the entries are: powers of the root at the column number times the exponent, less one with p - 1 columns, then 0 and p, exchanged in the last row of a full matrix with p + 1 columns |
| UmtsInterleaver.RowExponentIs | srslte/lib/fec/tc_interl_umts.c:217-219 | the row read i-th has the i-th exponent |
| UmtsInterleaver.RowOrderInverse | srslte/lib/fec/tc_interl_umts.c:154-215 | the four row patterns are permutations |
| UmtsInterleaver.RowOrders | srslte/lib/fec/tc_interl_umts.c:154-215 | which patterns: the reversal for 5 and 10 rows, and the two orders of 20 rows by the length |
| UmtsInterleaver.FillMatrix | srslte/lib/fec/tc_interl_umts.c:221-242 | the three passes over U leave every cell of every row |
| UmtsInterleaver.ReadDistinct | srslte/lib/fec/tc_interl_umts.c:247-252 | no two positions read give the same index |
| UmtsInterleaver.ReadAt | srslte/lib/fec/tc_interl_umts.c:247-252 | the x-th read is column x / R of the row whose place is x mod R |
| UmtsInterleaver.PrunedStep | srslte/lib/fec/tc_interl_umts.c:247-257 | indices past the end are left out and the others keep their order |
| UmtsInterleaver.PrunedPermutation | srslte/lib/fec/tc_interl_umts.c:247-257 | leaving out the indices past the end keeps exactly long_cb entries, a permutation of the block |
| UmtsInterleaver.UmtsTableIsPermutation | srslte/lib/fec/tc_interl_umts.c:86-260 | the interleaver of every length up to 5120 is a permutation of it |
| UmtsInterleaver.UmtsGen | srslte/lib/fec/tc_interl_umts.c:86-260 | too long blocks are refused with the tables untouched; otherwise `forward` is that permutation and `reverse` its inverse |
| RegGrid.Carrier.GroupsDisjoint | srslte/lib/phch/regs.c:616-658 | no two element groups of a symbol share a subcarrier, and the four subcarriers of a group differ |
| RegGrid.Carrier.OwnerOfElement | srslte/lib/phch/regs.c:616-658 | the group can be told from any of its elements, and groups stay inside the band |
| RegGrid.Carrier.CountIsTotal | srslte/lib/phch/regs.c:716-755 | the scan over blocks, layers and symbols meets exactly as many groups as were counted beforehand, so the loop ends |
| ReferenceSignals.OnPortIs | srslte/lib/ch_estimation/refsignal_dl.c:40-104 | where the generator puts the references of one port, in closed form, for both prefixes and every cell |
| ReferenceSignals.PilotIs | srslte/lib/ch_estimation/refsignal_dl.c:40-104 | and those of all ports of a cell: every sixth subcarrier with one port, every third with several, in which symbols |
| ReferenceSignals.PortTwoStays | srslte/lib/ch_estimation/refsignal_dl.c:52-71 | the references of port 2 have the same subcarriers in both slots of a subframe |
| RegAllocation.RegInit | srslte/lib/phch/regs.c:616-658 | the four subcarriers around the two references, or four adjacent ones, and an error for any other number of groups |
| RegAllocation.NumberRegs | srslte/lib/phch/regs.c:731-755 | the loop numbers each group once, scanning blocks, within a block three layers, within a layer the symbols |
| RegAllocation.NumberedInOrder | srslte/lib/phch/regs.c:731-755 | that is by lowest subcarrier and then symbol, as section 6.8.5 of TS 36.211 asks, if and only if the cell is not both narrower than 10 blocks and of extended prefix |
| RegAllocation.OutOfOrder | srslte/lib/phch/regs.c:731-755 | in such a cell a group that starts at subcarrier 8 of the third symbol is numbered before one that starts at 6 of the fourth |
| RegAllocation.GroupsAvoidPilots | srslte/lib/phch/regs.c:616-658 | a subcarrier of a control symbol is in a group if and only if it is no reference symbol of the cell, ports 0 and 1 always counted |
| RegAllocation.ElementsDistinct | srslte/lib/phch/regs.c:731-755 | two numbered groups that share an element of a symbol are the same group |
| RegAllocation.ManyFree | srslte/lib/phch/regs.c:282-318 | a list of the free groups of a symbol has at least two per block less those taken |
| PdcchInterleaver.RanksArePermutation | srslte/lib/phch/regs.c:121-145 | reading the 32-column matrix without its dummies takes each group exactly once |
| PdcchInterleaver.ShiftFormula | srslte/lib/phch/regs.c:135-139 | both branches of the index formula are the cyclic shift by the cell identity |
| PdcchInterleaver.OrderIsPermutation | srslte/lib/phch/regs.c:121-145 | the interleaved and shifted order is a permutation for every number of groups and every cell |
| PdcchInterleaver.Interleave | srslte/lib/phch/regs.c:121-145 | the loops write every entry of the list, each the group that order prescribes |
| PdcchInterleaver.ReadsByColumns | srslte/lib/phch/regs.c:121-145 | by row and column: a cell of the matrix holds a group behind the dummies, which goes as far into the list as groups are read before it, less the cell identity, modulo the number of groups |
| ControlRegion.PcfichApart | srslte/lib/phch/regs.c:485-490 | the four PCFICH positions differ in every cell |
| ControlRegion.PcfichGroups | srslte/lib/phch/regs.c:485-490 | they start at 6 (id mod 2 N) + floor(i N / 2) 6 modulo 12 N, section 6.7.4 of TS 36.211 |
| ControlRegion.UnitGroupsDiffer | srslte/lib/phch/regs.c:320-331 | no two groups of any PHICH mapping units coincide, for normal and extended duration |
| ControlRegion.PhichGroups | srslte/lib/phch/regs.c:320-331 | each is at place floor(id n / n0) + m + floor(i n / 3) modulo n of the n free groups of its symbol, in the order of their numbers; with extended duration group i is in symbol i |
| ControlRegion.UnitsBound | srslte/lib/phch/regs.c:253-270 | there are few enough mapping units for that in every bandwidth |
| ControlRegion.UnitsRoundUp | srslte/lib/phch/regs.c:253-270 | the number of units is N_g N / 8 rounded up |
| ControlRegion.RegionIsFilled | srslte/lib/phch/regs.c:82-159 | for each CFI every element of its symbols, one more below 10 blocks, is a reference or belongs to exactly one group of PCFICH, PHICH or PDCCH |
| ControlRegion.FreeIsList | srslte/lib/phch/regs.c:282-318 | the free groups in the order of their numbers, which those prescriptions start from, are all the free groups, each once |
| ControlRegion.Regs.PcfichInit | srslte/lib/phch/regs.c:471-506 | succeeds in every valid cell; the four groups are in symbol 0 at the prescribed positions, distinct and flagged |
| ControlRegion.Regs.PhichInit | srslte/lib/phch/regs.c:244-352 | every mapping unit gets exactly the three groups that section 6.9.3 of TS 36.211 prescribes, out of what the PCFICH leaves of each symbol; none is taken before, and the flags say exactly what is taken |
| ControlRegion.Regs.PdcchInit | srslte/lib/phch/regs.c:82-159 | for each CFI the list, before its truncation to a multiple of 9, holds each unassigned group of the control region exactly once, in the order that the interleaving and the shift of section 6.8.5 of TS 36.211 prescribe |
| ControlRegion.Regs.Init | srslte/lib/phch/regs.c:695-781 | fails exactly on a number of ports other than 1, 2 and 4; otherwise all three channels are allocated as above, each with exactly the groups prescribed for it, and the groups take every subcarrier of the control symbols but the references |
| ControlRegion.Regs.SetCfi | srslte/lib/phch/regs.c:673-688 | selects the list for 1 to 3, refused when the extended PHICH duration needs more symbols |
| ControlRegion.ListsApart | srslte/lib/phch/regs.c:82-506 | no group belongs to two channels |
| ControlRegion.ElementsApart | srslte/lib/phch/regs.c:786-827 | two different elements of groups have different places in the grid |
| ControlRegion.Regs.PdcchPutOffset | srslte/lib/phch/regs.c:183-201 | writes each symbol to its element and changes nothing else; refused before a CFI is set or out of range |
| ControlRegion.Regs.PdcchGetOffset | srslte/lib/phch/regs.c:207-226 | reads the symbols of the same elements in the same order |
| ControlRegion.Regs.PcfichPut | srslte/lib/phch/regs.c:524-533 | writes the 16 symbols to the PCFICH elements and changes nothing else |
| ControlRegion.Regs.PcfichGet | srslte/lib/phch/regs.c:539-548 | reads the 16 symbols of the PCFICH elements |
| ControlRegion.Regs.PhichAdd | srslte/lib/phch/regs.c:393-407 | the symbols of a group are added to what its mapping unit carries, and nothing else changes |
| ControlRegion.Regs.PhichGet | srslte/lib/phch/regs.c:436-450 | reads what the mapping unit of the group carries |
| ControlRegion.CarriesOne | srslte/lib/phch/regs.c:183-226 | put followed by get returns the symbols |
| ControlRegion.ChannelsApart | srslte/lib/phch/regs.c:786-827 | writing one channel leaves the symbols of every other channel in place |
| PdschMapping.Cp | srslte/lib/phch/pdsch.c:61-173 | for every grant, cell, subframe and first symbol, put and get move exactly the masked elements in grid order, leave all else alone and return their number |
| PdschMapping.CopyBlock | srslte/lib/phch/pdsch.c:83-162 | each block moves its part of the mask, the carried-over reference shift included |
| PdschMapping.PrbCpRef | srslte/lib/phch/prb_dl.c:51-82 | copies the stretches between references and steps over each reference in the grid, for every shift |
| PdschMapping.Job.FreeParts | srslte/lib/phch/pdsch.c:83-162 | the block and half-block cases are exactly the subcarriers outside the central 72, odd bandwidths included |
| PdschMapping.GetAfterPut | srslte/lib/phch/pdsch.c:182-199 | get after put returns every symbol |
| PdschMapping.CountBlock | srslte/lib/phch/pdsch.c:83-162 | a block moves as many symbols as its reservations and references leave, whatever the shift |
| PdschMapping.RowsAreColumns | srslte/lib/phch/ra.c:260-267 | summing by symbols as the copy does and by blocks as the count does is the same |
| PdschMapping.ReXPrb | srslte/lib/phch/ra.c:43-107 | the branch computation gives what the block carries in the slot, plus a fixed excess in the first slot when the first symbol lstart is 0 or above N_symb - 3 |
| PdschMapping.GrantNofRe | srslte/lib/phch/ra.c:253-269 | the count of a grant is what the copy moves plus that excess for each block of the first slot |
| PdschMapping.CountIsExact | srslte/lib/phch/ra.c:253-269 | count and copy agree if and only if 1 <= lstart <= N_symb - 3 or nothing is granted in the first slot |
| PdschMapping.CountFallsShort | srslte/lib/phch/ra.c:253-269 | with seven blocks, extended prefix and lstart 4 a grant of block 0 is counted too low |
| PdschReferences.AvoidedIffSafe | srslte/lib/phch/pdsch.c:123-160 | the copy keeps off every reference symbol if and only if a condition on the grant holds that a caller can check |
| PdschReferences.SafeCopiesExactly | srslte/lib/phch/pdsch.c:83-162 | under that condition the copied set is exactly the granted elements outside control region, synchronization signals, broadcast channel and references |
| PdschReferences.ChannelIsRest | srslte/lib/phch/pdsch.c:83-162 | and in terms of the other channels: place by place of the grid it is what is granted, behind the control region and not taken by a reference, a synchronization signal or the broadcast channel, but for one symbol with the extended prefix |
| PdschReferences.ReferencesArePilots | srslte/lib/phch/pdsch.c:123-137 | the references that this keeps off are those that the reference generator puts into the grid, for every cell and both slots |
| PdschReferences.ReservedIs | srslte/lib/phch/pdsch.c:83-119 | the elements reserved are exactly those that the synchronization signals and the broadcast channel are written to, but for one symbol with the extended prefix |
| PdschReferences.UnsafeGrantExists | srslte/lib/phch/pdsch.c:140-160 | with one port, seven blocks and only block 0 granted in subframe 0, references are overwritten |
| DistributedVrb.SpreadIsInterleaver | srslte/lib/phch/ra.c:338-357 | the four-way formula is the column read-out of the four-column matrix with its null places left out, section 6.2.3.2 of TS 36.211 |
| DistributedVrb.GatherOfSpread | srslte/lib/phch/ra.c:338-357 | the mapping stays below N_vrb and is undone by reading the matrix back |
| DistributedVrb.SpreadOfGather | srslte/lib/phch/ra.c:338-357 | and every index is hit |
| DistributedVrb.WrittenByRows | srslte/lib/phch/ra.c:338-357 | in that matrix the places are written row by row without gaps |
| DistributedVrb.ReadByColumns | srslte/lib/phch/ra.c:338-357 | and read column by column |
| DistributedVrb.BandwidthShape | srslte/lib/phch/ra.c:545-584 | for every bandwidth of 6 to 110 blocks the matrix of the first gap has the shape this needs and both halves fit the band |
| DistributedVrb.SecondShape | srslte/lib/phch/ra.c:329-337 | so has that of the second gap, from 50 blocks on, with at least 2 N_gap rows |
| DistributedVrb.StandardCarriers | srslte/lib/phch/ra.c:545-584 | gaps, virtual blocks and rows of the six carriers of TS 36.104 |
| DistributedVrb.SlotsApart | srslte/lib/phch/ra.c:358-373 | for both gaps both slots of a virtual block lie inside the band, exactly N_gap apart |
| DistributedVrb.SlotInjective | srslte/lib/phch/ra.c:338-373 | with the first gap two virtual blocks never take the same physical block of a slot |
| DistributedVrb.FirstSlot | srslte/lib/phch/ra.c:338-373 | with the first gap virtual block n goes in slot 0 to the place where its matrix cell is read, in slot 1 half a turn further, both moved by N_gap - N_vrb / 2 from the upper half on |
| DistributedVrb.SecondSlot | srslte/lib/phch/ra.c:338-373 | with the second gap virtual block n goes to n / 4, moved by the rows, by the gap or by both, as n modulo 4 and the slot say |
| DistributedVrb.SecondMeets | srslte/lib/phch/ra.c:338-373 | with the second gap two virtual blocks take the same physical block if and only if they are 4 N_gap - 2 apart in slot 0, or 4 N_gap + 2 in slot 1, the lower one before the gap |
| DistributedVrb.SecondExactly | srslte/lib/phch/ra.c:332-373 | with the second gap an allocation of L blocks from any start takes different physical blocks in both slots if and only if L plus 0, 1, 2, 2 for the start modulo 4 is at most 4 N_gap |
| DistributedVrb.SecondGapFails | srslte/lib/phch/ra.c:332-373 | in a carrier of 100 blocks the 65 virtual blocks from 0 on share a physical block, so do the 63 from 2 on, while the 60 from 20 on do not |
| DistributedVrb.TakesExactly | srslte/lib/phch/ra.c:338-374 | an allocation of L blocks takes exactly L distinct physical blocks in each slot, with the second gap whenever that condition holds |
| DistributedVrb.Allocate | srslte/lib/phch/ra.c:329-374 | the loop marks exactly the blocks of the allocation in the two slot maps and counts L of them, for both gaps |

## Where the code and the documents differ

The model follows the code. Differences found on the way:

- TS 25.212 takes the exponents q of the UMTS interleaver from the primes; the code takes any number coprime
  to p - 1 (`UmtsInterleaver.ThirdExponentOf17`). For 481 to 520 bits the standard fixes the number of columns
  to p = 53; the code goes on to reduce it to 52. The exponent that the code uses in the row it reads is the
  one of the read-out position, not of the row. The result is an interleaver all the same.
- The count of resource elements differs from the copy when lstart exceeds N_symb - 3
  (`PdschMapping.CountIsExact`). With fewer than 10 blocks, extended prefix and CFI 3 it does
  (`PdschMapping.CountFallsShort`).
- In subframe 0 of a carrier with an odd number of blocks the two edge blocks of the broadcast channel are copied
  with the reference shift of the block copied last, which may be wrong (`PdschReferences.AvoidedIffSafe`,
  `PdschReferences.UnsafeGrantExists`).
- A transport block whose CRC24A is zero is never accepted (`SharedChannelDecoder.SchDecoder.DecodeTb`), for
  example one of zeros (`SharedChannelDecoder.ZeroDataRefused`, `SharedChannelDecoder.ZeroBlockExists`).
- For a tail-biting frame the decoder searches the best final state and starts chainback in it, but chainback
  reads six decisions past the last step. They are blank, and shift that state out of the register: the walk
  starts in state zero whatever the search found (`Viterbi37.V37.Chainback`). The middle third is right all the
  same within the bound of `TailBiting.TailBitingCorrects`.
- Below 10 blocks with the extended prefix the code does not number the element groups in the order of section
  6.8.5 of TS 36.211 (`RegAllocation.NumberedInOrder`, `RegAllocation.OutOfOrder`).
- Section 6.10.1.2 of TS 36.211 exchanges the shifts of ports 2 and 3 in odd slots; the code does not
  (`ReferenceSignals.PortTwoStays`).
- The code places the secondary synchronization signal as with the normal prefix in every cell. With the extended
  prefix it overwrites the primary one there, and the symbol kept free for it stays empty
  (`PdschReferences.ReservedIs`).
- With the second gap TS 36.211 interleaves groups of 2 N_gap virtual blocks. The code interleaves all at once,
  twice the number of the first gap, and two virtual blocks of a longer allocation take the same physical block;
  `DistributedVrb.SecondExactly` says when, `DistributedVrb.SecondGapFails` gives cases.

## Left out

- Floating point: LLRs of the MAP decoder are exact reals and its infinity is the constant 90000 it is defined as; `ceilf` is the exact ceiling. Rounding is not modelled.
- The 16-bit overflow of accumulated LLRs: soft buffers hold unbounded integers.
- RateMatchTurboHarq.RmTurboRx: the null sentinel of soft values is a constructor of its own, not the float value 10000, and the row count is taken for lengths up to 3 * 65536, where the 16-bit cast has no effect.
- RateMatchConv.RmConvRx: the null sentinel of soft values is a constructor of its own, not the float value 10000.
- RateMatchTurboTx.RmTurboTx: the null sentinel is a constructor of its own. A buffer with no bit in it, on which the original loops for ever, is excluded.
- CodeBlockSizes.CbIndex: the original accepts lengths that are not table sizes and then uses the next table size; IndexForExact says when the two agree.
- PackedBits.BitCopy: bits are copied one by one; the original works on bytes and clears the rest of the last byte when both offsets are byte aligned, which no caller here reads before writing it.
- PackedBits.BitInterleave: bits are gathered one by one; the original works on bytes and leaves bits out when the offset and the length modulo 8 are both nonzero, which its callers avoid.
- Crc.CrcHandle.Init: registers of order 8, 16 and 24 with an odd polynomial that has its top coefficient; other multiples of 8 are not used.
- SharedChannelDecoder.SchDecoder.DecodeTb: a transport block whose CRC24A is zero is decoded but reported as an error by the original; the contract says so. The debug branch that saves buffers and goes on after a bad block, and the running average of iterations, are left out.
- SharedChannelEncoder.SchEncoder.EncodeTb: the pointer into `e_bits` and its bit offset are one bit offset; the channel object is split into an encoder and a decoder.
- Filler bits in the transport-block chain: the original refuses them, and so does the model.
- ConvolutionalCode.Encode: constraint length 7, rate 1/3 and polynomials of at most seven bits, which is what every caller asks for.
- Viterbi37.ViterbiDecoder.Decode: the three copies of a tail-biting frame and the bits decoded from them are two arrays; the original writes the bits over the copies.
- Viterbi37.V37.BranchTable: the branch table belongs to the decoder object instead of being shared by all of them, and polynomials are not negative, so no output is inverted.
- TailBiting.TailBitingCorrects: sufficient, not necessary.
- TurboDecoder.Decoder.RunAll: lengths that are table sizes, as every caller passes; for others the original takes the tables of the next size.
- The SSE and AVX forms of the Viterbi and turbo decoders.
- DistributedVrb.Allocate: allocations within the virtual blocks of the carrier, N_vrb of section 6.2.3.2 of TS 36.211, and the second gap for 50 blocks or more, where it is defined. Type 0, type 1 and localized type 2 allocations only set ranges.
- UmtsInterleaver.UmtsGen: lengths above 5120, which overfill the original's work array; the standard stops at 5114.
- UmtsInterleaver.FindShape: the same.
- PdschMapping.ReXPrb: the count is an integer; the original's unsigned arithmetic wraps where the count is negative, which happens only when lstart exceeds N_symb - 3.
- PdschMapping.GrantNofRe: lstart is at most N_symb - 2, as for the copy.
- PdschMapping.Cp: lstart is at most N_symb - 2; it is the CFI, one more below 10 blocks, and so never larger. The antenna ports and the estimates are copied by the same routine and are not repeated.
- ControlRegion.Regs.PhichInit: the number of mapping units is the exact ceiling of N_g N / 8. Clearing the PHICH elements before adding is left out.
- ControlRegion.Regs.Init: exits on failed allocation of memory; a group is referred to by its number instead of its address.
- Modulation, scrambling, OFDM, channel estimation, DCI, UCI and radio front ends.

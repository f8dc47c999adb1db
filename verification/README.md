# Verified model of the weak-signal receiver

A Dafny model of the discrete algorithms in this receiver chain, with machine-checked proofs of what
they promise: the two sequential decoders of the WSPR code, the FT8 family's coding chain, the
PSK Reporter queue and its IPFIX packets, the sample path from the device to a captured frame, the
WSPR and FT8 message formats, and the adaptive band schedule.

`dafny verify dfyconfig.toml` verifies the whole project. Each module follows one source file or one
component of it. Code that works in place is modelled as classes and methods over arrays, tied by
their postconditions to specification functions; the laws are then lemmas about those functions.

| modules | subject |
|---|---|
| ConvolutionalCode, MessageBits, FanoWalk, Fano | WSPR convolutional code and the Fano decoder |
| StackSearch, BucketChains, Jelinek | the stack decoder of the same code |
| Gf2, Elimination, Osd, Ldpc, PolynomialDivision, Crc14, Crc24 | linear algebra, LDPC, OSD and CRCs |
| Ft8Frame, Ft8Decode, Reencode, CandidateHeap, FindCandidates | FT8 frames, decoding, candidate search |
| Ipfix, PskPacket, RecentSenders, PskReporter, ReporterRuns | PSK Reporter packets, queue and whole runs |
| CicFilter, Decimator, SampleQueue, Capture, SampleRuns | sample path |
| Interleaver, WsprPacking, WsprMessage, WsprChannel, WsprLink | WSPR messages, channel symbols and the whole way |
| Ft8Text, Ft8Message, Ft8Standard | FT8 standard messages |
| BandSchedule | band hopping |
| Bits, Radix, Options | bytes as bit strings, digits, optional values |

## Hypotheses

The large constant tables are parameters. Where a law needs a fact about them it is a precondition
by name: the check table annihilates the generator (`Ft8Decode.Annihilates`), the generator is
systematic (by construction of `Osd.Ordered`). The stack decoder reports when a node has no
bucket; `StackSearch.StrayAt` says where that is, `Jelinek.FitsAround` when it cannot be on the way
to a message. The received block of
the noiseless results is described by `Fano.Clean`, `Jelinek.Clean`, `WsprLink.Heard` and
`Ft8Decode.Received`. Sample values, log-likelihoods and filter taps are reals.

## Where the code and its words differ

The model follows the code.

- The Jelinek decoder counts cycles in 32 bits; running out of them is reported as success exactly
  when `maxcycles * nbits` is 2^32 - 2 or more (core/jelinek.c:71, 158; `Jelinek.ExhaustionReported`,
  `Jelinek.WrappedLimitSucceeds`). A search that finishes in one of the last two cycles is reported
  as a timeout (`Jelinek.FinishReported`, `Jelinek.StraightFinishLost`). `Jelinek.Decode` states
  both of the decoder. The Fano decoder reports a finish in its last cycle as a timeout
  (core/fano.c:237, `Fano.Decode`, `Fano.SaturatedBlock`).
- The comment on `osd_score` says higher is better; the decoder accepts lower scores, below -100
  (ft8_lib/ft8/osd.c:79-108, 277; `Osd.FitIs`, `Osd.LeastFit`).
- `osd_decode` says it uses the strongest 91 bits (ft8_lib/ft8/osd.c:214). It does exactly when the
  generator rows of the first 91 positions are independent (`Osd.FirstUsedIff`). Otherwise even the
  strongest position can be passed over, although its row is independent: it leaves the next unknown
  open, and moves to the place of the row that determines it (`Osd.StrongestLost`).
- The depth `osd_decode` returns is said to be the number of bits flipped; it is the flipped bit's
  distance from the last position, 0 both for no flip and for the last bit
  (ft8_lib/ft8/osd.c:206, 281, 306).
- The branch for an information word shorter than ten bytes cannot run: FST4W's 74 bits take ten
  (ft8_lib/ft8/decode.c:347-354).
- The receiver data set may be padded by three bytes, as many as the shortest record, which
  section 3.3.1 of RFC 7011 forbids; a reader then sees an extra empty record
  (`PskPacket.StationRead`).
- A stronger report that arrives while its sender's packet is on its way is removed with the packet
  and never sent (`ReporterRuns.SentIsRemovedIffNotImproved`, `ReporterRuns.ImprovementLost`).
- A transfer without samples drops the loss count it carries (`SampleRuns.PushConservesIff`).
- `get_wspr_channel_symbols` says a four-digit locator in a type 3 message is padded with spaces; its
  first letter is lost instead (`WsprMessage.ShortGridLost`). The offset of a two-digit suffix is not
  reduced by 32768 and relies on the 22-bit field to drop it (core/wsprsim_utils.c:111).
- `get_locator_character_code` says letters to Z and takes letters to R (core/wsprsim_utils.c:23).
- Signal reports below -30 collide with RRR, RR73, 73 and locators
  (`Ft8Standard.ReportRoundTripIff`).

## Model

| member | source | states |
|---|---|---|
| `ConvolutionalCode.TableIsParity` | core/tab.c:6-39 | the parity table gives the exclusive or of a byte's bits |
| `ConvolutionalCode.ComplementaryBranches` | core/fano.c:133-140 | for every encoder state the 1-branch symbol pair is the complement of the 0-branch pair, so `3 ^ lsym` needs no second encoding |
| `ConvolutionalCode.EncodeIsConvolution` | core/fano.h:28-37 | the folded table lookup of ENCODE is the textbook convolution: each symbol is the parity of the message bits under the polynomial's taps |
| `MessageBits.LowByteOfState` | core/fano.c:227-233 | bit i of an encoder state's low byte is the message bit i steps back |
| `MessageBits.ChannelPair` | core/fano.c:71-80 | channel bits 2j and 2j+1 of a message are the symbol pair of its state after bit j |
| `Fano.EncodeBytes` | core/fano.c:62-82 | the encoder writes exactly the channel bits of the message, one per symbol, and nothing beyond them |
| `Fano.Search.constructor` | core/fano.c:108-151 | the search starts where the walk over the code tree starts: at the root on its first branch, with threshold and metric zero |
| `Fano.Search.SortBranches` | core/fano.c:182-199 | the better of the two complementary branches is put first, the tail keeps only its 0-branch, and no other node changes |
| `Fano.Search.Tighten` | core/fano.c:162-172 | the threshold rises to the greatest multiple of delta not above the new metric, never falling |
| `Fano.Search.EnterNext` | core/fano.c:173-200 | the next node follows the current one in the encoder and takes the accumulated metric; earlier nodes are untouched |
| `Fano.Search.MoveForward` | core/fano.c:162-202 | a step forward over the nodes is a step of the walk: the threshold is tightened at a node visited for the first time, and the next node tries its better branch first |
| `Fano.Search.Switch` | core/fano.c:210-214 | flipping to the other branch keeps the node's encoding consistent and the rest of the path as it was |
| `Fano.Search.LookBackward` | core/fano.c:204-223 | backing up over the nodes ends where the walk's way back ends: with the other branch of the nearest node before the tail still on its first, or, at the root or below a node that misses the threshold, with the threshold one delta lower and the first branch again |
| `Fano.Search.Cycle` | core/fano.c:154-224 | every cycle over the nodes is one step of the walk, and it says when the last node has been passed |
| `Fano.RunStates` | core/fano.c:173-200 | along any valid node path each encoder state is the state of the bits chosen so far |
| `Fano.RunMetric` | core/fano.c:160-174 | along any valid node path gamma is the running metric of the bits chosen against the received symbols |
| `Fano.CopiedPath` | core/fano.c:227-233 | the bytes copied from every eighth node are the path's bits, and the 31-bit tail is all zero |
| `Fano.CleanWalk` | core/fano.c:153-224 | a search over a block that favours a message goes straight along it: after n cycles its first n bits are behind the walk, and after nbits it is done |
| `Fano.RunCycles` | core/fano.c:153-224 | the loop makes the walk's cycles until it is done or the limit is reached: the counter is the first cycle that ends the walk, or one past the limit, and the depth reported is the greatest a cycle started at |
| `Fano.Decode` | core/fano.c:87-239 | the search finishes exactly when the walk is done within the limit, in its first such cycle; the bytes are the walk's message with a zero tail, the metric its correlation with the received symbols, its lowest running metric within one delta of any message's; success is reported exactly when it finished before its last cycle |
| `Fano.CleanDecode` | core/fano.c:87-239 | a message the block favours in every symbol is decoded to itself in as many cycles as it has bits |
| `FanoWalk.StepSound` | core/fano.c:153-224 | every cycle keeps what the walk knows: its bits are first or second tries of their nodes, a second try only before the tail; each branch left for a second try has no message that stays above the threshold it was left at; and nothing on the walk is below the floor that every message falls under by less than a step |
| `FanoWalk.DropIsFair` | core/fano.c:204-223 | over every search, where a cycle lowers the threshold it does so by one delta, every message through the node it stops at falls below the old threshold from there on, and it stops only at the root or where the node before is below that threshold |
| `FanoWalk.NearlyBest` | core/fano.c:153-239 | the message of a finished search has a lowest running metric within one delta of that of any other message of the tree |
| `Fano.SaturatedBlock` | core/fano.c:149-239 | a block received at full strength favours its message, so with one cycle a bit its search ends in the last cycle and is reported as timed out |
| `BucketChains.PushKeepsLinks` | core/jelinek.c:97-102 | linking a slot at the head of a bucket extends that bucket's chain by it and leaves all other chains as they were |
| `BucketChains.PopKeepsLinks` | core/jelinek.c:133-134 | unlinking the head shortens that chain by its newest slot only |
| `BucketChains.GrowKeepsLinks` | core/jelinek.c:107-109 | opening the next unused slot leaves all chains as they were |
| `BucketChains.HeadEmpty` | core/jelinek.c:112-132 | a bucket's head is zero exactly when its chain is empty |
| `BucketChains.ChainsCover` | core/jelinek.c:97-134 | the chains hold exactly the used slots but the one in hand |
| `BucketChains.SlotsOccurOnce` | core/jelinek.c:97-134 | no slot is in two chains or twice in one, so no list inside the array runs in a circle |
| `Jelinek.ZeroBranch` | core/jelinek.c:77-85 | the shortened 56-bit state yields the true encoder state of the 0-branch at every depth |
| `Jelinek.Daughter` | core/jelinek.c:87-91 | both daughters' metrics and states are those of the path extended by one bit |
| `Jelinek.Search.constructor` | core/jelinek.c:53-71 | the empty array and buckets with the root in hand are the start of the search |
| `Jelinek.Search.Place` | core/jelinek.c:97-102 | storing a node in the slot in hand makes its path the newest open one of the bucket of its metric |
| `Jelinek.Search.TakeSlot` | core/jelinek.c:106-116 | a fresh slot is taken while there is one; else the newest path of the worst bucket is given up, and the upward scan ends |
| `Jelinek.Search.ScanDown` | core/jelinek.c:129-132 | the downward scan ends at the best non-empty bucket |
| `Jelinek.Search.PopHighest` | core/jelinek.c:129-137 | the path taken in hand is the newest of the best bucket, with the metric, depth and state of its node |
| `Jelinek.Search.Extend` | core/jelinek.c:73-127 | the daughters of the path in hand are opened as the search says, one in the tail and two before it, with a path given up when the array is full; the search strays exactly when a daughter has no bucket |
| `Jelinek.Search.Cycle` | core/jelinek.c:73-143 | every iteration over the array is one cycle of the search, keeps its lists whole, and says when the path in hand is at full depth |
| `Jelinek.CleanBuckets` | core/jelinek.c:87-104 | on a block that favours a message by half a bucket a symbol, the right daughter never hangs below its parent and the wrong one hangs in a lower bucket |
| `Jelinek.CleanQueue` | core/jelinek.c:73-143 | on such a block with a bucket for every node the search takes up the next bit of the message in each cycle, and no open path lies as high |
| `Jelinek.TameFits` | core/jelinek.c:92-120 | on a favouring block with no metric of a sent bit above 157 and none of the other bit below -3200, every node the search opens has a bucket |
| `Jelinek.SaturatedBlock` | core/jelinek.c:92-120 | a block received at full strength favours its message and gives every node a bucket, for any table with a margin at its ends |
| `Jelinek.StateByteBit` | core/jelinek.c:151-156 | the seven output bytes hold the last 56 message bits in order |
| `Jelinek.ExhaustionReported` | core/jelinek.c:71-161 | the count an exhausted search leaves, two above its limit in 32 bits, is taken for a timeout exactly when maxcycles * nbits is below 2^32 - 2 |
| `Jelinek.FinishReported` | core/jelinek.c:138-161 | a search that finishes in one cycle is reported as done exactly when the next cycle would still be below the number asked for, but for a wrapped counter |
| `Jelinek.WrappedLimitSucceeds` | core/jelinek.c:71-161 | with 64 bits and 2^26 cycles a bit the limit is zero, and no search at all counts as success |
| `Jelinek.StraightFinishLost` | core/jelinek.c:138-161 | with one cycle a bit a search that goes straight to its end in nbits cycles counts as timed out |
| `Jelinek.Decode` | core/jelinek.c:28-163 | the search strays, finishes or runs out exactly as its cycles do within the limit, and the counter is the first cycle that ends it; a finished one leaves the path in hand as its message, with its metric and a lowest bucket that no other message exceeds, but for messages a path to which was given up; success is reported exactly when the cycle count plus one is below the number asked for, or the counter wrapped |
| `Jelinek.CleanDecode` | core/jelinek.c:28-163 | a message the block favours by half a bucket a symbol, with a bucket for every node, is decoded to itself in as many cycles as it has bits |
| `StackSearch.StepSound` | core/jelinek.c:73-143 | every cycle keeps what the search knows: open paths hang in the bucket of their metric, one of them or the path in hand leads to every message not given up, and no such message keeps above the bucket of a path that was taken up |
| `StackSearch.NothingLost` | core/jelinek.c:73-143 | in every search the path in hand or an open one leads to each message of the tree, unless a path to it was given up for want of room |
| `StackSearch.FoundIsBest` | core/jelinek.c:129-143 | the message a finished search has found has the greatest lowest bucket of all messages, but for those a path to which was given up |
| `StackSearch.RoomEnough` | core/jelinek.c:106-116 | with more array slots than cycles no path is ever given up |
| `StackSearch.StrayAt` | core/jelinek.c:92-120 | a search goes astray only at a path of the tree one of whose daughters has no bucket |
| `StackSearch.BucketIs` | core/jelinek.c:92 | bucket 200 starts at metric zero and each bucket holds 32 metrics, below zero too |
| `Elimination.PivotExists` | ft8_lib/ft8/osd.c:33-58 | every column still to be reduced has a pivot at or below its row, because a missing one would give a nonzero null vector that the row operations keep and the identity rows forbid |
| `Elimination.SwapKeepsReduced` | ft8_lib/ft8/osd.c:37-51 | exchanging two rows and their positions keeps the reduction state |
| `Elimination.PivotKeepsReduced` | ft8_lib/ft8/osd.c:59-73 | creating the identity column late and clearing the pivot's column keeps the record of which selected rows were combined |
| `Elimination.StartsReduced` | ft8_lib/ft8/osd.c:225-245 | every ordering of the rows of a systematic generator, with an empty right half, is a valid start |
| `Elimination.EndsInverted` | ft8_lib/ft8/osd.c:252-259 | after the last pivot the upper right block is the two-sided inverse of the selected rows |
| `Elimination.PivotExtends` | ft8_lib/ft8/osd.c:33-53 | the element the pivot search looks at is one exactly when the row, with those selected before, determines one more unknown, in terms of the original rows alone |
| `Elimination.PivotFromIs` | ft8_lib/ft8/osd.c:35-52 | the search from the diagonal down ends at the first such row |
| `Osd.GaussJordan` | ft8_lib/ft8/osd.c:26-77 | elimination never fails on a systematic generator in any row order; `which` ends as the selection order, each pivot row the first that extends those before it and exchanged with the row at its place, and selects the first k positions given exactly when their rows are independent; the left half becomes the identity, and the upper right block inverts the selected rows |
| `Osd.FirstUsedIff` | ft8_lib/ft8/osd.c:33-53 | the positions selected are the first k of the order exactly when the generator rows of those are independent |
| `Osd.StrongestLost` | ft8_lib/ft8/osd.c:33-53 | an order whose first position is not selected, though its row alone is independent, while a later one with the same row is |
| `Osd.SwapRows` | ft8_lib/ft8/osd.c:39-45 | both halves of two rows are exchanged and nothing else |
| `Osd.Eliminate` | ft8_lib/ft8/osd.c:59-73 | one pivot clears its column in all other rows and records itself in the right half |
| `Osd.FindPivot` | ft8_lib/ft8/osd.c:33-53 | the search below the diagonal always ends with a one on the diagonal, having exchanged exactly the first row that extends the selection |
| `Osd.MatMul` | ft8_lib/ft8/osd.c:148-160 | the product is the matrix applied to the vector over the field of two elements |
| `Osd.Score` | ft8_lib/ft8/osd.c:86-108 | the score is the negated agreement of the candidate's codeword with the log-likelihoods |
| `Osd.FitIs` | ft8_lib/ft8/osd.c:79-108 | that is twice the weight of the positions where the codeword differs from the hard decisions, less the weight of all positions, so lower is better |
| `Osd.LeastFit` | ft8_lib/ft8/osd.c:79-108 | the score is least exactly for words that agree with the hard decisions wherever the log-likelihood is not zero |
| `Osd.Plausible` | ft8_lib/ft8/osd.c:123-136 | a candidate is plausible when it is not all zero and its CRC is right |
| `Osd.CarrierUnique` | ft8_lib/ft8/osd.c:252-273 | exactly one message has a codeword with the hard decisions (or one of them flipped) at the selected positions: the inverse applied to them |
| `Osd.TryBits` | ft8_lib/ft8/osd.c:292-299 | each candidate is that unique message, with its score and its verdict |
| `Osd.SearchFlips` | ft8_lib/ft8/osd.c:285-320 | the flip search returns the best-scoring passing single-flip message of the depth searched, the first of several, or none when none passes; the hard decisions are restored |
| `Osd.OsdDecode` | ft8_lib/ft8/osd.c:210-321 | with the positions selected from the order given, the decoder accepts the unflipped message whenever it passes, else the best passing single flip, the first of several, else nothing; what it returns carries the hard decisions and passes the CRC; it uses the first 91 positions exactly when their rows are independent, and then returns any passing message that carries the hard decisions there |
| `Ldpc.EncodeBits` | ft8_lib/ft8/ldpc.c:325-347 | the bit-array encoder produces the systematic codeword |
| `Ldpc.Parity8IsXor` | ft8_lib/ft8/encode.c:9-15 | the folded parity of a byte is the exclusive or of its bits |
| `Ldpc.DotByte` | ft8_lib/ft8/encode.c:44-48 | the parity of a masked byte is the partial inner product of eight message bits with a generator row |
| `Ldpc.EncodePacked` | ft8_lib/ft8/encode.c:23-64 | the packed encoder with its running mask and byte index produces the same systematic codeword as the bit-array one |
| `PolynomialDivision.DivisionIsResidue` | ft8_lib/ft8/crc.c:122-160 | in-place long division leaves the shift register over the bits before, plus the last bits themselves |
| `PolynomialDivision.ResidueOfPadded` | ft8_lib/ft8/crc.c:122-160 | over a message followed by zeros that is the remainder of the shift-register definition |
| `PolynomialDivision.WindowIsRegister` | ft8_lib/ft8/crc.c:72-91 | a sliding window over the dividend is the division register |
| `Crc14.ComputeCrc` | ft8_lib/ft8/crc.c:10-37 | the register with unmasked high bits still returns the polynomial remainder of the first bits |
| `Crc14.ArrayCrc` | ft8_lib/ft8/crc.c:122-160 | the bit-array division of any length leaves the residue of the first 77 bits padded with zeros |
| `Crc14.CheckBits` | ft8_lib/ft8/crc.c:162-178 | the bit-array verdict is acceptance of the 91-bit word |
| `Crc14.CheckPacked` | ft8_lib/ft8/crc.c:180-194 | the packed verdict is acceptance of the 91 bits |
| `Crc14.AcceptedPrefix` | ft8_lib/ft8/crc.c:162-194 | acceptance depends on the 91 bits only, so both verdicts agree on every word and a word the fallback accepts passes later |
| `Crc14.AddCrc` | ft8_lib/ft8/crc.c:102-120 | the word built keeps the 77 payload bits, is accepted, and has its unused bits clear |
| `Crc14.WordUnique` | ft8_lib/ft8/crc.c:102-194 | an accepted word with a given payload start and clear unused bits is the only one |
| `Crc24.ComputeCrc` | ft8_lib/ft8/crc.c:44-94 | the 25-element rotating window leaves the residue of any message of 24 bits or more |
| `Crc24.PaddedCrc` | ft8_lib/ft8/crc.c:44-94 | over a message followed by 24 zeros that is the 24-bit polynomial remainder of the message |
| `Crc24.PolyIsConstant` | ft8_lib/ft8/crc.c:46-56 | the divisor is the constant 0x100065B the source names |
| `Crc24.WordLast` | ft8_lib/ft8/crc.c:46-95 | the lowest place of the CRC word is the last bit of the remainder and the places above it are the word of the others |
| `Crc24.Fst4AddCrc` | ft8_lib/ft8/crc.c:206-227 | the FST4 word keeps the payload and carries the remainder |
| `Crc24.Fst4CheckCrc` | ft8_lib/ft8/crc.c:229-245 | the FST4 verdict compares the stored bits with the remainder of the rest |
| `Crc24.Fst4WordAccepted` | ft8_lib/ft8/crc.c:196-245 | every FST4 word built is accepted and keeps the 77 payload bits |
| `Crc24.Fst4WordUnique` | ft8_lib/ft8/crc.c:196-245 | an accepted FST4 word with clear unused bits is the word built from its own payload |
| `Crc24.Fst4wAddCrc` | ft8_lib/ft8/crc.c:257-277 | the FST4W word keeps the payload and carries the remainder |
| `Crc24.Fst4wCheckCrc` | ft8_lib/ft8/crc.c:279-293 | the FST4W verdict compares the stored bits with the remainder of the rest |
| `Crc24.Fst4wWordAccepted` | ft8_lib/ft8/crc.c:247-293 | every FST4W word built is accepted and keeps the 50 payload bits |
| `Crc24.Fst4wWordUnique` | ft8_lib/ft8/crc.c:247-293 | an accepted FST4W word with clear unused bits is the word built from its own payload |
| `Ft8Frame.Modulate` | ft8_lib/ft8/encode.c:77-126 | the three Costas groups and 58 Gray-coded data tones are laid out in order, three codeword bits a tone |
| `Ft8Frame.SoftBitsSign` | ft8_lib/ft8/ft8_decode.c:5-17 | when a tone is strictly the strongest its three soft bits have the signs of its data bits |
| `Ft8Frame.SoftBitIs` | ft8_lib/ft8/ft8_decode.c:5-17 | soft bit i is half the difference of the loudest tone whose number has a one there and the loudest that has a zero |
| `Ft8Decode.ExtractLikelihood` | ft8_lib/ft8/ft8_decode.c:78-102 | each in-range block contributes the three soft bits of its symbol, and blocks out of range contribute zeros |
| `Ft8Decode.ToneLiesAt` | ft8_lib/ft8/decode_internal.h:13-20 | the magnitude read for tone t of data symbol k lies in the block of that symbol, in the candidate's own time and frequency subdivisions, t bins above the candidate's |
| `Ft8Decode.RecordedIff` | ft8_lib/ft8/ft8_decode.c:84-96 | a data symbol is read exactly when its block, seven or fourteen behind its number, is one of those recorded |
| `Ft8Decode.InsideIsInBounds` | ft8_lib/ft8/decode_internal.h:13-20 | for a candidate inside the dimensions of the waterfall every tone read lies inside the magnitude array |
| `Ft8Decode.LdpcCheck` | ft8_lib/ft8/ldpc.c:129-146 | the number of parity checks the word fails is returned |
| `Ft8Decode.BpDecode` | ft8_lib/ft8/ldpc.c:215-248 | the decisions returned are those of the last iteration, the first that passed, vanished or ran out; the error count is the least number of failing checks over all iterations, or all checks for vanishing decisions |
| `Ft8Decode.NoErrors` | ft8_lib/ft8/ldpc.c:215-248 | the count is zero exactly when the decisions are a nonzero word that satisfies the check table |
| `Ft8Decode.PackBits` | ft8_lib/ft8/decode.c:421-446 | the packed bytes hold the bits in order with the rest clear, however the mask wraps |
| `Ft8Decode.Encode` | ft8_lib/ft8/encode.c:66-126 | the tones of a payload are those of the systematic codeword of its CRC word |
| `Ft8Decode.HardDecisions` | ft8_lib/ft8/ft8_decode.c:78-102 | strictly strongest tones and a positive scale make every hard decision the codeword bit sent |
| `Ft8Decode.CleanFirstIteration` | ft8_lib/ft8/ldpc.c:215-248 | with a check table that annihilates the generator, the sent codeword is a nonzero fixed point of the first iteration |
| `Ft8Decode.DecodeCandidate` | ft8_lib/ft8/decode.c:297-359 | from the candidate's scaled soft bits: no error means the last decisions are delivered exactly when their CRC is right; one to 32 errors mean the fallback's outcome on the same soft bits, every message it returns being accepted; more mean refusal; a payload sent without noise is accepted in the first iteration and comes back |
| `Reencode.XorSequence` | ft8_lib/ft8/decode.c:342-346 | the ten payload bytes are XORed with the fixed sequence |
| `Reencode.CheckCrc` | ft8_lib/ft8/decode.c:333-336 | each protocol's verdict is acceptance under its own CRC |
| `Reencode.SameWord` | ft8_lib/ft8/decode.c:329-364 | for FT8, FT4, FST4 and FST4W an accepted information word is the one its own payload is encoded to |
| `Reencode.DeliverAndReencode` | ft8_lib/ft8/decode.c:329-364 | the payload delivered is the word's first ten bytes with the mask off, the word made of that payload by the protocol's encoder is the information word received |
| `Reencode.SentIsDelivered` | ft8_lib/ft8/decode.c:329-354 | the word any encoder makes of a payload passes its check, and unmasking it gives the payload's bits |
| `Reencode.SentBit` | ft8_lib/ft8/decode.c:50-107 | the word sent carries the payload's bits as they are for FT8 and FST4W, and combined with the fixed sequence for FT4 and FST4 |
| `CandidateHeap.RootIsLeast` | ft8_lib/ft8/decode.c:150-157 | the root of the heap has the least score |
| `CandidateHeap.SmallestChild` | ft8_lib/ft8/decode.c:377-387 | the chosen node is the least of a node and its children |
| `CandidateHeap.HeapifyDown` | ft8_lib/ft8/decode.c:368-399 | sifting down from a root that may be out of place restores the heap over the same candidates |
| `CandidateHeap.HeapifyUp` | ft8_lib/ft8/decode.c:401-419 | sifting up from a last node that may be out of place restores the heap over the same candidates |
| `FindCandidates.SelectedSwap` | ft8_lib/ft8/decode.c:152-160 | replacing the least kept candidate by a better newcomer keeps the k best |
| `FindCandidates.Offer` | ft8_lib/ft8/decode.c:147-168 | each qualifying candidate leaves the heap holding the k best of all seen |
| `FindCandidates.SortDescending` | ft8_lib/ft8/decode.c:175-190 | taking roots from the front to the back leaves the same candidates in descending order |
| `FindCandidates.InGrid` | ft8_lib/ft8/decode.c:139-146 | the four loops visit every place of the waterfall and no other |
| `FindCandidates.GridOnce` | ft8_lib/ft8/decode.c:139-146 | and each place once |
| `FindCandidates.FindBest` | ft8_lib/ft8/decode.c:133-193 | the result is sorted, has min(k, qualifying) candidates, and is a sub-multiset of the qualifying ones none of which left out scores more |
| `FindCandidates.KeptAreBest` | ft8_lib/ft8/decode.c:133-193 | a qualifying place left out means k others were kept, each scoring at least as much |
| `FindCandidates.KeptOnce` | ft8_lib/ft8/decode.c:133-193 | no place is kept twice |
| `Ipfix.Value32OfU32` | psk_reporter.c:52-58 | four stored bytes read back as the value modulo 2^32 |
| `PskPacket.TemplatesDescribeLayouts` | psk_reporter.c:23-39 | both template sets read as the fields in use, with their element and enterprise numbers and lengths, and their lengths are the layouts that read the data |
| `PskPacket.ValidAre` | psk_reporter.c:92-105 | a report or station is valid exactly for texts of 1 to 12, 6 and 63 bytes, a nonzero frequency and a time not before zero |
| `PskPacket.ReportRead` | psk_reporter.c:147-156 | one encoded report reads back as its six fields by RFC 7011 section 7 |
| `PskPacket.ReportsRead` | psk_reporter.c:142-156 | the sender data set reads back as the report list, whatever its padding |
| `PskPacket.StationRead` | psk_reporter.c:134-141 | the receiver data set reads back as the one station record exactly when it is not padded by three bytes; otherwise an empty second record appears |
| `PskPacket.PacketRead` | psk_reporter.c:117-159 | an IPFIX reader recovers the header and all sets, the length field is right, and the packet is four-byte aligned |
| `PskPacket.MeasureReports` | psk_reporter.c:100-109 | the size pass accepts exactly the valid reports and computes the size they take |
| `PskPacket.AppendDataSet` | psk_reporter.c:134-156 | a set is written with its header, its records and zero padding, and nothing beyond it |
| `PskPacket.BuildPacket` | psk_reporter.c:74-159 | the packet is written exactly when all fields are valid and it fits; otherwise the buffer is untouched |
| `RecentSenders.Slot` | psk_reporter.c:227-241 | the slot taken is the first that matches or is empty, else the first oldest |
| `RecentSenders.FullTable` | psk_reporter.c:227-241 | evicting an entry younger than 300 seconds would need 257 callsigns in a 300-second window |
| `RecentSenders.MarkAllKeeps` | psk_reporter.c:222-248 | recording a packet keeps the table faithful to what was sent and complete for the last 300 seconds |
| `RecentSenders.LetThrough` | psk_reporter.c:409-424 | a report let through was last sent at least 300 seconds ago, even when its clock reading is stale |
| `PskReporter.PacketFits` | psk_reporter.c:250-270 | forty of the longest reports take at most 1276 of 1400 bytes |
| `PskReporter.Reporter.constructor` | psk_reporter.c:342-404 | a started reporter has an empty queue and table and its first flush scheduled |
| `PskReporter.Reporter.Enqueue` | psk_reporter.c:406-444 | an offered report is refused, suppressed, replaces a weaker one in place, or is appended, and nothing else changes |
| `PskReporter.Reporter.FindSlot` | psk_reporter.c:227-241 | the scan finds that slot |
| `PskReporter.Reporter.MarkRecent` | psk_reporter.c:222-248 | every callsign at the front of the queue is recorded in order |
| `PskReporter.Reporter.PacketReportCount` | psk_reporter.c:250-270 | for a non-negative time the count is min(queued, 40), so nothing is ever dropped for not fitting, and the packet is that of those reports |
| `PskReporter.Reporter.TakeTurn` | psk_reporter.c:276-313 | one locked turn waits, reschedules, drops or prepares the packet of the queue's front, as the state demands |
| `PskReporter.TurnSends` | psk_reporter.c:279-303 | a turn sends just when forty reports wait or some wait and the flush is due, at most forty of them, with templates in the first three packets and hourly; it sleeps just when fewer wait and the flush is to come |
| `PskReporter.Reporter.EndSend` | psk_reporter.c:314-338 | a failed send removes nothing and asks for templates again; a successful one removes the reports sent and advances sequence and table |
| `PskReporter.Reporter.Stop` | psk_reporter.c:472-490 | stopping changes only the flag |
| `ReporterRuns.After` | psk_reporter.c:272-444 | after any interleaving of offers with unlocked sends: callsigns distinct, at most 512, the front of the queue still the senders of the packet in flight, every accepted sender sent once in order or still waiting, sequence the number sent modulo 2^32, a failed send removing nothing |
| `ReporterRuns.Created` | psk_reporter.c:355-401 | a reporter just created is in the state the runs start from |
| `ReporterRuns.StepKeeps` | psk_reporter.c:272-444 | every step keeps all of these |
| `ReporterRuns.NoRepeats` | psk_reporter.c:222-444 | in every run with at most 256 callsigns sent in any window under 300 seconds, two successful packets that share a sender are at least 300 seconds apart |
| `ReporterRuns.EveryPacketReads` | psk_reporter.c:296-325 | every packet of every run reads back as its own reports, with the number of reports sent before as sequence |
| `ReporterRuns.TemplatesInForce` | psk_reporter.c:292-295 | a packet goes without templates only when some were in a packet whose local send succeeded in the last hour, and no send has failed since |
| `ReporterRuns.FrontKeptIffNotImproved` | psk_reporter.c:425-433 | one offer leaves the front of the queue as it is exactly when it does not improve one of the reports there |
| `ReporterRuns.SentIsRemovedIffNotImproved` | psk_reporter.c:272-444 | over every run, a successful send removes exactly the reports of its packet if and only if no offer made while it was on its way improved one of them |
| `ReporterRuns.ImprovementLost` | psk_reporter.c:326-336 | a run in which a stronger report taken during a send is removed with the packet without ever being sent |
| `CicFilter.Comb2IsDoubleWindow` | decimator.c:65-86 | the second comb value is the double sum of the inputs over two windows of twice the factor, zero before the start |
| `CicFilter.UnitGain` | decimator.c:95-104 | over as many equal samples as the filter remembers, the output is the sample times the sum of the taps |
| `CicFilter.Sums1Window` | decimator.c:65-70 | integrators differ over a delay by a windowed sum |
| `Decimator.IntegrateFollows` | decimator.c:65-73 | an input moves the integrators to the sums of the longer history and leaves the combs valid |
| `Decimator.CombFollows` | decimator.c:74-95 | an output moves both combs and the filter line to the values of the new position |
| `Decimator.FilterLine` | decimator.c:87-100 | after an output the filter line holds the last 33 double moving sums |
| `Decimator.Decimator.Init` | decimator.c:20-29 | only a rate that is a positive multiple of 375 is taken, and then the state is that of no input |
| `Decimator.Decimator.Reset` | decimator.c:31-42 | a reset behaves as freshly initialised for the same factor |
| `Decimator.Decimator.Process` | decimator.c:44-105 | one output comes after every factor inputs, and it is the compensated double moving sum of all inputs since the reset |
| `SampleQueue.SaturatingAdd` | sample_queue.c:7-10 | the sum, held at the largest 64-bit value |
| `SampleQueue.PushAppends` | sample_queue.c:91-129 | an accepted push appends one block carrying all losses pending before it; a refused one changes no queued block |
| `SampleQueue.ReleaseRemoves` | sample_queue.c:158-170 | a release retires the oldest block |
| `SampleQueue.SampleQueue.constructor` | sample_queue.c:12-58 | an initialised queue is empty, each slot owning its own memory |
| `SampleQueue.SampleQueue.Reset` | sample_queue.c:72-81 | a reset empties the queue and forgets pending losses |
| `SampleQueue.SampleQueue.Stop` | sample_queue.c:83-89 | stopping changes only the flag |
| `SampleQueue.SampleQueue.Push` | sample_queue.c:91-129 | a push stores into the head slot's memory only, or counts the block as lost, or is refused |
| `SampleQueue.SampleQueue.TryPeek` | sample_queue.c:144-156 | a peek returns the oldest block with its own memory, and is refused when empty or stopping |
| `SampleQueue.SampleQueue.Release` | sample_queue.c:158-170 | a release frees the oldest slot |
| `Capture.ExpandedPlain` | airspyhf_wsprd.c:205-226 | short of 64-bit overflow a block stands for its lost samples as zeros, then its samples |
| `Capture.OutputAtPrefix` | airspyhf_wsprd.c:228-238 | output k depends only on the first (k + 1) * factor inputs |
| `Capture.StoredStep` | airspyhf_wsprd.c:233-244 | one more input adds one stored output exactly when the phase wraps, while there is room |
| `Capture.Receiver.StartFrame` | airspyhf_wsprd.c:571-594 | a started frame is open and empty, with nothing decimated and no decoding requested, whatever came before |
| `Capture.Receiver.Take` | airspyhf_wsprd.c:227-244 | one input is decimated, its output stored while there is room, and a full frame closed, as the frame specification says |
| `Capture.HandledFollows` | airspyhf_wsprd.c:194-256 | handling a block keeps the frame that of the whole input up to the target, with decoding requested once, by the block that closes it |
| `Capture.Receiver.ProcessBlock` | airspyhf_wsprd.c:194-256 | a block is handled as the frame specification says: its expanded input one by one until the frame is full, a request for decoding when this call closes it, and both loss counters |
| `SampleRuns.OwnedBlock` | airspyhf_wsprd.c:258-272 | between peek and release the block read is the oldest queued one, whatever is pushed meanwhile, and the release retires exactly it |
| `SampleRuns.SafeStep` | sample_queue.c:72-170 | every interleaving of pushes, DSP steps and resets keeps the held slot's memory and place |
| `SampleRuns.PushConservesIff` | airspyhf_wsprd.c:185-192 | a push keeps the timeline whole exactly when it is not an empty transfer that reports lost samples |
| `SampleRuns.TimelineWhole` | sample_queue.c:91-170 | in every interleaving, processed input, queued blocks and pending losses together are the device's stream since the reset with lost samples zeroed |
| `SampleRuns.FrameOfRun` | airspyhf_wsprd.c:194-272 | in every interleaving the frame holds the outputs of all input processed since the reset up to the target, and decoding has been requested once if it is full and not before |
| `SampleRuns.FrameIsFiltered` | airspyhf_wsprd.c:194-272 | each stored sample k of a frame is the direct filter of the device's stream ending at input (k + 1) * factor |
| `Interleaver.MagicReverses` | core/wsprsim_utils.c:153-153 | the multiply-and-mask expression reverses the bits of a byte and undoes itself |
| `Interleaver.ReversalIsPlace` | core/wsprsim_utils.c:145-164 | the place of a byte has its bits from the other end, and no other byte has |
| `Interleaver.OrderIsPermutation` | core/wsprsim_utils.c:149-159 | the loop meets each of the 162 places once before its byte counter wraps |
| `Interleaver.Interleave` | core/wsprsim_utils.c:145-163 | symbol p goes to the bit reversal of the p-th byte whose reversal is below 162 |
| `Interleaver.Deinterleave` | core/wsprd_utils.c:216-234 | symbol p comes from the bit reversal of the p-th byte whose reversal is below 162 |
| `Interleaver.InterleavingIsBijective` | core/wsprd_utils.c:216-234 | deinterleaving inverts interleaving on every buffer, and the other way round |
| `WsprChannel.ChannelSymbols` | core/wsprsim_utils.c:302-309 | the 162 symbols carry the interleaved code bits of the 81 message bits and the sync bits |
| `WsprChannel.ReceivedBits` | core/wsprd_utils.c:216-234 | a receiver that deinterleaves the data bits gets the code bits of that message and the sync vector |
| `WsprPacking.PackCall` | core/wsprsim_utils.c:50-79 | the number is the mixed-radix code of the callsign put into six columns |
| `WsprPacking.CallRoundTrip` | core/wsprd_utils.c:69-115 | every canonical callsign comes back from its number, with nulls after it |
| `WsprPacking.GridRoundTrip` | core/wsprd_utils.c:117-148 | every canonical locator comes back, whatever the low seven bits |
| `WsprPacking.GridNumberRoundTrip` | core/wsprd_utils.c:117-148 | every number below 32400 unpacks to a canonical locator with that number |
| `WsprPacking.FieldsRoundTrip` | core/wsprd_utils.c:35-67 | the two fields come back from the packed bytes modulo 2^28 and 2^22 |
| `WsprMessage.NearestStep` | core/wsprsim_utils.c:221-224 | the power sent is the nearest whole step from 0 to 60, the higher of two as near |
| `WsprMessage.NormalIs` | core/wsprsim_utils.c:221-224 | so a power is sent as it is exactly when it is a whole step from 0 to 60 |
| `WsprMessage.PackPrefix` | core/wsprsim_utils.c:81-143 | suffix and prefix numbers and the extra flag are those of the base-37 digits |
| `WsprMessage.PlainRoundTrip` | core/wsprd_utils.c:276-283 | a type 1 message comes back exactly when its power is a whole step from 0 to 60, and the tables learn the callsign |
| `WsprMessage.PrefixRoundTrip` | core/wsprd_utils.c:161-183 | a prefixed callsign comes back exactly when its prefix number is below 32400 or above 32768, and its power too exactly when that is a whole step from 0 to 60 |
| `WsprMessage.SuffixRoundTrip` | core/wsprd_utils.c:184-200 | a one-character suffix comes back exactly when it is a letter or digit, and the power too exactly when it is a whole step from 0 to 60 |
| `WsprMessage.TwoDigitRoundTrip` | core/wsprd_utils.c:201-207 | a two-digit suffix comes back exactly when it is 10 or more, and the power too exactly when it is a whole step from 0 to 60 |
| `WsprMessage.HashedRoundTrip` | core/wsprd_utils.c:300-327 | a type 3 message with a six-character grid comes back exactly when its hash is below 32400 and its power a whole step from 0 to 60; above, it is refused |
| `WsprMessage.HeardCallIsNamed` | core/wsprd_utils.c:278-327 | a callsign heard in a plain message is the name in angle brackets of a later message that carries its hash |
| `WsprMessage.HeardPrefixIsNamed` | core/wsprd_utils.c:288-327 | so is a callsign heard with its prefix |
| `WsprMessage.UnheardIsDots` | core/wsprd_utils.c:316-322 | a hash under which no callsign was stored is printed as dots |
| `WsprMessage.PrintedIff` | core/wsprd_utils.c:251-331 | a plain spot is always printed, one with a slash exactly when its power is a whole step, a hashed one exactly when moreover its power is at most 60 and its grid starts with two letters and two digits; what is not printed is not learned |
| `WsprMessage.ShortGridLost` | core/wsprsim_utils.c:229-236 | a four-character grid in a type 3 message unpacks to an empty grid that is not printed |
| `WsprLink.IsClean` | core/wsprd_utils.c:216-234 | after deinterleaving, a block that favours every data bit on the air favours every code bit of the message |
| `WsprLink.Receive` | core/wsprd.c:1340-1427 | a spot decoded by either decoder is what unpacking makes of a message with zero tail whose correlation with the deinterleaved symbols is the metric, if the cycles asked for stay countable; a block in which every symbol favours the data bit sent gives the spot of the message packed: the same callsign, grid or suffix and power for messages of all three types that come back whole |
| `Ft8Text.TablesAreInverse` | ft8_lib/ft8/text.c:215-294 | in each of the six character tables the two conversions are inverse and the numbering has no gaps |
| `Ft8Text.CharactersAre` | ft8_lib/ft8/text.c:50-58 | digits are codes 48 to 57, letters 65 to 90 and 97 to 122 |
| `Ft8Text.DdToInt` | ft8_lib/ft8/text.c:151-179 | the value is that of an optional sign and the leading digits within the length |
| `Ft8Text.IntToDd` | ft8_lib/ft8/text.c:182-213 | the sign where needed or asked for and the digits of the size are written, for any width |
| `Ft8Text.WrittenRoundTrip` | ft8_lib/ft8/text.c:151-213 | reading a signed number of any width back gives the number |
| `Ft8Text.ReportRoundTrip` | ft8_lib/ft8/text.c:151-213 | reading a written two-digit report gives the number back |
| `Ft8Message.PackBasecall` | ft8_lib/ft8/message.c:616-673 | the number is the mixed-radix code of the callsign's six columns, with the two national forms rewritten, or -1 |
| `Ft8Message.CodesFit` | ft8_lib/ft8/message.c:713-716 | base callsign codes end exactly at 2^28 |
| `Ft8Message.UnpackBasecall` | ft8_lib/ft8/message.c:786-818 | a number unpacks to its columns with the national forms restored |
| `Ft8Message.BaseRoundTrip` | ft8_lib/ft8/message.c:616-818 | a base callsign comes back exactly when it is not a literal 3D0 or Q form of a restored national prefix |
| `Ft8Standard.GridRoundTrip` | ft8_lib/ft8/message.c:897-964 | every locator comes back, RR73 as the word it also is |
| `Ft8Standard.RogerGrid` | ft8_lib/ft8/message.c:943-966 | a locator sent with the R flag reads with R and a space before it |
| `Ft8Standard.ReportRoundTripIff` | ft8_lib/ft8/message.c:925-990 | a signal report comes back exactly when it is -30 or more |
| `Ft8Standard.ExtraRoundTrip` | ft8_lib/ft8/message.c:897-994 | every canonical third field comes back |
| `Ft8Standard.FieldsRoundTrip` | ft8_lib/ft8/message.c:193-375 | the five packed fields come back from the ten bytes |
| `Ft8Standard.EncodeStd` | ft8_lib/ft8/message.c:156-208 | the payload is stored, or the first error of callsign one, callsign two or mixed suffixes is returned and the buffer untouched |
| `Ft8Standard.CallRoundTrip` | ft8_lib/ft8/message.c:675-841 | a token or standard callsign with its suffix gets a 28-bit code and comes back exactly when it is unambiguous |
| `Ft8Standard.LetteredCq` | ft8_lib/ft8/message.c:755-774 | the number of any four letters or spaces reads as CQ and those letters without leading spaces |
| `Ft8Standard.DirectedCq` | ft8_lib/ft8/message.c:755-774 | a CQ directed by one to four letters reads as CQ and the letters |
| `Ft8Standard.NumberedCq` | ft8_lib/ft8/message.c:748-754 | a CQ directed by a number reads as CQ and its three digits |
| `Ft8Standard.HashedCall` | ft8_lib/ft8/message.c:718-784 | a callsign of another form is refused exactly when its length is not 3 to 11 or a character cannot be hashed; else it is sent as its hash without suffix bit and reads as what is looked up for that hash |
| `Ft8Standard.DirectedRefused` | ft8_lib/ft8/message.c:691-697 | the transmitter refuses directed CQs |
| `Ft8Standard.StandardRoundTrip` | ft8_lib/ft8/message.c:156-397 | a standard message is refused exactly when its suffixes differ in kind, and otherwise comes back exactly when both callsigns are unambiguous |
| `BandSchedule.ExcludedAre` | bands.c:244-250 | the bands explored are the candidates whose band is not ranked |
| `BandSchedule.AdaptiveBandAt` | bands.c:227-273 | the band is the scheduled one, missing exactly for empty plans, negative time or zero dwell, and the exploration flag is exact |
| `BandSchedule.RotationIsContinuous` | bands.c:270-272 | a ranked slot's place is the number of ranked slots before it, so exploration never skips or repeats a ranked band |
| `BandSchedule.SlotsInOrder` | bands.c:252-272 | ranked slots go through the ranking in order, round and round, and every sixth slot through the bands left out of it |
| `BandSchedule.EveryExcludedIsExplored` | bands.c:252-268 | every unranked candidate is explored within any 6 * n slots, n of them being unranked |
| `BandSchedule.EveryRankedIsUsed` | bands.c:270-272 | every ranked band is used within any n + n / 5 + 2 slots, n of them being ranked |

## Left out

- Fano.Decode: metrics and thresholds are unbounded integers, so 32-bit overflow of sums is not modelled, nor the counter's wrap at a limit of exactly 2^32 - 1; nbits is at least 31, below which the source indexes before its node array.
- FanoWalk.NearlyBest: with 31 bits, all of them tail, the source tries only the better branch of the root; the messages compared are then those that start with it.
- Jelinek.Decode: a node whose metric has no bucket makes the source write outside its bucket array; the model stops there and says so. The data left in the buffer by an exhausted search is not specified. With a limit of exactly 2^32 - 1 the source's counter wraps before it passes the limit and the loop goes on; the model ends.
- Osd.OsdDecode: the library sort of positions by strength is a given permutation; which of its positions are used is stated, that it is sorted is not.
- Ft8Decode.BpDecode: the message sums of later iterations are parameters; the hard decisions, the counting of failing checks and the end of the iterations are modelled.
- Ft8Decode.Normalize: the factor is a parameter, since its square root and rounding are not modelled; magnitudes are exact reals.
- Ft8Decode.DecodeCandidate: the FT8 case only; for the other protocols the steps after the bit decisions are in Reencode.
- FindCandidates.FindBest: the number kept is at least one; for zero the source reads an element that does not exist.
- PskPacket.BuildPacket: null arguments and the strings' own buffers are not modelled.
- PskReporter.Reporter.TakeTurn: waiting on the condition variable, the socket and threads are not modelled; a turn is one pass of the loop with the clock reading it ends on.
- Decimator.Decimator.Process: arithmetic is exact; rounding to single precision is not modelled.
- Capture.Receiver.ProcessBlock: the WSPR decimator only; the FT8 resampler is not part of this model.
- SampleRuns.TimelineWhole: the locks are taken as mutual exclusion between the steps named; memory order inside a step is not modelled.
- WsprMessage.PackPrefix: tokenising the message text and reading the power number are left out; the parts are arguments, the callsign hash is a parameter, prefix numbers are unbounded, and an empty part after the slash is not modelled.
- WsprPacking.PackCall: a six-character callsign whose only digit is second writes outside the source's buffer and is excluded.
- WsprMessage.Unpack: the printed line with its two-column power is left out; the fields are returned.
- WsprLink.Receive: one attempt on one candidate; detection of the symbols, retries with other offsets and block sizes, and the ordered-statistics fallback of the WSPR path are left out.
- Ft8Standard.EncodeStd: callsign hashes and their table are parameters; splitting the text into tokens is left out.
- Nonstandard, telemetry, free-text and contest FT8 messages: further formats of the same kind.
- BandSchedule.AdaptiveBandAt: parsing of hop plans and the frequency tables are left out.
- FFT, synchronisation, signal subtraction, the sync score and other floating-point kernels: their meaning depends on rounding and trigonometry.
- Network, HTTP, process, file and device code: input and output only.
- The FT8 callsign hash table of ft8_decoder.c: aging clears slots inside probe chains, so no lasting lookup law holds.

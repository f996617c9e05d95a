# Ball tracker: models and proofs

Dafny models of the computing parts of the ball-tracking system (C on the Pi and
the DE10, Verilog on the FPGA, Python viewers) and proofs about them.
`dafny verify dfyconfig.toml` checks everything.

C and Python code that updates buffers, globals or dictionaries is modelled by
classes, arrays and loops whose contracts name a specification function; clocked
Verilog modules are classes whose `Clock` method equals a next-state function of the
old registers; combinational Verilog is functions over bit vectors. The theorems are
lemmas about those functions, over every input, trace or interleaving.

| files | part of the system |
|---|---|
| `Image`, `Connectivity`, `Blobs`, `Morphology`, `ImageKernel` | the mask kernel: opening, breadth-first blob labelling, small-blob filter |
| `SpscQueue`, `SpscInterleaving` | the lock-free ring, call by call and step by step |
| `MaskQueue` | the mutex and condition-variable queue between the two image threads |
| `SpiSlave`, `SpiFrame` | the 32-bit SPI slave: commit safety, full-duplex frames |
| `Gates`, `Binary32`, `FloatMul`, `FloatMulAccuracy`, `FloatAdd`, `FloatAddAccuracy` | the floating-point unit, from carry-lookahead gates to error bounds |
| `Quadrature` | the C, FPGA lookup-table and FPGA edge decoders |
| `PidFilter`, `DrivePath` | the generated controllers, the PWM word and the PWM generator |
| `UdpFrames`, `UdpRoundTrip` | the debug-video chunker and the Python assembler |
| `Pareto`, `Modular` | the Pareto sweep; remainder arithmetic |

## Main results

- **Blob filter.** The filter keeps exactly the pixels of 4-connected blobs of at least
  `min_size` pixels when the image has at most `MAX_LABELS - 2` blobs; otherwise the
  early return leaves the mask untouched, although the comment there only speaks of
  limiting the count. It does what it is for if and only if the table suffices or no
  blob is small. A second run never changes anything.
- **Opening.** Not idempotent in general (an all-white 3x3 image is the smallest
  witness); it is so exactly when every white block touching the border is backed by
  white blocks that do not. The whole kernel is stable on its own output from the second
  run on.
- **Ring.** Under every interleaving of single loads, slot accesses and stores the ring
  refines a bounded FIFO of the values callers passed in, a slot being written is never
  readable, and neither side ever waits for the other.
- **SPI.** In any session that mixes whole 32-bit mode-0 frames, with arbitrary segment
  lengths of at least four clocks, and frames cut short, with anything on the pins but
  fewer than 32 clock edges, the whole frames arrive in both directions and the cut ones
  change nothing; the PWM registers move only after a multiple of 32 edges of one
  chip-select window.
- **Multiplier.** The result is a normal number, rounded up to within one ulp, if and only
  if the exponent aimed at is 1 to 254 and the significand product is not in the band
  (2^47 - 2^23, 2^47), where the lost rounding carry halves the result.
- **Adder.** Addition is within one ulp (half an ulp on a carry) if and only if the
  exponent stays below 255. Equal-exponent
  subtraction is exact, and any other within one unit of the larger operand, if and
  only if the aligned difference is neither 0 nor 16 to 31 (the unreachable case-table
  row) and at least the smallest normal number. The overflow comment there promises
  exponent 255; the flag is also raised on a sum with larger exponent 254 that does not
  carry and on a difference with larger exponent 254 that needs no normalising shift,
  and it is silent where a tiny difference wraps its exponent to 255. The underflow flag
  is silent on exact differences below the smallest normal number in three cases: the
  exponent lands on exactly 0, the case table cannot see the difference, or truncation
  lifts it to the smallest normal number.
- **Decoders.** The lookup-table decoders give the true displacement of every motion of
  at most one step per sample; on every trace the edge detector is their negation if and
  only if the lines never change together and no edge is followed at the very next clock
  by an edge of the other line.
- **Drive path.** From the controller's errors to the pins: the duty is exact over any full
  period and the direction follows the sign of the unlimited output. Reset silences every
  pin; on the first clock after it the output is high once, with both direction pins low.
- **Video link.** Over every trace of packets sent, whatever is shown is an original
  frame; a frame is shown exactly once and forgotten if and only if all its chunks arrived
  and none of its packets came after the last missing one. One frame in order survives if
  and only if it needs between 1 and 65535 chunks.

## Model

| member | source | states |
|---|---|---|
| Blobs.FilterSmallBlobs | esl_lab_full_app/Image_Processor/src/green_mask.c:76-135 | the white pixels left are those of large blobs, or all of them when the label table fills up; surviving pixels keep their values |
| Blobs.LabelBlobs | esl_lab_full_app/Image_Processor/src/green_mask.c:77-125 | every label paints exactly one whole 4-connected component, the size table holds its cardinality, and the scan is complete unless all labels are used |
| Blobs.FloodFill | esl_lab_full_app/Image_Processor/src/green_mask.c:94-116 | the search labels exactly the component of its seed and returns its cardinality, with the queue never past HEIGHT*WIDTH |
| Blobs.Visit | esl_lab_full_app/Image_Processor/src/green_mask.c:105-114 | a neighbour is labelled and queued at most once; queue end equals the number of pixels found |
| Blobs.EraseSmall | esl_lab_full_app/Image_Processor/src/green_mask.c:126-134 | exactly the condemned pixels go black |
| Blobs.SameLabelIffConnected | esl_lab_full_app/Image_Processor/src/green_mask.c:90-125 | after a complete labelling two white pixels share a label iff a 4-connected white path joins them |
| Blobs.LookedUpSize | esl_lab_full_app/Image_Processor/src/green_mask.c:118-130 | the size found through a pixel's label is the cardinality of its component |
| Blobs.CountBlobs | esl_lab_full_app/Image_Processor/src/green_mask.c:119-123 | labels used never exceed the components, and equal them on a complete scan |
| Blobs.FilterTwice | esl_lab_full_app/Image_Processor/src/green_mask.c:76-135 | filtering a filtered mask changes nothing |
| Blobs.FilterMeetsIntent | esl_lab_full_app/Image_Processor/src/green_mask.c:119-134 | the small blobs are removed iff the table suffices or there are none |
| Blobs.TableOverflowIsReached | esl_lab_full_app/Image_Processor/src/green_mask.c:119-123 | for every table length up to a quarter of the image's pixels there is an image with one blob too many, all small, that the filter leaves alone |
| Blobs.KeptBlobUnchanged | esl_lab_full_app/Image_Processor/src/green_mask.c:126-134 | large blobs keep their exact shape when small ones go |
| Connectivity.ComponentUnique | esl_lab_full_app/Image_Processor/src/green_mask.c:100-116 | a connected set closed under white neighbours is the whole component |
| Connectivity.ComponentShared | esl_lab_full_app/Image_Processor/src/green_mask.c:100-116 | every pixel of a component names the same component |
| Morphology.ErodeMask | esl_lab_full_app/Image_Processor/src/green_mask.c:28-52 | the target holds 1 exactly on interior pixels whose 3x3 block is white |
| Morphology.DilateMask | esl_lab_full_app/Image_Processor/src/green_mask.c:54-74 | the target holds 1 exactly on interior pixels with a white pixel in their block |
| Morphology.OpeningMeaning | esl_lab_full_app/Image_Processor/src/green_mask.c:292-293 | the opening keeps exactly the interior pixels covered by an in-image white block |
| Morphology.OpeningShrinks | esl_lab_full_app/Image_Processor/src/green_mask.c:292-293 | the opening is contained in the mask |
| Morphology.OpeningMonotone | esl_lab_full_app/Image_Processor/src/green_mask.c:292-293 | a larger mask has a larger opening |
| Morphology.OpeningTwice | esl_lab_full_app/Image_Processor/src/green_mask.c:49-51 | a second opening sees the mask with its border ring cleared |
| Morphology.OpeningIdempotentIff | esl_lab_full_app/Image_Processor/src/green_mask.c:28-74 | the exact condition for the opening to be idempotent |
| Morphology.OpeningIdempotentInside | esl_lab_full_app/Image_Processor/src/green_mask.c:28-74 | idempotent on every mask with a black border ring |
| Morphology.OpeningThrice | esl_lab_full_app/Image_Processor/src/green_mask.c:28-74 | three openings equal two |
| Morphology.OpeningNotIdempotent | esl_lab_full_app/Image_Processor/src/green_mask.c:72-73 | a 3x3 witness against idempotence |
| ImageKernel.ProcessMask | esl_lab_full_app/Image_Processor/src/green_mask.c:292-294 | pixel by pixel: white afterwards are the interior pixels covered by a wholly white 3x3 block of the image, all of them if they form more than 9998 blobs, else those whose blob of covered pixels has at least 600 |
| ImageKernel.KernelPixels | esl_lab_full_app/Image_Processor/src/green_mask.c:292-294 | the same for every blob size and table length |
| ImageKernel.SmallBlockGoesBlack | esl_lab_full_app/Image_Processor/src/green_mask.c:292-294 | a mask of one 3x3 block in 480 x 640 pixels comes out black |
| ImageKernel.KernelStable | esl_lab_full_app/Image_Processor/src/green_mask.c:292-294 | with a black border ring, the kernel changes nothing on its own output |
| ImageKernel.KernelThrice | esl_lab_full_app/Image_Processor/src/green_mask.c:292-294 | on every mask a third run equals the second |
| ImageKernel.KernelOverflowIsReached | esl_lab_full_app/Image_Processor/src/green_mask.c:292-294 | masks of small blobs, one more than the table allows, that erosion, dilation and filter together leave exactly as they were |
| SpscQueue.Ring.Enqueue | esl_lab_full_app/Image_Processor/include/spsc_queue.h:26-44 | appends, or refuses exactly when 255 values are held |
| SpscQueue.Ring.Dequeue | esl_lab_full_app/Image_Processor/include/spsc_queue.h:46-58 | takes the oldest value, or refuses exactly when empty |
| SpscQueue.Ring.Publish | esl_lab_full_app/Image_Processor/src/com_calculator.c:72-76 | drop-oldest publication; the retried enqueue succeeds |
| SpscQueue.ReceivedInOrder | esl_lab_full_app/Image_Processor/src/com_calculator.c:72-76 | values received are an in-order subsequence of those published, for every call sequence |
| SpscQueue.LostOnlyWhenOverrun | esl_lab_full_app/Image_Processor/src/com_calculator.c:72-76 | every value produced was received, still waits in its place in the ring, or has at least 255 newer values behind it |
| SpscQueue.WithoutConsumerNewest | esl_lab_full_app/Image_Processor/src/com_calculator.c:72-76 | with no consumer the ring holds the newest min(n, 255) values |
| SpscQueue.LosslessUntilFull | esl_lab_full_app/Image_Processor/include/spsc_queue.h:26-58 | nothing is lost while the ring never fills |
| SpscInterleaving.StepPreserves | esl_lab_full_app/Image_Processor/include/spsc_queue.h:26-58 | every single step keeps the ring invariant |
| SpscInterleaving.DequeuedIsPrefix | esl_lab_full_app/Image_Processor/include/spsc_queue.h:26-58 | in every reachable state dequeued values are a prefix of enqueued ones, at most 255 in flight |
| SpscInterleaving.OnlyCallersValues | esl_lab_full_app/Image_Processor/include/spsc_queue.h:26-58 | under every interleaving, enqueued are exactly the values passed to the accepted calls, in order, and dequeued is a prefix of them |
| SpscInterleaving.NeitherWaits | esl_lab_full_app/Image_Processor/include/spsc_queue.h:26-58 | in every reachable state both sides can take their next step |
| SpscInterleaving.WriteNeverRaces | esl_lab_full_app/Image_Processor/include/spsc_queue.h:36-42 | the slot being written is outside the consumer's window, even with stale indices |
| SpscInterleaving.RefinesFifo | esl_lab_full_app/Image_Processor/include/spsc_queue.h:26-58 | each step of each run is a move of a bounded FIFO |
| SpscInterleaving.RefusalsAreJustified | esl_lab_full_app/Image_Processor/include/spsc_queue.h:36-53 | a refusal found the ring full or empty when the other index was loaded |
| SpscInterleaving.WholeEnqueue | esl_lab_full_app/Image_Processor/include/spsc_queue.h:26-44 | an undisturbed enqueue has the call-level effect |
| SpscInterleaving.WholeDequeue | esl_lab_full_app/Image_Processor/include/spsc_queue.h:46-58 | an undisturbed dequeue has the call-level effect |
| MaskQueue.Ring.Put | esl_lab_full_app/Image_Processor/src/green_mask.c:305-310 | storing a mask appends it to those waiting |
| MaskQueue.Ring.Take | esl_lab_full_app/Image_Processor/src/com_calculator.c:61-63 | taking a mask removes the oldest waiting |
| MaskQueue.StepPreserves | esl_lab_full_app/Image_Processor/src/green_mask.c:300-314 | every statement of either thread keeps lock, index and data invariants |
| MaskQueue.QueueConsistent | esl_lab_full_app/Image_Processor/src/green_mask.c:303-310 | in every reachable state consumed masks are a prefix of produced ones, the count is in range, and rear = (front + count) mod N, off by one exactly between moving an index and counting |
| MaskQueue.OnlyOfferedMasks | esl_lab_full_app/Image_Processor/src/green_mask.c:303-310 | in every reachable state the masks produced are those the producer set out to store, in order, but for at most one it still holds, and the masks consumed are a prefix of them |
| MaskQueue.MutualExclusion | esl_lab_full_app/Image_Processor/src/com_calculator.c:58-65 | the threads are never inside the critical section together |
| MaskQueue.NeverBothBlocked | esl_lab_full_app/Image_Processor/src/com_calculator.c:59-64 | the threads are never both asleep, and no wake-up is lost |
| MaskQueue.AlwaysProgress | esl_lab_full_app/Image_Processor/src/green_mask.c:301-314 | some thread can always step without a spurious wake-up |
| SpiSlave.Slave.Clock | ICO_HW_Design/spi_slave_32bit.v:26-114 | all registers take the next-state values together |
| SpiSlave.CountsEdges | ICO_HW_Design/spi_slave_32bit.v:62-87 | on every trace the counter is the window's edge count mod 32, the shift register ends in the sampled bits, and the flag marks completed multiples of 32 |
| SpiSlave.CommitOnlyWholeFrames | ICO_HW_Design/spi_slave_32bit.v:80-97 | the PWM registers change only after a completed multiple of 32, to the last 32 bits |
| SpiSlave.AbortedFrameHarmless | ICO_HW_Design/spi_slave_32bit.v:66-97 | fewer than 32 edges leave the PWM registers alone |
| SpiSlave.FewEdgesHarmless | ICO_HW_Design/spi_slave_32bit.v:66-97 | whatever the pins do, fewer than 32 rising edges of the clock pin leave the PWM registers alone |
| SpiFrame.FullDuplexFrame | ICO_HW_Design/spi_slave_32bit.v:26-116 | for every mode-0 frame the PWM registers end as the sent word and the master samples the loaded word |
| SpiFrame.IdleSettles | ICO_HW_Design/spi_slave_32bit.v:66-114 | from any registers a released bus empties counter, output register and synchronisers |
| SpiFrame.EveryFrameArrives | ICO_HW_Design/spi_slave_32bit.v:26-116 | in any mixture of whole frames and frames cut short, every whole frame arrives in both directions, a cut one changes no PWM register, and the bus is idle in between |
| SpiFrame.ResetClears | ICO_HW_Design/spi_slave_32bit.v:26-114 | a reset at any moment puts both PWM registers at the midpoint and the slave on an idle bus |
| SpiFrame.AfterReset | ICO_HW_Design/spi_slave_32bit.v:26-116 | after a reset at any moment, in mid-frame too, every message of the following session is delivered |
| Gates.Adder4Correct | Floating_alu_verilog/Utils.v:74-94 | the carry-lookahead block adds |
| Gates.Adder24Correct | Floating_alu_verilog/Utils.v:107-111 | the chained 24-bit adder adds |
| Gates.Adder9Correct | Floating_alu_verilog/Utils.v:101-105 | the 9-bit adder adds |
| Gates.Negate24 | Floating_alu_verilog/Utils.v:119-123 | complement plus one negates modulo 2^24 |
| Gates.Or24Val | Floating_alu_verilog/Utils.v:44-49 | the or-tree tells whether the vector is non-zero |
| FloatMul.RoundedFractionValue | Floating_alu_verilog/mul.v:53-66 | the stored fraction is the ceiling of the scaled product, low 23 bits |
| FloatMul.MulFields | Floating_alu_verilog/mul.v:42-82 | sign, exponent, fraction and flags of a product of normal numbers |
| FloatMulAccuracy.MulRoundsUpIff | Floating_alu_verilog/mul.v:50-82 | for all normal operands: a normal result, rounded up within one ulp, iff the exponent aimed at is 1 to 254 and the significand product is outside the carry-out band |
| FloatMulAccuracy.MulHalvesInBand | Floating_alu_verilog/mul.v:66-66 | in the band the result is half the correctly rounded value |
| FloatMulAccuracy.MulFlagsIff | Floating_alu_verilog/mul.v:76-80 | the flags miss exactly the products aimed at exponent 0 or 255 |
| FloatMulAccuracy.BandIsReached | Floating_alu_verilog/mul.v:66-66 | two normal numbers that reach the band |
| FloatMulAccuracy.SilentProducts | Floating_alu_verilog/mul.v:76-80 | normal operands that reach exponents 0 and 255 without a flag |
| FloatAdd.NormalizeMeaning | Floating_alu_verilog/Utils.v:165-335 | the case table normalises exactly all values but 0 and 16 to 31 |
| FloatAdd.NormalizeCarry | Floating_alu_verilog/Utils.v:177-181 | a carried sum is halved with a half rounded up |
| FloatAdd.AlignValues | Floating_alu_verilog/add_sub.v:51-66 | the smaller operand is truncated by the exponent difference |
| FloatAdd.AddFields | Floating_alu_verilog/add_sub.v:68-99 | fields of an effective addition |
| FloatAdd.SubFields | Floating_alu_verilog/add_sub.v:68-102 | fields and underflow flag of an effective subtraction |
| FloatAddAccuracy.AdditionAccurateIff | Floating_alu_verilog/add_sub.v:51-99 | within less than one ulp, half an ulp on a carry, with the right sign, iff the larger exponent is at most 253 or nothing carries |
| FloatAddAccuracy.SubtractionAccurateIff | Floating_alu_verilog/add_sub.v:51-99 | for every exponent difference: within less than one unit of the larger operand, exact for equal exponents, iff the aligned difference is neither 0 nor 16 to 31 and at least the smallest normal number |
| FloatAddAccuracy.SubtractionExactIff | Floating_alu_verilog/add_sub.v:87-99 | the exact condition for equal exponents |
| FloatAddAccuracy.OverflowFlagIff | Floating_alu_verilog/add_sub.v:104-105 | for additions and subtractions, exactly when the overflow flag tells whether the result has exponent 255 |
| FloatAddAccuracy.UnderflowFlagIff | Floating_alu_verilog/add_sub.v:101-102 | exactly when the underflow flag tells whether the exact difference is non-zero and below the smallest normal number |
| FloatAddAccuracy.UnseenIsReached | Floating_alu_verilog/Utils.v:298-335 | a significand difference of 16 comes out 524288 times too large |
| FloatAddAccuracy.SilentUnderflow | Floating_alu_verilog/add_sub.v:101-102 | a difference below the smallest normal number with no flag raised |
| FloatAddAccuracy.TruncationHidesUnderflow | Floating_alu_verilog/add_sub.v:65-66 | an exact difference just below the smallest normal number that truncation lifts to it, with no flag raised |
| FloatAddAccuracy.FalseOverflowOnSum | Floating_alu_verilog/add_sub.v:104-105 | 2^127 + 2^126 is finite and accurate, and raises the overflow flag |
| FloatAddAccuracy.FalseOverflowOnDifference | Floating_alu_verilog/add_sub.v:104-105 | so does 1.5 * 2^127 - 2^125 |
| Quadrature.CDecoder.ProcessTransition | encoder_pwm_on_cpu/encoder_reader.c:20-44 | the position is the sum of table steps of the trace, in 32 bits |
| Quadrature.Encoder.Clock | ICO_HW_Design/Encoder.v:21-51 | since reset, the count is the C position of all but the last two samples, folded round its middle value |
| Quadrature.PositionIsDisplacement | encoder_pwm_on_cpu/encoder_reader.c:26-40 | the position is the true net displacement of every single-step motion |
| Quadrature.TableMeaning | encoder_pwm_on_cpu/encoder_reader.c:26-34 | the table counts the way round the four line states, and nothing on a double change |
| Quadrature.EveryTraceIsAMotion | encoder_pwm_on_cpu/encoder_reader.c:26-40 | every trace without double changes shows such a motion |
| Quadrature.ResidueIffEvenJumps | encoder_pwm_on_cpu/encoder_reader.c:26-40 | position and line state agree mod 4 iff an even number of double changes was missed |
| Quadrature.CountWithoutWrap | ICO_HW_Design/Encoder.v:35-44 | starting in the middle, no wrap iff displacement is within half the range |
| Quadrature.CountIsDisplacement | ICO_HW_Design/Encoder.v:35-44 | the count relative to the middle is the true displacement |
| Quadrature.EdgeDecoder.Clock | Unselected Hardware/edge_q_decoder.v:12-45 | the position is the sum, since reset and in 32 bits, of signed edges of all but the last two samples |
| Quadrature.EdgeDecoderNegatesTable | Unselected Hardware/edge_q_decoder.v:26-43 | on every trace, edge detector and lookup table are negatives throughout iff no edge is double or crowded |
| Quadrature.EdgeDrift | Unselected Hardware/edge_q_decoder.v:36-43 | on every trace, how far the edge detector is from the negated lookup table: crowded edges count the wrong way, double ones along line A only |
| Quadrature.SlowStepsAgree | Unselected Hardware/edge_q_decoder.v:12-45 | steps two clocks apart give the negated true displacement, three clocks late |
| Quadrature.CrowdedStepsDisagree | Unselected Hardware/edge_q_decoder.v:36-43 | a crowded trace on which they differ |
| Quadrature.JumpsDisagree | Unselected Hardware/edge_q_decoder.v:36-43 | a double change, not crowded, on which they differ |
| PidFilter.Controller.CalculateSubmodel | esl_lab_full_app/yaw_model/src/yaw_xxsubmod.c:89-102 | one control step extends the recurrence by one error and returns the point of [minimum, maximum] nearest to uI + uD |
| PidFilter.Controller.InitializeSubmodel | esl_lab_full_app/yaw_model/src/yaw_xxsubmod.c:62-86 | a run starts from zero states with one error |
| PidFilter.Controller.CalculateDynamic | esl_lab_full_app/yaw_model/src/yaw_xxmodel.c:189-233 | the new rates and the limited output |
| PidFilter.Controller.DiscreteStep | esl_lab_full_app/yaw_model/src/yaw_xxinteg.c:60-77 | the rates move into the states before new rates are computed |
| PidFilter.BackwardEuler | esl_lab_full_app/yaw_model/src/yaw_xxmodel.c:191-210 | each step is the backward difference form of a filtered derivative action and the integral of its output |
| PidFilter.DerivativeStaysBounded | esl_lab_full_app/yaw_model/src/yaw_xxmodel.c:191-207 | errors within E keep the action within kp*(2*tauD+h)/h*E at every step of every run |
| PidFilter.GeneratedBounds | esl_lab_full_app/yaw_model/src/yaw_xxmodel.c:109-121 | with the generated gains the bound is 28.6 E for yaw and 17.6 E for pitch |
| PidFilter.ConstantErrorConverges | esl_lab_full_app/pitch_model/src/pitch_xxmodel.c:193-212 | under a constant error the gap to kp*error shrinks by exactly the factor a at every step, where a * (h + tauD*beta) == tauD*beta |
| PidFilter.DecayFactor | esl_lab_full_app/pitch_model/src/pitch_xxmodel.c:193-212 | that factor exists and lies in [0, 1) |
| PidFilter.GeneratedFactors | esl_lab_full_app/yaw_model/src/yaw_xxmodel.c:109-121 | with the generated gains the factor is 17/37 for yaw and 1/201 for pitch, and both outputs limit to 0.99 |
| PidFilter.IntegralIsScaledSum | esl_lab_full_app/yaw_model/src/yaw_xxmodel.c:209-210 | the integral part is h/tauI times the sum of all actions |
| DrivePath.Encode | esl_lab_full_app/app/src/main.c:206-214 | the word is the midpoint plus or minus floor(abs(u)*scale), in range |
| DrivePath.Generator.Clock | ICO_HW_Design/pwm_module.v:45-81 | all registers take the next-state values together |
| DrivePath.DutyExact | ICO_HW_Design/pwm_module.v:29-81 | for every word, any full period after the pipeline fills is high exactly the distance from the midpoint, the whole period for words of MAX_COUNT and more, and the direction pins tell the side of the midpoint |
| DrivePath.ResetSilences | ICO_HW_Design/pwm_module.v:29-70 | after every clock with reset high, whatever came before, output and direction pins are low and the duty register is at the midpoint |
| DrivePath.HeldResetIsSilent | ICO_HW_Design/pwm_module.v:59-70 | no pin is high on any clock of a held reset |
| DrivePath.ReleaseFromReset | ICO_HW_Design/pwm_module.v:29-81 | after release: one high clock with both direction pins low, one low clock, then the exact duty |
| DrivePath.DriveEndToEnd | ICO_HW_Design/pwm_module.v:29-81 | from u to the pins: duty count and direction pins |
| DrivePath.ControllerToPins | esl_lab_full_app/app/include/hw_interface.h:33-35 | for the controller after any run of errors: duty count, and direction pins that follow the sign of the unlimited output |
| UdpFrames.Sender.SendLarge | esl_lab_full_app/Image_Processor/src/udp_server.c:67-96 | the packets sent, in order, and the next frame id |
| UdpFrames.PacketRoundTrip | debug_video_master.py:37-38 | unpacking a packet gives back its header and payload |
| UdpFrames.WireFormat | esl_lab_full_app/Image_Processor/src/udp_server.c:76-89 | the bytes on the wire, field by field |
| UdpFrames.PacketSizes | esl_lab_full_app/Image_Processor/src/udp_server.c:73-89 | every packet but the last is 1400 bytes, and which bytes of the buffer each carries |
| UdpFrames.Assembler.AssembleFrame | debug_video_master.py:36-51 | dictionaries and outcome of one packet, raising included |
| UdpRoundTrip.OnePacket | debug_video_master.py:36-51 | what any message does, malformed and wrongly numbered ones included: shown exactly when the numbers held are 0 to total - 1, raising exactly when they are as many but others |
| UdpRoundTrip.ExactlyOnceIffLegal | debug_video_master.py:36-51 | for every trace of packets sent: each complete frame is shown exactly once and leaves no entry iff duplicates come only before completion |
| UdpRoundTrip.ExactlyOnceIff | debug_video_master.py:36-51 | the same frame by frame: shown once and forgotten iff all its chunks arrived and none of its packets was late |
| UdpRoundTrip.EveryTrace | debug_video_master.py:36-51 | for every trace, late packets included: only original frames are shown, once per complete gathering, and the dictionaries hold exactly the chunks pending |
| UdpRoundTrip.FramesArriveIntact | debug_video_master.py:36-51 | under any legal arrival order each frame is shown exactly once, intact, and leaves no entry |
| UdpRoundTrip.RoundTripIff | esl_lab_full_app/Image_Processor/src/udp_server.c:73-93 | a buffer sent in order comes out whole iff it needs 1 to 65535 chunks |
| UdpRoundTrip.OversizeIsTruncated | esl_lab_full_app/Image_Processor/src/udp_server.c:73-75 | a larger buffer travels as its prefix |
| UdpRoundTrip.LateDuplicate | debug_video_master.py:40-51 | for every frame and chunk: one packet repeated after completion shows the frame twice or leaves an entry behind |
| UdpRoundTrip.OrderedOutcome | esl_lab_full_app/Image_Processor/src/udp_server.c:73-93 | what any buffer sent in order comes out as, the 16-bit wrap included |
| UdpRoundTrip.EmptyAndOversize | esl_lab_full_app/Image_Processor/src/udp_server.c:73-75 | buffers that are never shown, and one cut to its first chunk |
| Pareto.IsParetoEfficient | Design Space exploration/plot_vairants.py:20-27 | for every matrix, NaN included, the rows that exceed every pivot somewhere; without columns that mix NaN and numbers, exactly the points no point dominates and no earlier point equals |
| Pareto.SurvivesIffUnbeaten | Design Space exploration/plot_vairants.py:25-25 | the definition in terms of the sweep's covering test |
| Pareto.KeptIffSurvives | Design Space exploration/plot_vairants.py:23-26 | the sweep's result against the declarative definition |
| Pareto.MixedNaNDisagrees | Design Space exploration/plot_vairants.py:25-25 | a matrix with NaN in only some rows on which they differ |

## Left out

- Colour conversion and thresholding, the centre-of-mass average, camera geometry, encoder-to-radian conversion: single expressions over a finite domain or transcendental.
- GStreamer, sockets, spidev, memory mapping, GPIO, plotting, profiling, priorities: I/O; samples, packets and frames are sequences here.
- PidFilter.Controller.CalculateDynamic: over the reals, without float rounding; the pitch controller is the same recurrence with the pitch gains, and the correction terms of both, whose gain is 0, are dropped.
- DrivePath.Encode: over the reals, without float rounding.
- SpscQueue.Ring.Publish: whole calls are atomic, because the producer calls the consumer's operation and the single-consumer discipline does not hold under finer interleaving.
- SpscInterleaving.StepPreserves: the acquire and release pairs are taken as giving sequentially consistent steps; weaker memory orders are not modelled.
- SpiFrame.FullDuplexFrame: metastability is not modelled; PICO is the value at the first system clock that sees the clock high.
- FloatMul.MulFields: normal operands only; NaN, infinite, zero and denormal operands, the divider and the flag selection of the top module are left out.
- FloatAdd.SubFields: normal operands only, likewise.
- UdpFrames.Sender.SendLarge: the sender copies integers in host order, taken as little-endian like the viewer's format.
- Pareto.KeptIffSurvives: one direction only in the columns: it assumes that no column mixes NaN and numbers, as normalising complete scores never does; MixedNaNDisagrees shows why, and what the sweep keeps in general is in the contract of IsParetoEfficient.
- The shutdown path of the image threads, which unlocks a mutex it does not hold, and the command switch of the main program.
- Unknown (x) values of Verilog registers.
- `spi_slave_64bit.v`, `spi_slave.v`, `triangular_pwm.v`, `edge_pwm.v`: variants of the parts modelled.

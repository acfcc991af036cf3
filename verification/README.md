# TW68xx capture: DMA programs, buffer queue and picture geometry

The driver captures video by writing small programs for the DMA processor of the TW68xx chip. Each
capture buffer has a program that says, for every line of one or two fields, at which bus addresses
its bytes are stored; the buffer's memory is a scatter-gather list, so lines are split where segments
end. The programs of the active buffers are chained by jumps, the last one leading to a *stopper* that
only waits. An interrupt at the end of a program wakes the waiting application, a timer covers the
case that no interrupt comes. Format negotiation and the scaler decide what the programs look like.

The model follows the driver's files:

- `Words`, `ScatterList`: 32-bit words with the C operators on them, scatter-gather lists and logical
  byte positions.
- `RiscCode`, `RiscProgram`, `RiscShape`, `RiscSize`, `RiscCompiler`: instruction words, the DMA
  processor, what a field has to deliver, the program compiled for it and its meaning, the length of
  programs against the allocated estimate, and the compiler itself as loops over an array.
- `Frames`, `Formats`: how fields fill a picture; pixel formats and the DMA control register.
- `QueueModel`, `QueueInvariant`, `QueueRuns`, `QueuePrograms`: the queue, the timer and the engine as a
  state machine with one step for each driver routine and engine event; its invariant; all runs; the
  chain of programs.
- `QueueEvents`, `QueueScaler`, `QueueLosses`: interrupts, the timer and suspend; which buffers of a chain the
  scaler is set up for; buffers that are not captured, or are captured and given back as failed.
- `Buffers`, `QueueDriver`: buffers and the queue as objects. Each routine is proved to do the state
  machine's step, to keep its invariant whenever the step is possible, and to keep the programs of all
  buffers.
- `Norms`, `Negotiation`, `Scaler`, `Budget`, `Resources`, `Prepare`: television norms and cropping,
  format ioctls, scale factors and their registers, the 4 MB budget, exclusive resources, buffer
  preparation.
- EndToEnd: from a negotiated format to the bytes in memory, and from a submission to DONE.

A proof of a whole routine rests on a few assumptions about its surroundings. Every driver routine and
every engine event is one atomic step (the interrupt status is read outside the lock at tw68-core.c:548,
and stream start requeues without it at tw68-video.c:1900). The engine reads the jump behind a program
when it gets there. Instruction words mean what the disabled decoder at tw68-risc.c:188-220 shows. The
list that the buffer layer supplies covers the buffer and is made of pages: only its first and last
segment may be shorter than a page. Allocating program memory succeeds with the size asked for.

## Where the code falls short

Each of these is proved, with the exact condition.

- The comment at tw68-risc.c:156-160 calls the size estimate a worst case. For two sequential fields it
  is one instruction short exactly on the lists of `RiscSize.SequentialOverflows`. Format negotiation
  never chooses these field types.
- `sg` moves on before its length is added (tw68-risc.c:96-98), so the Start field of the third and later
  fragments of a line is right only for segments of equal length (`RiscShape.StartsExactIff`). Lists of
  pages never need a third fragment.
- Interlaced pictures may be negotiated with an odd height, whose last row is never written
  (`Frames.FilledIff`, `Negotiation.OddInterlacedAccepted`).
- For interlaced heights up to 37 lines in 625 line norms the vertical scale factor does not fit its
  register (`Scaler.NegotiatedScaleFits`, `Scaler.ScaleFactorLost`).
- With a crop rectangle narrower than 12 or lower than 4 (interlaced: 2), what negotiation accepts,
  buffer preparation refuses (`Negotiation.NegotiatedIsPreparable`, `Negotiation.NarrowCropRefused`).
- Chained buffers are not compared by field. The scaler depends only on whether a buffer has both fields,
  so it is set up wrongly for a buffer that joins a chain exactly if that differs
  (`QueueScaler.JoiningAgreesIff`, `QueueScaler.MovedAgreeIff`, `QueueScaler.MixedFieldsDisagree`).
- A buffer may be linked behind the last active one after the engine has already left for the stopper;
  it is captured without a restart if and only if the engine has not (`QueueLosses.JoiningIsCapturedIff`,
  `QueueLosses.StalledNeverDone`).
- Interrupts coalesce, so a timeout can fail buffers that were captured
  (`QueueLosses.CapturedButFailedIff`, `QueueLosses.CapturedAndFailed`).
- For 525 line norms the default crop rectangle is one line taller than the bounds
  (`Norms.DefrectInside`).
- A handle that holds some but not all of the bits it asks for is told that it has them
  (`Resources.GrantedMeansHeld`); the driver's calls ask for one bit at a time.

## Model

| member | source | states |
|---|---|---|
| `RiscCode.DecodeEncode` | tw68-risc.c:188-220 | a word written by the compiler decodes to the opcode, flags, Start and Count meant, if and only if these fit their bit fields (no overlap of fields) |
| `RiscCode.EncodeIsSum` | tw68-reg.h:169-174 | an encoded word is the sum of its fields at bits 28, 27, 24, 12 and 0, with bit 31 set |
| `RiscProgram.FieldSpec` | tw68-risc.c:60-63 | what a field must deliver: byte j of line i is stored at the bus address of logical position start + i*(bpl+padding) + j |
| `RiscProgram.FieldMeaning` | tw68-risc.c:60-116 | compiler correctness: for every list of non-empty segments that covers the field, running the field's program by address and count delivers exactly the field of FieldSpec, in order, after whatever was captured before |
| `RiscProgram.LineMeaning` | tw68-risc.c:68-108 | the instructions of one line, whole or split over any number of segments, store exactly its bytes |
| `RiscProgram.TailMeaning` | tw68-risc.c:91-106 | the INLINE fragments behind the first one store the rest of the line, segment by segment |
| `RiscShape.LineShape` | tw68-risc.c:68-107 | the exact instructions of a line: opcode, type, Start, Count and address of every fragment, one fragment for each segment touched |
| `RiscShape.StartsExactIff` | tw68-risc.c:91-99 | the INLINE Start fields of a line count the bytes already transferred if and only if all segments after the line's first one have the same length |
| `RiscShape.LineRepresentableIff` | tw68-risc.c:92-103 | the words of a line decode to its instructions if and only if its Start values fit twelve bits |
| `RiscShape.ShortLine` | tw68-risc.c:68-107 | when interior segments are at least a line long, a line has at most two fragments, exact Start fields, and words that decode to the intended instructions |
| `RiscShape.FieldImageMeaning` | tw68-risc.c:52-116 | on such lists the program words of a field, as the hardware decodes them, deliver the field |
| `RiscShape.ShortSegmentsBreakTheLine` | tw68-risc.c:96-104 | concrete list with short segments: the Start value of the last fragment overflows its field and its word decodes to a JUMP |
| `RiscCompiler.Seek` | tw68-risc.c:64-67 | the seek loop ends inside the segment that holds the line's first byte, at the same logical position, and never runs past the list |
| `RiscCompiler.Fragments` | tw68-risc.c:90-107 | the fragment loops write the specified fragments and end with 0 < todo <= length of the current segment, so the final fragment is always written |
| `RiscCompiler.SplitLine` | tw68-risc.c:74-108 | a split line is written as specified, and nothing else in memory changes |
| `RiscCompiler.CompileLine` | tw68-risc.c:62-109 | one round of the line loop writes the specified line and leaves the cursor at the line's end |
| `RiscCompiler.RiscField` | tw68-risc.c:44-116 | the compiler writes exactly the specified program (whose meaning is FieldMeaning) at the given place and leaves all other words unchanged |
| `RiscCompiler.RiscBuffer` | tw68-risc.c:138-182 | for every list that holds the layout: the memory has the estimated size, the odd field's program and then the even field's are written from its beginning (beyond its end if they are longer), jmp is just behind them, and the BUG_ON fires exactly if program and jump do not fit |
| `RiscCompiler.Instructions` | tw68-risc.c:149-162 | the number of instructions allocated is the estimate of the layout |
| `RiscCompiler.WriteFields` | tw68-risc.c:167-178 | the two compiler calls write the program of the layout, odd field first |
| `RiscCompiler.RiscStopper` | tw68-risc.c:251-268 | writes the stopper program |
| `QueuePrograms.StopperLoops` | tw68-risc.c:239-268 | the stopper's words decode to a wait for the next odd field and a jump to the stopper itself |
| `RiscSize.LinesLength` | tw68-risc.c:156-163 | a field needs one instruction for each line and at most one more for each segment border between its first and last byte |
| `RiscSize.InterleavedLength` | tw68-risc.c:156-163 | two interleaved fields together need at most one more instruction for each border of the frame |
| `RiscSize.SingleFieldFits` | tw68-risc.c:161-180 | a single field on any list of pages (first and last segment of any length) fits the estimate: the BUG_ON never fires |
| `RiscSize.InterlacedFits` | tw68-risc.c:161-180 | the same for an interlaced frame |
| `RiscSize.SequentialOverflows` | tw68-risc.c:156-180 | two sequential fields overflow the estimate if and only if, with q whole pages in a field, 2q+2 segment borders lie in the frame and each of them splits a line; otherwise they fit |
| `Frames.SequentialEstimateShort` | tw68-risc.c:156-180 | concrete list (first segment 100 bytes, 32 lines of 96 bytes in each field) that needs 69 instructions and is given 68 |
| `Frames.Tiling` | tw68-video.c:785-823 | for every field type: a byte of a field is written to position x if and only if x lies in the picture's rows and belongs to that byte; so each byte is written once, by one field, and nothing outside is written |
| `Frames.FirstField` | tw68-video.c:785-820 | the odd field begins TOP, INTERLACED and SEQ_TB pictures, the even one BOTTOM and SEQ_BT pictures; the other field begins in the second row, or in the second half |
| `Frames.FilledIff` | tw68-video.c:800-820 | the rows that the fields fill are the whole picture if and only if it has one field or an even height |
| `Frames.PictureFits` | tw68-video.c:785-823 | a list that holds bpl*height bytes holds all lines of the layout chosen for the field type (the compiler's cursor never leaves the list) |
| `Frames.PictureOverflows` | tw68-risc.c:179-180 | for every field type, the overflow check fires exactly on the lists of SequentialOverflows, and never for one field or an interlaced frame |
| `Frames.BufferMeaning` | tw68-risc.c:167-175 | the program of a buffer captures the fields of its layout, odd field first |
| `Frames.PictureDelivered` | tw68-risc.c:167-175 | every byte of the picture's rows is stored at the bus address of its position, from the line and field that belong there |
| `Frames.NothingElseStored` | tw68-risc.c:167-175 | every byte captured lies in the picture's rows, at the position where it belongs |
| `Formats.DmacStartIs` | tw68.h:462-464 | start_dma replaces the low byte of the DMA control register and keeps the others |
| `Formats.FormatReadsBack` | tw68-video.c:659-661 | for each of the ten formats the byte written is the format, gamma and both enables, without overlap, and the format can be read back from it |
| `Formats.TableConsistent` | tw68-video.c:63-116 | every entry of the format table has the depth that the chip sends for its register value, and no two entries share a code or a register value |
| `Formats.FifoOffAndOn` | tw68-video.c:2221-2226 | clearing the FIFO bit of the DMA control register and setting what it was restores the register |
| `QueueDriver.VideoQueue.constructor` | tw68-video.c:2118-2127 | the queue starts empty, with no timer, in an initial state of the model |
| `QueueDriver.VideoQueue.CheckVideoFmt` | tw68-video.c:677-682 | true exactly for equal width, height and format; the field is not compared |
| `QueueDriver.VideoQueue.StartDma` | tw68-video.c:639-665 | the input asked for is selected, the scaler's registers hold what set_scale computes for the buffer, with sampling from the chip's own horizontal delay plus the left edge of the bounds and from the norm's vertical delay moved by the distance of bounds and default rectangle; the engine is set to the program, pending status is cleared, the register byte is the format's, the engine runs |
| `QueueDriver.VideoQueue.BufferActivate` | tw68-video.c:702-716 | the buffer is active, the timer armed and the input asked for selected |
| `QueueDriver.VideoQueue.BufferQueue` | tw68-core.c:263-319 | the objects and lists after the call are those of the model's BufferQueue step: jump to the stopper appended, then queued, started, or linked to the last active buffer; the buffer comes behind all others; the invariant and all programs are kept; the scaler is set up for the buffer if it was started, and else untouched; the input is selected if the buffer became active, and else untouched |
| `QueueDriver.VideoQueue.BufferRequeue` | tw68-core.c:165-206 | the requeue loop does the model's Requeue step: restart the first active buffer, or move the longest compatible run of queued buffers, chained in order; the order of the buffers, the invariant and all programs are kept; the scaler is set up for the first active buffer |
| `QueueDriver.VideoQueue.Wakeup` | tw68-core.c:235-256 | the model's Wakeup step, and the first active buffer itself becomes DONE with the current field count |
| `QueueDriver.VideoQueue.IrqVideoDone` | tw68-video.c:2161-2226 | with DMAPI the model's interrupt step: pending status acknowledged in every case, then wakeup; the FIFO overflow branch leaves the device as it was; the invariant is kept |
| `QueueDriver.VideoQueue.BufferTimeout` | tw68-core.c:329-351 | the model's Timeout step; every buffer that was active is in state ERROR, the queued ones keep their order and programs; the invariant is kept; the scaler is set up for the first active buffer |
| `QueueDriver.VideoQueue.SuspendQueue` | tw68-core.c:967-980 | the model's suspend step: timer deleted, engine off, both enables cleared in the DMA control register and its other bits kept; the invariant is kept |
| `QueueDriver.VideoQueue.ResumeQueue` | tw68-core.c:1033-1045 | the model's resume step, which keeps the invariant, order and programs; the scaler is set up for the first active buffer |
| `QueueDriver.VideoQueue.EngineDone` | tw68-core.c:273-275 | the engine's step on the jump words in memory is the model's, and keeps the invariant |
| `QueueDriver.VideoQueue.SubmitEnabledIff` | tw68-core.c:263-275 | a buffer in neither list may be submitted exactly if the driver is not suspended and its program has an address of its own |
| `QueueDriver.VideoQueue.PreparedMaySubmit` | tw68-video.c:780-823 | with programs at different addresses, as buffer_prepare keeps them, every prepared buffer outside the lists may be submitted |
| `QueueDriver.RunExtends` | tw68-core.c:193-203 | the loop moves one more buffer exactly if it is compatible with the one moved before |
| `QueueInvariant.CompatRunAgrees` | tw68-core.c:193-197 | all buffers that a requeue moves share the geometry and format of the first |
| `QueueInvariant.CompatRunMaximal` | tw68-core.c:193-203 | the move stops only at the end of the list or at an incompatible buffer |
| `QueueInvariant.RequeueRestores` | tw68-core.c:165-206 | requeueing re-establishes the whole invariant from lists in order alone |
| `QueueInvariant.HeadCompleted` | tw68-video.c:2166-2182 | with an interrupt pending and a buffer active, the engine has finished the first active buffer's program since it was submitted |
| `QueueInvariant.StepKeeps` | tw68-core.c:165-351 | the combined invariant (lists, jump words, timer, engine position, pending bit, history) is kept by every step: submission, engine completion, interrupt, timeout, stream start, suspend, resume |
| `QueueRuns.RunInv` | tw68-core.c:165-351 | it holds in every state of every run |
| `QueueRuns.DoneOnlyAfterCapture` | tw68-core.c:235-256 | over every interleaving, a submission comes back DONE only if at an earlier step the running engine reached the end of its program while it was active |
| `QueueRuns.FirstInFirstOut` | tw68-core.c:165-351 | the submissions are always those given back, then those active, then those queued, in that order: none lost, duplicated or overtaken |
| `QueueRuns.HistoryGrows` | tw68-core.c:235-256 | what was submitted or given back stays so |
| `QueueRuns.WakeupNeverStrands` | tw68-core.c:241-246 | the branch of wakeup that deletes the timer is never taken while buffers are queued |
| `QueueRuns.TimeoutAhead` | tw68-core.c:283-349 | outside suspend, the timeout is armed in every reachable state with a buffer waiting |
| `QueueRuns.WorkStep` | tw68-core.c:180-205 | 2*|queued| + |active| never grows without submissions and falls at every effective wakeup or timeout |
| `QueueRuns.EverythingComesBack` | tw68-core.c:329-351 | progress: after that many effective events all submissions are back, DONE or ERROR, in order |
| `QueueRuns.RunNumbered` | tw68-core.c:247-252 | DONE buffers carry consecutive field counts (modulo 2^32) in every run |
| `QueueEvents.InterruptAcknowledged` | tw68-video.c:2165-2166 | serving an interrupt acknowledges it in every state, whether or not a buffer is active |
| `QueueEvents.InterruptsAlternate` | tw68-video.c:2165-2182 | between any two interrupts of a run the engine has finished a program and raised the second one |
| `QueueEvents.TimerAfter` | tw68-core.c:165-351 | exactly when the timeout is armed after each kind of step: deleted by an interrupt or timeout that finds nothing to do and by a suspend, armed by every submission and by whatever leaves or puts a buffer to work |
| `QueueEvents.OnlyResume` | tw68-core.c:963-992 | in every reachable suspended state nothing can happen but a resume |
| `QueueEvents.SuspendedIsQuiet` | tw68-core.c:970-980 | over all runs, the driver is suspended exactly directly behind a suspend; then no timer runs, the engine and its interrupt are off, both enables in the DMA control register are cleared and its other bits are those from before |
| `QueuePrograms.LedgerStep` | tw68-core.c:165-351 | no step changes a buffer's program, address, geometry or field, nor the order of submissions |
| `QueuePrograms.DoneMeansProgramRan` | tw68-core.c:235-256 | a DONE buffer still has the very program that the engine finished |
| `QueuePrograms.ChainWalk` | tw68-core.c:273-308 | in every reachable state the jumps from the first active buffer visit exactly the active buffers, in list order, once each, and then stay in the stopper |
| `QueueScaler.SameSetupIff` | tw68-video.c:573-603 | for every norm and size that buffer_prepare accepts, two field types get the same scaler setting if and only if they agree on having both fields |
| `QueueScaler.SameRegistersIff` | tw68-video.c:573-632 | what reaches the registers is the same if and only if that holds, or the picture has 18 lines in a 625 line norm, where both vertical factors are cut to 0 |
| `QueueScaler.JoiningAgreesIff` | tw68-video.c:677-682 | a compatible buffer that joins a running chain is captured with its own scaler setting if and only if it has both fields exactly when the buffer has that the engine was started for |
| `QueueScaler.MovedAgreeIff` | tw68-core.c:185-204 | the same for all buffers that a requeue moves together |
| `QueueScaler.RunScalerAgrees` | tw68-video.c:648-649 | if all submissions agree on having both fields, the scaler has the setting of every active buffer in every reachable state |
| `QueueScaler.MixedFieldsDisagree` | tw68-core.c:296-308 | a run: an INTERLACED buffer joins a TOP one of the same size and does not get its own setting |
| `QueueLosses.StalledNeverDone` | tw68-core.c:296-308 | once the engine is in the stopper with buffers waiting, it finishes nothing until the next start_dma, and of the submissions it had not run, those given back by then are all ERROR |
| `QueueLosses.JoiningIsCapturedIff` | tw68-core.c:302-308 | a buffer linked to the last active one can still be captured without a restart if and only if the engine is not in the stopper at that moment |
| `QueueLosses.CapturedButFailedIff` | tw68-core.c:339-347 | over all runs: a submission whose program the engine ran comes back ERROR exactly if a timeout found it among the captured active buffers, which are the first ones by a count of completions and wakeups |
| `QueueLosses.CapturedAndFailed` | tw68-core.c:339-347 | a run: two buffers captured, one interrupt, then the timeout: the first is DONE and the second ERROR |
| `Norms.TableGeometry` | tw68-video.c:119-343 | for all norms of the table: both rectangles begin on the norm's first line and column, the default one ends on its last ones, the bounds end with line 262 or 312; 720 columns, field heights 288, 240 or 239, at most one line less than the default rectangle |
| `Norms.DefrectInside` | tw68-video.c:502-515 | the default rectangle lies inside the bounds exactly for the 625 line norms |
| `Norms.ClampSpanIs` | tw68-video.c:1830-1842 | a clamped span is inside, equals the request exactly if that was inside, starts at the position inside nearest to the one asked for, and is the longest one from there |
| `Norms.ClampRectIs` | tw68-video.c:1830-1842 | the same for rectangles, corner and size; clamping twice changes nothing |
| `Norms.Decoder.SetTvnorm` | tw68-video.c:497-515 | the rectangles become those of the norm |
| `Norms.Decoder.SetCrop` | tw68-video.c:1814-1849 | which requests are refused, with which error and without effect; all others set the clamped rectangle, which is inside the bounds |
| `Negotiation.FormatFound` | tw68-video.c:432-440 | the table lookup returns an entry with the code asked for, or there is none |
| `Negotiation.PreparableIs` | tw68-video.c:741-744 | the dimensions that buffer_prepare accepts under each norm: 48 to 720 columns, 16 lines to the frame of the default rectangle (576, 482 or 480) |
| `Negotiation.NegotiatedIsPreparable` | tw68-video.c:1338-1366 | a negotiated picture passes the dimension check of buffer_prepare under the same norm if and only if the crop rectangle is at least 12 wide and 4 (for both fields 2) high |
| `Negotiation.NarrowCropRefused` | tw68-video.c:1338-1366 | with a crop rectangle 8 wide a 32 wide picture is negotiated, which buffer_prepare refuses |
| `Negotiation.NegotiateTwice` | tw68-video.c:1323-1373 | negotiation is idempotent on its results |
| `Negotiation.NegotiatedSizes` | tw68-video.c:1366-1370 | lines are whole bytes, at most 2880; the size is exactly bpl*height = width*height*depth/8, at most 1658880 |
| `Negotiation.RefusedIff` | tw68-video.c:1333-1353 | a request is refused, with EINVAL, exactly for an unknown format or another field type |
| `Negotiation.GrantedField` | tw68-video.c:1337-1355 | a stated field is kept; without one the picture is interlaced exactly if it is taller than half a field, and else the bottom field |
| `Negotiation.AnyKeepsHeightIff` | tw68-video.c:1341-1364 | without a stated field, exactly which heights are kept: up to both fields, and from 32 or all lines of the fields chosen |
| `Negotiation.GrantedIsNearest` | tw68-video.c:1358-1366 | the picture granted fits; its height is the nearest that fits, its width the largest that fits and is not above the request, or the smallest that fits if there is none |
| `Negotiation.OutsideGetsNearestWidth` | tw68-video.c:1358-1366 | a width outside the limits becomes the nearest one that fits |
| `Negotiation.FittingIsGranted` | tw68-video.c:1338-1366 | a request is granted as it was put if and only if its format is known and it fits the limits |
| `Negotiation.OddInterlacedAccepted` | tw68-video.c:1349-1366 | an odd height is accepted for interlaced pictures |
| `Negotiation.PixFormat.TryFormat` | tw68-video.c:1323-1373 | the argument becomes the negotiated picture; a refused request changes nothing |
| `Negotiation.FileHandle.SetFormat` | tw68-video.c:1381-1404 | the handle gets the negotiated picture; a refused request changes neither handle nor argument |
| `Scaler.ScalerExact` | tw68-video.c:598-603 | exactly how many samples a scale factor delivers: never fewer than wanted |
| `Scaler.ScalerAccuracy` | tw68-video.c:598-603 | when shrinking, at most (wanted-1)/256 samples too many |
| `Scaler.TableAccuracy` | tw68-video.c:598-603 | lines of 720: at most 2 too many; fields of 288: at most 1; fields of 240 or 239: exact |
| `Scaler.TableAccuracyTight` | tw68-video.c:598-603 | both bounds are reached |
| `Scaler.CropHiIs` | tw68-video.c:614-617 | CROP_HI holds bits 8 and 9 of the four crop values side by side |
| `Scaler.ScaleHiIs` | tw68-video.c:627-627 | SCALE_HI holds bits 8 to 11 of both scale factors |
| `Scaler.Registers.SetScale` | tw68-video.c:564-635 | the values read back from the eight registers are those computed, modulo 2^10 and 2^12: the chip's horizontal delay plus the left edge of the bounds, the norm's vertical delay moved by the distance of bounds and default rectangle, the size of the bounds, and the two quotients for the width and the lines of one field |
| `Scaler.ChipDelays` | tw68-video.c:587-600 | for every norm the delays programmed; on the TW6800 sampling starts 130 columns later, PAL-60 apart, whose entry lacks that chip's delay |
| `Scaler.RegistersHold` | tw68-video.c:614-632 | for every norm and width >= 48 the registers hold all values exactly if the field is less than 16 times as tall as the picture's |
| `Scaler.NegotiatedScaleFits` | tw68-video.c:603-632 | with the default crop, the only negotiated pictures whose factor does not fit are interlaced ones of 625 line norms with at most 37 lines |
| `Scaler.ScaleFactorLost` | tw68-video.c:603-632 | for 36 interlaced lines the vertical factor that reaches the register is 0 |
| `EndToEnd.ScalerFeedsPicture` | tw68-video.c:598-632 | from the register contents: lines of at least the wanted width and at most 2 more, fields of at least the wanted height and at most 1 more |
| `Budget.PagesCover` | tw68-core.c:209-215 | the page count covers the buffer at every misalignment, is at most one too many, and is reached exactly unless the size is one byte above whole pages |
| `Budget.BufferCountLargest` | tw68-core.c:219-227 | the count is the largest one up to the request whose pages fit 1024 |
| `Budget.BufferSetup` | tw68-video.c:689-700 | size and largest count for the handle's format, with the module option for a request of none |
| `Budget.RoomForTwo` | tw68-video.c:689-700 | every negotiated picture leaves room for two buffers |
| `Resources.GetKeeps` | tw68-video.c:445-466 | res_get keeps exclusiveness for any bits, and a refused one changes nothing |
| `Resources.GrantedMeansHeld` | tw68-video.c:445-466 | a granted handle holds all bits asked for exactly if it held none or all before; no other handle has any of its bits |
| `Resources.OneBitGrantedIff` | tw68-video.c:445-466 | one bit is granted exactly if no other handle holds it; then the handle has it besides what it had and nothing else changes |
| `Resources.FreeExactIff` | tw68-video.c:478-490 | freeing keeps the record right if and only if the handle holds the bits: what the BUG_ON demands |
| `Resources.CloseKeeps` | tw68-video.c:1223-1242 | releasing a handle keeps exclusiveness |
| `Resources.CloseFrees` | tw68-video.c:1223-1242 | after a release the handle is gone, what it held is free and the other handles are as before |
| `Resources.RunExclusive` | tw68-video.c:445-490 | over any number of handles and any sequence of open, get, free and release the handles' resources are disjoint and their union is the device's |
| `Resources.Device.ResGet` | tw68-video.c:445-466 | answer and new state as specified |
| `Resources.Device.ResFree` | tw68-video.c:478-490 | BUG exactly if a bit is not held; otherwise the bits are free |
| `Resources.Device.OpenHandle` | tw68-video.c:1110-1118 | a new handle holds nothing |
| `Resources.Device.Release` | tw68-video.c:1223-1242 | the handle and its video and vbi resources are given up, all others kept; no BUG |
| `Prepare.BufferPrepare` | tw68-video.c:729-836 | which calls are refused, and that these change nothing but the size, which is stored before the second check; when the kernel stops; otherwise the buffer is prepared with the handle's picture; the program is always the one for the recorded picture; it and its address are kept when nothing changed, and else the address is that of the new allocation; different programs keep different addresses |
| `Prepare.AcceptsIff` | tw68-video.c:741-752 | the dimensions aside, a call is accepted exactly if every list that may be supplied for the buffer holds the picture |
| `Prepare.Compile` | tw68-video.c:780-823 | compiles the program of the buffer's picture; BUG exactly for field types without a layout and for lists on which the estimate is short |
| `Prepare.KeptIsCoherent` | tw68-video.c:754-776 | a buffer whose program the queue routines kept satisfies the invariant of buffer_prepare again |
| `Prepare.PictureBytes` | tw68-video.c:750-781 | size and bytes per line agree for every format, and a line has 96 to 2880 bytes |
| `EndToEnd.PreparedHasProgram` | tw68-video.c:729-836 | a prepared buffer is submitted with a program that makes its picture arrive |
| `EndToEnd.ProgramMatchesScaler` | tw68-video.c:573-574 | the program of a picture has as many lines in a field as the scaler is set to |
| `EndToEnd.PictureArrives` | tw68-risc.c:138-182 | the program words of a picture fit their memory and deliver every byte of its rows to its place and nothing else, if and only if the estimate is not short |
| `EndToEnd.NegotiatedPictureArrives` | tw68-video.c:1323-1370 | every negotiated picture that passes buffer_prepare arrives, on every list of pages that holds it; it is filled completely if and only if it is not interlaced with an odd height |
| `EndToEnd.ChainCaptures` | tw68-core.c:273-308 | in every reachable state, running the chain from the first active buffer captures the picture of every active buffer, in list order, and ends in the stopper |
| `EndToEnd.DoneMeansPictureCaptured` | tw68-core.c:235-319 | a submission whose program is that of a picture comes back DONE only after the engine, after the submission and while it was active, finished a program that captures exactly that picture |
## Left out

- QueueModel.Complete: the engine is abstract below whole programs; that it follows a jump when it
  reaches it, and does not prefetch, is assumed.
- Prepare.BufferPrepare: program memory is allocated anew each time, with exactly the size asked for, and
  allocation does not fail; tw68-video.c:785-823 ignores such a failure. Memory that is kept because it is
  already large enough, and its larger size in the BUG_ON, are not modelled.
- RiscCompiler.RiscField: lines per interrupt (`lpi`) is 0, as in both calls, and words are not
  byte-swapped.
- Prepare.Compile: as for Prepare.BufferPrepare, memory kept from an earlier picture is not modelled.
- QueueScaler.RunScalerAgrees: the norm is taken to be the same when the engine is started and when a buffer
  joins; tw68-video.c:1534-1592 lets it change in between, and the scaler then keeps the old setting until
  the next start.
- QueueDriver.VideoQueue.AppendJump: the words of a buffer's program are a sequence in the buffer object
  instead of shared memory, so writing through an alias of program memory is not modelled; the compiler
  itself writes into an array.
- QueueDriver.VideoQueue.IrqVideoDone: the interrupt causes besides DMAPI and FFOF, which are only reported,
  are left out, and so is masking interrupts after ten rounds.
- QueueDriver.VideoQueue.ResumeQueue: re-initialising the chip between suspend and resume is left out.
- Budget.BufferSetup: sizes are unbounded; the sizes reached are at most 1658880 by
  `Negotiation.NegotiatedSizes`, far below the width of the driver's integers.
- Norms.Decoder.SetTvnorm: the branch at tw68-video.c:517 compares a field with the value just stored in
  it and is dead, so the hardware norm register is not modelled.
- Resources.Device.ResGet: a word of resource bits is a set of bits; the device lock is left out.
- Resources.Device.Release: stopping the streams and freeing buffers at release is left out.
- The buffer layer (videobuf) itself: iolock, mapping, wait queues, and removal of buffers from the lists
  when a stream is stopped; it is not part of this repository.
- The vbi and transport stream queues: their queue callbacks are stubs.
- Locks and memory ordering, beyond taking each routine as one atomic step.
- Controls, enumeration, tuner, audio, i2c, board tables, debug output: tables and single register writes.
- Probe, remove, memory mapping and interrupt registration: straight-line calls into the kernel.

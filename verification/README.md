# Fluepdot firmware: a verified model

The firmware drives a flipdot display: magnetic dots that keep their position without power and are moved by short
current pulses. This project models the display driver (`software/firmware/components/flipdot`), the shared framebuffer
and its dirty-bit protocol, the CRC-protected configuration store, the HTTP form of a frame and the SNMP tables, and
proves what they promise.

`dafny verify dfyconfig.toml` checks everything.

## How the model is built

- `Columns`, `Frames`, `Framebuffer`: a 16-bit column word is the set of the positions of its one bits, a frame is a
  sequence of columns, and `Framebuffer` is the C record with its array.
- `Layout`, `RenderingOptions`: where panels sit, and the options with their private copy.
- `Schedule`: the register writes and delays that the rendering functions attempt, as values (`ColumnProgram`,
  `PanelProgram`, `FrameProgram`), and `Executes`: a log of bus events is an execution of such a program, which stops at
  the first *checked* write that fails. Any write may fail at any time; a failed write latches nothing. The write that
  ends the clear pulse is unchecked in the source (flipdot.c:410) and in the model.
- `Driver`: the class `Flipdot`. Each method is proved to log an execution of the matching program.
- `Device`: the panels behind the registers. A device has latched registers, one shift register of two stages per column
  for each panel, and dots. `Step` is a relation: a pulse may move any subset of the dots it addresses at any time, and
  has moved all of them once it was held for `minHold` microseconds, an arbitrary constant of the device. A delay may
  take longer than asked for.
- `DrawColumn`, `DrawPanel`, `DrawFrame`: what a program does to a device, for every behaviour of the device and every
  placement of failing writes. They are stated for three fidelities: dots equal to the word (`Exact`); at least bright
  where the word is (`Bright`), which is all that holds in DIFFERENTIAL mode before the first FULL render; or nothing
  known of the dots (`Loose`), when pulses are too short or panels are missed. What is said about tokens, pulses and
  untouched columns holds for `Loose` too, with every delay and every display to start from. `Fuse` (what is
  powered at each moment), `Skipping` (which panels and columns are left out), `Counting` and `Timing` are about the same
  programs.
- `Protocol`: writers, setters and `flipdot_task` as interleaved steps, down to single columns of the copy and single
  bus events of the drawing. Time may pass between any two steps, also between two register writes of a render.
  `Quiescence`: where `flipdot_task` comes to rest.
- `Polynomials`, `Crc16`, `CrcTheory`, `SystemConfiguration`, `ConfigurationStore`: polynomials over GF(2), the checksum
  loop, and the configuration record with a NOR flash partition whose operations may fail.
- `FrameText`, `HttpApi`: the ASCII form of a frame and GET/POST of `/framebuffer` over a body that arrives in chunks.
- `SnmpTables`: get and get-next of the pixels table and of the single-index tables.

### Assumptions about the hardware

From flipdot_gpio.h:66-103, the comment at flipdot.c:360 and the shift-register chain in the driver board schematic:
a register write takes effect at once when it is latched; reset low empties all chains; a latched clock edge from 1 to 0
shifts every chain by one and feeds a token into the chains of selected panels; `clear` with the token at stage 2k
darkens column k, `rows` with the token at stage 2k+1 brightens dots of column k; driving both leaves the dots in an
unknown state. Only the configured and the short delays count towards the length of a pulse, not the time that register
writes take. Where the dots are
to follow the frame, clear and set delays must be at least `minHold` on every column and, in DIFFERENTIAL mode, the
display must show the old frame (`CanRender`), which `Protocol` proves of every render after the first completed FULL one
with such delays. The display has at most five panels; their widths sum to at most 255 where a lemma needs the partition.

### What the code does differently from what one might expect

- Row 16 passes the bounds test of the pixel functions and is row 8 (`Frames.Row16AliasesRow8`).
- Errors inside the panel loop leave the semaphore taken, so nothing is rendered and the power cannot be switched any
  more (`Protocol.StuckForever`). A driver can stay powered for ever: the row driver exactly when the failed write is the
  one that ends a row pulse, the clear driver exactly when it is the one after a clear pulse whose unchecked last write
  had failed too (`Fuse.DriverLeftOnExactlyWhen`, `Fuse.RowsCanStayOn`, `Fuse.ClearCanStayOn`). With delays that are long
  enough it has no dot left to move. A zero-width panel in the order, or one that ends beyond the frame, is such an error
  as well (`Driver.Flipdot.RenderStop`, `Protocol.StuckOnlyByFailure`).
- A drawing order need not name every panel: SNMP sets entries one by one. A render then shows the new frame only if the
  missing panels had nothing to change (`DrawFrame.RenderCorrectExactlyWhen`, `DrawFrame.IncompleteOrderFails`).
- DIFFERENTIAL is slower than FULL for some frames as soon as one column has a set delay below 2 counts
  (`Timing.NeverSlowerExactlyWhen`).
- A dirty bit that wakes `flipdot_task` while the power is off is dropped, and with it the update: the display stays
  behind the framebuffer after the power is back, until somebody sets the bit again (`Protocol.RefusalLosesUpdate`,
  `Quiescence.UpdateCanBeLost`, `Quiescence.UpdateShownExactlyWhenPowered`).
- A failed POST leaves the lines before the failure in the framebuffer without setting the dirty bit
  (`HttpApi.PostFramebuffer`). `remaining` is never decremented, so only the first line is checked against the length.
- The defaults do not replace the RS485 address and baudrate of a damaged record unless the build selects FLIPNET
  (`ConfigurationStore.RepairForgetsExactlyWhenFlipnet`), and a partition of zero bytes passes the check
  (`ConfigurationStore.BlankZerosAccepted`).
- get-next fails on partial and overlong identifiers and wraps at 2^32-1 (`SnmpTables.NextPixelExactlyWhen`,
  `SnmpTables.NextIndexExactlyWhen`); get uses a fixed width of 115 (`SnmpTables.GetAgreesWithWalkExactlyWhen`).
- The HTTP documentation allows only space, `X` and newline; the code takes any character but `X` as dark and ignores
  what follows the sixteenth line.

## Model

| member | source | states |
|---|---|---|
| DrawFrame.RenderDraws | software/firmware/components/flipdot/flipdot.c:234-433 | after all register writes of a render program, in either mode, any order and any behaviour of the device, the panels that the order reaches show the new frame and the others what they showed before; so it is up to a panel that is rejected too |
| DrawFrame.RenderShowsNewFrame | software/firmware/components/flipdot/flipdot.c:234-433 | a completed render whose order names every panel leaves the display equal to the new internal frame |
| DrawFrame.LoggedRenderShowsNewFrame | software/firmware/components/flipdot/flipdot.c:234-433 | the same, stated for the bus log that the driver's `Render` promises |
| DrawFrame.RenderCorrectExactlyWhen | software/firmware/components/flipdot/flipdot.c:277-297 | from a display showing the old frame, the new frame is shown if and only if the panels that are not reached, missing from the order or behind a rejected one, have nothing to change |
| DrawFrame.IncompleteOrderFails | software/firmware/components/flipdot/flipdot.c:277-297 | and otherwise a render that completes without any failure ends with another display than the new frame: such an execution exists |
| DrawFrame.FailedRenderIsFixed | software/firmware/components/flipdot/flipdot.c:277-297 | wherever a failing write cuts a render short, what is still driven has no dot left to move |
| DrawFrame.RenderSafeAtEveryMoment | software/firmware/components/flipdot/flipdot.c:277-433 | at every moment, also of a render cut short by a failed write, the columns drawn before the one in progress show the new word, all later ones are untouched, and every pulse meets the single token at the column in progress and drives that column's word |
| DrawFrame.PulsesAreAimed | software/firmware/components/flipdot/flipdot.c:326-433 | for every delay, zero included, every mode, order and display to start from, and every placement of failed writes: at every moment nothing is powered, or all that is powered meets the single token at one column of one panel with that column's word; clear and rows are never powered together; columns that the render has not come to are untouched |
| DrawFrame.EventsMoveAtMostOneColumn | software/firmware/components/flipdot/flipdot.c:326-433 | just as generally, no single register write or delay of a render moves a dot outside the one column that is powered |
| Fuse.FuseNeverBlown | software/firmware/components/flipdot/flipdot.c:70-77 | whatever the display shows, for every frame, mode, order, delay and placement of failed writes, no latched state powers clear and rows together |
| Fuse.UncheckedExactlyAfterClear | software/firmware/components/flipdot/flipdot.c:408-411 | the error of a register write is ignored if and only if it is the write that ends a clear pulse |
| Fuse.DriverLeftOnExactlyWhen | software/firmware/components/flipdot/flipdot.c:400-428 | after a render cut short, rows are still powered if and only if the failed write is the one that ends a row pulse, and clear if and only if it is the one after a clear pulse whose unchecked last write had failed |
| Fuse.RowsCanStayOn | software/firmware/components/flipdot/flipdot.c:415-428 | every row pulse of every render program can be the one that is never ended: the execution exists |
| Fuse.ClearCanStayOn | software/firmware/components/flipdot/flipdot.c:397-417 | so can every clear pulse, when its unchecked last write and the next write fail |
| Fuse.CompletedIsDark | software/firmware/components/flipdot/flipdot.c:234-302 | whatever the display showed and whatever unchecked write failed, a completed render leaves nothing powered |
| Devices.FixedExactlyWhen | software/firmware/components/flipdot/include/flipdot_gpio.h:88-102 | with the fuse intact, time cannot change the display if and only if every column that is driven and holds the token already has what the driver would do to it |
| Devices.CanPerform | software/firmware/components/flipdot/flipdot.c:234-433 | every program of register writes and delays can be carried out in full from every state of the device, so the results about completed renders are about something |
| DrawFrame.DifferentialRefinesFull | software/firmware/components/flipdot/flipdot.c:268-294 | from the same display, DIFFERENTIAL and FULL end with the same dots and the same count of flipped pixels, for every drawing order, also one that misses, repeats or cannot draw panels |
| DrawFrame.SameFrameFlips | software/firmware/components/flipdot/flipdot.c:268-294 | the skips at frame and panel level do not change what is added to the pixel counter |
| Skipping.SelectsExactlyChanged | software/firmware/components/flipdot/flipdot.c:268-296 | the writes of a render select a panel if and only if the drawing order comes to it before a rejected one and the mode is FULL or some column of the panel has changed |
| Skipping.LogSelectsExactlyChanged | software/firmware/components/flipdot/flipdot.c:268-296 | the same for the bus log of a completed render; a render cut short selects no other panel |
| Skipping.ClearsExactlyNeeded | software/firmware/components/flipdot/flipdot.c:381-413 | drawing a panel powers the clear driver exactly as often as it has columns that lose a dot, in FULL mode exactly once a column |
| Skipping.RowsAreTheNewWord | software/firmware/components/flipdot/flipdot.c:415-424 | a column's new word, and nothing else, is driven onto the rows, also where the pulse is cut short |
| DrawPanel.PanelDraws | software/firmware/components/flipdot/flipdot.c:326-369 | drawing a panel changes no other panel; at every moment it is new to the left of the column in progress and untouched to the right; on completion it shows its part of the new frame; after a failed write what is left driven has no dot to move |
| DrawPanel.PanelPulsesAreAimed | software/firmware/components/flipdot/flipdot.c:326-369 | with any delays and any display to start from: no other panel and no column right of the one in progress is touched, and every pulse meets the single token there |
| DrawPanel.SelectArms | software/firmware/components/flipdot/flipdot.c:346-369 | selecting a panel empties all chains, whatever was in them, moves no dot and arms exactly that panel |
| DrawColumn.ColumnDraws | software/firmware/components/flipdot/flipdot.c:371-433 | during a column's writes the only token is at stages 2k-1 to 2k+1 of its panel, clear finds it at 2k and rows at 2k+1, no other dot changes, and a completed column shows the new word whatever subset a short pulse moved; after a failed write what is left driven has no dot to move |
| DrawColumn.ClearCycleDarkens | software/firmware/components/flipdot/flipdot.c:400-413 | the clear cycle leaves the column dark, or untouched when skipped, even if the unchecked write that ends it fails |
| DrawColumn.SetCycleBrightens | software/firmware/components/flipdot/flipdot.c:415-428 | the set cycle moves the token to the row stage and turns a column prepared by the clear cycle into the new word |
| Driver.Flipdot.Render | software/firmware/components/flipdot/flipdot.c:234-302 | refuses without power; otherwise copies options and frames, executes the frame program of exactly these copies on the bus with the delays it asks for, succeeds exactly when no write failed and every panel of the order can be drawn or DIFFERENTIAL mode finds no change, counts the flipped pixels modulo 2^64, and keeps the semaphore on errors of the panel loop |
| Driver.Flipdot.RenderPowered | software/firmware/components/flipdot/flipdot.c:249-301 | the same with the semaphore taken and the power on |
| Driver.Flipdot.RenderSnapshot | software/firmware/components/flipdot/flipdot.c:257-301 | after the snapshots: executes the frame program, with the whole-frame skip of DIFFERENTIAL mode |
| Driver.Flipdot.RenderOrder | software/firmware/components/flipdot/flipdot.c:277-297 | the panel loop executes the programs of the panels in drawing order up to the first panel that cannot be compared |
| Driver.Flipdot.RenderStop | software/firmware/components/flipdot/flipdot.c:278-296 | one round of the panel loop: an error for an empty or overhanging panel; no bus traffic for a panel without a changed column in DIFFERENTIAL mode; the panel's program otherwise |
| Driver.Flipdot.CycleInternalDatastructures | software/firmware/components/flipdot/flipdot.c:304-324 | fresh private copies: options, previous internal frame as old, shared framebuffer as new |
| Driver.Flipdot.RenderPanel | software/firmware/components/flipdot/flipdot.c:326-344 | executes the program of one panel and adds its changed dots to the counter |
| Driver.Flipdot.RenderColumns | software/firmware/components/flipdot/flipdot.c:336-341 | the column loop executes the panel's columns from left to right |
| Driver.Flipdot.SelectPanel | software/firmware/components/flipdot/flipdot.c:346-369 | from any register contents the fuse guard does not fire and the select program is executed |
| Driver.Flipdot.RenderColumn | software/firmware/components/flipdot/flipdot.c:371-433 | executes the column program chosen by the old word, the new word and the mode, without the fuse guard firing, and counts the changed dots |
| Driver.Flipdot.Cycles | software/firmware/components/flipdot/flipdot.c:385-428 | the decisions to skip and the three cycles of a column |
| Driver.Flipdot.PreCycle | software/firmware/components/flipdot/flipdot.c:393-398 | pre delay and the clock edge that feeds or moves the token |
| Driver.Flipdot.ClearCycle | software/firmware/components/flipdot/flipdot.c:397-413 | the clear cycle goes on when its last write fails |
| Driver.Flipdot.SetCycle | software/firmware/components/flipdot/flipdot.c:415-428 | the set cycle |
| Driver.Flipdot.WriteRegisters | software/firmware/components/flipdot/flipdot.c:67-100 | refuses to drive clear and rows together, otherwise transmits the register contents once and reports failure |
| Driver.Flipdot.Initialize | software/firmware/components/flipdot/flipdot.c:102-188 | lays out the panels, starts with dark frames, identity order, mode FULL, delays of 0, 160 and 160 counts and the idle registers latched; fails without panels or width |
| Driver.Flipdot.SetPower | software/firmware/components/flipdot/flipdot.c:216-228 | changes the power status only when the pin could be written and gives the semaphore back |
| Layout.LayOut | software/firmware/components/flipdot/flipdot.c:114-118 | the layout loop with its 8-bit accumulator: panels in configuration order, each starting where the one before it ends, modulo 256 |
| Layout.PartitionExactlyWhenSumFits | software/firmware/components/flipdot/flipdot.c:114-118 | the panels partition the display if and only if their widths sum to at most 255 |
| Counting.PanelDifferencesAddUp | software/firmware/components/flipdot/framebuffer.c:145-166 | for any permutation of the panels the partial comparisons add up to the comparison of the whole frames |
| Counting.RenderCountsDistance | software/firmware/components/flipdot/flipdot.c:378-430 | a completed render, in either mode, counts exactly the pixels (x, y) at which the two frames differ, as the size of that set |
| Counting.DefaultOrderCountsPixels | software/firmware/components/flipdot/flipdot.c:378-430 | so it does for every display laid out from panels that are not empty, in the default order |
| Counting.StopCountsPixels | software/firmware/components/flipdot/flipdot.c:378-430 | for any drawing order, each stop adds the number of pixels that differ on its panel |
| Counting.FrameCountsStops | software/firmware/components/flipdot/flipdot.c:268-296 | leaving out an unchanged frame has no effect on the count |
| Counting.RunCountsPathLength | software/firmware/components/flipdot/flipdot.c:430 | over any run of completed renders `pixels_flipped` is its first value plus the sum of the distances between successive frames, reduced to 64 bits; unless it wraps, it grows by at least the distance between the first and the last frame |
| Timing.ColumnTime | software/firmware/components/flipdot/flipdot.c:81-97 | the waiting time of one column: 50 us for each count of its delays, 300 for each register write, and 100 in place of a pulse, which is so in DIFFERENTIAL mode for the clear pulse if and only if no dot goes dark and for the set pulse if and only if the column is dark or unchanged |
| Timing.ColumnsTime | software/firmware/components/flipdot/flipdot.c:336-341 | column after column of a panel adds that time, with the delays and words of that very column |
| Timing.OrderTime | software/firmware/components/flipdot/flipdot.c:277-296 | panel after panel of the order adds nothing if unchanged in DIFFERENTIAL mode, else 800 us and its columns |
| Timing.FrameTime | software/firmware/components/flipdot/flipdot.c:268-297 | a render takes the time of the panels reached; leaving out an unchanged frame saves nothing more |
| Timing.RenderTakes | software/firmware/components/flipdot/flipdot.c:67-97 | and the log of a completed render, with 300 us for every write, takes exactly that time |
| Timing.NeverSlowerExactlyWhen | software/firmware/components/flipdot/flipdot.c:394-426 | DIFFERENTIAL takes no longer than FULL on all pairs of frames if and only if every set delay is at least 2 counts |
| Timing.NeverSlower | software/firmware/components/flipdot/flipdot.c:394-426 | with set delays of at least 2 counts DIFFERENTIAL is never slower, with any drawing order |
| Timing.SometimesSlower | software/firmware/components/flipdot/flipdot.c:394-426 | with a shorter set delay on a drawn column there are frames on which it is slower |
| Schedule.Micros | software/firmware/components/flipdot/flipdot.c:394 | the product of a 16-bit delay and 50 fits in 32 bits |
| Protocol.NoLostUpdate | software/firmware/components/flipdot/flipdot.c:435-474 | under any interleaving of writers, setters, flipdot_task and time, with any options in between: when flipdot_task is idle, the bit is clear, all changes were flagged, none was dropped for lack of power and the last renders, from a FULL one on, reached all panels with long enough pulses, display, private copy and framebuffer are equal |
| Protocol.DrawsItsSnapshot | software/firmware/components/flipdot/flipdot.c:317-321 | a finished render shows the copy it took, even when writers raced with it |
| Protocol.NextKeepsInv | software/firmware/components/flipdot/flipdot.c:443-474 | every step of writers, of flipdot_task and of time keeps: a column that differs from its private copy is announced by the bit, by an unflagged writer or by a dropped bit; the rest of the running program, begun at any later time, still leads to the snapshot being shown, or fails and leaves dots that time does not move |
| Protocol.RunKeepsInv | software/firmware/components/flipdot/flipdot.c:443-474 | that invariant holds in every reachable state |
| Protocol.StuckForever | software/firmware/components/flipdot/flipdot.c:281-296 | after a render was cut short in the panel loop the semaphore stays taken, the power status and the private copy never change, what the registers drive stays driven, and, unless its options missed a panel or had pulses that were too short, no dot moves however long it does |
| Protocol.StuckOnlyByFailure | software/firmware/components/flipdot/flipdot.c:281-296 | a step leads there if and only if it is a failed checked write or ends the panel loop at a rejected panel |
| Protocol.AlwaysAimed | software/firmware/components/flipdot/flipdot.c:67-77 | in every reachable state, for all options that the setters accept, while writers race and time passes, between renders and after failures: clear and rows are not powered together, and what is powered meets the single token at one column, with the word of the private copy |
| Protocol.MissedMeans | software/firmware/components/flipdot/flipdot.c:249-252 | a dirty bit counts as dropped in a run if and only if some render was refused for lack of power and none has begun since |
| Protocol.RefusalLosesUpdate | software/firmware/components/flipdot/flipdot.c:249-252 | from every idle state without power, every change of a column that is flagged leads to a powered, idle state with a clear dirty bit whose display is behind the framebuffer |
| Quiescence.UpdateCanBeLost | software/firmware/components/flipdot/flipdot.c:249-252 | every system with a column, started in FULL mode, has a run that ends so and in sync, with all changes flagged: NoLostUpdate needs its hypothesis on dropped bits |
| Quiescence.TaskStepSettles | software/firmware/components/flipdot/flipdot.c:435-474 | with the power on, all changes flagged and usable options, every step of flipdot_task that does not cut a render short brings it nearer to rest in a well-founded order and keeps that situation |
| Quiescence.OutsideStepSettles | software/firmware/components/flipdot/flipdot.c:435-474 | time passing, at any point of a render, and changes of options that stay usable and do not leave FULL mode keep that situation and the distance to rest |
| Quiescence.TaskCanStep | software/firmware/components/flipdot/flipdot.c:435-474 | short of rest, flipdot_task always has such a step |
| Quiescence.StepsEnd | software/firmware/components/flipdot/flipdot.c:435-474 | no endless sequence, with time passing and options changing in between, has flipdot_task step again and again |
| Quiescence.StopsOnlyInSync | software/firmware/components/flipdot/flipdot.c:435-474 | wherever flipdot_task cannot go on, after any such sequence, it is idle, the dirty bit is clear and the display shows the framebuffer that the writers left |
| Quiescence.ComesToRest | software/firmware/components/flipdot/flipdot.c:435-474 | and from every such state a finite sequence leads there |
| Quiescence.UpdateShownExactlyWhenPowered | software/firmware/components/flipdot/flipdot.c:244-252 | from an idle state in sync with an update flagged, every sequence of steps of flipdot_task, time and options without a failure, to its end, brings the update on the display if and only if the power is on; without power the dirty bit ends up dropped |
| Framebuffers.Framebuffer.Init | software/firmware/components/flipdot/framebuffer.c:8-23 | a dark buffer, or an error for width 0 |
| Framebuffers.Framebuffer.Clear | software/firmware/components/flipdot/framebuffer.c:25-27 | all dots dark |
| Framebuffers.Framebuffer.GetPixel | software/firmware/components/flipdot/framebuffer.c:29-45 | the pixel of the grid, false out of bounds |
| Framebuffers.Framebuffer.SetPixel | software/firmware/components/flipdot/framebuffer.c:47-67 | changes the one pixel, or reports an error and changes nothing |
| Framebuffers.Framebuffer.EncodeLine | software/firmware/components/flipdot/framebuffer.c:73-86 | the row as 'X' and ' ', cut to the destination, and whether it fit |
| Framebuffers.Framebuffer.DecodeLine | software/firmware/components/flipdot/framebuffer.c:108-120 | the dots of the row whose character is 'X' are set, the others cleared, all other rows untouched; or a text of the wrong length is rejected |
| Framebuffers.Framebuffer.CopyFrom | software/firmware/components/flipdot/framebuffer.c:122-143 | a private copy in a fresh array, or an error for width 0 |
| Framebuffers.ComparePartial | software/firmware/components/flipdot/framebuffer.c:149-166 | the number of pixels at which the frames differ in a range of columns, 0 exactly when the ranges are equal, and its argument errors |
| Framebuffers.Compare | software/firmware/components/flipdot/framebuffer.c:145-147 | the number of pixels at which the frames differ, 0 exactly when they are equal |
| Columns.FlipsIsCardinality | software/firmware/components/flipdot/flipdot.c:378-379 | the popcount of the exclusive or is the number of bits set in exactly one of the words |
| Frames.DistanceCountsPixels | software/firmware/components/flipdot/framebuffer.c:145-166 | the comparison of two frames counts the pixels (x, y), y < 16, at which they differ |
| Frames.PixelIsBit | software/firmware/components/flipdot/framebuffer.c:38-43 | each byte of a word holds eight rows in ascending order, the lowest in its most significant bit |
| Frames.OffsetBijection | software/firmware/components/flipdot/framebuffer.c:38-43 | rows and bits 0..15 correspond one to one |
| Frames.SetPixelChangesOneCell | software/firmware/components/flipdot/framebuffer.c:47-67 | setting a pixel changes exactly that cell of the width x 16 grid |
| Frames.WithRowChangesOneRow | software/firmware/components/flipdot/framebuffer.c:115-117 | decoding a line changes exactly the cells of one row |
| Frames.FrameIsItsPixels | software/firmware/components/flipdot/framebuffer.c:29-45 | two frames with the same pixels are the same words |
| Frames.Row16AliasesRow8 | software/firmware/components/flipdot/framebuffer.c:32-54 | row 16 is accepted and is row 8 |
| Frames.DifferenceTriangle | software/firmware/components/flipdot/framebuffer.c:160-163 | counts of differing dots obey the triangle inequality |
| Rendering.RenderingOptions.Initialize | software/firmware/components/flipdot/rendering_options.c:9-43 | identity order, delays of 0, 160 and 160 counts, mode untouched, errors for no panels or columns |
| Rendering.RenderingOptions.CopyFrom | software/firmware/components/flipdot/rendering_options.c:45-82 | an independent snapshot of all options |
| Crc16.Compute | software/firmware/main/crc16.c:3-35 | the bit loop computes the register function over the bits of the buffer, zero for a null buffer |
| CrcTheory.CrcIsTheRemainder | software/firmware/main/crc16.c:5-34 | with the polynomial p whose powers are 16, 15, 2 and 0, the checksum is R if and only if message = Q * p + R for some Q |
| Polynomials.MulCoefficient | software/firmware/main/crc16.c:5-34 | the product meant there: each coefficient is the number of contributing pairs of coefficients modulo 2 |
| Crc16.BitsAt | software/firmware/main/crc16.c:12-24 | the message meant there: byte after byte, the most significant bit first |
| CrcTheory.FeedLinear | software/firmware/main/crc16.c:12-32 | the checksum is linear under xor of inputs of equal length |
| CrcTheory.BurstDetected | software/firmware/main/crc16.c:12-32 | buffers that differ only within 16 consecutive bits have different checksums |
| CrcTheory.LongerBurstMissed | software/firmware/main/crc16.c:12-32 | at every position some burst of 17 bits is not detected |
| CrcTheory.ChecksumParity | software/firmware/main/crc16.c:12-32 | the parity of the checksum is the parity of the message |
| CrcTheory.OddErrorsDetected | software/firmware/main/crc16.c:12-32 | any odd number of wrong bits changes the checksum |
| SystemConfiguration.Configuration.Save | software/firmware/main/system_configuration.c:97-116 | erases, writes the record with its checksum, and which failures end in which state |
| SystemConfiguration.Configuration.Load | software/firmware/main/system_configuration.c:72-95 | reads and accepts the record, or flashes the defaults; outcome and flash contents in every case |
| SystemConfiguration.Configuration.FlashDefaults | software/firmware/main/system_configuration.c:65-70 | the defaults in memory and, if the flash works, in the partition |
| SystemConfiguration.Configuration.LoadDefaults | software/firmware/main/system_configuration.c:18-63 | which default goes into which field; address and baudrate are replaced only if the build selects FLIPNET |
| SystemConfiguration.RecordLayout | software/firmware/main/system_configuration.c:72-116 | which of the 147 bytes before the checksum are which field |
| SystemConfiguration.StoredLittleEndian | software/firmware/main/system_configuration.c:97-106 | the checksum is stored with its low byte first |
| SystemConfiguration.AcceptsExactlyWhen | software/firmware/main/system_configuration.c:86-92 | a partition is accepted if and only if bytes 147 and 148 hold the checksum of the first 147 bytes and two zero bytes |
| ConfigurationStore.LoadAfterSave | software/firmware/main/system_configuration.c:72-116 | a saved record is accepted and read back unchanged |
| ConfigurationStore.AcceptedFields | software/firmware/main/system_configuration.c:76-94 | which bytes of an accepted partition are loaded into which field |
| ConfigurationStore.RepairedFields | software/firmware/main/system_configuration.c:18-63 | which default is loaded into which field when the partition is rejected, and which bytes of it are kept unless the build selects FLIPNET |
| ConfigurationStore.LoadIsStable | software/firmware/main/system_configuration.c:72-95 | after any successful load, repair included, a second load succeeds with the same record and the same bytes |
| ConfigurationStore.BurstRepaired | software/firmware/main/system_configuration.c:86-92 | a body damaged within 16 consecutive bits is always rejected and replaced by the defaults |
| ConfigurationStore.OddDamageRepaired | software/firmware/main/system_configuration.c:86-92 | so is a body in which the number of wrong bits is odd |
| ConfigurationStore.DamagedChecksumRejected | software/firmware/main/system_configuration.c:86-92 | with an intact body every damage to the checksum field is noticed |
| ConfigurationStore.RepairForgetsExactlyWhenFlipnet | software/firmware/main/system_configuration.c:34-63 | any two partitions that the load rejects yield the same record if and only if the build selects FLIPNET |
| ConfigurationStore.BlankZerosAccepted | software/firmware/main/system_configuration.c:86-94 | a partition of zero bytes is accepted as a configuration without panels |
| HttpApi.ReceiveLine | software/firmware/main/httpd.c:60-75 | gathers exactly one line from any chunks, or fails |
| HttpApi.GetFramebuffer | software/firmware/main/httpd.c:19-35 | the response: sixteen lines, top row first, 'X' for a bright and ' ' for a dark dot, each line ended by a newline |
| HttpApi.PostFramebuffer | software/firmware/main/httpd.c:43-99 | for any cutting into chunks: after the leading good lines exactly the dots whose character is 'X' are set in their rows, the rows below are as before; success, response and dirty bit come exactly with all sixteen lines, and each error code with its cause; on a reliable connection the outcome depends only on the bytes |
| FrameText.DecodeText | software/firmware/main/httpd.c:25-29 | the text of a frame is well formed and decodes to that frame, whatever was in the buffer before |
| FrameText.TextOfDecoded | software/firmware/main/httpd.c:52-98 | the text of a decoded body is the body with every character but 'X' turned into a space |
| FrameText.TextCharacter | software/firmware/main/httpd.c:25-29 | the character at column x of line 15 - y is 'X' for a bright dot (x, y) and ' ' for a dark one |
| FrameText.PaintedCharacter | software/firmware/main/httpd.c:52-92 | a decoded dot is bright if and only if its character is 'X' |
| FrameText.LineStartAt | software/firmware/main/httpd.c:17-29 | line k starts at k * (width + 1) |
| FrameText.PaintedPixel | software/firmware/main/httpd.c:52-92 | after k lines the upper k rows are what the text says and the rows below are untouched |
| FrameText.PaintedIgnoresRest | software/firmware/main/httpd.c:52-92 | bytes after the decoded lines have no effect |
| SnmpTables.Agent.GetPixel | software/firmware/main/fluepdot_mib.c:145-171 | accepts exactly the indices below 115 and 16 and remembers the coordinate |
| SnmpTables.Agent.GetNextPixel | software/firmware/main/fluepdot_mib.c:172-214 | overwrites identifier and coordinate with the next row, or changes nothing |
| SnmpTables.Agent.GetNextIndex | software/firmware/main/fluepdot_mib.c:384-414 | the same for the panel, delay and order tables |
| SnmpTables.NextPixelExactlyWhen | software/firmware/main/fluepdot_mib.c:185-213 | on which identifiers get-next is the least row after the given one, as section 4.2.2 of RFC 3416 asks, and on which it is not |
| SnmpTables.NextIndexExactlyWhen | software/firmware/main/fluepdot_mib.c:484-515 | the same for the single-index tables |
| SnmpTables.WalkVisitsEveryPixelOnce | software/firmware/main/fluepdot_mib.c:185-213 | a walk from the empty index meets all 16 * width rows exactly once in increasing order and stops |
| SnmpTables.WalkVisitsEveryIndexOnce | software/firmware/main/fluepdot_mib.c:484-515 | the same walk on the tables with a single index: 0 up to the last row, then the end |
| SnmpTables.GetAgreesWithWalkExactlyWhen | software/firmware/main/fluepdot_mib.c:163-204 | get accepts exactly the rows of the walk if and only if the width is 115 |

## Left out

- GPIO and SPI setup, the event group and the mutex themselves: a write latches at once or fails, the dirty bit is waited for and cleared in one step, the mutex is a flag.
- Null-pointer checks (except in crc16) and failing allocations: the model has no null buffers and allocation succeeds.
- The rendering-done bit and `/rendering/wait`: flipdot_task sets the bit and clears it at once, so it says nothing about a frame.
- Wiring between row bits and dots: a display column is the same 16-bit word as the framebuffer column.
- Concurrent changes of the options while they are copied: a snapshot of the options is taken in one step.
- Drawing orders with entries beyond the panel count: the SNMP setter rejects them and the source would read past its arrays.
- Quiescence.ComesToRest: assumes that no checked write fails, since a failed one leaves the semaphore taken for good, and options that reach every panel with long enough pulses, without which the display need not follow the frame.
- SystemConfiguration.Configuration.Save: a failing erase is assumed to leave the partition unchanged, and a failing write to have programmed a prefix.
- The string handling that builds default fields from the build configuration: defaults are fields of the right size.
- compare_column: nothing calls it. The printf of a frame, the dump of the configuration and the logging: text for a console that no other code reads.
- Font rendering, the raw API, BLE, WiFi, mDNS, console commands, `/rendering/timings` and the other HTTP handlers: glue over libraries that are not part of this model.
- The value accessors and setters of the SNMP tables: single assignments guarded by range tests.

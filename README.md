# ULA testbench model

A Dafny model of the harness logic of `tb/ula_tb.cpp`, the Verilator testbench
that drives a simulated ZX Spectrum ULA. The model covers three pieces.

- **Tick driver** (`tick`). It sets `clk_sys`, evaluates the circuit, and hands
  the waveform recorder the next timestamp. On the high phase it also serves
  the circuit's video-RAM read from the 16 KB RAM image.
- **Bring-up sequence** in `main`. One idle cycle runs first. A second cycle
  runs in reset with the 48K configuration (`mZX = 1`, `m128 = 0`,
  `border_color = 1`). Then reset is released.
- **Capture loop**. It counts VSync falling edges, comparing the level read
  before each full cycle with the level after it. It stops at 3 frames. While
  the counter is 2, it writes one 16-bit pixel code for every cycle with
  `ce_vid` set.

The files are:

- `pixel.dfy` (module `Pixel`): the pixel code. It holds the two sync
  sentinels, the packed colour, and the truncation to `unsigned short`.
- `capture.dfy` (module `Capture`): the loop policy as pure functions over a
  trace of per-cycle samples.
  - `Iterate` is one loop iteration.
  - `Run` is n iterations.
  - The lemmas state counting, termination and what ends up in the output.
- `hardware.dfy` (module `Hardware`): the simulated circuit as the testbench
  sees it. The class `Ula` has one field per signal the testbench touches.
  Its `Eval` applies an arbitrary step function `logic` over a hidden state,
  because the generated model is not part of this project. A ghost log
  `seen` records the inputs every evaluation saw.
- `testbench.dfy` (module `Testbench`): the testbench's global state as the
  class `Harness`.
  - `Harness` holds the model, the RAM image, `tickcount`, the timestamps
    handed out, and the codes written to `video.rgb`.
  - Its methods `Tick`, `Cycle`, `BringUp`, `Record` and `Capture` do what
    the C++ does, and each is proved against a pure function (`Ticked`,
    `Cycled`, `BroughtUp`, `Iterate`, `Run`).
  - `RunTestbench` is the whole of `main`.

Two details of the code decide how the output is modelled.

- `main` packs the colour as the sum `Rx*256 + Gx*16 + Bx` and stores it in an
  `unsigned short`. The model uses that sum, truncated to 16 bits. The sum
  equals the bitwise packing `(Rx << 8) | (Gx << 4) | Bx` whenever Gx and Bx
  are below 16, whatever Rx is.
- `fwrite` writes each code in the host's byte order. The model keeps the
  codes as numbers.

## Model

| member | source | states |
|---|---|---|
| Pixel.ToUnsignedShort | tb/ula_tb.cpp:66 | storing a non-negative value in the `unsigned short rgb` keeps it when it fits in 16 bits, always gives a value below 2^16, and differs from the input by a multiple of 2^16 |
| Pixel.Encode | tb/ula_tb.cpp:79-81 | VSync gives 0x00f0 whatever HSync and the channels are. Otherwise HSync gives 0x0f00. Otherwise, with channels below 16, the code is below 0x1000 and decodes back to (Rx, Gx, Bx). The code always fits 16 bits |
| Pixel.ColourFields | tb/ula_tb.cpp:81 | with 4-bit channels, `Rx*256 + Gx*16 + Bx` is below 0x1000, and `code/256`, `code/16%16`, `code%16` recover Rx, Gx, Bx |
| Pixel.SentinelsCollideWithColours | tb/ula_tb.cpp:79-81 | the sentinels are not reserved values: pure green 15 encodes as the VSync code and pure red 15 as the HSync code |
| Capture.Emitted | tb/ula_tb.cpp:78-83 | an iteration writes something exactly when the counter is 2 and `ce_vid` is set, and what it writes is the single code of that cycle's outputs |
| Capture.Iterate | tb/ula_tb.cpp:69-83 | one iteration: the counter goes up by exactly 1 when VSync was high before the cycle and is low after it, and otherwise stays the same; the VSync level carried forward is the one read after the cycle |
| Capture.Run | tb/ula_tb.cpp:68-84 | definition: the loop variables after n iterations of the `while` loop; properties in RunFramesBounds, RunFramesMonotone, BelowTargetBefore, TargetReachedExactly, VideoLengthCountsWrites, VideoIsCapturedFrame and the ensures of Testbench.Harness.Capture |
| Capture.Kept | tb/ula_tb.cpp:78-82 | the reference for the output: the codes of the video-enabled cycles in a window, in order. They number at most the cycles in it; a window with no video-enabled cycle keeps nothing, and one where every cycle is video-enabled keeps one code per cycle |
| Capture.RunFramesBounds | tb/ula_tb.cpp:69-75 | over n iterations the counter never decreases and rises by at most n. Two falling edges always have a rising edge between them, so k frames take about 2k cycles |
| Capture.RunFramesMonotone | tb/ula_tb.cpp:74-75 | the frame counter never decreases from one iteration to a later one |
| Capture.BelowTargetBefore | tb/ula_tb.cpp:68 | if the counter is below 3 one iteration before k, it is below 3 after every earlier iteration, so the loop guard held throughout |
| Capture.StableVSyncFinishesNoFrame | tb/ula_tb.cpp:74-75 | holding VSync at the level last read, for any number of cycles, never increments the counter |
| Capture.TargetReachedExactly | tb/ula_tb.cpp:68-75 | a run that starts below 3 and reaches 3 has a first iteration k where the counter is exactly 3 and was below 3 just before. The counter never jumps past 3, and the loop ends at the third falling edge |
| Capture.CaptureFrameContiguous | tb/ula_tb.cpp:74-78 | the iterations whose counter is 2 form one contiguous stretch |
| Capture.WindowExists | tb/ula_tb.cpp:74-78 | for every n, among the first n iterations those whose counter is 2 are exactly the ones of a single window [i, j) |
| Capture.OneFrame | tb/ula_tb.cpp:68-84 | the output after any number of iterations is one frame: the codes of the video-enabled cycles of the window of counter-2 iterations, in order, and nothing else |
| Capture.Writes | tb/ula_tb.cpp:78-82 | counts the iterations that write a code |
| Capture.VideoLengthCountsWrites | tb/ula_tb.cpp:78-82 | the output length equals the number of iterations with counter 2 and `ce_vid` set |
| Capture.VideoLastStep | tb/ula_tb.cpp:78-82 | the last iteration of a run adds its code exactly when it closes the capture window |
| Capture.VideoIsCapturedFrame | tb/ula_tb.cpp:68-84 | if iterations i until j are exactly those with counter 2, the output is the codes of the video-enabled cycles among them, in order, and nothing else |
| Hardware.Ula.constructor | tb/ula_tb.cpp:50 | a fresh model has every input inactive, the given hidden state and outputs, and has evaluated nothing yet |
| Hardware.Ula.Eval | tb/ula_tb.cpp:26 | evaluation leaves the inputs as they are, replaces hidden state and outputs by the step function of the old state and inputs, and logs the inputs it saw |
| Testbench.Ticked | tb/ula_tb.cpp:23-31 | a half cycle drives the clock level `c` and keeps reset, mZX, m128 and border colour. On a high phase the data bus afterwards holds `ram[vram_addr]` for the address the evaluation produced; on a low phase the data bus is unchanged |
| Testbench.Cycled | tb/ula_tb.cpp:71-72 | definition: `tick(1); tick(0)`, one high and one low `Ticked` half cycle (also lines 54-55 and 60-61); properties in Testbench.Harness.Cycle and Testbench.BroughtUp |
| Testbench.After | tb/ula_tb.cpp:68-72 | definition: the machine after n full cycles of the loop; properties in Testbench.Harness.Capture and Testbench.RunTestbench, whose ensures tie the loop's state to it |
| Testbench.Samples | tb/ula_tb.cpp:74-81 | definition: sample k is the VSync, HSync, `ce_vid` and colour outputs the loop reads after its (k+1)-th cycle; properties in Testbench.Harness.Record and Testbench.Harness.Capture |
| Testbench.BroughtUp | tb/ula_tb.cpp:54-63 | after bring-up, reset is 0 and the configuration is mZX = 1, m128 = 0, border colour 1 |
| Testbench.Stamps | tb/ula_tb.cpp:27 | the first n timestamps handed to the recorder number n |
| Testbench.StampsAt | tb/ula_tb.cpp:27 | timestamp k is k, so the timestamps strictly increase |
| Testbench.Cycles | tb/ula_tb.cpp:54-72 | the expected clock and configuration log of n full cycles under one configuration, high phase first; it has 2n entries, and entry k is given by Testbench.CyclesAt |
| Testbench.CyclesAt | tb/ula_tb.cpp:54-61 | in a run of full cycles the clock is high on every even half cycle and low on every odd one |
| Testbench.RunLog | tb/ula_tb.cpp:54-72 | in the log of a whole run, the clock alternates high, low from the first half cycle. Reset is seen by exactly the two half cycles of the second bring-up cycle and by no half cycle of the capture loop |
| Testbench.Harness.constructor | tb/ula_tb.cpp:43-50 | the harness starts with `tickcount` 0, no timestamp handed out and an empty output |
| Testbench.Harness.Tick | tb/ula_tb.cpp:23-31 | `tick(c)` moves the model to `Ticked` of its old state. With c high, `vram_dout == ram[vram_addr]` afterwards; with c low, `vram_dout` is unchanged. The RAM is not written. `tickcount` goes up by exactly 1, and the old value is the timestamp handed out |
| Testbench.Harness.Cycle | tb/ula_tb.cpp:71-72 | `tick(1); tick(0)` is one full cycle, logs one high and one low half cycle under an unchanged configuration, and advances `tickcount` by exactly 2 |
| Testbench.Harness.BringUp | tb/ula_tb.cpp:54-63 | the bring-up reaches `BroughtUp` of the old state in 4 ticks: one cycle with the old configuration, then one cycle in reset with the 48K configuration |
| Testbench.Harness.Record | tb/ula_tb.cpp:74-83 | the statements after the cycle update the counter and the output exactly as `Iterate` does on the outputs read after the cycle |
| Testbench.Harness.Capture | tb/ula_tb.cpp:65-84 | the loop returns with `frames == 3` after exactly the first number of cycles at which the replayed counter reaches 3. The output is the replayed output over those cycles. `tickcount` grew by 2 per cycle. Every cycle ran in the configuration the loop was entered with, which after bring-up has reset 0 |
| Testbench.NewHarness | tb/ula_tb.cpp:15-21 | the 16 KB buffer holds the image, and the model starts in its initial state with an empty log |
| Testbench.RunTestbench | tb/ula_tb.cpp:33-88 | `main` writes the replayed output over the cycles after bring-up and stops at the first cycle whose counter reaches 3. The timestamps are 0, 1, 2, ..., with 4 on entry to the loop. The clock alternates from the first half cycle, and reset is 1 in exactly the second bring-up cycle. The output is exactly the codes of the video-enabled cycles first until last, and those are exactly the loop's cycles with counter 2 |

## Left out

- The generated circuit (`Vula_test`) is not part of this model. `eval` applies an arbitrary step function `logic` over an arbitrary hidden state. `tb->trace`, `Verilated::commandArgs` and `Verilated::traceEverOn` have no effect the harness observes.
- Waveform recording (`VerilatedVcdC`, its `open`, `dump` and `close`) is a foreign library. Only the sequence of timestamps handed to `dump` is kept.
- `initram`'s file reading is replaced by a given 16 KB image. The unchecked failed `fopen` and the short `fread` are not modelled.
- Writing `video.rgb` is modelled as appending codes to a sequence. `fopen`, `fclose` and the host-order bytes `fwrite` produces are not modelled.
- The circuit's inputs before line 54: the code never sets them, and they are 0 only because Verilator zero-initialises signals. The model starts the circuit with every input 0 (`Idle`), so reset is 0 in the first bring-up cycle.
- The unused `hsync` local and the unused `phase` global have no effect and are not modelled.
- `tickcount` and `frames` are C `int`s. The model uses unbounded naturals, so overflow after about 2^31 ticks is not modelled.
- `tick` takes an `int`, but `main` only ever passes 1 and 0. The model takes the clock level as a boolean.
- The signal widths of the generated header are unknown. Colour channels are naturals, and the colour round trip is stated for channels below 16. The code is truncated to 16 bits explicitly.
- The address bound: the code indexes `ram` with `vram_addr` without a bounds check. The model takes the circuit to drive only addresses below 16384, through the type `Addr`.
- Termination depends on the circuit: `Capture` and `RunTestbench` require that some finite number of cycles shows three VSync falling edges. A circuit that never does would make the C++ loop run forever, and the model does not describe that run.
- Capture.TargetReachedExactly: states only that the iteration before the first one at 3 is below 3. BelowTargetBefore extends this to every earlier iteration.

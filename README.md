# Chip8tle in Dafny

Chip8tle is a small Win32 game engine with a CHIP-8 interpreter built on it.
This project models its core and proves properties of the model:

- **The CHIP-8 interpreter** (`main.cpp`):
  - the `Chip8` machine with its 4 KB memory, sixteen `V` registers, the stack and the column-major 64×32 screen;
  - `Chip8_create`, the two validation helpers and the whole opcode dispatch of `Chip8_step`;
  - `Chip8_to_screen`.
  - It is modelled twice: as a value (`Chip8Spec`), and as a class over arrays whose methods are proved against that value (`Chip8Machine`).
- **The engine core** (`core.h`, `core.cpp`):
  - the fixed-timestep `Frame_Controller`, as a class proved against a value model (`FrameControl`);
  - the `Pixel_Canvas` RGBA buffer;
  - the xoroshiro128+ generator with its jumps.
- **The header helpers** (`engine.inl`):
  - `min`, `max`, `clamp`, `abs`, `Kilobytes`, `Megabytes` and `Gigabytes`;
  - `array_raw_next_capacity` and the `array_raw<T>` growable array, as a class over an `array`;
  - `MuProSiCo::reverse_order`, on a linked chain of nodes.
- **The engine's input and audio tables** (`engine.cpp`):
  - the action table of `Input::Listener`;
  - `create_Control_Data`;
  - the sixteen DSP slots of `Audio`: their lifecycle and the layout of their parameter buffers.
- **The Win32 input layer** (`engine_win32.cpp`):
  - the command-line splitter `create_argc_argv`;
  - the RawInput keyboards: reconciliation against the device list, per-key transition counting on `WM_INPUT`, and the scancode table;
  - the two-phase pairing of keyboards with listeners;
  - `update_listener_states` and `update_input`.

Each module follows one source entity. Value-level functions define what an operation computes. The imperative methods state their effect in terms of those functions. The lemmas state what the code promises: round trips, invariants kept across calls, both directions of each "exactly when", and worked examples from the source's own comments.

| file | models |
|---|---|
| numerics.dfy | engine.inl helpers, `array_raw_next_capacity` |
| dynamic_array.dfy | `array_raw<T>` |
| reverse_list.dfy | `MuProSiCo<T>::reverse_order` |
| random.dfy | xoroshiro128+ |
| frame_controller.dfy | `Frame_Controller` |
| pixel_canvas.dfy | `Pixel_Canvas` |
| chip8_spec.dfy | the CHIP-8 machine as a value, decode and execute |
| chip8_instructions.dfy | per-instruction properties, and the two interpreter findings |
| chip8_properties.dfy | encoding round trips, sprite drawing, the collision flag |
| chip8_run.dfy | the `Chip8_step` loop: timers, errors, keyboard memory |
| chip8.dfy | the `Chip8` struct as a class, and `Chip8_to_screen` |
| command_line.dfy | `create_argc_argv` |
| audio.dfy | the DSP slots of `Audio` |
| input.dfy | `Input::Listener`, `create_Control_Data` |
| raw_input.dfy | RawInput keyboards, the scancode table, key events |
| pairing.dfy | `update_device_listener_pairings` |
| raw_input_update.dfy | `update_listener_states`, `update_input` |

Modelling conventions:

- Unsigned integers are `nat`, and bytes are `bv8`. Where a `u64` total could wrap, the contract says so explicitly, as in `Kilobytes`.
- Host services are inputs:
  - the timer sample is an argument of `UpdateTime`;
  - the random byte of `Cxkk` is drawn from a `RandomData` object;
  - the per-instruction timer decrements and the instruction count of `Chip8_step` are arguments;
  - the device list of `GetRawInputDeviceList` is a sequence of entries;
  - the command line is a string.
- Each `ram_assert` guarding an operation is a precondition.
- Each `ram_error`, or error code, that the code recovers from is a result.

## Model

| member | source | states |
|---|---|---|
| Numerics.Max | source/engine.inl:9-10 | `max` is an upper bound of both operands and is one of them |
| Numerics.Min | source/engine.inl:11-12 | `min` is a lower bound of both operands and is one of them |
| Numerics.Clamp | source/engine.inl:13-14 | with `lo <= hi` the result lies in `[lo, hi]`: `x` when inside, the nearer bound when outside; with an empty range `hi` wins |
| Numerics.Abs | source/engine.inl:15-16 | non-negative, and equal to `x` or `-x` |
| Numerics.Kilobytes | source/engine.inl:18 | `1024 * n` modulo 2^64: exact while it fits in a `size_t`, and always a multiple of 1024 |
| Numerics.Megabytes | source/engine.inl:19 | `1024² * n` modulo 2^64: exact while it fits, and always a multiple of 1024² |
| Numerics.Gigabytes | source/engine.inl:20 | `1024³ * n` modulo 2^64: exact while it fits, and always a multiple of 1024³ |
| Numerics.NextCapacity | source/engine.inl:193-203 | on `u64` (while `2c` keeps its top bit): a power of two of at least 16 that exceeds `2c`, and the least such, since half of it no longer exceeds `2c` |
| Numerics.PowerOfTwoAbove | source/engine.inl:195-201 | the least power of two strictly above `x` |
| Numerics.GrowthCapacity | source/engine.inl:193-203 | the capacity growth on unbounded integers: the least power of two above `2c`, at least 16 |
| Numerics.NextCapacityExamples | source/engine.inl:193-203 | next(0) = 16, next(16) = 64, next(64) = 256, on `u64` and as integers alike |
| Numerics.SmearExamples | source/engine.inl:195-201 | the bit-smear on `u64` gives 16, 64 and 256 for 0, 16 and 64 |
| Numerics.GrowthExamples | source/engine.inl:193-203 | the integer growth gives 16, 64 and 256 for 0, 16 and 64 |
| DynamicArray.ArrayRaw.Create | source/engine.inl:205-210 | an empty array with capacity 0 |
| DynamicArray.ArrayRaw.Get | source/engine.inl:216-220 | `operator[]` requires `index < size` and returns that element |
| DynamicArray.ArrayRaw.Put | source/engine.inl:221-224 | writing through `operator[]` changes exactly that element |
| DynamicArray.ArrayRaw.SetCapacity | source/engine.inl:282-288 | requires `new_capacity >= size`; keeps the contents and size and the buffer's common prefix, and sets the capacity |
| DynamicArray.ArrayRaw.GrowIfFull | source/engine.inl:228 | grows to `next_capacity(capacity)` exactly when the array is full; keeps the contents; afterwards there is room |
| DynamicArray.ArrayRaw.Push | source/engine.inl:226-230 | appends `v` after the old contents; the capacity grows only when size was equal to capacity |
| DynamicArray.ArrayRaw.Pop | source/engine.inl:231-235 | requires a non-empty array and drops the last element |
| DynamicArray.ArrayRaw.PopInto | source/engine.inl:236-241 | requires a non-empty array, returns the old last element and drops it |
| DynamicArray.ArrayRaw.Insert | source/engine.inl:242-249 | requires `index <= size`; the contents become `old[..i] + [v] + old[i..]`; the capacity grows to `next_capacity` exactly when the array was full |
| DynamicArray.ArrayRaw.InsertSwap | source/engine.inl:250-257 | `v` goes to index `i` and the old element at `i` moves to the end; at `i == size` it is a plain append; the capacity grows to `next_capacity` exactly when the array was full |
| DynamicArray.ArrayRaw.Remove | source/engine.inl:258-263 | requires `index < size`; the contents become `old[..i] + old[i+1..]` |
| DynamicArray.ArrayRaw.RemoveSwap | source/engine.inl:264-268 | the last element moves into index `i` and the size drops by one; no other element changes |
| DynamicArray.ArrayRaw.Size | source/engine.inl:269-272 | the number of elements |
| DynamicArray.ArrayRaw.Capacity | source/engine.inl:273-276 | the capacity, which is the buffer length |
| DynamicArray.ArrayRaw.SetSize | source/engine.inl:277-281 | requires `new_size <= capacity`; the contents become the first `new_size` buffer slots |
| DynamicArray.ArrayRaw.SizeBytes | source/engine.inl:298-301 | the size times the element size |
| DynamicArray.ArrayRaw.CapacityBytes | source/engine.inl:302-305 | the capacity times the element size |
| ReverseList.ReverseOrder | source/engine.inl:151-162 | relinks a chain in place so that the returned head starts the same nodes in reverse order |
| ReverseList.BackLinksReversed | source/engine.inl:155-161 | nodes that each link back to their predecessor form the reversed chain from the last node |
| ReverseList.ReversedInvolutive | source/engine.inl:151-162 | reversing twice gives the original order back |
| ReverseList.ReversedAppend | source/engine.inl:151-162 | the reverse of a concatenation is the reversed parts in swapped order |
| Random.RotlInverse | source/core.cpp:3-5 | `ROTL` by 24 and by 37 are undone by rotating by the complementary amounts |
| Random.ZeroIsFixed | source/core.cpp:7-18 | the all-zero seed is a fixed point of NEXT and outputs 0 |
| Random.DefaultFirstDraw | source/core.cpp:76-84 | from the default seed, the first NEXT outputs 0x98C89ECE999AAD77, moves to the stated seed, and `random_char` gives 0x98 |
| Random.CharOf | source/core.cpp:84 | `random_char` is the top 8 bits of the NEXT output |
| Random.JumpPassAdvances | source/core.cpp:27-33 | one 64-bit pass of a jump advances the generator by exactly 64 NEXT calls, whatever the jump word |
| Random.JumpAdvances | source/core.cpp:21-45 | the two passes of a jump advance the generator by 64 and then 128 NEXT calls |
| Random.IterateAdd | source/core.cpp:7-18 | `m` NEXT calls followed by `n` more are `m + n` calls |
| Random.JumpPassZero | source/core.cpp:27-33 | a jump pass from the zero seed with a zero accumulator stays at zero |
| Random.JumpFromZero | source/core.cpp:21-45 | jumping from the zero seed leaves it at zero |
| Random.RandomData.constructor | source/core.h:57 | a generator holding the given seed, with no draws yet |
| Random.RandomData.CreateDefault | source/core.cpp:76-82 | `create_default_random` installs the default seed |
| Random.RandomData.Next | source/core.cpp:7-18 | returns `low + high` mod 2^64, and the seed becomes the xoroshiro128+ successor |
| Random.RandomData.JumpWord | source/core.cpp:27-33 | one loop of a jump: the accumulator XORs in the seed at each set bit, and the seed takes 64 NEXT steps |
| Random.RandomData.JumpBy | source/core.cpp:21-45 | a jump by a two-word table: the seed becomes the accumulated XOR, after 128 NEXT calls |
| Random.RandomData.Jump | source/core.cpp:21-45 | `xoroshiro128P_JUMP` with its polynomial, after exactly 128 NEXT calls |
| Random.RandomData.LongJump | source/core.cpp:48-72 | `xoroshiro128P_LONG_JUMP` with its polynomial, after exactly 128 NEXT calls |
| Random.RandomData.RandomChar | source/core.cpp:84 | the top 8 bits of one NEXT |
| Random.RandomData.RandomShort | source/core.cpp:85 | the top 16 bits of one NEXT |
| Random.RandomData.RandomInt | source/core.cpp:86 | the top 32 bits of one NEXT |
| Random.RandomData.RandomInt64 | source/core.cpp:87 | the full NEXT output |
| FrameControl.Resynced | source/core.cpp:167-175 | `resync_next_step`: time, accumulator, residual and index are zero, every history entry is `tick_per_step`, and the step count is unchanged |
| FrameControl.Interval | source/core.cpp:106-114 | the rebaselined start and the clamped end of the interval; from `time == 0` it spans exactly `tick_per_step * step_multiplicity` |
| FrameControl.RawDeltaBounds | source/core.cpp:106-116 | the raw delta is `min(max(new, time) - time, tick_per_step * step_maximum)`: zero on a rewind, exactly `tick_per_step * step_multiplicity` after a resync, never above the cap |
| FrameControl.SnapFirstMatch | source/core.cpp:118-129 | with no period in tolerance the delta is kept; otherwise it becomes the first period in tolerance, and no earlier period is in tolerance |
| FrameControl.SumOfFour | source/core.cpp:137-138 | the history sum is the sum of the four entries |
| FrameControl.Smooth | source/core.cpp:139-145 | `4 * smoothed + residual' == history_sum + residual`, with `residual' < 4` |
| FrameControl.Update | source/core.cpp:100-165 | `update_time` keeps the clock well formed: four history entries, index and residual below 4 |
| FrameControl.UpdateParts | source/core.cpp:100-165 | `update_time` in its two branches: over the cap it resyncs, counts `step_maximum` steps, and sets `time` to the new time; otherwise it takes `n` steps and keeps the remainder |
| FrameControl.QuantisedRemainder | source/core.cpp:148-151 | the step count is a multiple of `step_multiplicity`, fits in the accumulator, and leaves less than one multiple of ticks |
| FrameControl.UpdateSteps | source/core.cpp:148-164 | returns at most `step_maximum` steps, and `step_count` grows by that many; either the steps are a multiple of `step_multiplicity` and account for every tick with a remainder below one multiple, or it is `step_maximum` after a resync |
| FrameControl.UpdateTimeMonotone | source/core.cpp:113-114 | once started, the controller's time never goes backwards (also line 161) |
| FrameControl.SmoothRunConserves | source/core.cpp:139-145 | over any run of calls, four times the sum of the smoothed deltas plus the final residual equals the sum of the history sums: no tick is lost |
| FrameControl.ResidualRecoversTicks | source/core.h:48-52 | with the residual, the sums of the worked example give 80 ticks; plain division gives 78 |
| FrameControl.RingWrite | source/core.cpp:134-135 | writes the slot at the index and moves the index on by one, modulo 4 |
| FrameControl.RingWritesIndex | source/core.cpp:134-135 | after `k` writes the index has moved on by `k`, modulo 4 |
| FrameControl.RingWritesSplit | source/core.cpp:134-135 | writing two runs one after the other is writing their concatenation |
| FrameControl.RingWritesKeep | source/core.cpp:134-135 | a slot that no write reaches keeps its value |
| FrameControl.SpikeLastsFourFrames | source/core.h:31 | a delta written into the ring stays in its slot for four calls and is overwritten on the fifth (also lines 41-47) |
| FrameControl.WorkedExample | source/core.h:39-52 | the worked example (steady 10 ms frames, then one 40 ms frame, then four 10 ms frames): the five calls return 1, 2, 2, 2, 1 steps, eight in total, and the clock ends back in its steady state |
| FrameControl.ExampleCall | source/core.cpp:100-165 | one call under the example's configuration, unfolded |
| FrameControl.SteadyState | source/core.cpp:100-165 | with a full history of `tick_per_step`, a frame of exactly `tick_per_step` takes one step and changes nothing else |
| FrameControl.SnapPeriod | source/core.cpp:96 | the period is `ceil(ticks_per_second / frequency)` |
| FrameControl.FrameController.Create | source/core.cpp:89 | `create` zero-fills everything, the history included |
| FrameControl.FrameController.AddSnappingFrequency | source/core.cpp:92-98 | only while `snapping_count < 7`: appends the rounded-up period, and changes nothing else |
| FrameControl.FrameController.ResyncNextStep | source/core.cpp:167-175 | the clock becomes `Resynced` of the old clock |
| FrameControl.FrameController.ElapsedTicks | source/core.cpp:106-116 | rebaselines `time` and returns the interval's end and the clamped raw delta |
| FrameControl.FrameController.SmoothDelta | source/core.cpp:131-145 | writes the delta into the ring and advances the index; returns the smoothed delta and stores the new residual |
| FrameControl.FrameController.SnapDelta | source/core.cpp:118-129 | the snapping loop returns the first-match snapped delta |
| FrameControl.FrameController.HistorySum | source/core.cpp:137-138 | the sum of the four history entries |
| FrameControl.FrameController.TakeSteps | source/core.cpp:147-159 | over the cap: `step_maximum` steps after a resync; otherwise: the quantised steps, deducted from the accumulator |
| FrameControl.FrameController.UpdateTime | source/core.cpp:100-165 | `update_time` leaves the clock and returns the steps that `Update` describes |
| PixelCanvas.PixelIndex | source/core.cpp:201 | row-major layout: pixel (x, y) is at `y * width + x`, inside the buffer, and row and column can be read back from the index (also source/core.h:88-91) |
| PixelCanvas.PixelIndexBijective | source/core.cpp:201 | distinct in-range pixels have distinct slots, and every slot belongs to a pixel |
| PixelCanvas.Canvas.Create | source/core.cpp:177-181 | an empty canvas, 0 by 0 |
| PixelCanvas.Canvas.SetResolution | source/core.cpp:186-195 | always updates the size, and reallocates exactly when the byte size changes; otherwise the buffer and its contents are kept |
| PixelCanvas.Canvas.SetPixel | source/core.cpp:197-202 | requires an in-range pixel; writes exactly the slot of (x, y), and every other pixel keeps its colour |
| PixelCanvas.Canvas.Clear | source/core.cpp:204-207 | every slot takes the colour |
| Chip8Spec.Zeros | source/main.cpp:154-168 | a run of zero bytes of the given length |
| Chip8Spec.Initial | source/main.cpp:141-202 | `Chip8_create`: PC at 0x200 and no error; the font at 0..79, the ROM at 0x200 and every other memory byte zero; I, DT, ST and SP zero |
| Chip8Spec.ShiftedRight | source/main.cpp:525 | each sprite row shifted right within its byte, one row per row |
| Chip8Spec.ShiftedLeft | source/main.cpp:552 | each sprite row shifted left within its byte, one row per row |
| Chip8Spec.XorPass | source/main.cpp:520-531 | one pass of the draw keeps the screen size |
| Chip8Spec.ErasesWithinExists | source/main.cpp:528 | a pass's erasure flag is set exactly when some row XOR clears a set bit |
| Chip8Spec.DrawSprite | source/main.cpp:505-574 | the draw keeps the screen at 256 bytes |
| Chip8Spec.DrawPasses | source/main.cpp:520-572 | the four passes keep the screen at 256 bytes |
| Chip8Spec.FirstRelease | source/main.cpp:628-634 | the key scan stops at a key at or after its start, or at 16 |
| Chip8Spec.Execute | source/main.cpp:241-738 | the dispatch keeps the machine well formed, and no instruction writes the keyboard |
| Chip8Spec.GroupOf | source/main.cpp:241-738 | only `Dxyn` goes to the draw, and only unknown words go to the unknown case |
| Chip8Spec.ExecuteFlow | source/main.cpp:241-274 | CLS, RET, JP and CALL keep the machine well formed |
| Chip8Spec.ExecuteTest | source/main.cpp:275-308 | the skips and the key wait keep the machine well formed (also lines 430-441 and 576-640) |
| Chip8Spec.ExecuteLoad | source/main.cpp:309-372 | the loads and the logic instructions keep the machine well formed (also lines 458-468 and 612-620) |
| Chip8Spec.LoadRegs | source/main.cpp:309-372 | a register-file update keeps sixteen registers |
| Chip8Spec.ExecuteArith | source/main.cpp:373-429 | the carrying and shifting instructions keep the machine well formed |
| Chip8Spec.AddRegs | source/main.cpp:373-385 | `8xy4` keeps sixteen registers |
| Chip8Spec.SubRegs | source/main.cpp:386-397 | `8xy5` keeps sixteen registers |
| Chip8Spec.ShrRegs | source/main.cpp:398-407 | `8xy6` keeps sixteen registers |
| Chip8Spec.SubnRegs | source/main.cpp:408-419 | `8xy7` keeps sixteen registers |
| Chip8Spec.ShlRegs | source/main.cpp:420-429 | `8xyE` keeps sixteen registers |
| Chip8Spec.ExecuteDraw | source/main.cpp:469-575 | `Dxyn` keeps the machine well formed |
| Chip8Spec.DrawChecked | source/main.cpp:505-574 | the draw after its checks keeps the machine well formed |
| Chip8Spec.ExecuteIndex | source/main.cpp:442-457 | the I and timer instructions and `JP V0` keep the machine well formed (also lines 641-685) |
| Chip8Spec.ExecuteMemory | source/main.cpp:686-733 | BCD, store and load keep the machine well formed |
| Chip8Spec.Fetch | source/main.cpp:235-238 | the big-endian fetch always decodes to a well-formed instruction |
| Chip8Spec.Cycle | source/main.cpp:225-742 | one loop iteration keeps the machine well formed |
| Chip8Spec.Tick | source/main.cpp:225-230 | the timer update keeps the machine well formed |
| Chip8Spec.Issue | source/main.cpp:235-740 | fetch, advance and dispatch keep the machine well formed |
| Chip8Spec.Complete | source/main.cpp:740 | the keyboard copy keeps the machine well formed |
| Chip8Spec.Run | source/main.cpp:223-743 | the loop keeps the machine well formed and runs at most `instruction_count` instructions |
| Chip8Spec.DecodeWf | source/main.cpp:241-738 | every word decodes to a well-formed instruction |
| Chip8Instructions.AddRegCarry | source/main.cpp:373-385 | `8xy4`: `Vx + 256 * VF == old Vx + old Vy`, with `VF` 0 or 1; the other registers and the machine are unchanged |
| Chip8Instructions.AddRegsSum | source/main.cpp:382-384 | the same on the register file |
| Chip8Instructions.AddRegsKept | source/main.cpp:382-384 | `8xy4` changes only `Vx` and `VF` |
| Chip8Instructions.CarryBits | source/main.cpp:382-384 | the 16-bit sum is its low byte plus 256 times the carry |
| Chip8Instructions.AddRegIntoFlag | source/main.cpp:383-384 | `8Fy4` writes `VF` last, so `VF` ends up holding the sum and not the carry |
| Chip8Instructions.SubBorrow | source/main.cpp:386-397 | `8xy5` with neither operand `VF`: `VF == 1` exactly when `Vx > Vy`, and `Vx` becomes `Vx - Vy` mod 256; nothing else changes |
| Chip8Instructions.SubRegsBorrow | source/main.cpp:395-396 | the same on the register file, with neither operand `VF` |
| Chip8Instructions.SubIntoFlag | source/main.cpp:386-397 | `8Fy5` writes `VF` last: it ends as the flag minus `Vy` (minus itself when `y` is F), and nothing else changes |
| Chip8Instructions.SubReadsNewFlag | source/main.cpp:395-396 | `8xF5` subtracts the freshly written flag, not the old `VF` |
| Chip8Instructions.SubRegsNewFlag | source/main.cpp:395-396 | the same on the register file |
| Chip8Instructions.SubnBorrow | source/main.cpp:408-419 | `8xy7` with neither operand `VF`: `VF == 1` exactly when `Vy > Vx`, and `Vx` becomes `Vy - Vx` mod 256 |
| Chip8Instructions.SubnRegsBorrow | source/main.cpp:417-418 | the same on the register file, with neither operand `VF` |
| Chip8Instructions.SubnIntoFlag | source/main.cpp:408-419 | `8Fy7` writes `VF` last: it ends as `Vy` minus the flag (itself minus itself when `y` is F), and nothing else changes |
| Chip8Instructions.SubnReadsNewFlag | source/main.cpp:417-418 | `8xF7` subtracts `Vx` from the freshly written flag, not from the old `VF` |
| Chip8Instructions.ShrHalves | source/main.cpp:398-407 | `8xy6` with `x` not F: `2 * Vx + VF == old Vx`; `VF` is bit 0 |
| Chip8Instructions.ShrRegsHalves | source/main.cpp:405-406 | the same on the register file, with `x` not F |
| Chip8Instructions.ShrIntoFlag | source/main.cpp:398-407 | `8Fy6` shifts the freshly written bit 0 out: `VF` ends as 0, and nothing else changes |
| Chip8Instructions.ShlDoubles | source/main.cpp:420-429 | `8xyE` with `x` not F: `Vx + 256 * VF == 2 * old Vx`; `VF` is bit 7 |
| Chip8Instructions.ShlRegsDoubles | source/main.cpp:427-428 | the same on the register file, with `x` not F |
| Chip8Instructions.ShlIntoFlag | source/main.cpp:420-429 | `8FyE` doubles the freshly written bit 7: `VF` ends as 2 when bit 7 of the old `VF` was set and 0 otherwise, and nothing else changes |
| Chip8Instructions.BcdDigits | source/main.cpp:686-703 | `Fx33` faults when I..I+2 is out of bounds; otherwise it writes three decimal digits of `Vx` and touches no other byte |
| Chip8Instructions.BcdValue | source/main.cpp:694-702 | the three digits are below 10 and spell `Vx` |
| Chip8Instructions.BcdFrame | source/main.cpp:694-702 | no byte outside I..I+2 changes, nor any other state |
| Chip8Instructions.DecimalDigits | source/main.cpp:698-702 | `b / 100`, `(b % 100) / 10` and `b % 10` are digits that spell `b` |
| Chip8Instructions.StoreFootprint | source/main.cpp:704-718 | `Fx55` faults when out of bounds; otherwise it copies V0..Vx to I.., touches nothing else, and leaves I unchanged |
| Chip8Instructions.LoadFootprint | source/main.cpp:719-733 | `Fx65` faults when out of bounds; otherwise it loads V0..Vx from I.. and leaves the other registers and I unchanged |
| Chip8Instructions.StoreThenLoad | source/main.cpp:704-733 | `Fx55` followed by `Fx65` with the same I and x: the load changes nothing |
| Chip8Instructions.FirstReleaseLowest | source/main.cpp:628-634 | the scan finds the lowest key released since the last instruction, and finds none exactly when no key was released |
| Chip8Instructions.KeyWait | source/main.cpp:621-640 | `Fx0A` stores the lowest released key in `Vx` and changes nothing else; with no released key it rewinds PC by 2 |
| Chip8Instructions.KeyWaitResult | source/main.cpp:621-640 | the same, stated through the scan |
| Chip8Instructions.KeyWaitFound | source/main.cpp:636-637 | a found key is stored in `Vx` |
| Chip8Instructions.KeyIndexByte | source/main.cpp:637 | a key index below 16 survives the store into a byte |
| Chip8Instructions.CallStaysInStack | source/main.cpp:264-274 | in the corrected model, CALL with a full stack faults; a successful CALL pushes the advanced PC at SP and jumps |
| Chip8Instructions.CallThenReturn | source/main.cpp:245-274 | a successful CALL followed by RET restores the machine; only the pushed stack slot remains |
| Chip8Instructions.ReturnOnEmptyStack | source/main.cpp:247-250 | RET with SP == 0 sets SP_INCORRECT and changes nothing else |
| Chip8Instructions.RegisterChecksPass | source/main.cpp:134-139 | `Chip8_validate_registers` never fires for the nibble operands of a decoded instruction |
| Chip8Instructions.FontAddressInFont | source/main.cpp:668-685 | `Fx29` points I at the five font bytes of digit `Vx & 0xF`, inside the font |
| Chip8Instructions.DrawHeightAlwaysFits | source/main.cpp:473 | a nibble height is always below 32, so that part of the draw check never fires (also line 482) |
| Chip8Instructions.ClsBlanks | source/main.cpp:241-244 | after CLS no pixel is on |
| Chip8Instructions.CallPushAsWritten | source/main.cpp:268-272 | as written, CALL pushes at the current SP |
| Chip8Instructions.CallGuardAsWrittenOverflows | source/main.cpp:268 | as written, CALL at SP == 16 passes the guard and pushes at index 16, one past the stack; the corrected model faults |
| Chip8Instructions.SkipKeyAsWritten | source/main.cpp:576-593 | as written, `Ex9E` rejects only keys above 16 |
| Chip8Instructions.SkipKeyAsWrittenReadsPastKeyboard | source/main.cpp:585 | with `Vx == 16`, `Ex9E` as written passes the check and reads `KEYBOARD[16]`; the corrected model reports KEY_UNKNOWN |
| Chip8Instructions.SkipKeyCorrected | source/main.cpp:576-593 | corrected `Ex9E`: KEY_UNKNOWN exactly when `Vx >= 16`, the same bound as `ExA1`; otherwise it agrees with the code and skips exactly when the key is down (also line 603) |
| Chip8Properties.DecodeEncode | source/main.cpp:241-738 | every instruction the dispatch tells apart has a word that decodes back to it |
| Chip8Properties.DecodeEncodeFlow | source/main.cpp:241-274 | the round trip for CLS, RET, JP, CALL, `Annn` and `Bnnn` (also lines 442-457) |
| Chip8Properties.DecodeEncodeByteOperand | source/main.cpp:275-296 | the round trip for the register-and-byte instructions (also lines 309-328 and 458-468) |
| Chip8Properties.DecodeEncodeRegisterPair | source/main.cpp:297-308 | the round trip for the register-pair tests and logic (also lines 329-372 and 430-441) |
| Chip8Properties.DecodeEncodeArith | source/main.cpp:373-429 | the round trip for the carrying, shifting and draw instructions (also lines 469-473) |
| Chip8Properties.DecodeEncodeTimer | source/main.cpp:576-658 | the round trip for the key and timer instructions |
| Chip8Properties.DecodeEncodeMemory | source/main.cpp:659-733 | the round trip for the instructions on memory at I |
| Chip8Properties.EncodeDecode | source/main.cpp:241-738 | decoding loses nothing: re-encoding a decoded word gives the word back |
| Chip8Properties.EncodeDecodeFlow | source/main.cpp:241-296 | the same for high nibbles 0 to 3 |
| Chip8Properties.EncodeDecodeRegisters | source/main.cpp:297-328 | the same for high nibbles 4 to 7 |
| Chip8Properties.EncodeDecodeArith | source/main.cpp:329-429 | the same for high nibble 8 |
| Chip8Properties.EncodeDecodeOperands | source/main.cpp:430-575 | the same for high nibbles 9 to 0xD |
| Chip8Properties.EncodeDecodeSystem | source/main.cpp:576-738 | the same for high nibbles 0xE and 0xF |
| Chip8Properties.XorPassPointwise | source/main.cpp:520-531 | a pass XORs each byte with its row's value inside its rows, and leaves other bytes alone |
| Chip8Properties.TwoPassesPointwise | source/main.cpp:520-544 | two passes XOR both contributions into each byte |
| Chip8Properties.PassesPointwise | source/main.cpp:520-572 | the four passes XOR a fixed mask into each byte |
| Chip8Properties.DrawPointwise | source/main.cpp:505-572 | `Dxyn` XORs a mask that depends only on position and sprite |
| Chip8Properties.XorAssoc | source/main.cpp:526 | XOR on bytes is associative |
| Chip8Properties.DrawTwiceRestores | source/main.cpp:505-572 | drawing the same sprite twice at the same place restores the screen |
| Chip8Properties.PassErasesOnRegion | source/main.cpp:524-530 | a pass's flag is set exactly when it turns off a pixel in its rows |
| Chip8Properties.PassesErasure | source/main.cpp:518-574 | the four flags together are set exactly when the finished draw turned some pixel off |
| Chip8Properties.PassScreensHold | source/main.cpp:520-572 | the intermediate screens of the four passes are what each pass leaves |
| Chip8Properties.XorPassAll | source/main.cpp:520-531 | a pass XORs its rows, and keeps the other bytes |
| Chip8Properties.ErasureCombine | source/main.cpp:528-574 | when each pass sees its rows' original bytes, the OR of the flags is "some pixel was turned off" |
| Chip8Properties.ClearedInRows | source/main.cpp:520-572 | a pixel the draw turns off lies in the rows of some pass |
| Chip8Properties.RegionRowsLeft | source/main.cpp:520-531 | the direct left pass acts on bytes that no later pass touches |
| Chip8Properties.RegionWrappedLeft | source/main.cpp:533-544 | the wrapped left pass acts on bytes that no other pass touches |
| Chip8Properties.RegionRowsRight | source/main.cpp:547-558 | the direct right pass acts on bytes that no other pass touches |
| Chip8Properties.RegionWrappedRight | source/main.cpp:560-571 | the wrapped right pass acts on bytes that no other pass touches |
| Chip8Properties.FactsRowsLeft | source/main.cpp:520-531 | the final value of a byte in the direct left rows |
| Chip8Properties.FactsWrappedLeft | source/main.cpp:533-544 | the final value of a byte in the wrapped left rows |
| Chip8Properties.FactsRowsRight | source/main.cpp:547-558 | the final value of a byte in the direct right rows |
| Chip8Properties.FactsWrappedRight | source/main.cpp:560-571 | the final value of a byte in the wrapped right rows |
| Chip8Properties.FactsOutside | source/main.cpp:520-572 | bytes outside every pass keep their value |
| Chip8Properties.DrawErasesIff | source/main.cpp:518-574 | `VF` after `Dxyn` is 1 exactly when the draw turned some pixel off |
| Chip8Properties.FontZeroDrawn | source/main.cpp:176 | the digit 0 drawn at (0, 0) on a blank screen lights its five rows and nothing else (also lines 505-572) |
| Chip8Properties.FontZeroCollides | source/main.cpp:505-574 | drawn once, the digit 0 does not collide; drawn again it collides and blanks the screen |
| Chip8Run.CountDownNeverRises | source/main.cpp:229-230 | `DT -= min(DT, d)` never raises a timer |
| Chip8Run.CountDownByDecrement | source/main.cpp:229-230 | a decrement that fits is subtracted exactly |
| Chip8Run.CountDownStopsAtZero | source/main.cpp:229-230 | a timer never goes below zero |
| Chip8Run.CycleOnError | source/main.cpp:225-233 | with ERROR set on entry, an iteration updates only the timers (and refreshes a memory fault) and draws no random byte |
| Chip8Run.RunOnError | source/main.cpp:223-233 | with ERROR set, the step loop stops after its first timer update; ERROR never returns to NONE |
| Chip8Run.CycleRemembersKeys | source/main.cpp:740 | the keyboard is never written, and after a completed instruction LAST_KEYBOARD equals KEYBOARD |
| Chip8Run.RunOutcome | source/main.cpp:223-743 | all `instruction_count` instructions run exactly when no error stops the loop |
| Chip8Machine.Chip8.Create | source/main.cpp:141-202 | `Chip8_create` leaves the state `Initial` describes |
| Chip8Machine.Chip8.ValidateMemory | source/main.cpp:123-128 | sets MEMORY_OUT_OF_BOUNDS exactly on the code's bounds test, and otherwise changes nothing |
| Chip8Machine.Chip8.ValidateRegisters | source/main.cpp:134-139 | sets REGISTER_OUT_OF_BOUNDS exactly when `index + count > 16`, and otherwise changes nothing |
| Chip8Machine.Chip8.ExecuteFlow | source/main.cpp:241-274 | agrees with the value model |
| Chip8Machine.Chip8.ExecuteTest | source/main.cpp:275-308 | agrees with the value model (also lines 430-441 and 576-640) |
| Chip8Machine.Chip8.CompareRegister | source/main.cpp:275-308 | the four register comparisons agree with the value model (also lines 430-441) |
| Chip8Machine.Chip8.TestKey | source/main.cpp:576-640 | the key instructions, dispatched to `SkipKey` and `LoadKey`, agree with the value model |
| Chip8Machine.Chip8.SkipKey | source/main.cpp:576-607 | SKP and SKNP: KEY_UNKNOWN for a key index of 16 or more, otherwise a skip exactly as the value model says |
| Chip8Machine.Chip8.LoadKey | source/main.cpp:619-640 | the key wait stores the found key in `Vx` or rewinds PC by 2, as the value model says |
| Chip8Machine.Chip8.WaitKey | source/main.cpp:628-634 | the key loop returns the lowest released key, or -1 |
| Chip8Machine.Chip8.ExecuteLoad | source/main.cpp:309-372 | agrees with the value model; only `Cxkk` draws from the generator (also lines 458-468 and 612-620) |
| Chip8Machine.Chip8.ExecuteArith | source/main.cpp:373-429 | agrees with the value model |
| Chip8Machine.Chip8.ExecuteDraw | source/main.cpp:469-575 | agrees with the value model |
| Chip8Machine.Chip8.DrawChecked | source/main.cpp:505-574 | agrees with the value model |
| Chip8Machine.Chip8.DrawRows | source/main.cpp:505-572 | the four loops leave the screen and flag of `DrawSprite` |
| Chip8Machine.Chip8.XorColumns | source/main.cpp:520-572 | the two columns' passes leave the screen and flag of `DrawPasses` |
| Chip8Machine.Chip8.XorRows | source/main.cpp:520-531 | one loop XORs in its rows and returns its erasure flag |
| Chip8Machine.Chip8.ExecuteIndex | source/main.cpp:442-457 | agrees with the value model (also lines 641-685) |
| Chip8Machine.Chip8.ExecuteMemory | source/main.cpp:686-733 | agrees with the value model |
| Chip8Machine.Chip8.StoreRegisters | source/main.cpp:714-717 | the store loop copies V0..V(count-1) to memory at I and nothing else |
| Chip8Machine.Chip8.LoadRegisters | source/main.cpp:729-732 | the load loop replaces V0..V(count-1) from memory at I and nothing else |
| Chip8Machine.Chip8.Execute | source/main.cpp:241-738 | the dispatch agrees with the value model |
| Chip8Machine.Chip8.Cycle | source/main.cpp:225-742 | one iteration agrees with the value model |
| Chip8Machine.Chip8.TickTimers | source/main.cpp:229-230 | the timer update agrees with the value model |
| Chip8Machine.Chip8.FetchInstr | source/main.cpp:235-238 | the big-endian fetch of the word at PC |
| Chip8Machine.Chip8.AdvancePc | source/main.cpp:239 | PC moves on by 2 |
| Chip8Machine.Chip8.CompleteInstr | source/main.cpp:740 | LAST_KEYBOARD takes KEYBOARD |
| Chip8Machine.Chip8.Issue | source/main.cpp:235-740 | fetch, advance, dispatch and completion agree with the value model |
| Chip8Machine.Chip8.Step | source/main.cpp:209-744 | `Chip8_step` leaves the machine and the generator that `Run` describes |
| Chip8Machine.ToScreen | source/main.cpp:746-768 | every CHIP-8 pixel (x, y) is written to canvas row `height - 1 - y`: white when its bit is set, black otherwise; every canvas pixel outside the 64×32 image keeps its colour |
| Chip8Machine.ColumnToScreen | source/main.cpp:758-766 | one column's pixels are written; other columns, and the rows above the image, keep their colour |
| CommandLine.Backslashes | source/engine_win32.cpp:353 | a run of `n` backslashes (also line 366) |
| CommandLine.SkipWhitespace | source/engine_win32.cpp:292-293 | `eat_whitespaces` stops at the first character that is not a space or tab |
| CommandLine.BackslashEnd | source/engine_win32.cpp:345-346 | the end of a run of backslashes |
| CommandLine.QuoteEnd | source/engine_win32.cpp:374-375 | the next `"`, or the end of the line |
| CommandLine.QuoteEndUnpaired | source/engine_win32.cpp:377-378 | the scan reaches the end exactly when no `"` follows |
| CommandLine.ProgramName | source/engine_win32.cpp:305-326 | the program-name scan stops at whitespace or the end, and copies at most what it read |
| CommandLine.Argument | source/engine_win32.cpp:339-388 | one argument: stops at unquoted whitespace or the end, always makes progress, and copies at most what it read |
| CommandLine.ParseCommandLine | source/engine_win32.cpp:296-399 | there is always a program name |
| CommandLine.EvenBackslashes | source/engine_win32.cpp:349-355 | `2n` backslashes before `"` emit `n` backslashes, and the quote is handled next |
| CommandLine.OddBackslashes | source/engine_win32.cpp:349-361 | `2n + 1` backslashes before `"` emit `n` backslashes and a literal `"` |
| CommandLine.LiteralBackslashes | source/engine_win32.cpp:364-368 | backslashes not followed by `"` are copied literally |
| CommandLine.QuotationMark | source/engine_win32.cpp:370-383 | `"` toggles quoting and is dropped, except that an opening `"` with no pair is emitted |
| CommandLine.EatWhitespaces | source/engine_win32.cpp:293 | the loop agrees with `SkipWhitespace` |
| CommandLine.FindQuote | source/engine_win32.cpp:374-375 | the loop agrees with `QuoteEnd` |
| CommandLine.ScanProgramName | source/engine_win32.cpp:305-326 | the corrected program-name loop agrees with `ProgramName` |
| CommandLine.EmitBackslashes | source/engine_win32.cpp:353 | appends `n` backslashes (also line 366) |
| CommandLine.ScanBackslashes | source/engine_win32.cpp:342-369 | a backslash run moves the cursor on, and preserves the meaning of the rest of the argument |
| CommandLine.ScanQuote | source/engine_win32.cpp:370-383 | a quotation mark preserves the meaning of the rest of the argument |
| CommandLine.ScanArgument | source/engine_win32.cpp:339-388 | the argument loop agrees with `Argument` |
| CommandLine.CreateArgcArgv | source/engine_win32.cpp:296-399 | `argv` is the split line and `argc` its length |
| CommandLine.Footprint | source/engine_win32.cpp:329 | the bytes the arguments take with their terminating NULs (also line 391) |
| CommandLine.OtherArgumentsBound | source/engine_win32.cpp:337-395 | the arguments take no more bytes than the line they come from, plus one |
| CommandLine.ArgvFits | source/engine_win32.cpp:199-200 | a line shorter than 4095 characters fits `g_argv_data[4096]` and `g_argv_ptr_data[2048]` |
| CommandLine.JoinArguments | source/engine_win32.cpp:337-395 | joining quoted arguments gives an empty line for none, and each starts with a space |
| CommandLine.QuoteEndAt | source/engine_win32.cpp:374-375 | the quote scan stops at the first `"` |
| CommandLine.LiteralRun | source/engine_win32.cpp:384-387 | inside quotes, ordinary characters are copied as they are |
| CommandLine.QuotedArgument | source/engine_win32.cpp:370-387 | a quoted argument without quotes or backslashes reads back as itself |
| CommandLine.JoinedStep | source/engine_win32.cpp:337-395 | one quoted argument of a joined line reads back |
| CommandLine.JoinedCons | source/engine_win32.cpp:337-395 | reading one argument, then the rest of the line |
| CommandLine.JoinedNil | source/engine_win32.cpp:337 | an empty rest gives no arguments |
| CommandLine.JoinedArguments | source/engine_win32.cpp:337-395 | a line of quoted arguments reads back as those arguments |
| CommandLine.QuotedName | source/engine_win32.cpp:305-326 | a quoted program name reads back without its quotes |
| CommandLine.QuotedRoundTrip | source/engine_win32.cpp:296-399 | splitting a line built from quoted plain arguments gives the program name and the arguments back |
| CommandLine.ProgramNameAsWritten | source/engine_win32.cpp:306-326 | as written, the name loop either stops at whitespace or reads past the end of the line |
| CommandLine.NameOverrun | source/engine_win32.cpp:306 | as-written loop: it reads past the end exactly when the corrected scan reaches the end; otherwise the two agree (also line 314) |
| CommandLine.NoArgumentsOverrun | source/engine_win32.cpp:306 | as-written loop: a command line made of just the program name is read past its NUL; the corrected split gives `[name]` |
| Audio.AlignToCacheline | source/engine.cpp:74-76 | a multiple of 64, with `param_size <= a < param_size + 64` |
| Audio.AlignIsLeast | source/engine.cpp:74-76 | the least multiple of 64 that holds the parameters |
| Audio.ParamStart | source/engine.cpp:55 | parameter buffer `i` starts at `(i - 1) * param_offset` |
| Audio.NewDSP | source/engine.cpp:78-92 | indices 1, 2 and 3, no callbacks, offset `a`, and the internal data copied in after three buffers |
| Audio.ParamBuffersDisjoint | source/engine.cpp:74-92 | the three parameter buffers lie inside the allocation, before the internal data, and do not overlap |
| Audio.FirstAvailable | source/engine.cpp:65-72 | the first Available slot; a crash exactly when there is none |
| Audio.Recycled | source/engine.cpp:112-124 | every slot is kept except the Destroyable ones |
| Audio.RecycledProperties | source/engine.cpp:112-124 | after recycling no slot is Destroyable; only Destroyable slots became Available; a second pass changes nothing |
| Audio.Audio.constructor | source/engine_win32.cpp:1120-1123 | every slot Available, and the counter at zero |
| Audio.Audio.CreateDSP | source/engine.cpp:63-95 | the first Available slot becomes Reserved with a new DSP; on a crash nothing changes |
| Audio.Audio.Activate | source/engine.cpp:97-102 | requires a Reserved slot, which becomes Active |
| Audio.Audio.Deactivate | source/engine.cpp:104-110 | requires an Active slot, which becomes Inactive; returns the audio thread counter |
| Audio.Audio.DestroyDestroyable | source/engine.cpp:112-124 | the slots become `Recycled` of the old slots |
| Audio.FirstAvailableIsFirst | source/engine.cpp:65-70 | the scan that stops at the first Available slot finds `FirstAvailable` |
| Input.CreateControlData | source/engine.cpp:126-135 | a released button with no transitions; any other type is reported |
| Input.FindByAddress | source/engine.cpp:142-147 | the first action with the same name pointer, or -1 exactly when there is none (also lines 162-169) |
| Input.FindByText | source/engine.cpp:176-179 | the first action whose name has the same characters, or -1 exactly when there is none |
| Input.RemoveSwapped | source/engine.cpp:166 | removing by swap leaves one action fewer |
| Input.RemoveSwappedMultiset | source/engine.cpp:166 | removing by swap takes out exactly that action and keeps every other |
| Input.UnregisteredIsGone | source/engine.cpp:160-172 | with distinct names, an unregistered name is gone and the others stay distinct |
| Input.RegisterKeepsDistinct | source/engine.cpp:137-158 | registering a new name keeps the names distinct, and the new action is the one found for it |
| Input.KeyedAction | source/engine_win32.cpp:1931-1934 | an action takes the key at its scancode and keeps its name, type and scancode |
| Input.Keyed | source/engine_win32.cpp:1930-1935 | every action of the table takes the key at its scancode |
| Input.KeyedLatestWins | source/engine_win32.cpp:1923-1937 | applying a second keyboard overrides the first |
| Input.Listener.constructor | source/engine.h:413-421 | an empty listener with the given device type and pairing mode |
| Input.Listener.RegisterAction | source/engine.cpp:137-158 | requires an unregistered name pointer; appends the action with fresh control data |
| Input.Listener.UnregisterAction | source/engine.cpp:160-172 | removes the first action with the same name pointer by swap; an unknown name is reported and changes nothing |
| Input.Listener.GetActionStatus | source/engine.cpp:174-186 | the data of the first action with the same characters; an unknown name is reported and gets zeroed data |
| Input.Listener.ApplyKeys | source/engine_win32.cpp:1930-1935 | corrected: requires scancodes below 255; every action takes the key at its scancode |
| RawInput.CreateScancodeTable | source/engine_win32.cpp:1730-1747 | the sixteen RAM keys map to their scancodes, and every other entry is 0xFF |
| RawInput.RAMKeyToScancode | source/engine_win32.cpp:1695-1699 | requires a mapped key; returns its scancode, which indexes the key table |
| RawInput.AscendingIsStrictlySorted | source/engine_win32.cpp:1732-1747 | an ascending table is strictly sorted |
| RawInput.ScancodesDistinct | source/engine_win32.cpp:1732-1747 | the sixteen scancodes are distinct, mapped and in range |
| RawInput.EveryRAMKeyHasScancode | source/engine_win32.cpp:1695-1699 | both assertions of `RAMKey_to_scancode` hold for every RAM key (also lines 1730-1747) |
| RawInput.FindKeyboard | source/engine_win32.cpp:1720-1727 | the first keyboard with the device, or -1 exactly when there is none |
| RawInput.FindOwnDevice | source/engine_win32.cpp:1720-1727 | with distinct devices each keyboard is found by its own device |
| RawInput.SearchKeyboardByDevice | source/engine_win32.cpp:1720-1727 | the loop agrees with `FindKeyboard` |
| RawInput.FindKeyboardAt | source/engine_win32.cpp:1721-1724 | the first match is the one found |
| RawInput.SearchDeviceInList | source/engine_win32.cpp:1800-1804 | returns an index of the handle in the device list, or -1 exactly when it is not there |
| RawInput.NewKeyboard | source/engine_win32.cpp:1705-1709 | a new keyboard for the device: timestamp 0 and every key released with no transitions (also lines 1829-1832) |
| RawInput.Connected | source/engine_win32.cpp:1806-1816 | the surviving keyboards are listed devices, taken from the old keyboards, with none added |
| RawInput.WithNewKeyboards | source/engine_win32.cpp:1818-1836 | the connection pass only appends |
| RawInput.NewKeyboardsProperties | source/engine_win32.cpp:1818-1836 | devices stay distinct; every listed keyboard device is present; every appended keyboard is new and comes from a listed keyboard device |
| RawInput.NewKeyboardsDistinct | source/engine_win32.cpp:1818-1836 | the connection pass keeps the devices distinct |
| RawInput.NewKeyboardsCover | source/engine_win32.cpp:1818-1836 | after the pass, every listed keyboard device from the start index on has a keyboard |
| RawInput.NewKeyboardsListed | source/engine_win32.cpp:1818-1836 | every appended keyboard is a new keyboard, with no transitions, on a listed keyboard device |
| RawInput.ConnectedDistinct | source/engine_win32.cpp:1806-1816 | removing disconnected keyboards keeps the devices distinct |
| RawInput.ConnectedKeeps | source/engine_win32.cpp:1806-1816 | a keyboard whose device is still listed survives |
| RawInput.ReconciledProperties | source/engine_win32.cpp:1806-1836 | the reconciled keyboards are exactly the listed keyboard devices: distinct and listed; every listed keyboard present; every survivor kept |
| RawInput.ReconciledWellFormed | source/engine_win32.cpp:1806-1836 | every keyboard keeps a key table of 255 entries |
| RawInput.Pressed | source/engine_win32.cpp:2040-2043 | the key takes the new state, and its transition count grows by one exactly when the state changed |
| RawInput.Changes | source/engine_win32.cpp:2042 | the number of state changes is at most the number of events |
| RawInput.TransitionCount | source/engine_win32.cpp:2039-2046 | after a run of events the count has grown by the number of changes, and the key holds the last state |
| RawInput.DropDisconnected | source/engine_win32.cpp:1806-1816 | the removal loop agrees with `Connected` |
| RawInput.ClearedTransitions | source/engine_win32.cpp:2007-2009 | every transition count is zero; device, timestamp and key states are kept |
| RawInput.FrameTransitions | source/engine_win32.cpp:2007-2009 | within a frame, a key's transition count is the number of changes among that frame's events (also lines 2039-2046) |
| RawInput.ClearKeys | source/engine_win32.cpp:2008-2009 | the loop zeroes each count and keeps each state |
| RawInput.RawInputState.constructor | source/engine_win32.cpp:1765-1769 | no keyboards, and the frame counter at zero |
| RawInput.RawInputState.UpdateConnectedDevices | source/engine_win32.cpp:1774-1839 | a failed device query changes nothing; otherwise the keyboards become `Reconciled` |
| RawInput.RawInputState.RemoveDisconnected | source/engine_win32.cpp:1806-1816 | the keyboards become `Connected` |
| RawInput.RawInputState.AddConnected | source/engine_win32.cpp:1818-1836 | the keyboards become `WithNewKeyboards` |
| RawInput.RawInputState.ResetTransitions | source/engine_win32.cpp:2007-2009 | every keyboard becomes `ClearedTransitions` of itself |
| RawInput.RawInputState.KeyEvent | source/engine_win32.cpp:2030-2047 | an unknown device or a non-transition flag changes nothing; otherwise only that keyboard's key is `Pressed`, and its timestamp is the frame counter |
| RawInput.RawInputState.EndFrame | source/engine_win32.cpp:1955 | the frame counter moves on by one |
| Pairing.RefreshedDevice | source/engine_win32.cpp:1851-1857 | a listener keeps its device while that keyboard is connected, and is otherwise unpaired |
| Pairing.RefreshStep | source/engine_win32.cpp:1849-1858 | one listener's refresh |
| Pairing.Refreshed | source/engine_win32.cpp:1846-1858 | each refreshed listener holds its refreshed device; the others are untouched |
| Pairing.MostRecent | source/engine_win32.cpp:1869-1878 | the free keyboard with the largest timestamp above the floor, the lowest index on ties; -1 and the floor when there is none (also lines 1898-1907) |
| Pairing.Claim | source/engine_win32.cpp:1880-1883 | the listener takes the keyboard's device and the keyboard is claimed by it |
| Pairing.Phase1Step | source/engine_win32.cpp:1861-1885 | one listener of phase 1 |
| Pairing.Phase1 | source/engine_win32.cpp:1861-1885 | only unpaired listeners that seek the most recent keyboard can change |
| Pairing.Phase2Step | source/engine_win32.cpp:1888-1916 | one listener of phase 2 |
| Pairing.Phase2 | source/engine_win32.cpp:1888-1916 | only paired persistent listeners can change; unpaired ones stay unpaired; paired ones stay on connected keyboards |
| Pairing.ClaimPaired | source/engine_win32.cpp:1880-1883 | a claim keeps every paired device a connected keyboard's |
| Pairing.Phase1StepPaired | source/engine_win32.cpp:1861-1885 | phase 1 for one listener keeps that invariant |
| Pairing.Phase2StepPaired | source/engine_win32.cpp:1888-1916 | phase 2 for one listener keeps that invariant |
| Pairing.Phase1Paired | source/engine_win32.cpp:1861-1885 | phase 1 keeps that invariant |
| Pairing.Pairings | source/engine_win32.cpp:1841-1917 | after pairing, every paired listener is on a connected keyboard |
| Pairing.PairingByMode | source/engine_win32.cpp:1849-1916 | Pairing_None never gains a keyboard and is unpaired when its keyboard goes; Most_Recent keeps a connected keyboard; every listener ends unpaired or on a connected keyboard |
| Pairing.UnpairedTakesMostRecent | source/engine_win32.cpp:1865-1884 | an unpaired seeking listener stays unpaired exactly when no free keyboard has a non-zero timestamp, and otherwise takes the most recent free one |
| Pairing.PersistentMovesForward | source/engine_win32.cpp:1892-1915 | a listener changes keyboard in phase 2 only when it is persistent, and then moves to a strictly more recent free keyboard, releasing its old one |
| Pairing.MatchingDistinct | source/engine_win32.cpp:1841-1917 | in a matching no two listeners share a keyboard |
| Pairing.RefreshStepMatching | source/engine_win32.cpp:1849-1858 | one refresh step extends the matching |
| Pairing.RefreshedMatching | source/engine_win32.cpp:1846-1858 | the refresh of a pairing without shared keyboards leaves a matching |
| Pairing.ClaimMatching | source/engine_win32.cpp:1880-1883 | claiming a free keyboard for an unpaired listener keeps a matching |
| Pairing.MoveMatching | source/engine_win32.cpp:1909-1914 | moving a paired listener to a free keyboard, releasing its old one, keeps a matching |
| Pairing.Phase1StepMatching | source/engine_win32.cpp:1861-1885 | phase 1 for one listener keeps a matching |
| Pairing.Phase2StepMatching | source/engine_win32.cpp:1888-1916 | phase 2 for one listener keeps a matching |
| Pairing.Phase1Matching | source/engine_win32.cpp:1861-1885 | phase 1 keeps a matching |
| Pairing.Phase2Matching | source/engine_win32.cpp:1888-1916 | phase 2 keeps a matching |
| Pairing.PairingsMatching | source/engine_win32.cpp:1841-1917 | when no two listeners shared a keyboard before, `keyboard_to_listener` and the devices form a matching after, and again none share |
| Pairing.ScanMostRecent | source/engine_win32.cpp:1872-1878 | the timestamp loop agrees with `MostRecent` (also lines 1901-1907) |
| Pairing.RefreshPairings | source/engine_win32.cpp:1846-1858 | the reset and refresh loops agree with `Refreshed` |
| Pairing.PairOne | source/engine_win32.cpp:1862-1884 | one iteration of the phase 1 loop is `Phase1Step` |
| Pairing.PairUnpaired | source/engine_win32.cpp:1861-1885 | the phase 1 loop agrees with `Phase1` |
| Pairing.MoveOne | source/engine_win32.cpp:1889-1915 | one iteration of the phase 2 loop is `Phase2Step` |
| Pairing.MovePersistent | source/engine_win32.cpp:1888-1916 | the phase 2 loop agrees with `Phase2` |
| Pairing.UpdateDeviceListenerPairings | source/engine_win32.cpp:1841-1917 | the listeners' devices and `keyboard_to_listener` become `Pairings` of the old devices |
| RawInputUpdate.ScancodeCheckOffByOne | source/engine_win32.cpp:1933-1934 | as written: the assertion lets scancode 255 through, one past the last key |
| RawInputUpdate.LastClaim | source/engine_win32.cpp:1923-1927 | -1 exactly when no keyboard so far claims the listener; otherwise the last keyboard claiming it |
| RawInputUpdate.LastClaimOfMatching | source/engine_win32.cpp:1923-1937 | in a matching, the keyboard claiming a paired listener is its own, and an unpaired listener has none |
| RawInputUpdate.ClaimsInRange | source/engine_win32.cpp:1925-1928 | in a matching every claim is -1 or a listener index |
| RawInputUpdate.ListenerState | source/engine_win32.cpp:1923-1937 | a listener's table after the first `n` keyboards is a table of the same shape |
| RawInputUpdate.ListenerStateStep | source/engine_win32.cpp:1923-1937 | one more keyboard: its listener takes its keys, and every other listener is as before |
| RawInputUpdate.Tables | source/engine_win32.cpp:1923-1937 | one table per listener |
| RawInputUpdate.UpdateListenerStates | source/engine_win32.cpp:1919-1938 | every listener's table becomes `ListenerState`, the keys of the last keyboard claiming it |
| RawInputUpdate.KeyboardStep | source/engine_win32.cpp:1924-1936 | one keyboard's pass: the listener claiming it takes its keys, and the others are untouched |
| RawInputUpdate.ApplyToListener | source/engine_win32.cpp:1927-1936 | the claimed listener's table takes the keys, and the others are untouched |
| RawInputUpdate.ReconciledReal | source/engine_win32.cpp:1806-1836 | reconciling real keyboards against real entries keeps real handles |
| RawInputUpdate.SeesOwnKeyboardOfMatching | source/engine_win32.cpp:1919-1938 | through a matching, each paired listener shows its own keyboard's keys, and each unpaired listener keeps its table |
| RawInputUpdate.PairListeners | source/engine_win32.cpp:1948-1950 | a fresh `keyboard_to_listener`, filled by pairing into a matching |
| RawInputUpdate.ShowKeyboards | source/engine_win32.cpp:1951 | each listener shows its own keyboard's keys |
| RawInputUpdate.UpdateInput | source/engine_win32.cpp:1940-1958 | one frame: the keyboards are reconciled (kept as they were when the device query failed) and the frame counter moves on; listeners are paired with no keyboard shared; each paired listener shows its own keyboard's keys |

## Left out

- Host services are inputs, not models: the window and message pump, `GetRawInputDeviceList`, `GetRawInputData`, device-name queries, the timer and the file system. `ram_error` logging becomes a returned flag, as in `UnregisterAction`. The failure of `GetRawInputDeviceList` becomes the `failed` argument of `UpdateConnectedDevices`.
- Concurrency is not modelled:
  - the atomics and mutexes;
  - `MuProSiCo::push` and `get_everything_reversed` (compare-and-swap loops);
  - the `Audio_DSP` triple-buffer parameter hand-off;
  - the audio thread's pass that turns Inactive slots into Destroyable ones (engine_win32.cpp:1081-1091).
  - The DSP slot states are a plain array, since `compare_exchange` from one thread is an ordinary test and set.
- `destroy_destroyable_DSPs` calls the DSP's `destroy` callback and frees its memory. Neither is modelled: the callback is foreign code.
- `create_DSP` leaves the three parameter buffers uninitialised (they come from `malloc`). The model fills them with zeros.
- Floating point is left out:
  - the emulation speed and the instruction and timer accumulators of `Chip8_step`, which become the instruction count and the per-instruction decrements;
  - `LFO_Processor`;
  - `Timer::as_ms`.
- FrameControl.Update: the snap tolerance `tick_snapping_error` is a `double`. It is modelled as the fraction `errorNum / errorDen`, compared exactly.
- FrameControl.Update: `time`, the step count and the accumulator are `u64`. They are unbounded here, so a wrap after 2^64 ticks and the `(s64)` cast of a delta above 2^63 are not modelled.
- The 64-bit `frame_counter` of the RawInput layer is a `nat`; its wrap-around is not modelled.
- Numerics.Abs: `-x` on a signed type overflows at that type's minimum. The model works on unbounded integers and does not capture this.
- SubBorrow, SubRegsBorrow, SubnBorrow, SubnRegsBorrow, ShrHalves, ShrRegsHalves, ShlDoubles and ShlRegsDoubles require that `VF` is not the destination (nor, for the subtractions, the source). The excluded cases are stated by `SubIntoFlag`, `SubReadsNewFlag`, `SubnIntoFlag`, `SubnReadsNewFlag`, `ShrIntoFlag` and `ShlIntoFlag`.
- Numerics.NextCapacity: the `u64` function and its integer counterpart `GrowthCapacity` are shown equal only at sample points (`NextCapacityExamples`). A general bit-vector-to-integer equivalence is out of reach of the solver. `array_raw` grows by `GrowthCapacity`.
- Random: the claims of the comments at core.cpp:20 and 47, that JUMP equals 2^64 NEXT calls and LONG_JUMP equals 2^96, are not proved. The model proves that each jump runs exactly 128 NEXT calls and XORs the seed into its accumulator at each set bit.
- The random byte of `Cxkk` comes from the xoroshiro model: `random_char` on the generator passed to `Step`.
- Chip8Machine.Chip8: `V`, the stack and the two keyboards are `seq` fields that the methods reassign. Memory and the screen are arrays.
- Chip8Spec.Execute: the model drops the `KEY_UNKNOWN` check of `Fx29` (main.cpp:678-682). `FontAddressInFont` shows it can never fire, since a digit below 16 times 5 is below 80.
- `PC_INCORRECT` is never set by the code, and the model never sets it either.
- Chip8Machine.ToScreen: the alpha channel of the two colours is uninitialised in the source. The model takes it as two parameters.
- The game wiring of main.cpp (`game_create`, `game_update`, `game_render`, `game_destroy`) is not part of this model. It only calls the pieces above.
- CommandLine.CreateArgcArgv: the argument bytes and pointer table are `g_argv_data` and `g_argv_ptr_data` in the source. Here `argv` is a sequence of strings. `ArgvFits` shows that a line shorter than 4095 characters fits both buffers; longer lines, which overflow them, are not modelled.
- CommandLine.ScanProgramName: the source's name and quote loops never test for NUL. The model requires a line without NUL characters and stops at its end, which is the Findings row below.
- Input.Name: a C string is modelled as its address and its characters. Pointer equality compares addresses, and `strcmp` compares characters.
- Pairing.UpdateDeviceListenerPairings: the listeners' `device` fields are modelled as the array `devices`, and their pairing modes as `modes`. The listeners themselves are in `RawInputUpdate`.
- Pairing.PairingsMatching: it requires that no two listeners share a device beforehand, and that no keyboard has the handle `INVALID_HANDLE_VALUE`. The source assumes both.
- RawInputUpdate.UpdateInput requires, for every listener, that its scancodes lie below 255: the corrected bound of the Findings row.
- RawInputUpdate.UpdateInput requires that the device list holds no `INVALID_HANDLE_VALUE` entry, as `RealEntries`.
- RawInputUpdate.UpdateInput moves the frame counter on before the listener passes, where the source does it last. Only key events read the counter, so the final state is the same.
- The `WM_INPUT` branch asserts `dwType == RIM_TYPEKEYBOARD` and a scancode below 255. `KeyEvent` requires the second for known devices. The first, on the message header, is not modelled.

## Findings

| source | as written | input that shows it | evidently intended | confidence | as-written member | corrected member |
|---|---|---|---|---|---|---|
| source/main.cpp:268 | CALL reports a full stack when `SP == sizeof(STACK) - 1`, a byte count (31), so `SP == 16` passes | CALL with `SP == 16`: the push writes `STACK[16]`, one past the 16 entries | a full stack (`SP == 16`) is SP_INCORRECT | not executed | Chip8Instructions.CallGuardAsWrittenOverflows | Chip8Instructions.CallStaysInStack |
| source/main.cpp:585 | `Ex9E` rejects a key index only when `> sizeof(KEYBOARD)`, so 16 passes | `Ex9E` with `Vx == 16` reads `KEYBOARD[16]` | reject `>= 16`, as `ExA1` does at main.cpp:603 | not executed | Chip8Instructions.SkipKeyAsWrittenReadsPastKeyboard | Chip8Instructions.SkipKeyCorrected |
| source/engine_win32.cpp:306 | the program-name loop runs while the character is not whitespace and never tests for NUL | a command line made of just the program name, with no argument, is read past its terminating NUL | stop at NUL as well | not executed | CommandLine.NoArgumentsOverrun | CommandLine.ScanProgramName |
| source/engine_win32.cpp:314 | the quote scan of the program name looks for `"` and never tests for NUL | a program name with an unpaired quote, `"abc`, is read past its NUL | stop at NUL, as the argument scan does at engine_win32.cpp:375 | not executed | CommandLine.NameOverrun | CommandLine.ProgramName |
| source/engine_win32.cpp:1933 | `update_listener_states` asserts `scancode <= carray_size(keys)` (255) | an action with scancode 255 reads `keys[255]`, one past the 255 keys | `scancode < 255` | not executed | RawInputUpdate.ScancodeCheckOffByOne | Input.Listener.ApplyKeys |

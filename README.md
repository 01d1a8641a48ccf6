# ChipEight.Net interpreter core in Dafny

A model of the CHIP-8 interpreter in `src/ChipEight.Net/Hardware` of
ChipEight.Net, with proofs about it.

The hardware components are classes over arrays, as in the C# code:
- `MemoryUnit.Memory`: 4096 bytes whose indexer throws outside [0, 4095].
- `RegisterFile.Registers`: 17 bytes, V0..VF plus one spare.
- `CallStack.Stack`: 24 entries and a stack pointer that starts at -1.
- `Screen.Display`: a 64x32 buffer of 0/1 cells, drawn by exclusive or, with collision detection.
- `Chip8Extensions`: the array-clearing extensions.

The nibble and byte extraction helpers are functions in `NibbleHelpers`.
The byte operators `&`, `|` and `^` are defined one binary digit at a time in `Bytes`, and their laws are proved by induction over the width.

The interpreter itself is the class `Interpreter.Chip8`. It has one method
per handler, plus `Reset`, `LoadFontSet`, `Tick`, `Load`, the two timer
updates and `KeyDown`/`KeyUp`. Every method is proved to change the
components exactly as a function of `Machine` changes an immutable `State`
record. `Machine` also holds the dispatch table, which is the sixteen-entry
handler dictionary of the source. The properties of the instruction set are
proved about these functions:
- `MachineProperties` covers sprite drawing and the cycle.
- `InstructionProperties` covers the other handlers, reset, loading, the timers and the keys.

The model keeps the behaviour of the code as written, including these quirks:
- Every `0nnN` returns when N is E and clears the screen otherwise, so `0nnn` (SYS) clears the screen.
- `Ex9E` skips when the key is down, and every other `ExNN`, not only `ExA1`, skips when it is up.
- `Fx0A` only raises the waiting flag. The key pressed next is not stored in Vx.
- `Dxyn` clips at the screen edge and does not wrap.
- The 8xy5 and 8xy7 flags use a strict comparison: equal operands give VF = 0.
- `Reset` keeps the waiting and draw flags.
- `Bnnn` can set PC up to 0x10FE, and the next fetch then throws.
- `Fx33` writes the ones digit first, so an I + 2 past 4095 throws before anything is written.
- `Fx55` and `Fx65` throw part-way with the earlier transfers done, and so does `Dxyn` with the earlier rows drawn.

An exception thrown by `Memory` (an address outside [0, 4095]) or by an
unknown 8 or F sub-opcode is an outcome `Failed(...)`. The state keeps the
changes made before the throw. The start and stop of the sound are the
outcomes `StartSound` and `StopSound`. The random byte of `Cxkk` is a
parameter.

## Model

Each `Interpreter.Chip8` method row also stands for the `Machine` or `Screen` function its contract names (`Machine.Tick`, `Machine.Run`, `Machine.Reset`, `Machine.Load`, `Machine.Handle8`, `Machine.HandleF`, `Machine.DrawSprite`, `Machine.RegDump`, `Machine.RegLoad`, `Machine.BCDFromRegister`, the timer and key functions, `Screen.Toggle`, `Screen.Blit`, and one function per handler). Those functions are the specification. The lemmas in the rows below state what they mean.

| member | source | states |
|---|---|---|
| Bytes.ToByte | src/ChipEight.Net/Hardware/Chip8Handlers.cs:94 | the `(byte)` cast is a byte, equal to its argument when that is already one, and congruent to it modulo 256 |
| Bytes.ToWord | src/ChipEight.Net/Hardware/Chip8Handlers.cs:290 | the `(ushort)` cast is a 16-bit value, equal to its argument when in range, and congruent to it modulo 2^16 |
| Bytes.AndBits | src/ChipEight.Net/Hardware/Chip8Handlers.cs:166 | the bitwise and of the low n bits of two values, built from least significant bit up, is an n-bit value |
| Bytes.OrBits | src/ChipEight.Net/Hardware/Chip8Handlers.cs:155 | the bitwise or of the low n bits of two values is an n-bit value |
| Bytes.XorBits | src/ChipEight.Net/Hardware/Chip8Handlers.cs:177 | the bitwise exclusive or of the low n bits of two values is an n-bit value |
| Bytes.XorBitsCancel | src/ChipEight.Net/Hardware/Chip8Handlers.cs:177 | for every width n, exclusive or with the same bits twice gives back an n-bit value unchanged |
| Bytes.AndBitsAbsorb | src/ChipEight.Net/Hardware/Chip8Handlers.cs:166 | for every width n, and with the same bits a second time changes nothing |
| Bytes.OrBitsAbsorb | src/ChipEight.Net/Hardware/Chip8Handlers.cs:155 | for every width n, or with the same bits a second time changes nothing |
| Bytes.BitsSelf | src/ChipEight.Net/Hardware/Chip8Handlers.cs:150-167 | an n-bit value and-ed or or-ed with itself is itself |
| Bytes.BitsZero | src/ChipEight.Net/Hardware/Chip8Handlers.cs:301 | and with 0 gives 0, and exclusive or of 0 with 0 gives 0, at every width |
| Bytes.AndPowerOfTwo | src/ChipEight.Net/Hardware/Display.cs:15-22 | and with the single-bit mask 2^j keeps exactly bit j of the value: the mask itself when the bit is set, 0 otherwise |
| Bytes.BitXorCancel | src/ChipEight.Net/Hardware/Chip8Handlers.cs:177 | exclusive or with the same byte twice gives the first byte back |
| Bytes.BitOrAbsorb | src/ChipEight.Net/Hardware/Chip8Handlers.cs:155 | or with the same byte a second time changes nothing |
| Bytes.BitAndAbsorb | src/ChipEight.Net/Hardware/Chip8Handlers.cs:166 | and with the same byte a second time changes nothing |
| Bytes.BitOrAndSelf | src/ChipEight.Net/Hardware/Chip8Handlers.cs:150-167 | a byte or-ed or and-ed with itself is itself |
| Bytes.BitAndZero | src/ChipEight.Net/Hardware/Chip8Handlers.cs:301 | and with 0 gives 0 |
| Bytes.XorOfBits | src/ChipEight.Net/Hardware/Display.cs:36-38 | on cell values 0 and 1, `current ^ update` is 1 exactly when they differ |
| NibbleHelpers.GetNibbleOfByte | src/ChipEight.Net/Hardware/NibbleHelpers.cs:19-24 | the result is below 16; Upper is the high hex digit of the byte, Lower leaves a multiple of 16 |
| NibbleHelpers.GetByte | src/ChipEight.Net/Hardware/NibbleHelpers.cs:26-31 | High is the word's high byte, Low leaves a multiple of 256 |
| NibbleHelpers.GetNibbleOfWord | src/ChipEight.Net/Hardware/NibbleHelpers.cs:54-57 | the nibble of a byte of a word is the word's hex digit at that position |
| NibbleHelpers.GetNibbleAt | src/ChipEight.Net/Hardware/NibbleHelpers.cs:37-52 | defined exactly for indices 1..4 (any other index throws); nibble `index` is hex digit `index` of the word, 1 being the most significant |
| NibbleHelpers.ByteRoundTrip | src/ChipEight.Net/Hardware/NibbleHelpers.cs:26-31 | the high and low byte put back together give the word |
| NibbleHelpers.NibbleRoundTrip | src/ChipEight.Net/Hardware/NibbleHelpers.cs:19-24 | the upper and lower nibble put back together give the byte |
| NibbleHelpers.WordFromNibbles | src/ChipEight.Net/Hardware/NibbleHelpers.cs:37-52 | the four nibbles, most significant first, put back together give the word |
| NibbleHelpers.ExampleWord | tests/ChipEight.Net.Tests/Hardware/NibbleHelperTests.cs:10-37 | the bytes and nibbles of 0xABCD are AB, CD and A, B, C, D |
| Chip8Extensions.ClearBytes | src/ChipEight.Net/Hardware/Chip8Extensions.cs:5-9 | every element of the byte array is 0 afterwards |
| Chip8Extensions.ClearWords | src/ChipEight.Net/Hardware/Chip8Extensions.cs:11-15 | every element of the word array is 0 afterwards |
| Chip8Extensions.ClearFlags | src/ChipEight.Net/Hardware/Chip8Extensions.cs:17-21 | every element of the flag array is false afterwards |
| MemoryUnit.Memory.constructor | src/ChipEight.Net/Hardware/Memory.cs:7 | a fresh 4096-byte memory, all zero |
| MemoryUnit.Memory.Get | src/ChipEight.Net/Hardware/Memory.cs:11-16 | an address yields its byte exactly when it is in [0, 4095]; any other address throws |
| MemoryUnit.Memory.Set | src/ChipEight.Net/Hardware/Memory.cs:18-23 | an address outside [0, 4095] throws with nothing written; otherwise exactly that byte changes |
| MemoryUnit.Memory.Clear | src/ChipEight.Net/Hardware/Memory.cs:26-29 | every address reads 0 afterwards |
| RegisterFile.Registers.constructor | src/ChipEight.Net/Hardware/Registers.cs:5 | seventeen fresh registers, all zero |
| RegisterFile.Registers.Set | src/ChipEight.Net/Hardware/Registers.cs:7-11 | register i takes the value and no other changes |
| RegisterFile.Registers.Clear | src/ChipEight.Net/Hardware/Registers.cs:13-16 | every register is 0 afterwards |
| CallStack.Stack.constructor | src/ChipEight.Net/Hardware/Stack.cs:11-15 | an empty stack (pointer -1) of 24 zero entries |
| CallStack.Stack.Head | src/ChipEight.Net/Hardware/Stack.cs:9 | the entry at the stack pointer, on a non-empty stack |
| CallStack.Stack.Push | src/ChipEight.Net/Hardware/Stack.cs:17-21 | the pointer moves up one, the value is stored there and becomes the head, and no other entry changes |
| CallStack.Stack.Pop | src/ChipEight.Net/Hardware/Stack.cs:23-28 | returns the old head, moves the pointer down one and leaves the entries as they were |
| CallStack.Stack.Clear | src/ChipEight.Net/Hardware/Stack.cs:30-34 | the stack is empty and every entry is 0 |
| Screen.Blank | src/ChipEight.Net/Hardware/Display.cs:5-10 | the cleared buffer is a 0/1 grid with every pixel off |
| Screen.FlipLowBitInvolution | src/ChipEight.Net/Hardware/Display.cs:38 | toggling a cell twice restores it, and on 0/1 a toggle swaps 0 and 1 |
| Screen.ToggleCells | src/ChipEight.Net/Hardware/Display.cs:26-41 | `SetPixel` off screen changes nothing and reports no collision; on screen only that cell changes, it toggles when `on` holds, and the collision is reported exactly when a lit cell was toggled; a 0/1 grid stays 0/1 |
| Screen.MaskPower | src/ChipEight.Net/Hardware/Display.cs:15-22 | the k-th mask tested by DrawSprite is the single bit 2^(7-k) |
| Screen.MaskBit | src/ChipEight.Net/Hardware/Display.cs:15-22 | the test of the sprite row against mask k is its binary digit 7 - k, the leftmost pixel being the most significant bit |
| Screen.BlitBitsCells | src/ChipEight.Net/Hardware/Display.cs:12-24 | the first n of the row's pixels toggle exactly the on-screen cells they cover; a 0/1 grid stays 0/1 |
| Screen.BlitBitsErased | src/ChipEight.Net/Hardware/Display.cs:12-24 | the or of the pixels' collisions holds exactly when a covered on-screen cell was lit |
| Screen.BlitCells | src/ChipEight.Net/Hardware/Display.cs:12-24 | a sprite row toggles exactly the on-screen pixels of row y, from column x on, whose mask bit is set; a 0/1 grid stays 0/1 |
| Screen.BlitCell | src/ChipEight.Net/Hardware/Display.cs:12-24 | a sprite row toggles an on-screen pixel exactly when it covers it |
| Screen.BlitErased | src/ChipEight.Net/Hardware/Display.cs:12-24 | a sprite row reports a collision exactly when one of the pixels it covers was lit |
| Screen.BlitBitsTwice | src/ChipEight.Net/Hardware/Display.cs:12-24 | drawing the same pixels at the same place twice restores the buffer |
| Screen.BlitTwice | src/ChipEight.Net/Hardware/Display.cs:12-24 | drawing the same sprite row at the same place twice restores the buffer |
| Screen.Display.constructor | src/ChipEight.Net/Hardware/Display.cs:5 | a fresh blank 64x32 buffer |
| Screen.Display.Clear | src/ChipEight.Net/Hardware/Display.cs:7-10 | a new blank buffer replaces the old one; no pixel is lit |
| Screen.Display.SetPixel | src/ChipEight.Net/Hardware/Display.cs:26-41 | the buffer and the collision are those of `Screen.Toggle`, whose meaning `ToggleCells` states |
| Screen.Display.DrawSprite | src/ChipEight.Net/Hardware/Display.cs:12-24 | the buffer and the collision are those of `Screen.Blit`, whose meaning `BlitCells` and `BlitErased` state |
| Screen.Display.GetPixel | src/ChipEight.Net/Hardware/Display.cs:43-49 | a pixel reads as lit exactly when its cell holds 1 |
| Machine.Family | src/ChipEight.Net/Hardware/Chip8.cs:168 | the handler key is the most significant hex digit, below 16 |
| Machine.X | src/ChipEight.Net/Hardware/Chip8Handlers.cs:45 | the x operand is hex digit 2 of the instruction |
| Machine.Y | src/ChipEight.Net/Hardware/Chip8Handlers.cs:70 | the y operand is hex digit 3 of the instruction |
| Machine.N | src/ChipEight.Net/Hardware/Chip8Handlers.cs:99 | the sub-opcode and row count is the last hex digit |
| Machine.KK | src/ChipEight.Net/Hardware/Chip8Handlers.cs:46 | the byte operand is the low byte of the instruction |
| Machine.NNN | src/ChipEight.Net/Hardware/Chip8Handlers.cs:31 | the address operand `op & 0x0FFF` is below 0x1000 and is what remains of the instruction once its family nibble is taken off |
| Machine.DrawRows | src/ChipEight.Net/Hardware/Chip8Handlers.cs:321-324 | the sprite loop keeps the buffer's size; its effect is stated by `MachineProperties.DrawRowsCells` and `DrawRowsCollision` |
| Machine.Reached | src/ChipEight.Net/Hardware/Chip8Handlers.cs:420-423 | of `count` transfers from `index` on, the ones before the first address past 4095 are done; all are done exactly when the last address is inside memory |
| Machine.GetHandler | src/ChipEight.Net/Hardware/Chip8.cs:166-169 | the dictionary's handler for an instruction is the one registered under its most significant nibble |
| MachineProperties.DrawRowsStuck | src/ChipEight.Net/Hardware/Chip8Handlers.cs:321-324 | once a row address has thrown, the loop changes nothing more |
| MachineProperties.DrawRowsNext | src/ChipEight.Net/Hardware/Chip8Handlers.cs:323 | a row read from inside memory is blitted one screen line lower, and its collision is or-ed in |
| MachineProperties.DrawRowsComplete | src/ChipEight.Net/Hardware/Chip8Handlers.cs:321-324 | rows read from inside memory are all drawn |
| MachineProperties.DrawRowsCell | src/ChipEight.Net/Hardware/Chip8Handlers.cs:321-324 | the rows toggle an on-screen pixel exactly when the sprite covers it |
| MachineProperties.DrawRowsCells | src/ChipEight.Net/Hardware/Chip8Handlers.cs:321-324 | the rows are all drawn and toggle exactly the on-screen pixels the sprite covers |
| MachineProperties.DrawRowsCollision | src/ChipEight.Net/Hardware/Chip8Handlers.cs:319-324 | the collision holds exactly when a pixel the sprite covers was lit before |
| MachineProperties.DrawRowsTwice | src/ChipEight.Net/Hardware/Chip8Handlers.cs:321-324 | drawing the same rows twice restores the buffer |
| MachineProperties.DrawRowsGrid | src/ChipEight.Net/Hardware/Chip8Handlers.cs:321-324 | whatever happens, the buffer stays a 0/1 grid |
| MachineProperties.DrawRowsOutside | src/ChipEight.Net/Hardware/Chip8Handlers.cs:323 | rows running past 4095 stop at the first row outside memory, after drawing the rows inside it |
| MachineProperties.DrawSpriteInMemory | src/ChipEight.Net/Hardware/Chip8Handlers.cs:308-327 | Dxyn with its rows in memory inverts exactly the covered pixels, sets VF to 1 exactly when one of them was lit and to 0 otherwise, and changes nothing else but the draw flag |
| MachineProperties.DrawSpriteOutside | src/ChipEight.Net/Hardware/Chip8Handlers.cs:308-327 | Dxyn with a row past 4095 throws after drawing the rows inside memory and leaves VF alone |
| MachineProperties.DrawSpriteTwice | src/ChipEight.Net/Hardware/Chip8Handlers.cs:308-327 | drawing the same sprite twice restores the screen when neither coordinate register is VF |
| MachineProperties.FetchedHalves | src/ChipEight.Net/Hardware/Chip8.cs:131 | the fetched instruction is big-endian: its high byte is the byte at PC, its low byte the byte after, and its family the high nibble of the byte at PC |
| MachineProperties.TickFetches | src/ChipEight.Net/Hardware/Chip8.cs:123-137 | after a cycle that is not waiting and fetches inside memory, the opcode register holds the byte at PC as its high byte and the next byte as its low byte, and the handler that ran is the one keyed by the high nibble of the byte at PC |
| MachineProperties.RunOpcodeAndWaiting | src/ChipEight.Net/Hardware/Chip8.cs:134-136 | no handler writes the opcode register; the waiting flag after a handler is the flag before it, or raised exactly by Fx0A |
| MachineProperties.Handle8Keeps | src/ChipEight.Net/Hardware/Chip8Handlers.cs:97-134 | no 8xyN instruction writes the opcode register or the waiting flag |
| MachineProperties.HandleFKeeps | src/ChipEight.Net/Hardware/Chip8Handlers.cs:360-396 | no FxNN instruction writes the opcode register, and the waiting flag is raised exactly by Fx0A |
| InstructionProperties.AddConstantWraps | src/ChipEight.Net/Hardware/Chip8Handlers.cs:89-95 | 7xkk adds modulo 256, dropping the carry without reporting it, and changes no other register, VF included |
| InstructionProperties.AddConstantUndone | src/ChipEight.Net/Hardware/Chip8Handlers.cs:89-95 | adding kk and then 256 - kk to the same register restores the machine |
| InstructionProperties.LoadRegisterSets | src/ChipEight.Net/Hardware/Chip8Handlers.cs:79-84 | 6xkk's `(op & 0x0F00) / 256` is the x operand: Vx becomes kk and nothing else changes |
| InstructionProperties.LoadThenCompare | src/ChipEight.Net/Hardware/Chip8Handlers.cs:139-145 | 8xy0 copies Vy into Vx only, after which 5xy0 skips and 9xy0 does not |
| InstructionProperties.RegisterAddCarry | src/ChipEight.Net/Hardware/Chip8Handlers.cs:183-192 | 8xy4's result plus 256 times VF is the nine-bit sum, VF is 1 exactly on overflow, and the other registers keep their values |
| InstructionProperties.RegisterSubBorrow | src/ChipEight.Net/Hardware/Chip8Handlers.cs:197-209 | 8xy5 gives Vx - Vy modulo 256, VF is 1 exactly when Vx > Vy strictly, and the other registers keep their values |
| InstructionProperties.RegisterSUBNBorrow | src/ChipEight.Net/Hardware/Chip8Handlers.cs:230-242 | 8xy7 gives Vy - Vx modulo 256, VF is 1 exactly when Vy > Vx strictly, and the other registers keep their values |
| InstructionProperties.AddThenSub | src/ChipEight.Net/Hardware/Chip8Handlers.cs:183-209 | 8xy4 followed by 8xy5 restores Vx for distinct registers other than VF |
| InstructionProperties.RegisterSHRExact | src/ChipEight.Net/Hardware/Chip8Handlers.cs:214-225 | VF is the old low bit of Vx, also for 8Fy6; for x other than F, twice the new Vx plus VF is the old Vx; the other registers keep their values |
| InstructionProperties.RegisterSHLExact | src/ChipEight.Net/Hardware/Chip8Handlers.cs:247-258 | VF is the old high bit of Vx, also for 8FyE; for x other than F, the new Vx plus 256 times VF is twice the old Vx; the other registers keep their values |
| InstructionProperties.RegisterXorTwice | src/ChipEight.Net/Hardware/Chip8Handlers.cs:172-178 | 8xy3 applied twice with distinct registers restores the machine |
| InstructionProperties.RegisterOrAndIdempotent | src/ChipEight.Net/Hardware/Chip8Handlers.cs:150-167 | 8xy1 and 8xy2 applied a second time change nothing |
| InstructionProperties.RandomMasked | src/ChipEight.Net/Hardware/Chip8Handlers.cs:297-306 | Cxkk puts the random byte masked by kk in Vx, with no bit outside kk (0 for kk = 0), and changes nothing else |
| InstructionProperties.JumpTargets | src/ChipEight.Net/Hardware/Chip8Handlers.cs:29-32 | 1nnn jumps to nnn below 0x1000; Bnnn jumps to V0 + nnn, which never wraps but can reach 0x10FE, and equals 1nnn when V0 is 0 |
| InstructionProperties.IndexUpdates | src/ChipEight.Net/Hardware/Chip8Handlers.cs:437-443 | Annn sets I to a 12-bit address; Fx1E adds Vx to I modulo 2^16, leaving VF and everything else alone |
| InstructionProperties.DelayRoundTrip | src/ChipEight.Net/Hardware/Chip8Handlers.cs:409-461 | Fx15 then Fy07 copies Vx into Vy through the delay timer |
| InstructionProperties.SkipMoves | src/ChipEight.Net/Hardware/Chip8Handlers.cs:49 | a skip moves PC by 2 modulo 2^16 and changes nothing else |
| InstructionProperties.SkipConstComplement | src/ChipEight.Net/Hardware/Chip8Handlers.cs:43-62 | 3xkk skips exactly when Vx == kk, and 4xkk skips exactly when 3xkk does not |
| InstructionProperties.SkipRegistersComplement | src/ChipEight.Net/Hardware/Chip8Handlers.cs:67-74 | 5xyN skips exactly when Vx == Vy, and 9xyN skips exactly when 5xyN does not |
| InstructionProperties.KeyboardSkipIff | src/ChipEight.Net/Hardware/Chip8Handlers.cs:329-358 | ExNN skips exactly when the key Vx is down if N is E, and exactly when it is up otherwise |
| InstructionProperties.ZeroFamily | src/ChipEight.Net/Hardware/Chip8Handlers.cs:7-27 | 0nnE pops into PC and every other 0nnN clears the screen and raises the draw flag; 0000 behaves as 00E0 and 012E as 00EE |
| InstructionProperties.Handle8Unknown | src/ChipEight.Net/Hardware/Chip8Handlers.cs:97-134 | 8xyN fails exactly for N outside 0-7 and E, and then it throws with nothing changed |
| InstructionProperties.HandleFUnknown | src/ChipEight.Net/Hardware/Chip8Handlers.cs:360-396 | FxNN reports an unknown instruction exactly for NN outside the nine known ones, and then changes nothing |
| InstructionProperties.OnlyFx0AWaits | src/ChipEight.Net/Hardware/Chip8Handlers.cs:390-391 | over every handler and instruction, the waiting flag is raised after the instruction exactly when it was raised before or the instruction is Fx0A: Fx0A is the only instruction that starts a wait, and none ends one |
| InstructionProperties.WaitForKey | src/ChipEight.Net/Hardware/Chip8Handlers.cs:390-392 | Fx0A only raises the waiting flag; a cycle while waiting only lowers the draw flag; a key going down ends the wait and is stored only in the keyboard |
| InstructionProperties.FontCharAddress | src/ChipEight.Net/Hardware/Chip8Handlers.cs:398-407 | with the font loaded, Fx29 points I at the five bytes of the glyph of digit Vx, and leaves I alone when Vx > 0xF |
| InstructionProperties.BCDDigits | src/ChipEight.Net/Hardware/Chip8Handlers.cs:445-453 | Fx33 stores three decimal digits whose value is Vx at I..I+2 and nothing else; with I + 2 past 4095 it throws with nothing changed |
| InstructionProperties.DumpThenLoad | src/ChipEight.Net/Hardware/Chip8Handlers.cs:416-434 | Fx55 stores V0..Vx at I..I+x and changes nothing else in memory or the machine (I included), and Fx65 then restores exactly the original registers and changes nothing |
| InstructionProperties.RegDumpPartial | src/ChipEight.Net/Hardware/Chip8Handlers.cs:416-424 | Fx55 running past 4095 throws with the addresses from I to 4095 written and nothing but memory changed |
| InstructionProperties.RegLoadPartial | src/ChipEight.Net/Hardware/Chip8Handlers.cs:426-434 | Fx65 running past 4095 throws with the registers read from inside memory loaded, the rest untouched, and nothing but the registers changed |
| InstructionProperties.ResetState | src/ChipEight.Net/Hardware/Chip8.cs:77-121 | Reset gives a well-formed machine with PC 0x200, I, opcode and timers 0, an empty stack, the font at 0..79 and zero after it, and cleared screen, keys, registers and stack; the draw and waiting flags keep their values |
| InstructionProperties.ResetIdempotent | src/ChipEight.Net/Hardware/Chip8.cs:77-93 | resetting twice is resetting once |
| InstructionProperties.LoadProgram | src/ChipEight.Net/Hardware/Chip8.cs:139-143 | the program's bytes land from 0x200 on, the load succeeds exactly when the program fits, a longer one throws with the bytes that fit written, and nothing else changes |
| InstructionProperties.CallFromLoadedProgram | src/ChipEight.Net/Hardware/Chip8.cs:123-143 | after a reset, loading 22 34 and one cycle calls 0x234 with 0x202 on the stack |
| InstructionProperties.CallThenReturn | src/ChipEight.Net/Hardware/Chip8Handlers.cs:24-38 | 2nnn jumps to nnn with the old PC pushed, and a return then restores PC and the stack pointer |
| InstructionProperties.HandlerTableKeys | src/ChipEight.Net/Hardware/Chip8.cs:44-62 | the dictionary has a handler under each key 0x0..0xF, and each handler is under its own key |
| InstructionProperties.SetVValid | src/ChipEight.Net/Hardware/Registers.cs:7-11 | writing a register keeps the machine well-formed |
| InstructionProperties.Handle8Valid | src/ChipEight.Net/Hardware/Chip8Handlers.cs:97-134 | the 8 family keeps the machine well-formed |
| InstructionProperties.HandleFValid | src/ChipEight.Net/Hardware/Chip8Handlers.cs:360-396 | the F family keeps the machine well-formed |
| InstructionProperties.RunValid | src/ChipEight.Net/Hardware/Chip8.cs:44-62 | every handler keeps the machine well-formed |
| InstructionProperties.TickValid | src/ChipEight.Net/Hardware/Chip8.cs:123-137 | every cycle keeps the machine well-formed |
| InstructionProperties.DelayCountsDown | src/ChipEight.Net/Hardware/Chip8.cs:145-151 | after k timer periods the delay timer is its old value minus k, floored at 0, and nothing else changes |
| InstructionProperties.SoundCountsDown | src/ChipEight.Net/Hardware/Chip8.cs:153-164 | after k timer periods the sound timer is its old value minus k, floored at 0, and nothing else changes |
| InstructionProperties.SoundLasts | src/ChipEight.Net/Hardware/Chip8Handlers.cs:463-472 | Fx18 starts the sound exactly when Vx > 0, and the sound stops in exactly the Vx-th timer period after it |
| InstructionProperties.KeyDownThenUp | src/ChipEight.Net/Hardware/Chip8.cs:171-181 | a key going down is down, no other key changes, and the wait ends; down then up is the same as up, and restores the keyboard if the key was up |
| Interpreter.Chip8.constructor | src/ChipEight.Net/Hardware/Chip8.cs:35-69 | the components are taken and reset; the new state is a fixed point of `Machine.Reset` |
| Interpreter.Chip8.Reset | src/ChipEight.Net/Hardware/Chip8.cs:77-93 | the components hold `Machine.Reset` of the old state, whose meaning `ResetState` states |
| Interpreter.Chip8.LoadFontSet | src/ChipEight.Net/Hardware/Chip8.cs:95-121 | the loop copies the 80 font bytes to addresses 0..79 and changes no other byte |
| Interpreter.Chip8.Tick | src/ChipEight.Net/Hardware/Chip8.cs:123-137 | the new state and outcome are those of `Machine.Tick` |
| Interpreter.Chip8.Run | src/ChipEight.Net/Hardware/Chip8.cs:134-136 | invoking the handler from the dictionary gives the new state and outcome of `Machine.Run` |
| Interpreter.Chip8.Load | src/ChipEight.Net/Hardware/Chip8.cs:139-143 | the loop's effect is `Machine.Load`, whose meaning `LoadProgram` states |
| Interpreter.Chip8.UpdateDelayTimer | src/ChipEight.Net/Hardware/Chip8.cs:145-151 | one period of `Machine.UpdateDelayTimer` |
| Interpreter.Chip8.UpdateSoundTimer | src/ChipEight.Net/Hardware/Chip8.cs:153-164 | one period of `Machine.UpdateSoundTimer`, with the stop-sound event as result |
| Interpreter.Chip8.KeyDown | src/ChipEight.Net/Hardware/Chip8.cs:171-175 | the key is down and the wait ends, as `Machine.SetKey` |
| Interpreter.Chip8.KeyUp | src/ChipEight.Net/Hardware/Chip8.cs:177-181 | the key is up and the wait ends, as `Machine.SetKey` |
| Interpreter.Chip8.Handle0MostSignificantNibble | src/ChipEight.Net/Hardware/Chip8Handlers.cs:7-16 | returns when the last nibble is E and clears the screen otherwise |
| Interpreter.Chip8.HandleClearScreen | src/ChipEight.Net/Hardware/Chip8Handlers.cs:18-22 | the screen is blank and the draw flag raised |
| Interpreter.Chip8.HandleReturn | src/ChipEight.Net/Hardware/Chip8Handlers.cs:24-27 | PC takes the popped entry |
| Interpreter.Chip8.HandleJump | src/ChipEight.Net/Hardware/Chip8Handlers.cs:29-32 | PC takes nnn |
| Interpreter.Chip8.HandleCall | src/ChipEight.Net/Hardware/Chip8Handlers.cs:34-38 | PC is pushed and PC takes nnn |
| Interpreter.Chip8.HandleSkipEqualConst | src/ChipEight.Net/Hardware/Chip8Handlers.cs:43-50 | the state of `Machine.SkipEqualConst` |
| Interpreter.Chip8.HandleSkipNotEqualConst | src/ChipEight.Net/Hardware/Chip8Handlers.cs:55-62 | the state of `Machine.SkipNotEqualConst` |
| Interpreter.Chip8.HandleSkipRegistersEqual | src/ChipEight.Net/Hardware/Chip8Handlers.cs:67-74 | the state of `Machine.SkipRegistersEqual` |
| Interpreter.Chip8.HandleLoadRegister | src/ChipEight.Net/Hardware/Chip8Handlers.cs:79-84 | the state of `Machine.LoadRegister` |
| Interpreter.Chip8.HandleAddConstantToRegister | src/ChipEight.Net/Hardware/Chip8Handlers.cs:89-95 | the state of `Machine.AddConstantToRegister` |
| Interpreter.Chip8.Handle8MostSignificantNibble | src/ChipEight.Net/Hardware/Chip8Handlers.cs:97-134 | the state and outcome of `Machine.Handle8` |
| Interpreter.Chip8.HandleLoadVyIntoVx | src/ChipEight.Net/Hardware/Chip8Handlers.cs:139-145 | the state of `Machine.LoadVyIntoVx` |
| Interpreter.Chip8.HandleRegisterOr | src/ChipEight.Net/Hardware/Chip8Handlers.cs:150-156 | the state of `Machine.RegisterOr` |
| Interpreter.Chip8.HandleRegisterAnd | src/ChipEight.Net/Hardware/Chip8Handlers.cs:161-167 | the state of `Machine.RegisterAnd` |
| Interpreter.Chip8.HandleRegisterXor | src/ChipEight.Net/Hardware/Chip8Handlers.cs:172-178 | the state of `Machine.RegisterXor` |
| Interpreter.Chip8.HandleRegisterAdd | src/ChipEight.Net/Hardware/Chip8Handlers.cs:183-192 | the state of `Machine.RegisterAdd` |
| Interpreter.Chip8.HandleRegisterSub | src/ChipEight.Net/Hardware/Chip8Handlers.cs:197-209 | the state of `Machine.RegisterSub` |
| Interpreter.Chip8.HandleRegisterSHR | src/ChipEight.Net/Hardware/Chip8Handlers.cs:214-225 | the state of `Machine.RegisterSHR` |
| Interpreter.Chip8.HandleRegisterSUBN | src/ChipEight.Net/Hardware/Chip8Handlers.cs:230-242 | the state of `Machine.RegisterSUBN` |
| Interpreter.Chip8.HandleRegisterSHL | src/ChipEight.Net/Hardware/Chip8Handlers.cs:247-258 | the state of `Machine.RegisterSHL` |
| Interpreter.Chip8.HandleRegisterSNE | src/ChipEight.Net/Hardware/Chip8Handlers.cs:263-273 | the state of `Machine.RegisterSNE` |
| Interpreter.Chip8.HandleSetIndexToConstant | src/ChipEight.Net/Hardware/Chip8Handlers.cs:278-281 | the state of `Machine.SetIndexToConstant` |
| Interpreter.Chip8.HandleJumpToV0WithOffset | src/ChipEight.Net/Hardware/Chip8Handlers.cs:286-292 | the state of `Machine.JumpToV0WithOffset` |
| Interpreter.Chip8.HandleRandomPlusConst | src/ChipEight.Net/Hardware/Chip8Handlers.cs:297-306 | the state of `Machine.RandomPlusConst` for the given random byte |
| Interpreter.Chip8.HandleDrawSprite | src/ChipEight.Net/Hardware/Chip8Handlers.cs:308-327 | the state and outcome of `Machine.DrawSprite` |
| Interpreter.Chip8.DrawRowsAt | src/ChipEight.Net/Hardware/Chip8Handlers.cs:319-324 | the loop leaves the buffer, collision and completion of `Machine.DrawRows` |
| Interpreter.Chip8.DrawRow | src/ChipEight.Net/Hardware/Chip8Handlers.cs:323 | one turn of the loop extends `Machine.DrawRows` by one row, or throws with nothing drawn |
| Interpreter.Chip8.HandleKeyboardSkip | src/ChipEight.Net/Hardware/Chip8Handlers.cs:329-340 | the state of `Machine.KeyboardSkip` |
| Interpreter.Chip8.HandleSkipKeyPressed | src/ChipEight.Net/Hardware/Chip8Handlers.cs:342-349 | skips exactly when key Vx is down |
| Interpreter.Chip8.HandleSkipKeyNotPressed | src/ChipEight.Net/Hardware/Chip8Handlers.cs:351-358 | skips exactly when key Vx is up |
| Interpreter.Chip8.HandleFMostSignificantNibble | src/ChipEight.Net/Hardware/Chip8Handlers.cs:360-396 | the state and outcome of `Machine.HandleF` |
| Interpreter.Chip8.HandleLoadFontCharOffset | src/ChipEight.Net/Hardware/Chip8Handlers.cs:398-407 | the state of `Machine.LoadFontCharOffset` |
| Interpreter.Chip8.HandleSetVxToDt | src/ChipEight.Net/Hardware/Chip8Handlers.cs:409-414 | Vx takes the delay timer |
| Interpreter.Chip8.HandleRegDump | src/ChipEight.Net/Hardware/Chip8Handlers.cs:416-424 | the loop's effect is `Machine.RegDump`, whose meaning `DumpThenLoad` and `RegDumpPartial` state |
| Interpreter.Chip8.HandleRegLoad | src/ChipEight.Net/Hardware/Chip8Handlers.cs:426-434 | the loop's effect is `Machine.RegLoad`, whose meaning `DumpThenLoad` and `RegLoadPartial` state |
| Interpreter.Chip8.HandleAddToIndex | src/ChipEight.Net/Hardware/Chip8Handlers.cs:437-443 | the state of `Machine.AddToIndex` |
| Interpreter.Chip8.HandleBCDFromRegister | src/ChipEight.Net/Hardware/Chip8Handlers.cs:445-453 | the state and outcome of `Machine.BCDFromRegister` |
| Interpreter.Chip8.HandleSetDelayTimer | src/ChipEight.Net/Hardware/Chip8Handlers.cs:455-461 | the delay timer takes Vx |
| Interpreter.Chip8.HandleSetSoundTimer | src/ChipEight.Net/Hardware/Chip8Handlers.cs:463-472 | the state of `Machine.SetSoundTimer`, with the start-sound event as result |

## Left out

- The timer thread (`Chip8.cs:66-75`) is not modelled. Each update is an operation the host calls, and nothing runs concurrently with `Tick`.
- The sound events become the outcomes `StartSound` and `StopSound`; their subscribers are not modelled.
- `RngProvider.cs` is not part of this model. The random byte of `Cxkk` is a parameter and may be any byte. The provider's `Next(0, 255)` never yields 255, so the model allows one value the program never produces.
- `Program.cs` and `SoundHelpers.cs` are not part of this model: the host loop, window, rendering, key mapping, ROM file reading and sound output.
- The handler dictionary becomes the `Handler` datatype and the sixteen-entry `HandlerTable`. A missing key cannot occur, because every nibble has an entry.
- Array faults (`IndexOutOfRangeException`) are excluded by preconditions. These are: popping an empty stack (00EE with SP = -1), pushing onto a full one (2nnn with SP = 23), `ExNN` with Vx above 15, and `KeyDown`/`KeyUp` with a key outside 0..15. The interpreter's state after such a fault is not modelled.
- The `ArgumentNullException` checks of the `Chip8` constructor are left out: Dafny references are never null. The injected random provider is not a constructor argument.
- The eight unrolled `SetPixel` calls of `Display.DrawSprite` are written as a loop over the eight masks.
- The `HandleDrawSprite` loop is a method of its own, `DrawRowsAt`, and its body is another, `DrawRow`.
- Registers, memory and display cells are bytes. The display's cells hold only 0 and 1, which every operation preserves.
- The getters of the register indexer and of `Opcode`, `I`, `PC`, the timers and `DrawRequired` are plain field reads and have no members of their own.
- `GetPixel` indexes the buffer without checking the coordinates, so only the computed cell index must be in range. Coordinates that wrap into another row are not excluded.

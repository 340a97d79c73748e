# CHIP-8 interpreter core in Dafny

This project models the `CPU` class of a small CHIP-8 interpreter written in C#
(`Program.cs`). The class holds 4 KiB of RAM, a 64 x 32 framebuffer with one byte per
pixel, sixteen 8-bit registers V0-VF, the index register I, the program counter and a
call stack. It loads a program image at 0x200, fetches big-endian 16-bit words and
executes them. The model is organised in three layers:

- `MachineState` (machine.dfy) and `Decode` (decode.dfy): the machine state as a
  value, the faults the interpreter raises, and the operand fields of an instruction
  word.
- `Semantics` (semantics.dfy): one pure function per operation (`Load`, `Fetch`,
  `Execute` and its helpers), statement by statement as the C# does it. Throwing is
  modelled as an `Err` result carrying the state at the moment of the throw.
- `Cpu` (cpu.dfy): the class itself, with `array` fields for RAM, the display and the
  registers and a `seq` for the stack. Every method is proved to report exactly the
  result, and to leave exactly the state, that the matching `Semantics` function
  prescribes. The DRW loops are kept as two nested `while` loops with invariants.

`Properties` (properties.dfy) and `DrawProperties` (draw_properties.dfy) state what
the instructions mean and prove it about the functions:

- the carry and not-borrow flags and the bits shifted out;
- CALL followed by RET restores the machine;
- RAM is never written, and a binary display stays binary;
- which words are rejected, and that a rejected word changes nothing;
- a draw succeeds exactly when every pixel fits, and its display is the XOR of the
  sprite into the old display;
- VF after a draw is 1 exactly when some pixel collided;
- drawing the same sprite twice restores the display, and the second draw sets VF
  exactly when some pixel lands on a cell that was dark before the first;
- a fault part-way through a draw keeps the pixels already drawn.

Behaviour of the C# code that the model keeps as written:

- SUB and SUBN set VF with a strict `>`, so equal operands give VF = 0.
- ADD Vx, Vy computes the carry as `Vx < Vy` on the already updated Vx. For ADD Vx, Vx
  this always clears VF (`Properties.AddToItselfClearsFlag`).
- The flag-setting group-8 operations write VF and Vx in the source's order. VF as
  the target ends up holding what the second write left (`Properties.FlagTargetKeepsResult`,
  `Properties.SubnIntoFlagKeepsResult`). SUB and SUBN with VF as the operand read the
  flag just written, not the old VF (`Properties.SubFlagOperandReadsFreshFlag`,
  `Properties.SubnFlagOperandReadsFreshFlag`).
- DRW calls a pixel a collision when the sprite bit *equals* the display pixel, so a 0
  bit over a dark pixel also sets VF (`DrawProperties.OffBitOnDarkPixelSetsFlag`).
- DRW truncates the row and the column to a byte, then indexes `row * 64 + column`
  with no wrapping. A column past 63 therefore spills into a later row
  (`Semantics.PixelIndexPlacement`), and any index
  of 2048 or more throws.
- Vx and Vy are read afresh for every pixel. A draw that throws part-way leaves VF and
  the pixels drawn so far.
- JP V0, nnn truncates `nnn + V0` to 16 bits; that sum never exceeds 0x10FE.

## Model

| member | source | states |
|---|---|---|
| MachineState.Initial | Program.cs:42-60 | a new CPU has every RAM byte and register 0, a blank display, I and both timers 0, an empty stack, and PC = 0x200 |
| MachineState.BlankDisplay | Program.cs:46 | a fresh framebuffer has 2048 pixels, all off |
| Cpu.CPU.constructor | Program.cs:55-60 | the constructed object's state is `Initial()`, with three fresh, distinct arrays of the declared sizes |
| Decode.Group | Program.cs:86 | the opcode group is a nibble |
| Decode.X | Program.cs:82 | the first register selector names one of the 16 registers |
| Decode.Y | Program.cs:83 | the second register selector names one of the 16 registers |
| Decode.N | Program.cs:81 | the trailing field is a nibble |
| Decode.Nnn | Program.cs:80 | the address field is below 0x1000 |
| Decode.Kk | Program.cs:84 | the immediate is the low byte of the word; `WideFieldsOverlapNibbles` ties it to Y and N |
| Decode.FieldsRebuildWord | Program.cs:80-86 | group, X, Y and N rebuild the word, so decoding loses nothing |
| Decode.WideFieldsOverlapNibbles | Program.cs:80-84 | nnn is X followed by kk, and kk is Y followed by N |
| Semantics.Load | Program.cs:62-69 | the byte copy as a function; its contract only keeps the sizes, and what it copies is stated by `Properties.LoadCopiesImage` |
| Properties.LoadCopiesImage | Program.cs:62-69 | the image lands byte for byte at 0x200 onward and nothing else changes. An image longer than 3584 bytes faults OutOfBounds with the part that fits copied |
| Cpu.CPU.LoadRom | Program.cs:62-69 | the copy loop leaves RAM and reports the result exactly as `Load` says |
| Semantics.Fetch | Program.cs:71-76 | the fetch as a function; its contract only keeps the sizes, and what it reads is stated by `Properties.FetchReadsBigEndianWord` |
| Properties.FetchReadsBigEndianWord | Program.cs:71-76 | with PC + 1 inside RAM, the word is `RAM[PC] * 256 + RAM[PC+1]` and PC advances by 2 modulo 0x10000. Otherwise the fetch faults and changes nothing |
| Properties.FetchedFields | Program.cs:71-84 | the fetched word's group and X are the high byte's nibbles, Y and N the low byte's nibbles, and kk is the low byte |
| Cpu.CPU.FetchInstruction | Program.cs:71-76 | the method returns and leaves exactly what `Fetch` prescribes |
| Semantics.ExecuteKeepsShape | Program.cs:78-254 | no instruction changes the sizes of RAM, display or register file |
| Semantics.Execute | Program.cs:78-254 | one instruction as a function; it has no contract of its own, and its effects are stated group by group by the `Properties` lemmas (`UnsupportedExactly`, `ExecuteNeverWritesRam`, `FaultsOutsideDrawChangeNothing`, `ExecuteKeepsBinaryDisplay` and those below) and by `Cpu.CPU.ExecuteInstruction` |
| Semantics.Skip | Program.cs:116-132 | a skip changes only PC, adding 2 modulo 2^16; its use is stated by `Properties.SkipsWhenComparisonHolds` |
| Semantics.JumpTarget | Program.cs:220 | the `ushort` cast of nnn + V0; `Properties.JumpTargetNeverWraps` shows the cast never wraps |
| Semantics.System | Program.cs:88-103 | CLS and RET as a function; its contract only keeps the sizes, and the effects are stated by `ClearBlanksDisplay`, `ReturnPopsStack` and `UnsupportedExactly` |
| Semantics.Arith | Program.cs:144-205 | group 8 as a function; its contract only keeps the sizes, and the effects are stated by `ArithOnlyWritesRegisters` and the flag lemmas |
| Semantics.AddRegisters | Program.cs:167-172 | ADD Vx, Vy in the source's statement order; its contract only keeps the size, and its meaning is stated by `AddSetsCarry`, `AddToItselfClearsFlag`, `AddIntoFlagKeepsCarry` and `FlagWithItselfIsZero` |
| Semantics.SubRegisters | Program.cs:174-179 | SUB Vx, Vy with the flag written first; its meaning is stated by `SubSetsNotBorrow`, `SubFlagOperandReadsFreshFlag`, `FlagTargetKeepsResult` and `FlagWithItselfIsZero` |
| Semantics.ShiftRightRegister | Program.cs:181-186 | SHR Vx with the flag written first; its meaning is stated by `ShiftRightKeepsLostBit` and `FlagTargetKeepsResult` |
| Semantics.SubnRegisters | Program.cs:188-193 | SUBN Vx, Vy with the flag written first; its meaning is stated by `SubnSetsNotBorrow`, `SubnFlagOperandReadsFreshFlag`, `SubnIntoFlagKeepsResult` and `FlagWithItselfIsZero` |
| Semantics.ShiftLeftRegister | Program.cs:195-200 | SHL Vx with the flag written first; its meaning is stated by `ShiftLeftKeepsLostBit` and `FlagTargetKeepsResult` |
| Cpu.CPU.ExecuteInstruction | Program.cs:78-254 | one call does exactly what `Execute` says, for every word: result and state. RAM and the register array are kept as objects |
| Cpu.CPU.ExecuteSystem | Program.cs:88-103 | CLS, RET and the rejected group-0 words, exactly as `System` |
| Cpu.CPU.ExecuteFlow | Program.cs:105-132 | JP, CALL and the skips (with SNE Vx, Vy at lines 207-211 and JP V0 at 218-221) change only PC and the stack, exactly as `Execute` |
| Cpu.CPU.LoadImmediate | Program.cs:134-137 | LD Vx, kk, exactly as `Execute` |
| Cpu.CPU.AddImmediate | Program.cs:139-142 | ADD Vx, kk, exactly as `Execute` |
| Cpu.CPU.LoadIndex | Program.cs:213-216 | LD I, nnn, exactly as `Execute`; the arrays are untouched |
| Cpu.CPU.LoadRandom | Program.cs:223-226 | RND Vx, kk, exactly as `Execute` |
| Cpu.CPU.SetRegister | Program.cs:134-142 | writing one register changes that register and nothing else |
| Cpu.CPU.ExecuteArith | Program.cs:144-205 | group 8 in place, with result and state exactly as `Arith` |
| Cpu.CPU.AddInPlace | Program.cs:167-172 | the two statements of ADD Vx, Vy leave the register file `AddRegisters` describes |
| Cpu.CPU.SubInPlace | Program.cs:174-179 | the two statements of SUB leave the register file `SubRegisters` describes |
| Cpu.CPU.ShiftRightInPlace | Program.cs:181-186 | the two statements of SHR leave the register file `ShiftRightRegister` describes |
| Cpu.CPU.SubnInPlace | Program.cs:188-193 | the two statements of SUBN leave the register file `SubnRegisters` describes |
| Cpu.CPU.ShiftLeftInPlace | Program.cs:195-200 | the two statements of SHL leave the register file `ShiftLeftRegister` describes |
| Properties.UnsupportedExactly | Program.cs:86-253 | Execute reports Unsupported exactly for rejected words: group 0 other than 00E0/00EE, group 8 with N outside 0-7 and E, and groups E and F. Such a word leaves the machine unchanged |
| Properties.CallThenReturnRestores | Program.cs:94-114 | CALL pushes the advanced PC and jumps; a RET right after gives back exactly the machine before the CALL |
| Properties.ReturnPopsStack | Program.cs:94-98 | RET moves the top of the stack into PC. On an empty stack it faults with StackEmpty and changes nothing |
| Properties.ClearBlanksDisplay | Program.cs:89-93 | CLS turns every pixel off and changes nothing else |
| Properties.SkipsWhenComparisonHolds | Program.cs:116-132 | SE/SNE (and SNE Vx, Vy at lines 207-211) add 2 to PC exactly when their comparison holds and change nothing else |
| Properties.JumpSetsPc | Program.cs:105-108 | JP nnn sets PC to nnn and changes nothing else |
| Properties.JumpOffsetSetsPc | Program.cs:218-221 | JP V0, nnn sets PC to nnn + V0, which is at most 0x10FE, and changes nothing else |
| Properties.LoadAndAddImmediate | Program.cs:134-142 | LD Vx, kk and ADD Vx, kk change only Vx, the addition wrapping, and leave VF alone |
| Properties.LogicWritesTarget | Program.cs:147-165 | LD/OR/AND/XOR Vx, Vy write only Vx, with the corresponding bitwise result |
| Properties.IndexAndRandomWrites | Program.cs:213-226 | LD I changes only I; RND changes only Vx, to the random byte masked by kk |
| Properties.RandomMasked | Program.cs:223-226 | with the random byte in [0, 254], Vx has no bit outside kk and is never 0xFF |
| Properties.ArithOnlyWritesRegisters | Program.cs:144-205 | group 8 changes only the register file and succeeds exactly for N in 0-7 and E |
| Properties.WrappedSumBelowOperandIsCarry | Program.cs:170-171 | the wrapped byte sum is below an operand exactly when the true sum exceeds 255 |
| Properties.AddSetsCarry | Program.cs:167-172 | for distinct registers with Vx other than VF (Vy may be VF), Vx becomes the wrapped sum and VF is 1 exactly when the true sum exceeds 255; no other register changes |
| Properties.AddToItselfClearsFlag | Program.cs:167-172 | ADD Vx, Vx doubles Vx and always clears VF |
| Properties.AddIntoFlagKeepsCarry | Program.cs:167-172 | ADD VF, Vy leaves the carry in VF and loses the sum |
| Properties.SubSetsNotBorrow | Program.cs:174-179 | SUB: VF = 1 exactly when Vx > Vy (strictly); new Vx + Vy = old Vx; no other register changes |
| Properties.SubnSetsNotBorrow | Program.cs:188-193 | SUBN: VF = 1 exactly when Vy > Vx (strictly); new Vx + old Vx = Vy; no other register changes |
| Properties.ShiftRightKeepsLostBit | Program.cs:181-186 | SHR: VF is the bit shifted out, and the new Vx and VF together rebuild the old Vx |
| Properties.ShiftLeftKeepsLostBit | Program.cs:195-200 | SHL: VF is the top bit shifted out (1 exactly when Vx >= 0x80), and the new Vx and VF rebuild the old Vx |
| Properties.FlagTargetKeepsResult | Program.cs:174-200 | with VF as the target, SUB, SHR and SHL leave in VF the result computed from the flag they just wrote, and V0-VE unchanged |
| Properties.SubnIntoFlagKeepsResult | Program.cs:188-193 | SUBN VF, Vy leaves Vy minus the flag it just wrote in VF, and V0-VE unchanged |
| Properties.SubFlagOperandReadsFreshFlag | Program.cs:174-179 | SUB Vx, VF subtracts the freshly written flag (0 or 1), not the old VF, from Vx, and VF keeps that flag; no other register changes |
| Properties.SubnFlagOperandReadsFreshFlag | Program.cs:188-193 | SUBN Vx, VF sets Vx to the freshly written flag minus Vx, and VF keeps that flag; no other register changes |
| Properties.SubFromFlagExample | Program.cs:177-178 | an example of `SubFlagOperandReadsFreshFlag`: with V0 = 5 and VF = 3, SUB V0, VF leaves V0 = 4 and VF = 1 |
| Properties.FlagWithItselfIsZero | Program.cs:167-193 | ADD, SUB and SUBN of VF with itself always leave VF = 0, and V0-VE unchanged |
| Properties.JumpTargetNeverWraps | Program.cs:220 | a 12-bit address plus a byte never reaches the 16-bit wrap |
| Properties.ExecuteNeverWritesRam | Program.cs:78-254 | no instruction writes RAM or the timers; only LD I changes I |
| Properties.FaultsOutsideDrawChangeNothing | Program.cs:78-254 | every fault outside DRW is Unsupported or StackEmpty and leaves the machine as it was |
| Properties.ExecuteKeepsBinaryDisplay | Program.cs:78-254 | a display of 0s and 1s stays one after any instruction |
| Semantics.SpriteBit | Program.cs:239 | a sprite bit is 0 or 1 |
| Semantics.SpriteBitIsShiftedBit | Program.cs:239 | the sprite bit of column j is `(row >> (7 - j)) & 1` |
| Semantics.PixelIndex | Program.cs:240-242 | the display index of a sprite pixel; its placement is stated by `PixelIndexPlacement` |
| Semantics.PixelIndexPlacement | Program.cs:240-242 | a byte-truncated column c lands c / 64 rows below the byte-truncated row, at column c % 64 |
| Semantics.DrawPixel | Program.cs:236-245 | one pixel of the loops as a function; its contract only keeps the sizes, and its effect is stated by `DrawProperties.DrawPixelEffect` |
| Semantics.Flagged | Program.cs:242-244 | the registers after the collision test; its effect is stated by `DrawProperties.DrawPixelEffect` |
| Semantics.Xored | Program.cs:245 | the display after one XOR; its effect is stated by `DrawProperties.DrawPixelEffect` |
| Semantics.DrawPrefix | Program.cs:233-247 | the loops stopped at any row and column, as a function; its contract only keeps the sizes, and its effect is stated by `DrawProperties.DrawPrefixEffect` |
| Semantics.Draw | Program.cs:228-249 | DRW as a function; its contract only keeps the sizes, and its effect is stated by the `DrawProperties` lemmas |
| Semantics.DrawPrefixStops | Program.cs:234-247 | once the loops have thrown, every later stopping point shows the same fault and state |
| Semantics.FaultPersistsInRow | Program.cs:237-246 | a fault within a row is the outcome at every later column of that row |
| Semantics.FaultPersistsAcrossRows | Program.cs:234-247 | a fault by the end of one row is the outcome at the end of every later row |
| Cpu.CPU.DrawSprite | Program.cs:228-249 | DRW clears VF, runs the loops and reports the result, leaving exactly the state `Draw` prescribes |
| Cpu.CPU.DrawRows | Program.cs:234-247 | the outer loop keeps "state = loops stopped at row i" and leaves the state `Draw` prescribes |
| Cpu.CPU.DrawRow | Program.cs:236-246 | one outer iteration takes the loops from the start to the end of row i, or to the first fault in it |
| Cpu.CPU.PlotPixel | Program.cs:239-245 | one inner iteration takes the loops one pixel further, or faults on a display index of 2048 or more |
| Cpu.CPU.XorPixel | Program.cs:242-245 | VF is set when the bit equals the pixel, then the bit is XORed into the pixel |
| DrawProperties.Painted | Program.cs:245 | the display with the sprite bits XORed in, pixel by pixel; its contract keeps the size, and its meaning is stated by `PaintedIsMask` |
| DrawProperties.CollisionFlagMeansSomeCollision | Program.cs:233-244 | the flag the loops compute is 1 exactly when some earlier pixel collided, and is never above 1 |
| DrawProperties.DrawPixelEffect | Program.cs:236-245 | for any coordinate registers, one pixel succeeds exactly when its row is in RAM and its target in the display. It XORs the bit into the target, sets VF on a collision and changes nothing else |
| DrawProperties.FitsStep | Program.cs:234-237 | the pixels up to and including one more fit exactly when the earlier ones fit and it does |
| DrawProperties.DrawPrefixKeepsRegisters | Program.cs:233-247 | a draw writes no register except VF |
| DrawProperties.SpriteKept | Program.cs:236-241 | while neither coordinate register is VF, what the draw reads (RAM, I, Vx, Vy) does not change under it |
| DrawProperties.DrawPrefixSucceeds | Program.cs:234-247 | the loops succeed exactly when every pixel visited so far fits |
| DrawProperties.DrawPrefixPaints | Program.cs:245 | after success the display is the old display with the sprite bits XORed in |
| DrawProperties.DrawPrefixFlags | Program.cs:233-244 | after success VF is the collision flag |
| DrawProperties.DrawPrefixEffect | Program.cs:228-249 | success iff all pixels fit; only display and VF change; on success the display is painted and VF is the collision flag |
| DrawProperties.PaintedIsMask | Program.cs:245 | each painted pixel is the old pixel XOR the bits that landed on it |
| DrawProperties.PaintTwice | Program.cs:245 | painting the same pixels twice restores the display |
| DrawProperties.DrawTwiceRestoresDisplay | Program.cs:228-249 | a second identical DRW succeeds and restores the display; apart from VF nothing else changed (VF is stated by `SecondDrawFlagsDarkTargets`) |
| DrawProperties.TargetsDistinct | Program.cs:240-242 | two pixels of one sprite never land on the same display cell |
| DrawProperties.MaskOfOwnTarget | Program.cs:234-245 | the mask of the cell a pixel lands on is that pixel's bit once the loops have visited it, and 0 before |
| DrawProperties.RepaintCollides | Program.cs:239-245 | painting a sprite over its own result, a pixel collides exactly when its cell was dark before the first painting |
| DrawProperties.SecondDrawFlagsDarkTargets | Program.cs:228-249 | after a successful DRW, an identical second DRW leaves VF = 1 exactly when some sprite pixel lands on a cell that was dark before the first draw |
| DrawProperties.DrawFaultKeepsEarlierPixels | Program.cs:234-247 | a draw whose first misfitting pixel is at (i, j) faults OutOfBounds, with the earlier pixels painted and VF as they left it |
| DrawProperties.OffBitOnDarkPixelSetsFlag | Program.cs:243-244 | a 0 sprite bit over a dark pixel counts as a collision and sets VF |
| DrawProperties.DrawPrefixFrame | Program.cs:228-249 | a draw, finished or thrown, changes only the display and the registers |
| DrawProperties.DrawKeepsBinary | Program.cs:239-245 | a display of 0s and 1s stays one after a draw |
| DrawProperties.DrawFaultsAreOutOfBounds | Program.cs:236-242 | the only fault a draw reports is OutOfBounds |

## Left out

- `Program.Main` (Program.cs:10-37) is left out: the endless fetch-execute loop, the
  console printing of exceptions and the 500 Hz busy-wait timing. Only one fetch and
  one execute are modelled.
- `DrawDisplay` (Program.cs:256-271) and `PrintRAM` (Program.cs:275-283) are left
  out. They only write to the console.
- The `FileStream` in `LoadROM` is replaced by the image's bytes as a `seq<bv8>`
  parameter of `LoadRom`. Opening and reading the file, and its exceptions, are not
  modelled.
- `System.Random` is replaced by a parameter `rnd` of `Execute` and
  `ExecuteInstruction`. `ExecuteInstruction` and `RandomMasked` require it to be in
  [0, 254], as `rnd.Next(0, 255)` returns. `Execute` accepts any byte, so on its own it
  also describes RND with a random byte of 255, which the source never produces.
- The sound and delay timers exist in the state, but no instruction of the source
  reads or writes them, so they never change.
- Exceptions are modelled as `Err` results carrying the state at the throw. The fault
  kind keeps the source's distinction, refined: `OutOfBounds` stands for the
  `IndexOutOfRangeException` throws, and `Unsupported` and `StackEmpty` for the
  `InvalidOperationException` throws. Only the exception class names and message texts
  are not modelled.
- DrawProperties lemmas about the sprite (`DrawPrefixSucceeds`, `DrawPrefixPaints`,
  `DrawPrefixFlags`, `DrawPrefixEffect`, `DrawTwiceRestoresDisplay`, `SecondDrawFlagsDarkTargets`,
  `DrawFaultKeepsEarlierPixels`, `OffBitOnDarkPixelSetsFlag`) assume that neither
  coordinate register is VF. With Vx or Vy = VF, a collision moves the remaining
  pixels, because Vx and Vy are re-read per pixel. For that case only the frame, the
  binary-display and the fault-kind lemmas are stated.
- AddSetsCarry: requires distinct registers with Vx other than VF. ADD Vx, Vx, ADD VF, Vy
  and ADD VF, VF are covered by `AddToItselfClearsFlag`, `AddIntoFlagKeepsCarry` and
  `FlagWithItselfIsZero`.
- SubSetsNotBorrow: requires both registers below VF. With VF as either register
  the round trip does not hold, and `SubFlagOperandReadsFreshFlag`, `FlagTargetKeepsResult`
  and `FlagWithItselfIsZero` state what happens instead.
- SubnSetsNotBorrow: requires both registers below VF. With VF as either register,
  `SubnFlagOperandReadsFreshFlag`, `SubnIntoFlagKeepsResult` and `FlagWithItselfIsZero`
  state what happens instead.
- LogicWritesTarget: states group 8 with N = 0-3 only. The other values of N are
  covered by the lemmas on the flag-setting operations and by `UnsupportedExactly`.

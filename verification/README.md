# c8: a verified model of a CHIP-8 interpreter core

This project models the core of the `c8` CHIP-8 interpreter in Dafny: the
machine record `chip8_t`, the size constants and bit-field macros of
`constants.h`, and the single-step function `chip8_exec` with its helpers
(`chip8_init`, `chip8_loadfont`, `chip8_loadprogram`, `chip8_fetch`,
`chip8_push`, `chip8_pop`, `chip8_cleardisplay`, `chip8_clearkeys` and the key
table of `chip8_readkey`).

The model has two layers.

- `Semantics` (semantics.dfy) describes the machine as an immutable `State` value.
  It has one function per branch of `chip8_exec`, an `Execute` function that
  tries the branches in the order of the source, and `Step` (fetch, then
  execute).
- `Interpreter` (interpreter.dfy) is the record as a class.
  - The class has array fields for memory, registers, stack, display and keys.
  - Each C function is a method that updates the fields in place, with the
    same loops as the source.
  - Every instruction method is proved to agree with the value-level function:
    `View() == Semantics.X(old(View()), ...)`. The helpers below them
    (loading, clearing, the copy and drawing loops, the `Set*` methods) are
    proved against the field they change or against their loop invariant.
  - `Exec` is proved equal to `Semantics.Step`.

`Constants` (constants.dfy) holds the sizes and the `msn`/`lsn`/`msb`/`lsb`/`mb`
helpers as functions on 16-bit vectors. `Keypad` (keypad.dfy) holds the
host-key table. `Properties` (properties.dfy) proves what instructions do and
how they combine.

Bytes are `bv8` and `pc`, `I` and instruction words are `bv16`, so the
wrap-around of `uint8_t` and `uint16_t` arithmetic is exact. The stack pointer
is a `nat` bounded by the stack size.

The model follows the code where it departs from the usual CHIP-8 instruction
set:

- DXYN clips at the right and bottom edges instead of wrapping (c8.c:304, c8.c:307).
- A draw sets VF to 1 on a collision but never clears it (c8.c:300).
- FX33 stores `v / 10` as its middle byte, so its digits are decimal only below 100 (c8.c:363).
- 8XYE stores `v & 0x80` in VF, not the bit value (c8.c:239).
- The second register of 8XY_ is the whole XY byte (c8.c:198). The sub-opcodes that read it are therefore defined only when X is 0.
- VF is written before VX in 8XY4–8XYE, and the operands are read after that write.
- BNNN is never reached: its test `msb(msb(w)) == 0xB` is always false (c8.c:267).
- The key-skip test `msn(msb(w) == 0xE)` holds exactly when the high byte of the word is 0 (c8.c:315).
  - EX9E and EXA1 never run.
  - Words 00NN other than 00E0/00EE run the key test on V0.
- A word no branch claims leaves the whole state unchanged, the program counter included.
- FX55 and FX65 do not move I.
- 5XY0 and 9XY0 do not check their low nibble.

## Model

| member | source | states |
|---|---|---|
| Constants.Msn | constants.h:18 | the result is a nibble and is bits 4..7 of the argument |
| Constants.Lsn | constants.h:21 | the result is a nibble and is bits 0..3 of the argument |
| Constants.Msb | constants.h:24 | the result is a byte and is bits 8..15 of the argument |
| Constants.Lsb | constants.h:27 | the result is a byte and is bits 0..7 of the argument |
| Constants.Mb | constants.h:30 | the result is a byte and is bits 4..11 of the argument |
| Constants.SplitWord | constants.h:24-27 | msb(w) * 256 + lsb(w) == w for every word |
| Constants.DecodeFields | constants.h:18-30 | msn(msb(w)) is the class w >> 12, lsn(msb(w)) and msn(mb(w)) are X, lsn(mb(w)) is Y |
| Constants.MsbOfMsbIsZero | constants.h:24 | msb(msb(w)) == 0 for every word, the reason BNNN is never reached |
| Constants.MsbOfLsnIsZero | constants.h:21-24 | msb(lsn(w)) == 0 for every word: the key-skip branch always indexes V0 |
| Constants.Layout | constants.h:1-32 | the font (80 bytes) lies below the program area 0x200, which lies in the 4096 bytes of memory; VF is the last of the 16 registers |
| Keypad.LogicalKey | c8.c:65-80 | every host key maps to a logical key below 16 |
| Keypad.HostKeyOf | c8.c:65-80 | an inverse of the table: the host key it returns maps back to the given logical key |
| Keypad.LogicalKeyInjective | c8.c:65-80 | no two host keys share a logical key |
| Keypad.KeyRoundTrip | c8.c:65-80 | HostKeyOf(LogicalKey(k)) == k |
| Semantics.Blank | c8.c:45-51 | a 32x64 display with every cell off |
| Semantics.Released | c8.c:53-57 | 16 key flags, all false |
| Semantics.LoadFont | c8.c:24-27 | memory below 80 holds the font, every other byte is unchanged |
| Semantics.LoadProgram | c8.c:20-22 | memory from 0x200 holds the program, every other byte is unchanged |
| Semantics.Boot | c8.c:11-27 | after init, the font is at 0, the program is at 0x200 and every other byte is 0; registers, timers, I, sp, stack, display and keys are zero; pc is 0x200 |
| Semantics.Word | c8.c:32 | the word is high * 256 + low, and msb/lsb give the two bytes back |
| Semantics.Fetch | c8.c:29-33 | the fetched word is mem[pc] * 256 + mem[pc + 1] |
| Semantics.StoreRegs | c8.c:371-373 | FX55 writes V0..VX to mem[I..I+X] and changes no other byte and nothing but memory |
| Semantics.LoadRegs | c8.c:375-377 | FX65 loads V0..VX from mem[I..I+X], changes no other register, and leaves every other field (I, pc, memory, timers, stack, display, keys) as it was |
| Semantics.Push | c8.c:40-43 | only the stack and sp change: sp + 1, stack[sp] is the pushed value and the frames below it are kept |
| Semantics.Pop | c8.c:35-38 | only sp changes and it decreases; pushing the popped value back gives the original state |
| Semantics.ClearScreen | c8.c:122-127 | 00E0: every display cell is off, pc += 2, nothing else changes |
| Semantics.Return | c8.c:129-133 | 00EE: pc becomes the top of the stack, sp - 1, nothing else changes |
| Semantics.Call | c8.c:141-146 | 2NNN: pc becomes NNN (below 0x1000), the return address pc + 2 is pushed over sp, the frames below are kept |
| Semantics.Jump | c8.c:135-139 | 1NNN: only pc changes, to an address below 0x1000 |
| Semantics.Skip | c8.c:153 | a skip changes only pc, by 2 or by 4 |
| Semantics.SkipEqualByte | c8.c:148-155 | 3XNN changes only pc (the skip condition: Properties.SkipEqualByteMoves) |
| Semantics.SkipNotEqualByte | c8.c:157-164 | 4XNN changes only pc (the skip condition: Properties.SkipNotEqualByteMoves) |
| Semantics.SkipEqualRegs | c8.c:166-174 | 5XY0 changes only pc (the skip condition: Properties.SkipEqualRegsMoves) |
| Semantics.SkipNotEqualRegs | c8.c:248-257 | 9XY0 changes only pc (the skip condition: Properties.SkipNotEqualRegsMoves) |
| Semantics.LoadByte | c8.c:176-183 | 6XNN changes only the registers and pc (+2), and no register but VX |
| Semantics.AddByte | c8.c:185-192 | 7XNN changes only the registers and pc (+2); VF is untouched unless X is F |
| Semantics.LoadIndex | c8.c:259-264 | ANNN changes only I and pc (+2), and I is below 0x1000 |
| Semantics.RandomByte | c8.c:272-279 | CXNN changes only VX and pc (+2); VX has no bit that the random byte lacks |
| Semantics.AluRegs | c8.c:200-242 | for every sub-opcode, no register other than VX and VF changes |
| Semantics.Alu | c8.c:194-246 | 8XY_ changes only the registers and pc (+2) |
| Semantics.Lit | c8.c:291-299 | a lit cell lies on the display, below and right of the origin, within N rows and 8 columns of it |
| Semantics.Collides | c8.c:299-301 | a collision needs at least one sprite row and an origin column that leaves a sprite column on screen |
| Semantics.Drawn | c8.c:291-308 | the display after the draw is again 32 rows of 64 cells |
| Semantics.Sprite | c8.c:291-308 | a pass of the sprite changes only the display and VF |
| Semantics.OriginX | c8.c:288 | the draw's column origin VX mod 64 lies on the display |
| Semantics.OriginY | c8.c:289 | the draw's row origin VY mod 32 lies on the display |
| Semantics.Height | c8.c:286 | the sprite height N is below 16 |
| Semantics.DrawEffect | c8.c:283-308 | DXYN before pc moves changes only the display and the registers |
| Semantics.Draw | c8.c:281-312 | DXYN changes only the display, the registers and pc (+2) |
| Semantics.KeyBranch | c8.c:315 | the key-skip test never selects a word of class E |
| Semantics.KeyTest | c8.c:316-328 | only the low bytes 9E and A1 can skip |
| Semantics.KeySkip | c8.c:315-330 | the key-skip branch changes only pc, by 2 or 4 |
| Semantics.WaitKey | c8.c:340-342 | FX0A: all keys released, key and VX hold the same logical key below 16, no other register changes |
| Semantics.Bcd | c8.c:361-368 | three bytes, the first at most 2 and the second at most 25 |
| Semantics.StoreBcd | c8.c:361-368 | the three bytes go to mem[I..I+2]; no other byte and nothing outside memory changes |
| Semantics.AddToIndex | c8.c:353-354 | the 16-bit sum either does not wrap (it is at least I) or wraps below VX |
| Semantics.GlyphAddress | c8.c:357-358 | the address is 5 * v for every byte v, with no 16-bit wrap |
| Semantics.MiscEffect | c8.c:333-378 | FX__ leaves pc, sp, stack and display alone, and writes memory only for FX33 and FX55 |
| Semantics.Misc | c8.c:332-382 | FX__ always advances pc by 2 and never touches sp, stack or display |
| Semantics.Defined | c8.c:112-383 | only 00EE, 2NNN, 8XY_, DXYN, the 00NN key skips and FX__ can be undefined |
| Semantics.Execute | c8.c:122-382 | a step keeps the record's sizes and the stack bound, and writes memory only for FX33 and FX55 |
| Semantics.CanStep | c8.c:29-33 | a state that can step has pc at most 0xFFE, so both bytes of the word lie in memory |
| Semantics.Step | c8.c:112-383 | a step keeps the record's sizes and writes memory only when the fetched word is of class F |
| Properties.BootFetchesProgramStart | c8.c:11-33 | the first word fetched after init is program[0] * 256 + program[1] |
| Properties.PopAfterPush | c8.c:35-43 | a pop right after a push returns the pushed value and restores sp |
| Properties.CallThenReturn | c8.c:129-146 | 2NNN jumps to NNN with sp + 1, and a following 00EE resumes at the call's pc + 2 with sp restored |
| Properties.PushGuardAsWritten | c8.c:41 | the assert as written passes exactly when stack[sp] lies outside the stack |
| Properties.FirstCallStopsAsWritten | c8.c:41 | on the booted machine the written assert fails, while the corrected push stores the return address |
| Properties.Decode | c8.c:135-279 | words of classes 1, 3-7, 9, A and C are always defined and run exactly their branch |
| Properties.DecodeGuarded | c8.c:122-382 | a defined 00E0, 00EE, 2NNN, 8XY_, DXYN or FX__ word runs exactly ClearScreen, Return, Call, Alu, Draw or Misc; the key-skip test before FX__ never takes an FX__ word |
| Properties.JumpTarget | c8.c:135-139 | 1NNN changes only pc, which becomes NNN (below 0x1000) |
| Properties.LoadIndexValue | c8.c:259-264 | ANNN sets I to NNN (below 0x1000) and pc += 2, nothing else |
| Properties.LoadByteValue | c8.c:176-183 | 6XNN sets VX to NN, no other register changes, pc += 2 |
| Properties.AddByteValue | c8.c:185-192 | 7XNN: the new VX minus the old VX is NN modulo 256; no other register (VF included) changes |
| Properties.ByteAddUndone | c8.c:189 | subtracting the added byte gives the old value back despite wrap-around |
| Properties.RandomByteMasked | c8.c:272-279 | CXNN sets VX to a byte with no bit outside NN and outside the random byte; nothing else changes but pc |
| Properties.SkipMoves | c8.c:153 | a skip changes only pc: +4 exactly when its test holds, +2 exactly when it does not |
| Properties.SkipEqualByteMoves | c8.c:148-155 | 3XNN: pc + 4 iff VX == NN, pc + 2 iff not, nothing else |
| Properties.SkipNotEqualByteMoves | c8.c:157-164 | 4XNN: pc + 4 iff VX != NN, pc + 2 iff not, nothing else |
| Properties.SkipEqualRegsMoves | c8.c:166-174 | 5XY0: pc + 4 iff VX == VY, pc + 2 iff not, nothing else |
| Properties.SkipNotEqualRegsMoves | c8.c:248-257 | 9XY0: pc + 4 iff VX != VY, pc + 2 iff not, nothing else |
| Properties.KeyBranchIffHighByteZero | c8.c:315 | the key-skip test holds exactly for the words whose high byte is 0 |
| Properties.ZeroPageWordsAreKeySkips | c8.c:315-330 | a word 00NN other than 00E0/00EE moves only pc, by 4 for 009E with key V0 down or 00A1 with it up, by 2 otherwise; V0 < 16 is needed only for 009E and 00A1 |
| Properties.ZeroPageDecode | c8.c:122-330 | the decoder sends 00NN other than 00E0/00EE to the key-skip branch |
| Properties.UnclaimedWordsChangeNothing | c8.c:112-383 | 0NNN with a non-zero high byte, BNNN and EX__ leave the whole state unchanged |
| Properties.KeysOnlyCleared | c8.c:53-60 | a step leaves the key flags as they were or releases them all, so no flag is ever set |
| Properties.ExecuteKeys | c8.c:112-383 | every branch leaves the key flags alone or releases them all |
| Properties.MiscKeys | c8.c:339-343 | FX__ releases the keys exactly for FX0A |
| Properties.AddWithCarry | c8.c:218-220 | carry and wrapped sum together make the exact 16-bit sum |
| Properties.SubWithFlag | c8.c:223-225 | the wrapped difference plus the subtrahend is the minuend; the flag is 1 iff a > b and 0 iff a <= b |
| Properties.ShiftRightWithFlag | c8.c:228-230 | the shift halves; the flag is the low bit; together they rebuild the byte |
| Properties.ShiftLeftWithFlag | c8.c:238-240 | the shift doubles modulo 256; the flag is 0x80 or 0; together they rebuild the byte |
| Properties.AndWithin | c8.c:210-212 | the AND has no bit the first operand lacks |
| Properties.OrCovers | c8.c:206-208 | the OR keeps every bit of the first operand |
| Properties.XorTwice | c8.c:214-216 | xor-ing the same byte twice gives the byte back, so a repeated 8XY3 undoes itself |
| Properties.LogicRegisters | c8.c:202-216 | 8XY0-8XY3 put VY, VX or VY, VX and VY, VX xor VY in VX and change no other register, VF included |
| Properties.AddRegisters | c8.c:217-220 | on the register file, 8XY4 with register indices x, y other than F: VF:Vx is the full sum and no other register changes (as an instruction only x = 0 is defined: AddInstruction) |
| Properties.SubtractRegisters | c8.c:222-225 | on the register file, 8XY5 with indices x, y other than F: Vx + Vy is the old Vx; VF is 1 iff Vx > Vy; no other register changes (as an instruction only x = 0 is defined: AluReadsVyOnlyFromV0) |
| Properties.ReverseSubtractRegisters | c8.c:232-235 | on the register file, 8XY7 with indices x, y other than F: Vx + old Vx is Vy; VF is 1 iff Vy > Vx; no other register changes (as an instruction only x = 0 is defined: AluReadsVyOnlyFromV0) |
| Properties.ShiftRegisters | c8.c:227-240 | 8XY6 halves VX with VF = bit 0; 8XYE doubles VX with VF = 0x80 or 0; in both no other register changes |
| Properties.FlagOperandReadAfterWrite | c8.c:218-219 | with Y = F, 8XF4 adds the fresh carry, not the old VF |
| Properties.FlagRegisterAsTarget | c8.c:227-240 | with X = F, 8FY6 and 8FYE always leave 0 in VF and change no other register |
| Properties.FlagTargetDefinedOnlyForShifts | c8.c:196-198 | with X = F an 8FY_ is defined exactly when its sub-opcode does not read VY |
| Properties.AddInstruction | c8.c:194-246 | a defined 8XY4 has X = 0, and with Y != F, VF:V0 holds the full sum V0 + VY and no other register changes |
| Properties.FlagShiftedOut | c8.c:228-240 | the flag bit a shift keeps is shifted out by the same shift |
| Properties.AluReadsVyOnlyFromV0 | c8.c:196-198 | an 8XY_ that reads VY is defined only when X is 0 |
| Properties.UnknownAluOpOnlyAdvances | c8.c:200-244 | an unknown 8XY_ sub-opcode only does pc += 2 |
| Properties.DrawTwiceRestores | c8.c:282-312 | drawing the same sprite twice (X, Y != F) restores the display, and the second draw sets VF iff the sprite has a cell on screen |
| Properties.DrawTwiceIsSpriteTwice | c8.c:282-312 | two draws of one word are two passes of one sprite when the first does not write VX or VY |
| Properties.DrawIsSprite | c8.c:282-312 | a draw is the sprite at (VX mod 64, VY mod 32), then pc += 2 |
| Properties.SpriteKeepsOrigin | c8.c:288-300 | with X, Y != F a draw keeps the origin, I and memory |
| Properties.DrawOfMoved | c8.c:282-312 | the drawn cells and VF do not depend on pc |
| Properties.SpriteIgnoresPc | c8.c:291-308 | the drawing loops do not depend on pc |
| Properties.SpriteTwice | c8.c:291-308 | two passes of one sprite restore the display; the second sets VF iff the sprite has a cell on screen |
| Properties.DrawClips | c8.c:304-307 | cells left of or above the origin, past the 8 columns or past the N rows are unchanged, so nothing wraps |
| Properties.DrawOnDarkScreen | c8.c:291-308 | on a dark screen a draw lights exactly the sprite's cells and leaves every register alone |
| Properties.DrawSetsFlag | c8.c:299-301 | after a draw VF is 1 iff it was 1 or a lit cell went off, otherwise it keeps its value; no other register changes |
| Properties.SpriteFlag | c8.c:291-308 | the same for one pass of the sprite |
| Properties.UnknownMiscOpOnlyAdvances | c8.c:332-382 | an unknown FX__ sub-opcode only does pc += 2 |
| Properties.WaitKeyLoadsKey | c8.c:339-343 | FX0A releases every key, records the pressed key's logical key, copies it to VX and advances pc by 2; nothing else changes |
| Properties.DelayRoundTrip | c8.c:335-347 | FX15 then FX07 with the same X: dt holds VX, and nothing else changes but pc |
| Properties.MiscTimers | c8.c:335-351 | FX07, FX15 and FX18 copy between VX and a timer, then pc += 2 |
| Properties.AddToIndexWraps | c8.c:353-355 | I + VX modulo 2^16: the difference is VX, and the sum falls below I exactly when it passes 0xFFFF |
| Properties.MiscIndex | c8.c:353-355 | FX1E changes only I and pc; VF is not written |
| Properties.GlyphInFont | c8.c:357-358 | the five bytes at the glyph address of v lie in the font table exactly when v < 16 |
| Properties.MiscGlyph | c8.c:357-358 | FX29 sets I to the glyph address of VX, advances pc and changes nothing else |
| Properties.MiscBcd | c8.c:361-368 | FX33 is StoreBcd of Bcd(VX), then pc += 2 |
| Properties.BcdDigitsBelowHundred | c8.c:361-368 | the three bytes FX33 stores are the decimal digits of v exactly when v < 100 |
| Properties.BcdOfTwoHundredThirtyFour | c8.c:361-368 | for 234 FX33 stores 2, 23 and 60 |
| Properties.StoreThenLoadRegisters | c8.c:371-377 | FX55 then FX65 with the same X and I leaves every register as FX55 found it |
| Properties.LoadThenStoreRegisters | c8.c:371-377 | FX65 then FX55 with the same X and I leaves memory unchanged |
| Properties.DumpOfLoaded | c8.c:371-377 | on sequences: bytes loaded into the first registers and dumped back at the same place give memory back |
| Properties.MiscStore | c8.c:371-373 | FX55 is the register dump, then pc += 2 |
| Properties.MiscLoad | c8.c:375-377 | FX65 is the register load, then pc += 2 |
| Properties.DumpThenLoadInstructions | c8.c:371-380 | executing FX55 then FX65 restores V0..VF, keeps I, and moves pc by 4 |
| Interpreter.Chip8.Init | c8.c:11-18 | the record after init is Semantics.Boot |
| Interpreter.Chip8.LoadFont | c8.c:24-27 | memory becomes Semantics.LoadFont of the old memory |
| Interpreter.Chip8.LoadProgram | c8.c:20-22 | memory becomes Semantics.LoadProgram of the old memory |
| Interpreter.Chip8.Fetch | c8.c:29-33 | returns mem[pc] * 256 + mem[pc + 1] and changes nothing |
| Interpreter.Chip8.Pop | c8.c:35-38 | with sp > 0: sp - 1, and returns stack[sp - 1] |
| Interpreter.Chip8.Push | c8.c:40-43 | with sp < 100: stack[sp] := v, then sp + 1 |
| Interpreter.Chip8.ClearDisplay | c8.c:45-51 | every display cell is off afterwards |
| Interpreter.Chip8.ClearKeys | c8.c:53-57 | every key flag is false afterwards |
| Interpreter.Chip8.ReadKey | c8.c:59-87 | the keys are released and key becomes the pressed key's logical key; nothing else changes |
| Interpreter.Chip8.AluRegisters | c8.c:200-242 | the registers become Semantics.AluRegs of the old registers |
| Interpreter.Chip8.ExecAlu | c8.c:195-246 | the record becomes Semantics.Alu of the old record |
| Interpreter.Chip8.DrawCell | c8.c:296-302 | the loop-body step keeps Painted: exactly the visited lit cells are flipped and VF records a collision |
| Interpreter.Chip8.Flip | c8.c:299-302 | flipping a lit cell keeps Painted one column on |
| Interpreter.Chip8.PassUnlit | c8.c:297-299 | an unlit cell keeps Painted one column on |
| Interpreter.Chip8.DrawRow | c8.c:292-305 | the inner loop, with its break at the right edge, completes one sprite row |
| Interpreter.Chip8.DrawSprite | c8.c:291-308 | the two loops, with their breaks at the edges, give Semantics.Sprite |
| Interpreter.Chip8.DrawAt | c8.c:283-308 | the origin and height computation followed by the loops give Semantics.DrawEffect |
| Interpreter.Chip8.ExecDraw | c8.c:282-312 | the record becomes Semantics.Draw of the old record |
| Interpreter.Chip8.ExecKeySkip | c8.c:315-330 | the record becomes Semantics.KeySkip of the old record |
| Interpreter.Chip8.CopyOut | c8.c:372 | the loop writes regs[0..x] to mem[base..base+x] and leaves every other byte |
| Interpreter.Chip8.CopyIn | c8.c:376 | the loop loads regs[0..x] from mem[base..base+x] and leaves every other register |
| Interpreter.Chip8.StoreRegisters | c8.c:371-373 | the record becomes Semantics.StoreRegs of the old record |
| Interpreter.Chip8.LoadRegisters | c8.c:375-377 | the record becomes Semantics.LoadRegs of the old record |
| Interpreter.Chip8.StoreDigits | c8.c:361-368 | the record becomes Semantics.StoreBcd of the old record with the bytes Bcd(v) |
| Interpreter.Chip8.SetRegister | c8.c:337 | only VX changes |
| Interpreter.Chip8.SetIndex | c8.c:354 | only I changes |
| Interpreter.Chip8.SetDelay | c8.c:346 | only dt changes |
| Interpreter.Chip8.SetSound | c8.c:350 | only st changes |
| Interpreter.Chip8.MiscSwitch | c8.c:333-378 | the record becomes Semantics.MiscEffect of the old record |
| Interpreter.Chip8.ExecMisc | c8.c:332-382 | the record becomes Semantics.Misc of the old record |
| Interpreter.Chip8.Advance | c8.c:125 | only pc changes, by 2 |
| Interpreter.Chip8.SkipIf | c8.c:153 | only pc changes, by 4 or 2 |
| Interpreter.Chip8.ClearScreen | c8.c:122-127 | the record becomes Semantics.ClearScreen of the old record |
| Interpreter.Chip8.Return | c8.c:129-133 | the record becomes Semantics.Return of the old record |
| Interpreter.Chip8.Call | c8.c:141-146 | the record becomes Semantics.Call of the old record |
| Interpreter.Chip8.Jump | c8.c:135-139 | the record becomes Semantics.Jump of the old record |
| Interpreter.Chip8.SkipEqualByte | c8.c:148-155 | the record becomes Semantics.SkipEqualByte of the old record |
| Interpreter.Chip8.SkipNotEqualByte | c8.c:157-164 | the record becomes Semantics.SkipNotEqualByte of the old record |
| Interpreter.Chip8.SkipEqualRegs | c8.c:166-174 | the record becomes Semantics.SkipEqualRegs of the old record |
| Interpreter.Chip8.SkipNotEqualRegs | c8.c:248-257 | the record becomes Semantics.SkipNotEqualRegs of the old record |
| Interpreter.Chip8.LoadByte | c8.c:176-183 | the record becomes Semantics.LoadByte of the old record |
| Interpreter.Chip8.AddByte | c8.c:185-192 | the record becomes Semantics.AddByte of the old record |
| Interpreter.Chip8.LoadIndex | c8.c:259-264 | the record becomes Semantics.LoadIndex of the old record |
| Interpreter.Chip8.RandomByte | c8.c:272-279 | the record becomes Semantics.RandomByte of the old record |
| Interpreter.Chip8.Dispatch | c8.c:122-382 | the record becomes Semantics.Execute of the old record: the branches are tried in the source's order, and an unclaimed word changes nothing |
| Interpreter.Chip8.Exec | c8.c:112-383 | one call is Semantics.Step: fetch at pc, then execute |
| Interpreter.LitCell | c8.c:292-297 | cell (y0 + row, x0 + col) is lit exactly when bit (0x80 >> col) of mem[I + row] is set |
| Interpreter.HitStep | c8.c:299-300 | the collision flag after one more column is the old flag or a collision at that cell |
| Interpreter.RowDone | c8.c:304 | after the break at the right edge, the row's remaining columns have no cells on screen |
| Interpreter.AllDone | c8.c:307 | after the break at the bottom edge, the remaining rows have no cells on screen |

Some small members of `Semantics` model a single C expression and carry no
contract of their own. Each is characterised by the lemma named here:

- `ByteAdd` and `Carry` (c8.c:219-220): Properties.AddWithCarry.
- `ByteSub` and `NoBorrow` (c8.c:224-225, 234-235): Properties.SubWithFlag.
- `ShiftRight` and `LowBit` (c8.c:229-230): Properties.ShiftRightWithFlag.
- `ShiftLeft` and `HighBit` (c8.c:239-240): Properties.ShiftLeftWithFlag.
- `ByteOr`, `ByteAnd` and `ByteXor` (c8.c:208, 212, 216): Properties.OrCovers, Properties.AndWithin, Properties.XorTwice and Properties.LogicRegisters.
- `SpriteBit` (c8.c:297): Interpreter.LitCell, which ties it to `Lit`.
- `KeyDown` (c8.c:320, 324): Properties.ZeroPageWordsAreKeySkips.
- `ReadsVy` and `AluDefined` (c8.c:198): Properties.AluReadsVyOnlyFromV0 and Properties.FlagTargetDefinedOnlyForShifts.
- `RowsFit` and `DrawDefined` (c8.c:292), `KeySkipDefined` (c8.c:320) and `MiscDefined` (c8.c:366-376): the undefined-behaviour preconditions gathered by Semantics.Defined, whose row states which classes they can exclude.

## Left out

- Rendering is not modelled: `chip8_renderdisplay` (c8.c:89-110), sdl.c and sdl.h. They only read the display.
- main.c is not part of this model. It does file reading, argument handling, seeding and the event loop.
- The debug `printf` of `chip8_exec` (c8.c:116-120) is left out.
- The contents of font.c are not part of this model. The font is an 80-byte parameter of `Boot` and `Init`.
- `rand()` in CXNN (c8.c:276) is the parameter `rnd`.
- The blocking loop of `chip8_readkey` (c8.c:62-84) is left out.
  - The key that ends the wait is the parameter `press`, a `HostKey`.
  - Host keys outside the table, which the loop skips, are not represented.
- The timers are never decremented by the core. Nothing in the model decrements them either.
- Undefined behaviour in the C code becomes preconditions (`Semantics.Defined`, `CanStep`). It is not modelled:
  - memory reads and writes past 4095 (c8.c:21, 31, 292, 366-368, 372, 376); the `memcpy` of `chip8_loadprogram` (c8.c:21) becomes the precondition that the program fits from 0x200;
  - `keys[V0]` with V0 >= 16 (c8.c:320);
  - a return with an empty stack: the assert of `chip8_pop` (c8.c:36) becomes the precondition `sp > 0`;
  - a call with a full stack;
  - 8XY_ reading `regs[XY]` with X != 0 (c8.c:198).
- Semantics.Drawn: its contract states only the shape of the display; which cells flip is stated by Properties.DrawOnDarkScreen, Properties.DrawClips and Properties.SpriteTwice.
- Semantics.Collides: its contract states only when a collision is possible; its meaning, a lit cell turned off, is stated by Properties.SpriteFlag and Properties.DrawSetsFlag.
- Semantics.Execute: its contract states the invariant and the memory frame; the branch each word runs is stated by Properties.Decode (classes 1, 3-7, 9, A, C), Properties.DecodeGuarded (00E0, 00EE, 2, 8, D, F), Properties.ZeroPageDecode (other 00NN words) and Properties.UnclaimedWordsChangeNothing (the rest).
- `uint8_t sp` is a `nat` bounded by 100. Its 8-bit width never matters within that bound.
- Interpreter.Chip8.Push: requires `sp < 100`, the bound the assert at c8.c:41 evidently means. It does not take the written assert `sp == 100`; see Findings.
- The `sdl` pointer field of `chip8_t` is not modelled.

## Findings

| source | as written | input that shows it | evidently intended | confidence | as-written member | corrected member |
|---|---|---|---|---|---|---|
| c8.c:41 | `assert(c->sp == CHIP8_STACK_SIZE && "stack overflow")` passes only on a full stack | the first 2NNN after init (sp = 0) fails the assert; a push that passes it writes `stack[100]`, out of bounds | `sp < CHIP8_STACK_SIZE` | not executed | Properties.PushGuardAsWritten | Semantics.Push |

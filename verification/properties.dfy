/** Properties of the interpreter's semantics: what single instructions do to
    the machine, how instructions combine, and the places where the decoder
    behaves differently from the CHIP-8 instruction set it implements. */
module Properties {
  import opened Constants
  import opened Keypad
  import opened Semantics

  // ---------------------------------------------------------------------
  // Start-up and fetch

  /** The first instruction the machine executes is the first two bytes of
      the program, high byte first. */
  lemma BootFetchesProgramStart(font: seq<bv8>, program: seq<bv8>)
    requires |font| == FontArrayLen
    requires 2 <= |program| <= MemorySpace - ProgramsOffset
    ensures Fetch(Boot(font, program)) as int == program[0] as int * 256 + program[1] as int
  {
    var s := Boot(font, program);
    assert s.mem[ProgramsOffset] == program[0];
    assert s.mem[ProgramsOffset + 1] == program[1];
  }

  // ---------------------------------------------------------------------
  // Subroutines

  /** Popping right after pushing gives back the pushed address and the
      stack pointer, and leaves the address in the stack slot. */
  lemma PopAfterPush(s: State, v: bv16)
    requires Valid(s) && s.sp < StackSize
    ensures Pop(Push(s, v)) == (s.(stack := s.stack[s.sp := v]), v)
  {
  }

  /** 2NNN followed by 00EE: control comes back to the instruction after the
      call, with the stack pointer restored. */
  lemma CallThenReturn(s: State, w: bv16)
    requires Valid(s) && s.sp < StackSize
    ensures Call(s, w).pc == w & 0x0FFF && Call(s, w).sp == s.sp + 1
    ensures Return(Call(s, w)) == s.(pc := s.pc + 2, stack := s.stack[s.sp := s.pc + 2])
  {
    PopAfterPush(s, s.pc + 2);
  }

  /** The guard chip8_push asserts, as written: it holds only on a full stack. */
  predicate PushAllowedAsWritten(s: State)
  {
    s.sp == StackSize
  }

  /** As written, the push guard lets through exactly the states in which the
      write stack[sp] falls outside the stack, and stops every other one. */
  lemma PushGuardAsWritten(s: State)
    requires Valid(s)
    ensures PushAllowedAsWritten(s) <==> !(s.sp < |s.stack|)
  {
  }

  /** On the machine as it boots, the guard as written stops the very first
      2NNN, while the corrected push accepts it. */
  lemma FirstCallStopsAsWritten(font: seq<bv8>, program: seq<bv8>)
    requires |font| == FontArrayLen
    requires |program| <= MemorySpace - ProgramsOffset
    ensures !PushAllowedAsWritten(Boot(font, program))
    ensures Boot(font, program).sp < StackSize
    ensures Push(Boot(font, program), ProgramsOffset as bv16 + 2).stack[0] == ProgramsOffset as bv16 + 2
  {
  }

  // ---------------------------------------------------------------------
  // Jumps, loads and skips

  /** The decoder hands every word of classes 1, 3 to 7, 9, A and C to the
      function of its instruction; these classes demand nothing of the state. */
  lemma Decode(s: State, w: bv16, rnd: bv8, press: HostKey)
    requires Valid(s)
    ensures Msn(Msb(w)) == 0x1 ==> Defined(s, w) && Execute(s, w, rnd, press) == Jump(s, w)
    ensures Msn(Msb(w)) == 0x3 ==> Defined(s, w) && Execute(s, w, rnd, press) == SkipEqualByte(s, w)
    ensures Msn(Msb(w)) == 0x4 ==> Defined(s, w) && Execute(s, w, rnd, press) == SkipNotEqualByte(s, w)
    ensures Msn(Msb(w)) == 0x5 ==> Defined(s, w) && Execute(s, w, rnd, press) == SkipEqualRegs(s, w)
    ensures Msn(Msb(w)) == 0x6 ==> Defined(s, w) && Execute(s, w, rnd, press) == LoadByte(s, w)
    ensures Msn(Msb(w)) == 0x7 ==> Defined(s, w) && Execute(s, w, rnd, press) == AddByte(s, w)
    ensures Msn(Msb(w)) == 0x9 ==> Defined(s, w) && Execute(s, w, rnd, press) == SkipNotEqualRegs(s, w)
    ensures Msn(Msb(w)) == 0xA ==> Defined(s, w) && Execute(s, w, rnd, press) == LoadIndex(s, w)
    ensures Msn(Msb(w)) == 0xC ==> Defined(s, w) && Execute(s, w, rnd, press) == RandomByte(s, w, rnd)
  {
    if Msn(Msb(w)) != 0x0 {
      assert w != 0x00E0 && w != 0x00EE;
    }
  }

  /** The decoder hands 00E0, 00EE and every defined word of classes 2, 8, D
      and F to the function of its instruction; the key-skip test before the
      FX__ branch holds only for high byte 0 and so takes none of them. */
  lemma DecodeGuarded(s: State, w: bv16, rnd: bv8, press: HostKey)
    requires Valid(s) && Defined(s, w)
    ensures w == 0x00E0 ==> Execute(s, w, rnd, press) == ClearScreen(s)
    ensures w == 0x00EE ==> Execute(s, w, rnd, press) == Return(s)
    ensures Msn(Msb(w)) == 0x2 ==> Execute(s, w, rnd, press) == Call(s, w)
    ensures Msn(Msb(w)) == 0x8 ==> Execute(s, w, rnd, press) == Alu(s, w)
    ensures Msn(Msb(w)) == 0xD ==> Execute(s, w, rnd, press) == Draw(s, w)
    ensures Msn(Msb(w)) == 0xF ==> Execute(s, w, rnd, press) == Misc(s, w, press)
  {
    if Msn(Msb(w)) != 0 {
      KeyBranchIffHighByteZero(w);
    }
  }

  /** 1NNN moves the program counter to NNN and changes nothing else. */
  lemma JumpTarget(s: State, w: bv16)
    ensures Jump(s, w) == s.(pc := Jump(s, w).pc)
    ensures Jump(s, w).pc < 0x1000 && Jump(s, w).pc == w - (Msn(Msb(w)) << 12)
  {
    DecodeFields(w);
  }

  /** ANNN loads NNN into I and moves on. */
  lemma LoadIndexValue(s: State, w: bv16)
    ensures LoadIndex(s, w) == s.(i := LoadIndex(s, w).i, pc := s.pc + 2)
    ensures LoadIndex(s, w).i < 0x1000 && LoadIndex(s, w).i == w - (Msn(Msb(w)) << 12)
  {
    DecodeFields(w);
  }

  /** 6XNN sets VX to NN; no other register changes. */
  lemma LoadByteValue(s: State, w: bv16)
    requires Valid(s)
    ensures var r := LoadByte(s, w);
      var x := Lsn(Msb(w)) as int;
      && r == s.(regs := r.regs, pc := s.pc + 2)
      && r.regs[x] as bv16 == Lsb(w)
      && forall k :: 0 <= k < RegistersCount && k != x ==> r.regs[k] == s.regs[k]
  {
    DecodeFields(w);
  }

  /** 7XNN adds NN to VX modulo 256 and, unlike 8XY4, never touches VF. */
  lemma AddByteValue(s: State, w: bv16)
    requires Valid(s)
    ensures var r := AddByte(s, w);
      var x := Lsn(Msb(w)) as int;
      && r == s.(regs := r.regs, pc := s.pc + 2)
      && ByteSub(r.regs[x], s.regs[x]) == Lsb(w) as bv8
      && forall k :: 0 <= k < RegistersCount && k != x ==> r.regs[k] == s.regs[k]
  {
    ByteAddUndone(s.regs[Lsn(Msb(w)) as int], Lsb(w) as bv8);
  }

  /** Subtracting what was added gives it back, whatever the wrap-around. */
  lemma ByteAddUndone(a: bv8, b: bv8)
    ensures ByteSub(ByteAdd(a, b), a) == b
  {
  }

  /** CXNN sets VX to a random byte masked by NN: no bit outside NN is set. */
  lemma RandomByteMasked(s: State, w: bv16, rnd: bv8)
    requires Valid(s)
    ensures var r := RandomByte(s, w, rnd);
      var x := Lsn(Msb(w)) as int;
      && r == s.(regs := r.regs, pc := s.pc + 2)
      && r.regs[x] as bv16 & !(Lsb(w)) == 0
      && r.regs[x] & !rnd == 0
      && forall k :: 0 <= k < RegistersCount && k != x ==> r.regs[k] == s.regs[k]
  {
    DecodeFields(w);
  }

  /** Every skip instruction only moves the program counter, by 4 when its
      test holds and by 2 otherwise. */
  lemma SkipMoves(s: State, test: bool)
    ensures Skip(s, test) == s.(pc := Skip(s, test).pc)
    ensures Skip(s, test).pc == s.pc + 4 <==> test
    ensures Skip(s, test).pc == s.pc + 2 <==> !test
  {
  }

  /** 3XNN skips exactly when VX == NN. */
  lemma SkipEqualByteMoves(s: State, w: bv16)
    requires Valid(s)
    ensures var r := SkipEqualByte(s, w);
      var x := ((w >> 8) & 0xF) as int;
      && r == s.(pc := r.pc)
      && (r.pc == s.pc + 4 <==> s.regs[x] == (w & 0xFF) as bv8)
      && (r.pc == s.pc + 2 <==> s.regs[x] != (w & 0xFF) as bv8)
  {
    var x := ((w >> 8) & 0xF) as int;
    var test := s.regs[x] == (w & 0xFF) as bv8;
    assert SkipEqualByte(s, w) == Skip(s, test);
    SkipMoves(s, test);
  }

  /** 4XNN skips exactly when VX != NN. */
  lemma SkipNotEqualByteMoves(s: State, w: bv16)
    requires Valid(s)
    ensures var r := SkipNotEqualByte(s, w);
      var x := ((w >> 8) & 0xF) as int;
      && r == s.(pc := r.pc)
      && (r.pc == s.pc + 4 <==> s.regs[x] != (w & 0xFF) as bv8)
      && (r.pc == s.pc + 2 <==> s.regs[x] == (w & 0xFF) as bv8)
  {
    var x := ((w >> 8) & 0xF) as int;
    var test := s.regs[x] != (w & 0xFF) as bv8;
    assert SkipNotEqualByte(s, w) == Skip(s, test);
    SkipMoves(s, test);
  }

  /** 5XY0: VX == VY; the low nibble of the word is not checked. */
  lemma SkipEqualRegsMoves(s: State, w: bv16)
    requires Valid(s)
    ensures var r := SkipEqualRegs(s, w);
      var x, y := ((w >> 8) & 0xF) as int, ((w >> 4) & 0xF) as int;
      && r == s.(pc := r.pc)
      && (r.pc == s.pc + 4 <==> s.regs[x] == s.regs[y])
      && (r.pc == s.pc + 2 <==> s.regs[x] != s.regs[y])
  {
    DecodeFields(w);
  }

  /** 9XY0: VX != VY. */
  lemma SkipNotEqualRegsMoves(s: State, w: bv16)
    requires Valid(s)
    ensures var r := SkipNotEqualRegs(s, w);
      var x, y := ((w >> 8) & 0xF) as int, ((w >> 4) & 0xF) as int;
      && r == s.(pc := r.pc)
      && (r.pc == s.pc + 4 <==> s.regs[x] != s.regs[y])
      && (r.pc == s.pc + 2 <==> s.regs[x] == s.regs[y])
  {
    DecodeFields(w);
  }

  // ---------------------------------------------------------------------
  // The decoder's reach

  /** The key-skip test `msn(msb(w) == 0xE)` holds exactly for the words whose
      high byte is 0, not for the EX__ words it was meant to select. */
  lemma KeyBranchIffHighByteZero(w: bv16)
    ensures KeyBranch(w) <==> Msb(w) == 0
  {
  }

  /** A word 00NN other than 00E0 and 00EE runs the key-skip branch on V0:
      the program counter moves by 4 when NN is 9E and key V0 is down or NN
      is A1 and it is up, and by 2 otherwise. */
  lemma ZeroPageWordsAreKeySkips(s: State, w: bv16, rnd: bv8, press: HostKey)
    requires Valid(s) && Msb(w) == 0 && w != 0x00E0 && w != 0x00EE
    requires (w == 0x009E || w == 0x00A1) ==> s.regs[0] < 16
    ensures Defined(s, w)
    ensures var r := Execute(s, w, rnd, press);
      && r == s.(pc := r.pc)
      && r.pc == s.pc + if w == 0x009E then (if s.keys[s.regs[0]] then 4 else 2)
                        else if w == 0x00A1 then (if s.keys[s.regs[0]] then 2 else 4)
                        else 2
  {
    MsbOfLsnIsZero(w);
    assert Lsb(w) == w;
    ZeroPageDecode(s, w, rnd, press);
    if w == 0x009E {
      assert KeyTest(s, w) == s.keys[s.regs[0]];
    } else if w == 0x00A1 {
      assert KeyTest(s, w) == !s.keys[s.regs[0]];
    } else {
      assert !KeyTest(s, w);
    }
  }

  /** The decoder sends a word 00NN other than 00E0 and 00EE to the key-skip
      branch. */
  lemma ZeroPageDecode(s: State, w: bv16, rnd: bv8, press: HostKey)
    requires Valid(s) && Msb(w) == 0 && w != 0x00E0 && w != 0x00EE && KeySkipDefined(s, w)
    ensures Defined(s, w) && Execute(s, w, rnd, press) == KeySkip(s, w)
  {
    KeyBranchIffHighByteZero(w);
  }

  /** The words no branch claims: 0NNN with a non-zero high byte, every BNNN
      (its test compares msb(msb(w)), which is always 0) and every EX__ (its
      test selects 00__ words instead).  Executing one changes nothing, not
      even the program counter. */
  lemma UnclaimedWordsChangeNothing(s: State, w: bv16, rnd: bv8, press: HostKey)
    requires Valid(s)
    requires (Msn(Msb(w)) == 0x0 && Msb(w) != 0) || Msn(Msb(w)) == 0xB || Msn(Msb(w)) == 0xE
    ensures Defined(s, w)
    ensures Execute(s, w, rnd, press) == s
  {
    KeyBranchIffHighByteZero(w);
  }

  /** No instruction ever presses a key: a step either leaves the key flags
      alone or releases them all (FX0A). */
  lemma KeysOnlyCleared(s: State, rnd: bv8, press: HostKey)
    requires Valid(s) && CanStep(s)
    ensures Step(s, rnd, press).keys == s.keys || Step(s, rnd, press).keys == Released()
    ensures forall k :: 0 <= k < KeysCount && Step(s, rnd, press).keys[k] ==> s.keys[k]
  {
    ExecuteKeys(s, Fetch(s), rnd, press);
  }

  /** The same for one instruction word, branch by branch. */
  lemma ExecuteKeys(s: State, w: bv16, rnd: bv8, press: HostKey)
    requires Valid(s) && Defined(s, w)
    ensures Execute(s, w, rnd, press).keys == s.keys || Execute(s, w, rnd, press).keys == Released()
  {
    if w == 0x00E0 {
    } else if w == 0x00EE {
    } else if Msn(Msb(w)) == 0x1 {
    } else if Msn(Msb(w)) == 0x2 {
    } else if Msn(Msb(w)) == 0x3 {
    } else if Msn(Msb(w)) == 0x4 {
    } else if Msn(Msb(w)) == 0x5 {
    } else if Msn(Msb(w)) == 0x6 {
    } else if Msn(Msb(w)) == 0x7 {
    } else if Msn(Msb(w)) == 0x8 {
    } else if Msn(Msb(w)) == 0x9 {
    } else if Msn(Msb(w)) == 0xA {
    } else if Msn(Msb(w)) == 0xC {
    } else if Msn(Msb(w)) == 0xD {
    } else if KeyBranch(w) {
    } else if Msn(Msb(w)) == 0xF {
      MiscKeys(s, w, press);
    }
  }

  /** FX__ touches the key flags only through FX0A, which releases them all. */
  lemma MiscKeys(s: State, w: bv16, press: HostKey)
    requires Valid(s) && MiscDefined(s, w)
    ensures Misc(s, w, press).keys == if Lsb(w) == 0x0A then Released() else s.keys
  {
  }

  // ---------------------------------------------------------------------
  // Byte arithmetic of 8XY_

  /** The carry and the wrapped sum make up the exact sum, as a 16-bit
      value. */
  lemma AddWithCarry(a: bv8, b: bv8)
    ensures (Carry(a, b) as bv16 << 8) | ByteAdd(a, b) as bv16 == a as bv16 + b as bv16
  {
  }

  /** The wrapped difference undoes the subtraction; the flag is 1 exactly
      when the minuend is strictly greater (so equal operands give 0). */
  lemma SubWithFlag(a: bv8, b: bv8)
    ensures ByteSub(a, b) + b == a
    ensures NoBorrow(a, b) == 1 <==> a > b
    ensures NoBorrow(a, b) == 0 <==> a <= b
  {
  }

  /** Shifting right halves the value; the flag is the bit shifted out. */
  lemma ShiftRightWithFlag(a: bv8)
    ensures ShiftRight(a) == a / 2
    ensures LowBit(a) == a % 2
    ensures (ShiftRight(a) << 1) | LowBit(a) == a
  {
  }

  /** Shifting left doubles the value modulo 256; the flag is the bit shifted
      out kept in place, so it is 0x80 rather than 1. */
  lemma ShiftLeftWithFlag(a: bv8)
    ensures ShiftLeft(a) == a * 2
    ensures HighBit(a) == if a >= 0x80 then 0x80 else 0
    ensures (ShiftLeft(a) >> 1) | HighBit(a) == a
  {
  }

  /** The AND of two bytes has no bit the first lacks, the OR has every bit
      of the first, and xor-ing the same byte twice gives the byte back. */
  lemma AndWithin(a: bv8, b: bv8)
    ensures ByteAnd(a, b) | a == a
  {
  }

  lemma OrCovers(a: bv8, b: bv8)
    ensures ByteOr(a, b) & a == a
  {
  }

  lemma XorTwice(a: bv8, b: bv8)
    ensures ByteXor(ByteXor(a, b), b) == a
  {
  }

  /** 8XY0 to 8XY3 copy, or, and or xor VY into VX and, unlike the
      arithmetic sub-opcodes, leave VF alone unless X is F. */
  lemma LogicRegisters(v: seq<bv8>, x: int, y: int, op: bv16)
    requires |v| == RegistersCount && 0 <= x < RegistersCount && 0 <= y < RegistersCount && op <= 0x3
    ensures var r := AluRegs(v, x, y, op);
      && r[x] == (if op == 0x0 then v[y]
                  else if op == 0x1 then ByteOr(v[x], v[y])
                  else if op == 0x2 then ByteAnd(v[x], v[y])
                  else ByteXor(v[x], v[y]))
      && forall k :: 0 <= k < RegistersCount && k != x ==> r[k] == v[k]
  {
  }

  /** 8XY4 with X and Y other than F: VF:VX hold the full sum, and no other
      register changes. */
  lemma AddRegisters(v: seq<bv8>, x: int, y: int)
    requires |v| == RegistersCount && 0 <= x < VF && 0 <= y < VF
    ensures var r := AluRegs(v, x, y, 0x4);
      && (r[VF] as bv16 << 8) | r[x] as bv16 == v[x] as bv16 + v[y] as bv16
      && forall k :: 0 <= k < RegistersCount && k != x && k != VF ==> r[k] == v[k]
  {
    AddWithCarry(v[x], v[y]);
  }

  /** 8XY5 with X and Y other than F: VX := VX - VY modulo 256, VF := 1 when
      VX > VY and 0 otherwise. */
  lemma SubtractRegisters(v: seq<bv8>, x: int, y: int)
    requires |v| == RegistersCount && 0 <= x < VF && 0 <= y < VF
    ensures var r := AluRegs(v, x, y, 0x5);
      && r[x] + v[y] == v[x]
      && (r[VF] == 1 <==> v[x] > v[y])
      && (r[VF] == 0 <==> v[x] <= v[y])
      && forall k :: 0 <= k < RegistersCount && k != x && k != VF ==> r[k] == v[k]
  {
    SubWithFlag(v[x], v[y]);
  }

  /** 8XY7 with X and Y other than F: VX := VY - VX modulo 256, VF := 1 when
      VY > VX. */
  lemma ReverseSubtractRegisters(v: seq<bv8>, x: int, y: int)
    requires |v| == RegistersCount && 0 <= x < VF && 0 <= y < VF
    ensures var r := AluRegs(v, x, y, 0x7);
      && r[x] + v[x] == v[y]
      && (r[VF] == 1 <==> v[y] > v[x])
      && (r[VF] == 0 <==> v[y] <= v[x])
      && forall k :: 0 <= k < RegistersCount && k != x && k != VF ==> r[k] == v[k]
  {
    SubWithFlag(v[y], v[x]);
  }

  /** 8XY6 and 8XYE with X other than F: VX is halved or doubled modulo 256
      and VF holds the bit shifted out (0x80 for the left shift).  Y is not
      read. */
  lemma ShiftRegisters(v: seq<bv8>, x: int, y: int)
    requires |v| == RegistersCount && 0 <= x < VF
    ensures var r := AluRegs(v, x, y, 0x6);
      && r[x] == v[x] / 2 && r[VF] == v[x] % 2
      && forall k :: 0 <= k < RegistersCount && k != x && k != VF ==> r[k] == v[k]
    ensures var r := AluRegs(v, x, y, 0xE);
      && r[x] == v[x] * 2 && r[VF] == (if v[x] >= 0x80 then 0x80 else 0)
      && forall k :: 0 <= k < RegistersCount && k != x && k != VF ==> r[k] == v[k]
  {
    ShiftRightWithFlag(v[x]);
    ShiftLeftWithFlag(v[x]);
  }

  /** With Y = F the flag is written first and then read as the operand:
      8XF4 adds the carry, not the old VF, to VX. */
  lemma FlagOperandReadAfterWrite(v: seq<bv8>, x: int)
    requires |v| == RegistersCount && 0 <= x < VF
    ensures AluRegs(v, x, VF, 0x4)[x] == ByteAdd(v[x], Carry(v[x], v[VF]))
  {
  }

  /** With X = F the flag is written first and VF is then shifted from it:
      8FY6 and 8FYE always leave 0 there, since the bit kept is shifted out
      again, and no other register changes. */
  lemma FlagRegisterAsTarget(v: seq<bv8>, y: int)
    requires |v| == RegistersCount
    ensures AluRegs(v, VF, y, 0x6)[VF] == 0 && AluRegs(v, VF, y, 0xE)[VF] == 0
    ensures forall k :: 0 <= k < VF ==> AluRegs(v, VF, y, 0x6)[k] == v[k] && AluRegs(v, VF, y, 0xE)[k] == v[k]
  {
    FlagShiftedOut(v[VF]);
  }

  /** With X = F the second register index is at least 0xF0, so an 8FY_ is
      defined exactly when its sub-opcode does not read VY: only 8FY6, 8FYE
      and the unknown sub-opcodes execute. */
  lemma FlagTargetDefinedOnlyForShifts(w: bv16)
    requires Msn(Mb(w)) == 0xF
    ensures AluDefined(w) <==> !ReadsVy(Lsn(Lsb(w)))
  {
  }

  /** 8XY4 as an instruction: X is necessarily 0, and V0 with VF holds the
      full sum of V0 and VY as long as Y is not F. */
  lemma AddInstruction(s: State, w: bv16)
    requires Valid(s) && Lsn(Lsb(w)) == 0x4 && AluDefined(w) && Lsn(Mb(w)) != 0xF
    ensures var r := Alu(s, w).regs;
      var y := Lsn(Mb(w)) as int;
      && Msn(Mb(w)) == 0
      && (r[VF] as bv16 << 8) | r[0] as bv16 == s.regs[0] as bv16 + s.regs[y] as bv16
      && forall k :: 0 <= k < RegistersCount && k != 0 && k != VF ==> r[k] == s.regs[k]
  {
    AluReadsVyOnlyFromV0(w);
    AddRegisters(s.regs, 0, Lsn(Mb(w)) as int);
  }

  /** The flag bit a shift keeps does not survive the same shift. */
  lemma FlagShiftedOut(a: bv8)
    ensures ShiftRight(LowBit(a)) == 0
    ensures ShiftLeft(HighBit(a)) == 0
  {
  }

  /** The second register index of 8XY_ is the whole XY byte, so the
      instructions that read VY are defined only for X = 0. */
  lemma AluReadsVyOnlyFromV0(w: bv16)
    requires ReadsVy(Lsn(Lsb(w))) && AluDefined(w)
    ensures Msn(Mb(w)) == 0 && Lsb(Mb(w)) == Lsn(Mb(w))
  {
  }

  /** An 8XY_ with an unknown sub-opcode only moves the program counter. */
  lemma UnknownAluOpOnlyAdvances(s: State, w: bv16)
    requires Valid(s) && AluDefined(w)
    requires !(Lsn(Lsb(w)) <= 0x7 || Lsn(Lsb(w)) == 0xE)
    ensures Alu(s, w) == s.(pc := s.pc + 2)
  {
  }

  // ---------------------------------------------------------------------
  // Drawing

  /** Whether the sprite at (x0, y0) has any cell to flip. */
  ghost predicate AnyLit(s: State, x0: int, y0: int, n: int)
    requires Valid(s) && 0 <= y0 < DisplayHeight && 0 <= n && RowsFit(s, y0, n)
  {
    exists r, c | 0 <= r < DisplayHeight && 0 <= c < DisplayWidth :: Lit(s, x0, y0, n, r, c)
  }

  /** Drawing the same sprite twice (with X and Y other than F, so that the
      flag does not move it) gives back the display, and the second draw
      reports a collision exactly when the sprite has a cell on screen. */
  lemma DrawTwiceRestores(s: State, w: bv16)
    requires Valid(s) && DrawDefined(s, w)
    requires Msn(Mb(w)) != 0xF && Lsn(Mb(w)) != 0xF
    ensures DrawDefined(Draw(s, w), w)
    ensures Draw(Draw(s, w), w).display == s.display
    ensures Draw(Draw(s, w), w).regs[VF] ==
      if AnyLit(s, OriginX(s, w), OriginY(s, w), Height(w)) then 1 else s.regs[VF]
  {
    SpriteTwice(s, OriginX(s, w), OriginY(s, w), Height(w));
    DrawTwiceIsSpriteTwice(s, w);
  }

  /** Two draws of the same word are two passes of the same sprite, as long
      as the first does not write VX or VY. */
  lemma DrawTwiceIsSpriteTwice(s: State, w: bv16)
    requires Valid(s) && DrawDefined(s, w)
    requires Msn(Mb(w)) != 0xF && Lsn(Mb(w)) != 0xF
    ensures DrawDefined(Draw(s, w), w)
    ensures var u := Sprite(s, OriginX(s, w), OriginY(s, w), Height(w));
      && RowsFit(u, OriginY(s, w), Height(w))
      && Draw(Draw(s, w), w).display == Sprite(u, OriginX(s, w), OriginY(s, w), Height(w)).display
      && Draw(Draw(s, w), w).regs == Sprite(u, OriginX(s, w), OriginY(s, w), Height(w)).regs
  {
    var x0, y0, n := OriginX(s, w), OriginY(s, w), Height(w);
    var u := Sprite(s, x0, y0, n);
    DrawIsSprite(s, w);
    SpriteKeepsOrigin(s, w);
    DrawOfMoved(u, w, s.pc + 2);
  }

  /** A draw is the sprite at the origin, then pc moves on. */
  lemma DrawIsSprite(s: State, w: bv16)
    requires Valid(s) && DrawDefined(s, w)
    ensures Draw(s, w) == Sprite(s, OriginX(s, w), OriginY(s, w), Height(w)).(pc := s.pc + 2)
  {
  }

  /** A sprite drawn with X and Y other than F leaves VX and VY, hence the
      origin, and I and memory, hence the sprite, as they were. */
  lemma SpriteKeepsOrigin(s: State, w: bv16)
    requires Valid(s) && DrawDefined(s, w)
    requires Msn(Mb(w)) != 0xF && Lsn(Mb(w)) != 0xF
    ensures var u := Sprite(s, OriginX(s, w), OriginY(s, w), Height(w));
      && OriginX(u, w) == OriginX(s, w) && OriginY(u, w) == OriginY(s, w)
      && u.mem == s.mem && u.i == s.i
  {
    var u := Sprite(s, OriginX(s, w), OriginY(s, w), Height(w));
    var x, y := Msn(Mb(w)) as int, Lsn(Mb(w)) as int;
    assert u.regs[x] == s.regs[x] && u.regs[y] == s.regs[y];
  }

  /** Drawing from a state that differs from u only in pc draws u's sprite. */
  lemma DrawOfMoved(u: State, w: bv16, pc: bv16)
    requires Valid(u) && DrawDefined(u, w)
    ensures DrawDefined(u.(pc := pc), w)
    ensures Draw(u.(pc := pc), w).display == Sprite(u, OriginX(u, w), OriginY(u, w), Height(w)).display
    ensures Draw(u.(pc := pc), w).regs == Sprite(u, OriginX(u, w), OriginY(u, w), Height(w)).regs
  {
    var t := u.(pc := pc);
    assert OriginX(t, w) == OriginX(u, w) && OriginY(t, w) == OriginY(u, w);
    SpriteIgnoresPc(u, OriginX(u, w), OriginY(u, w), Height(w), pc);
  }

  /** The program counter plays no part in a draw. */
  lemma SpriteIgnoresPc(s: State, x0: int, y0: int, n: int, pc: bv16)
    requires Valid(s) && 0 <= y0 < DisplayHeight && 0 <= n && RowsFit(s, y0, n)
    ensures Sprite(s.(pc := pc), x0, y0, n) == Sprite(s, x0, y0, n).(pc := pc)
  {
    var t := s.(pc := pc);
    assert forall r, c :: 0 <= r < DisplayHeight && 0 <= c < DisplayWidth ==>
      Lit(t, x0, y0, n, r, c) == Lit(s, x0, y0, n, r, c);
    ScreensEqual(Drawn(t, x0, y0, n), Drawn(s, x0, y0, n));
    assert Collides(t, x0, y0, n) == Collides(s, x0, y0, n);
  }

  /** The same at the level of the sprite: xor-ing it twice restores the
      display, and the second pass collides exactly when the sprite has a
      cell on screen. */
  lemma SpriteTwice(s: State, x0: int, y0: int, n: int)
    requires Valid(s) && 0 <= y0 < DisplayHeight && 0 <= n && RowsFit(s, y0, n)
    ensures RowsFit(Sprite(s, x0, y0, n), y0, n)
    ensures Sprite(Sprite(s, x0, y0, n), x0, y0, n).display == s.display
    ensures Sprite(Sprite(s, x0, y0, n), x0, y0, n).regs[VF] ==
      if AnyLit(s, x0, y0, n) then 1 else s.regs[VF]
  {
    var t := Sprite(s, x0, y0, n);
    assert forall r, c :: 0 <= r < DisplayHeight && 0 <= c < DisplayWidth ==>
      Lit(t, x0, y0, n, r, c) == Lit(s, x0, y0, n, r, c);
    ScreensEqual(Sprite(t, x0, y0, n).display, s.display);
    if AnyLit(s, x0, y0, n) {
      var r, c :| 0 <= r < DisplayHeight && 0 <= c < DisplayWidth && Lit(s, x0, y0, n, r, c);
      if !t.display[r][c] {
        assert s.display[r][c] && Collides(s, x0, y0, n);
      } else {
        assert Collides(t, x0, y0, n);
      }
    } else {
      assert !Collides(t, x0, y0, n);
    }
  }

  /** VF after a draw is 1 exactly when it was 1 already or the draw turned a
      lit cell off; otherwise it keeps its old value.  No other register
      changes. */
  lemma DrawSetsFlag(s: State, w: bv16)
    requires Valid(s) && DrawDefined(s, w)
    ensures forall k :: 0 <= k < RegistersCount && k != VF ==> Draw(s, w).regs[k] == s.regs[k]
    ensures Draw(s, w).regs[VF] == 1 <==>
      s.regs[VF] == 1 || exists r, c | 0 <= r < DisplayHeight && 0 <= c < DisplayWidth ::
        s.display[r][c] && !Draw(s, w).display[r][c]
    ensures Draw(s, w).regs[VF] != 1 ==> Draw(s, w).regs[VF] == s.regs[VF]
  {
    DrawIsSprite(s, w);
    SpriteFlag(s, OriginX(s, w), OriginY(s, w), Height(w));
  }

  /** The same at the level of the sprite. */
  lemma SpriteFlag(s: State, x0: int, y0: int, n: int)
    requires Valid(s) && 0 <= y0 < DisplayHeight && 0 <= n && RowsFit(s, y0, n)
    ensures var t := Sprite(s, x0, y0, n);
      && (forall k :: 0 <= k < RegistersCount && k != VF ==> t.regs[k] == s.regs[k])
      && (t.regs[VF] == 1 <==>
          s.regs[VF] == 1 || exists r, c | 0 <= r < DisplayHeight && 0 <= c < DisplayWidth ::
            s.display[r][c] && !t.display[r][c])
      && (t.regs[VF] != 1 ==> t.regs[VF] == s.regs[VF])
  {
    var t := Sprite(s, x0, y0, n);
    if Collides(s, x0, y0, n) {
      var r, c :| 0 <= r < DisplayHeight && 0 <= c < DisplayWidth && Lit(s, x0, y0, n, r, c) && s.display[r][c];
      assert !t.display[r][c];
    } else {
      forall r, c | 0 <= r < DisplayHeight && 0 <= c < DisplayWidth && s.display[r][c]
        ensures t.display[r][c]
      {
        assert !Lit(s, x0, y0, n, r, c);
      }
    }
  }

  /** The sprite is clipped, not wrapped: no cell left of or above the origin,
      right of the eight sprite columns or below the N sprite rows changes. */
  lemma DrawClips(s: State, w: bv16, r: int, c: int)
    requires Valid(s) && DrawDefined(s, w)
    requires 0 <= r < DisplayHeight && 0 <= c < DisplayWidth
    requires c < OriginX(s, w) || c >= OriginX(s, w) + 8 || r < OriginY(s, w) || r >= OriginY(s, w) + Height(w)
    ensures Draw(s, w).display[r][c] == s.display[r][c]
  {
  }

  /** On a dark screen a draw lights exactly the sprite's cells and never
      writes VF: the flag is set on a collision but never cleared. */
  lemma DrawOnDarkScreen(s: State, w: bv16)
    requires Valid(s) && DrawDefined(s, w)
    requires s.display == Blank()
    ensures Draw(s, w).regs == s.regs
    ensures forall r, c :: 0 <= r < DisplayHeight && 0 <= c < DisplayWidth ==>
      Draw(s, w).display[r][c] == Lit(s, OriginX(s, w), OriginY(s, w), Height(w), r, c)
  {
    assert !Collides(s, OriginX(s, w), OriginY(s, w), Height(w));
  }

  // ---------------------------------------------------------------------
  // FX__

  /** An FX__ word with an unknown sub-opcode only moves the program counter. */
  lemma UnknownMiscOpOnlyAdvances(s: State, w: bv16, press: HostKey)
    requires Valid(s) && MiscDefined(s, w)
    requires Lsb(w) !in {0x07, 0x0A, 0x15, 0x18, 0x1E, 0x29, 0x33, 0x55, 0x65}
    ensures Misc(s, w, press) == s.(pc := s.pc + 2)
  {
  }

  /** FX0A releases every key, records the logical key of the pressed host
      key and copies it to VX. */
  lemma WaitKeyLoadsKey(s: State, w: bv16, press: HostKey)
    requires Valid(s) && Lsb(w) == 0x0A
    ensures MiscDefined(s, w)
    ensures Misc(s, w, press) == s.(keys := Released(), key := LogicalKey(press),
      regs := s.regs[Lsn(Msb(w)) as int := LogicalKey(press)], pc := s.pc + 2)
  {
  }

  /** FX15 then FX07 with the same X: the delay timer holds VX and VX is
      unchanged. */
  lemma DelayRoundTrip(s: State, load: bv16, read: bv16, press: HostKey)
    requires Valid(s) && Lsb(load) == 0x15 && Lsb(read) == 0x07 && Lsn(Msb(load)) == Lsn(Msb(read))
    ensures MiscDefined(s, load)
    ensures MiscDefined(Misc(s, load, press), read)
    ensures var r := Misc(Misc(s, load, press), read, press);
      && r.dt == s.regs[Lsn(Msb(load)) as int]
      && r == s.(dt := r.dt, pc := r.pc)
  {
    var x := Lsn(Msb(load)) as int;
    MiscTimers(s, load, press);
    var t := Misc(s, load, press);
    MiscTimers(t, read, press);
    assert t.regs[x := t.dt] == s.regs;
  }

  /** FX07, FX15 and FX18 as instructions: a copy between VX and a timer,
      then pc moves on. */
  lemma MiscTimers(s: State, w: bv16, press: HostKey)
    requires Valid(s)
    ensures Lsb(w) == 0x07 ==> MiscDefined(s, w) && Misc(s, w, press) == s.(regs := s.regs[Lsn(Msb(w)) as int := s.dt], pc := s.pc + 2)
    ensures Lsb(w) == 0x15 ==> MiscDefined(s, w) && Misc(s, w, press) == s.(dt := s.regs[Lsn(Msb(w)) as int], pc := s.pc + 2)
    ensures Lsb(w) == 0x18 ==> MiscDefined(s, w) && Misc(s, w, press) == s.(st := s.regs[Lsn(Msb(w)) as int], pc := s.pc + 2)
  {
  }

  /** FX1E adds VX to I modulo 2^16: the difference is exactly VX, and the
      sum wraps below I exactly when it passes 0xFFFF. */
  lemma AddToIndexWraps(i: bv16, v: bv8)
    ensures AddToIndex(i, v) - i == v as bv16
    ensures AddToIndex(i, v) < i <==> i > 0xFFFF - v as bv16
  {
  }

  /** FX1E as an instruction: I grows by VX, no register (VF included)
      changes, then pc moves on. */
  lemma MiscIndex(s: State, w: bv16, press: HostKey)
    requires Valid(s) && Lsb(w) == 0x1E
    ensures MiscDefined(s, w)
    ensures Misc(s, w, press) == s.(i := AddToIndex(s.i, s.regs[Lsn(Msb(w)) as int]), pc := s.pc + 2)
  {
  }

  /** FX29 points I at 5 * v without wrapping, for every byte v; the five
      bytes there lie inside the font table at the start of memory exactly
      when v is a digit 0..F. */
  lemma GlyphInFont(v: bv8)
    ensures GlyphAddress(v) as int + FontSize <= FontArrayLen <==> v < 16
  {
  }

  /** FX29 as an instruction: I becomes the glyph address of VX, no register
      changes, then pc moves on. */
  lemma MiscGlyph(s: State, w: bv16, press: HostKey)
    requires Valid(s) && Lsb(w) == 0x29
    ensures MiscDefined(s, w)
    ensures Misc(s, w, press) == s.(i := GlyphAddress(s.regs[Lsn(Msb(w)) as int]), pc := s.pc + 2)
  {
  }

  /** FX33 as an instruction: the three bytes of Bcd(VX) at I..I+2, nothing
      else in memory or elsewhere changes, then pc moves on. */
  lemma MiscBcd(s: State, w: bv16, press: HostKey)
    requires Valid(s) && Lsb(w) == 0x33 && s.i as int + 2 < MemorySpace
    ensures MiscDefined(s, w)
    ensures Misc(s, w, press) == StoreBcd(s, Bcd(s.regs[Lsn(Msb(w)) as int])).(pc := s.pc + 2)
  {
  }

  /** The digits FX33 stores are the decimal digits of the value exactly when
      it is below 100: the middle byte is v / 10, not its last digit. */
  lemma BcdDigitsBelowHundred(v: bv8)
    ensures (Bcd(v) == [v / 100, v / 10 % 10, v % 10]) <==> v < 100
  {
    if v >= 100 {
      assert Bcd(v)[1] == v / 10 && v / 10 >= 10;
      assert v / 10 % 10 < 10;
    }
  }

  /** For 234 the stored bytes are 2, 23 and 234 - 200 - 230 wrapped to a byte. */
  lemma BcdOfTwoHundredThirtyFour()
    ensures Bcd(234) == [2, 23, 60]
  {
  }

  /** FX55 then FX65 with the same X and I (neither moves I) changes no
      register: the registers come back from where they were stored. */
  lemma StoreThenLoadRegisters(s: State, x: int)
    requires Valid(s) && 0 <= x < RegistersCount && s.i as int + x < MemorySpace
    ensures LoadRegs(StoreRegs(s, x), x) == StoreRegs(s, x)
  {
    var t := StoreRegs(s, x);
    assert LoadRegs(t, x).regs == t.regs;
  }

  /** FX65 then FX55 changes no memory: the bytes go back where they came from. */
  lemma LoadThenStoreRegisters(s: State, x: int)
    requires Valid(s) && 0 <= x < RegistersCount && s.i as int + x < MemorySpace
    ensures StoreRegs(LoadRegs(s, x), x) == LoadRegs(s, x)
  {
    var t := LoadRegs(s, x);
    var a := s.i as int;
    DumpOfLoaded(s.mem, s.regs, a, x);
    assert StoreRegs(t, x).mem == t.mem;
  }

  /** On memory and register sequences: loading mem[a..a+x] into the first
      x + 1 registers and dumping those registers back at a gives the memory
      back. */
  lemma DumpOfLoaded(m: seq<bv8>, v: seq<bv8>, a: int, x: int)
    requires 0 <= a && a + x < |m| && 0 <= x < |v|
    ensures var loaded := m[a..a + x + 1] + v[x + 1..];
      m[..a] + loaded[..x + 1] + m[a + x + 1..] == m
  {
    var b := a + x + 1;
    var loaded := m[a..b] + v[x + 1..];
    assert loaded[..x + 1] == m[a..b];
    assert m[..a] + m[a..b] == m[..b];
  }

  /** FX55 as an instruction: the register dump, then pc moves on. */
  lemma MiscStore(s: State, w: bv16, press: HostKey)
    requires Valid(s) && Lsb(w) == 0x55 && s.i as int + Lsn(Msb(w)) as int < MemorySpace
    ensures MiscDefined(s, w)
    ensures Misc(s, w, press) == StoreRegs(s, Lsn(Msb(w)) as int).(pc := s.pc + 2)
  {
  }

  /** FX65 as an instruction: the register load, then pc moves on. */
  lemma MiscLoad(s: State, w: bv16, press: HostKey)
    requires Valid(s) && Lsb(w) == 0x65 && s.i as int + Lsn(Msb(w)) as int < MemorySpace
    ensures MiscDefined(s, w)
    ensures Misc(s, w, press) == LoadRegs(s, Lsn(Msb(w)) as int).(pc := s.pc + 2)
  {
  }

  /** The same round trip as instructions: FX55 followed by FX65 with the
      same X leaves every register as it was, memory as FX55 left it, and pc
      four bytes on. */
  lemma DumpThenLoadInstructions(s: State, store: bv16, load: bv16, press: HostKey)
    requires Valid(s) && Lsb(store) == 0x55 && Lsb(load) == 0x65 && Lsn(Msb(store)) == Lsn(Msb(load))
    requires s.i as int + Lsn(Msb(store)) as int < MemorySpace
    ensures MiscDefined(s, store)
    ensures MiscDefined(Misc(s, store, press), load)
    ensures var r := Misc(Misc(s, store, press), load, press);
      && r.regs == s.regs && r.i == s.i && r.pc == s.pc + 4
      && r.mem == StoreRegs(s, Lsn(Msb(store)) as int).mem
  {
    MiscStore(s, store, press);
    MiscLoad(Misc(s, store, press), load, press);
    StoreThenLoadRegisters(s, Lsn(Msb(store)) as int);
  }
}

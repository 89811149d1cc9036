/** The interpreter's behaviour on values: the machine record as an immutable
    State, and one function per step of the interpreter.  The class in
    interpreter.dfy runs the same steps in place and is proved to agree with
    these functions. */
module Semantics {
  import opened Constants
  import opened Keypad

  /** The record declares its key array with the literal 16. */
  const KeysCount: nat := 16

  /** The machine record: memory, registers V0..VF, the delay and sound
      timers, the index register I, the program counter, the stack pointer and
      return stack, the display (indexed display[row][col]), the key flags and
      the last logical key read. */
  datatype State = State(
    mem: seq<bv8>,
    regs: seq<bv8>,
    dt: bv8,
    st: bv8,
    i: bv16,
    pc: bv16,
    sp: nat,
    stack: seq<bv16>,
    display: seq<seq<bool>>,
    keys: seq<bool>,
    key: bv8)

  predicate IsScreen(d: seq<seq<bool>>)
  {
    |d| == DisplayHeight && forall row :: 0 <= row < |d| ==> |d[row]| == DisplayWidth
  }

  /** The sizes the record's arrays have, and the intended bound on the stack
      pointer. */
  predicate Valid(s: State)
  {
    && |s.mem| == MemorySpace
    && |s.regs| == RegistersCount
    && |s.stack| == StackSize
    && s.sp <= StackSize
    && IsScreen(s.display)
    && |s.keys| == KeysCount
  }

  function Zeros(n: nat): (z: seq<bv8>)
    ensures |z| == n && forall k :: 0 <= k < n ==> z[k] == 0
  {
    seq(n, _ => 0)
  }

  /** The all-dark display. */
  function Blank(): (d: seq<seq<bool>>)
    ensures IsScreen(d)
    ensures forall row, col :: 0 <= row < DisplayHeight && 0 <= col < DisplayWidth ==> !d[row][col]
  {
    seq(DisplayHeight, _ => seq(DisplayWidth, _ => false))
  }

  /** Every key released. */
  function Released(): (k: seq<bool>)
    ensures |k| == KeysCount && forall j :: 0 <= j < KeysCount ==> !k[j]
  {
    seq(KeysCount, _ => false)
  }

  /** Two displays with the same cells are the same display. */
  lemma ScreensEqual(a: seq<seq<bool>>, b: seq<seq<bool>>)
    requires IsScreen(a) && IsScreen(b)
    requires forall row, col :: 0 <= row < DisplayHeight && 0 <= col < DisplayWidth ==> a[row][col] == b[row][col]
    ensures a == b
  {
    forall row | 0 <= row < DisplayHeight
      ensures a[row] == b[row]
    {
      assert forall col :: 0 <= col < DisplayWidth ==> a[row][col] == b[row][col];
    }
  }

  /** Copies the font table to the start of memory. */
  function LoadFont(mem: seq<bv8>, font: seq<bv8>): (m: seq<bv8>)
    requires |mem| == MemorySpace && |font| == FontArrayLen
    ensures |m| == MemorySpace
    ensures forall a :: 0 <= a < MemorySpace ==> m[a] == if a < FontArrayLen then font[a] else mem[a]
  {
    font + mem[FontArrayLen..]
  }

  /** Copies a program to the program area. */
  function LoadProgram(mem: seq<bv8>, program: seq<bv8>): (m: seq<bv8>)
    requires |mem| == MemorySpace && |program| <= MemorySpace - ProgramsOffset
    ensures |m| == MemorySpace
    ensures forall a :: 0 <= a < MemorySpace ==>
      m[a] == if ProgramsOffset <= a < ProgramsOffset + |program| then program[a - ProgramsOffset] else mem[a]
  {
    mem[..ProgramsOffset] + program + mem[ProgramsOffset + |program|..]
  }

  /** The machine as it starts: everything zero, the font at address 0, the
      program at 0x200 and the program counter pointing at it. */
  function Boot(font: seq<bv8>, program: seq<bv8>): (s: State)
    requires |font| == FontArrayLen
    requires |program| <= MemorySpace - ProgramsOffset
    ensures Valid(s)
    ensures forall a :: 0 <= a < FontArrayLen ==> s.mem[a] == font[a]
    ensures forall a :: ProgramsOffset <= a < ProgramsOffset + |program| ==>
      s.mem[a] == program[a - ProgramsOffset]
    ensures forall a :: FontArrayLen <= a < ProgramsOffset || ProgramsOffset + |program| <= a < MemorySpace ==>
      s.mem[a] == 0
    ensures forall r :: 0 <= r < RegistersCount ==> s.regs[r] == 0
    ensures s.dt == 0 && s.st == 0 && s.i == 0 && s.key == 0
    ensures s.pc == 0x200 && s.pc as int == ProgramsOffset
    ensures s.sp == 0 && forall k :: 0 <= k < StackSize ==> s.stack[k] == 0
    ensures forall row, col :: 0 <= row < DisplayHeight && 0 <= col < DisplayWidth ==> !s.display[row][col]
    ensures forall k :: 0 <= k < KeysCount ==> !s.keys[k]
  {
    var zero := State(Zeros(MemorySpace), Zeros(RegistersCount), 0, 0, 0, 0, 0,
                      seq(StackSize, _ => 0), Blank(), Released(), 0);
    var s := zero.(pc := 0x200);
    s.(mem := LoadProgram(LoadFont(s.mem, font), program))
  }

  /** The big-endian word made of two bytes. */
  function Word(hi: bv8, lo: bv8): (w: bv16)
    ensures Msb(w) == hi as bv16 && Lsb(w) == lo as bv16
    ensures w as int == hi as int * 256 + lo as int
  {
    ((hi as bv16) << 8) + lo as bv16
  }

  /** The instruction at the program counter: the byte at pc is its high byte. */
  function Fetch(s: State): (w: bv16)
    requires Valid(s) && s.pc as int + 1 < MemorySpace
    ensures w as int == s.mem[s.pc] as int * 256 + s.mem[s.pc as int + 1] as int
  {
    Word(s.mem[s.pc], s.mem[s.pc as int + 1])
  }

  /** Pushes a return address. */
  function Push(s: State, v: bv16): (r: State)
    requires Valid(s) && s.sp < StackSize
    ensures Valid(r) && r == s.(stack := r.stack, sp := s.sp + 1)
    ensures r.stack[s.sp] == v && r.stack[..s.sp] == s.stack[..s.sp]
  {
    s.(stack := s.stack[s.sp := v], sp := s.sp + 1)
  }

  /** Pops a return address: the new state and the address. */
  function Pop(s: State): (r: (State, bv16))
    requires Valid(s) && s.sp > 0
    ensures Valid(r.0) && r.0 == s.(sp := r.0.sp) && r.0.sp < s.sp
    ensures Push(r.0, r.1) == s
  {
    (s.(sp := s.sp - 1), s.stack[s.sp - 1])
  }

  /** 00E0: clear the display. */
  function ClearScreen(s: State): (r: State)
    requires Valid(s)
    ensures Valid(r) && r == s.(display := r.display, pc := s.pc + 2)
    ensures forall row, col :: 0 <= row < DisplayHeight && 0 <= col < DisplayWidth ==> !r.display[row][col]
  {
    s.(display := Blank(), pc := s.pc + 2)
  }

  /** 00EE: return to the address on top of the stack. */
  function Return(s: State): (r: State)
    requires Valid(s) && s.sp > 0
    ensures Valid(r) && r == s.(sp := s.sp - 1, pc := r.pc)
    ensures r.pc == s.stack[s.sp - 1]
  {
    var (t, address) := Pop(s);
    t.(pc := address)
  }

  /** 2NNN: push the address of the next instruction and jump to NNN. */
  function Call(s: State, w: bv16): (r: State)
    requires Valid(s) && s.sp < StackSize
    ensures Valid(r) && r == s.(stack := r.stack, sp := s.sp + 1, pc := r.pc)
    ensures r.pc < 0x1000 && r.pc == w & 0xFFF
    ensures r.stack[s.sp] == s.pc + 2 && r.stack[..s.sp] == s.stack[..s.sp]
  {
    Push(s, s.pc + 2).(pc := w & 0xFFF)
  }

  /** The skip instructions: over the next instruction when the test holds. */
  function Skip(s: State, test: bool): (r: State)
    ensures r == s.(pc := r.pc) && (r.pc == s.pc + 2 || r.pc == s.pc + 4)
  {
    s.(pc := s.pc + if test then 4 else 2)
  }

  /** 1NNN: jump to NNN. */
  function Jump(s: State, w: bv16): (r: State)
    ensures r == s.(pc := r.pc) && r.pc < 0x1000
  {
    s.(pc := w & 0x0FFF)
  }

  /** 3XNN: skip when VX equals NN; this branch takes X as (w >> 8) & 0xF. */
  function SkipEqualByte(s: State, w: bv16): (r: State)
    requires Valid(s)
    ensures r == s.(pc := r.pc)
  {
    Skip(s, s.regs[((w >> 8) & 0xF) as int] == (w & 0xFF) as bv8)
  }

  /** 4XNN: skip when VX differs from NN. */
  function SkipNotEqualByte(s: State, w: bv16): (r: State)
    requires Valid(s)
    ensures r == s.(pc := r.pc)
  {
    Skip(s, s.regs[((w >> 8) & 0xF) as int] != (w & 0xFF) as bv8)
  }

  /** 5XY0: skip when VX equals VY (the low nibble is not checked). */
  function SkipEqualRegs(s: State, w: bv16): (r: State)
    requires Valid(s)
    ensures r == s.(pc := r.pc)
  {
    Skip(s, s.regs[Msn(Mb(w)) as int] == s.regs[Lsn(Mb(w)) as int])
  }

  /** 9XY0: skip when VX differs from VY. */
  function SkipNotEqualRegs(s: State, w: bv16): (r: State)
    requires Valid(s)
    ensures r == s.(pc := r.pc)
  {
    Skip(s, s.regs[Msn(Mb(w)) as int] != s.regs[Lsn(Mb(w)) as int])
  }

  /** 6XNN: VX := NN. */
  function LoadByte(s: State, w: bv16): (r: State)
    requires Valid(s)
    ensures Valid(r) && r == s.(regs := r.regs, pc := s.pc + 2)
    ensures forall k :: 0 <= k < RegistersCount && k != Lsn(Msb(w)) as int ==> r.regs[k] == s.regs[k]
  {
    s.(regs := s.regs[Lsn(Msb(w)) as int := Lsb(w) as bv8], pc := s.pc + 2)
  }

  /** 7XNN: VX := VX + NN, wrapping around; VF is not touched. */
  function AddByte(s: State, w: bv16): (r: State)
    requires Valid(s)
    ensures Valid(r) && r == s.(regs := r.regs, pc := s.pc + 2)
    ensures r.regs[VF] == s.regs[VF] || Lsn(Msb(w)) == 0xF
  {
    var x := Lsn(Msb(w)) as int;
    s.(regs := s.regs[x := ByteAdd(s.regs[x], Lsb(w) as bv8)], pc := s.pc + 2)
  }

  /** ANNN: I := NNN. */
  function LoadIndex(s: State, w: bv16): (r: State)
    ensures r == s.(i := r.i, pc := s.pc + 2) && r.i < 0x1000
  {
    s.(i := ((Lsn(Msb(w)) << 8) + Lsb(w)) & 0xFFF, pc := s.pc + 2)
  }

  /** CXNN: VX := a random byte and NN. */
  function RandomByte(s: State, w: bv16, rnd: bv8): (r: State)
    requires Valid(s)
    ensures Valid(r) && r == s.(regs := r.regs, pc := s.pc + 2)
    ensures forall k :: 0 <= k < RegistersCount && k != Lsn(Msb(w)) as int ==> r.regs[k] == s.regs[k]
    ensures r.regs[Lsn(Msb(w)) as int] & !rnd == 0
  {
    s.(regs := s.regs[Lsn(Msb(w)) as int := rnd & Lsb(w) as bv8], pc := s.pc + 2)
  }

  /** Whether an 8XY_ sub-opcode reads the register indexed by its second operand. */
  predicate ReadsVy(op: bv16)
  {
    op <= 0x5 || op == 0x7
  }

  /** The second register index of 8XY_ is the whole XY byte; it names a
      register only when X is 0. */
  predicate AluDefined(w: bv16)
  {
    ReadsVy(Lsn(Lsb(w))) ==> Lsb(Mb(w)) < 16
  }

  /** The byte operations of the 8XY_ instructions, on uint8_t operands:
      sums and differences wrap around modulo 256. */
  function ByteOr(a: bv8, b: bv8): bv8 { a | b }
  function ByteAnd(a: bv8, b: bv8): bv8 { a & b }
  function ByteXor(a: bv8, b: bv8): bv8 { a ^ b }
  function ByteAdd(a: bv8, b: bv8): bv8 { a + b }
  function ByteSub(a: bv8, b: bv8): bv8 { a - b }
  function ShiftRight(a: bv8): bv8 { a >> 1 }
  function ShiftLeft(a: bv8): bv8 { a << 1 }

  /** The flags: 1 when the 16-bit sum exceeds 0xFF; 1 when the minuend is
      strictly greater; the bit shifted out, kept in place (bit 0, or bit 7
      as the value 0x80). */
  function Carry(a: bv8, b: bv8): bv8 { if a as bv16 + b as bv16 > 0xFF then 1 else 0 }
  function NoBorrow(a: bv8, b: bv8): bv8 { if a > b then 1 else 0 }
  function LowBit(a: bv8): bv8 { a & 0x01 }
  function HighBit(a: bv8): bv8 { a & 0x80 }

  /** The registers after 8XY_ with register indices x and y and sub-opcode
      op.  VF is written before VX, and both operands are read again after
      that write. */
  function AluRegs(v: seq<bv8>, x: int, y: int, op: bv16): (r: seq<bv8>)
    requires |v| == RegistersCount && 0 <= x < RegistersCount
    requires ReadsVy(op) ==> 0 <= y < RegistersCount
    ensures |r| == RegistersCount
    ensures forall k :: 0 <= k < RegistersCount && k != x && k != VF ==> r[k] == v[k]
  {
    if op == 0x0 then v[x := v[y]]
    else if op == 0x1 then v[x := ByteOr(v[x], v[y])]
    else if op == 0x2 then v[x := ByteAnd(v[x], v[y])]
    else if op == 0x3 then v[x := ByteXor(v[x], v[y])]
    else if op == 0x4 then
      var f := v[VF := Carry(v[x], v[y])];
      f[x := ByteAdd(f[x], f[y])]
    else if op == 0x5 then
      var f := v[VF := NoBorrow(v[x], v[y])];
      f[x := ByteSub(f[x], f[y])]
    else if op == 0x6 then
      var f := v[VF := LowBit(v[x])];
      f[x := ShiftRight(f[x])]
    else if op == 0x7 then
      var f := v[VF := NoBorrow(v[y], v[x])];
      f[x := ByteSub(f[y], f[x])]
    else if op == 0xE then
      var f := v[VF := HighBit(v[x])];
      f[x := ShiftLeft(f[x])]
    else v
  }

  /** 8XY_: the arithmetic and logic instructions.  X is the high nibble of
      the XY byte, but the second register index is the whole XY byte. */
  function Alu(s: State, w: bv16): (r: State)
    requires Valid(s) && AluDefined(w)
    ensures Valid(r) && r == s.(regs := r.regs, pc := s.pc + 2)
  {
    s.(regs := AluRegs(s.regs, Msn(Mb(w)) as int, Lsb(Mb(w)) as int, Lsn(Lsb(w))), pc := s.pc + 2)
  }

  /** Whether column c (0 = leftmost) of a sprite row is set. */
  predicate SpriteBit(b: bv8, c: int)
    requires 0 <= c < 8
  {
    b & (0x80 >> c) != 0
  }

  /** The sprite rows a draw reads lie in memory: the rows drawn are those
      below min(n, 32 - y0). */
  predicate RowsFit(s: State, y0: int, n: int)
    requires 0 <= y0 < DisplayHeight && 0 <= n
  {
    n == 0 || s.i as int + (if n < DisplayHeight - y0 then n else DisplayHeight - y0) <= MemorySpace
  }

  /** Whether drawing an n-row sprite from I at (x0, y0) flips the cell at
      (row, col): the cell lies inside the sprite, on the display (the sprite
      is clipped at the right and bottom edges, not wrapped) and its sprite
      bit is set. */
  predicate Lit(s: State, x0: int, y0: int, n: int, row: int, col: int)
    requires Valid(s) && 0 <= y0 < DisplayHeight && 0 <= n && RowsFit(s, y0, n)
    ensures Lit(s, x0, y0, n, row, col) ==>
      y0 <= row < DisplayHeight && x0 <= col < DisplayWidth && row - y0 < n && col - x0 < 8
  {
    && y0 <= row < y0 + n && row < DisplayHeight
    && x0 <= col < x0 + 8 && col < DisplayWidth
    && SpriteBit(s.mem[s.i as int + (row - y0)], col - x0)
  }

  /** Whether the draw turns off a cell that was on. */
  predicate Collides(s: State, x0: int, y0: int, n: int)
    requires Valid(s) && 0 <= y0 < DisplayHeight && 0 <= n && RowsFit(s, y0, n)
    ensures Collides(s, x0, y0, n) ==> 0 < n && x0 < DisplayWidth && -8 < x0
  {
    exists row, col | 0 <= row < DisplayHeight && 0 <= col < DisplayWidth ::
      Lit(s, x0, y0, n, row, col) && s.display[row][col]
  }

  /** The display after the sprite is xor-ed onto it. */
  function Drawn(s: State, x0: int, y0: int, n: int): (d: seq<seq<bool>>)
    requires Valid(s) && 0 <= y0 < DisplayHeight && 0 <= n && RowsFit(s, y0, n)
    ensures IsScreen(d)
  {
    seq(DisplayHeight, row requires 0 <= row < DisplayHeight =>
      seq(DisplayWidth, col requires 0 <= col < DisplayWidth =>
        s.display[row][col] != Lit(s, x0, y0, n, row, col)))
  }

  /** The origin of DXYN: VX mod 64 and VY mod 32. */
  function OriginX(s: State, w: bv16): (x0: int)
    requires Valid(s)
    ensures 0 <= x0 < DisplayWidth
  {
    (s.regs[Msn(Mb(w)) as int] % 64) as int
  }

  function OriginY(s: State, w: bv16): (y0: int)
    requires Valid(s)
    ensures 0 <= y0 < DisplayHeight
  {
    (s.regs[Lsn(Mb(w)) as int] % 32) as int
  }

  function Height(w: bv16): (n: int)
    ensures 0 <= n < 16
  {
    Lsn(Lsb(w)) as int
  }

  predicate DrawDefined(s: State, w: bv16)
    requires Valid(s)
  {
    RowsFit(s, OriginY(s, w), Height(w))
  }

  /** DXYN: draw the N-row sprite at I at (VX, VY).  VF becomes 1 when a lit
      cell is turned off and is otherwise left as it was. */
  function DrawEffect(s: State, w: bv16): (r: State)
    requires Valid(s) && DrawDefined(s, w)
    ensures Valid(r) && r == s.(display := r.display, regs := r.regs)
  {
    Sprite(s, OriginX(s, w), OriginY(s, w), Height(w))
  }

  /** The sprite drawn at (x0, y0): the display and VF change. */
  function Sprite(s: State, x0: int, y0: int, n: int): (r: State)
    requires Valid(s) && 0 <= y0 < DisplayHeight && 0 <= n && RowsFit(s, y0, n)
    ensures Valid(r) && r == s.(display := r.display, regs := r.regs)
    ensures forall k :: 0 <= k < RegistersCount && k != VF ==> r.regs[k] == s.regs[k]
  {
    s.(display := Drawn(s, x0, y0, n),
       regs := if Collides(s, x0, y0, n) then s.regs[VF := 1] else s.regs)
  }

  /** The DXYN branch: the draw, then pc advances by 2. */
  function Draw(s: State, w: bv16): (r: State)
    requires Valid(s) && DrawDefined(s, w)
    ensures Valid(r) && r == s.(display := r.display, regs := r.regs, pc := s.pc + 2)
  {
    var t := DrawEffect(s, w);
    t.(pc := t.pc + 2)
  }

  /** The test guarding the key-skip branch.  It is written as the nibble of a
      comparison, which groups as "the high byte equals 0xE >> 4", that is,
      "the high byte is 0". */
  predicate KeyBranch(w: bv16)
    ensures KeyBranch(w) ==> Msn(Msb(w)) != 0xE
  {
    var test: bv16 := if Msb(w) == 0xE >> 4 then 1 else 0;
    (test & 0xF) != 0
  }

  predicate KeySkipDefined(s: State, w: bv16)
    requires Valid(s)
  {
    (Lsb(w) == 0x9E || Lsb(w) == 0xA1) ==> s.regs[Msb(Lsn(w)) as int] < 16
  }

  /** Whether logical key v is down. */
  predicate KeyDown(keys: seq<bool>, v: bv8)
    requires |keys| == KeysCount && v < 16
  {
    keys[v]
  }

  /** The test of the key-skip branch: the key named by the register is down
      (low byte 9E) or up (low byte A1); no other low byte skips. */
  predicate KeyTest(s: State, w: bv16)
    requires Valid(s) && KeySkipDefined(s, w)
    ensures KeyTest(s, w) ==> Lsb(w) == 0x9E || Lsb(w) == 0xA1
  {
    var x := Msb(Lsn(w)) as int;
    if Lsb(w) == 0x9E then KeyDown(s.keys, s.regs[x])
    else if Lsb(w) == 0xA1 then !KeyDown(s.keys, s.regs[x])
    else false
  }

  /** The key-skip branch: a skip instruction with the key test. */
  function KeySkip(s: State, w: bv16): (r: State)
    requires Valid(s) && KeySkipDefined(s, w)
    ensures Valid(r) && r == s.(pc := r.pc) && (r.pc == s.pc + 2 || r.pc == s.pc + 4)
  {
    Skip(s, KeyTest(s, w))
  }

  /** FX0A: all keys are released, then the logical key of the pressed host
      key is recorded and copied to VX. */
  function WaitKey(s: State, x: int, press: HostKey): (r: State)
    requires Valid(s) && 0 <= x < RegistersCount
    ensures Valid(r) && r == s.(keys := r.keys, key := r.key, regs := r.regs)
    ensures r.key < 16 && r.regs[x] == r.key && r.keys == Released()
    ensures forall k :: 0 <= k < RegistersCount && k != x ==> r.regs[k] == s.regs[k]
  {
    var k := LogicalKey(press);
    s.(keys := Released(), key := k, regs := s.regs[x := k])
  }

  /** The three bytes FX33 stores: v / 100, v / 10 and v - 100 h - 10 t
      truncated to a byte. */
  function Bcd(v: bv8): (d: seq<bv8>)
    ensures |d| == 3 && d[0] <= 2 && d[1] <= 25
  {
    var h := v / 100;
    var t := v / 10;
    [h, t, v - h * 100 - t * 10]
  }

  /** The three bytes d written to mem[I..I+2]. */
  function StoreBcd(s: State, d: seq<bv8>): (r: State)
    requires Valid(s) && s.i as int + 2 < MemorySpace && |d| == 3
    ensures Valid(r) && r == s.(mem := r.mem)
    ensures forall a :: 0 <= a < MemorySpace ==>
      r.mem[a] == if s.i as int <= a < s.i as int + 3 then d[a - s.i as int] else s.mem[a]
  {
    var a := s.i as int;
    s.(mem := s.mem[a := d[0]][a + 1 := d[1]][a + 2 := d[2]])
  }

  /** FX55: V0..VX to mem[I..I+X]. */
  function StoreRegs(s: State, x: int): (r: State)
    requires Valid(s) && 0 <= x < RegistersCount && s.i as int + x < MemorySpace
    ensures Valid(r) && r == s.(mem := r.mem)
    ensures forall a :: 0 <= a < MemorySpace ==>
      r.mem[a] == if s.i as int <= a <= s.i as int + x then s.regs[a - s.i as int] else s.mem[a]
  {
    var a := s.i as int;
    s.(mem := s.mem[..a] + s.regs[..x + 1] + s.mem[a + x + 1..])
  }

  /** FX65: mem[I..I+X] to V0..VX. */
  function LoadRegs(s: State, x: int): (r: State)
    requires Valid(s) && 0 <= x < RegistersCount && s.i as int + x < MemorySpace
    ensures Valid(r) && r == s.(regs := r.regs)
    ensures forall k :: 0 <= k < RegistersCount ==>
      r.regs[k] == if k <= x then s.mem[s.i as int + k] else s.regs[k]
  {
    var a := s.i as int;
    s.(regs := s.mem[a..a + x + 1] + s.regs[x + 1..])
  }

  predicate MiscDefined(s: State, w: bv16)
    requires Valid(s)
  {
    var x := Lsn(Msb(w)) as int;
    && (Lsb(w) == 0x33 ==> s.i as int + 2 < MemorySpace)
    && (Lsb(w) == 0x55 || Lsb(w) == 0x65 ==> s.i as int + x < MemorySpace)
  }

  /** FX1E: I plus VX, wrapping around at 16 bits; VF is not touched. */
  function AddToIndex(i: bv16, v: bv8): (j: bv16)
    ensures j >= i || j < v as bv16
  {
    i + v as bv16
  }

  /** FX29: the address of the glyph of digit v, five bytes per glyph from
      address 0. */
  function GlyphAddress(v: bv8): (g: bv16)
    ensures g as int == v as int * FontSize
  {
    v as bv16 * 0x05
  }

  /** The effect of FX__ before the program counter advances: timers, key
      wait, I arithmetic, BCD and register dump/load; an unknown sub-opcode
      has none. */
  function MiscEffect(s: State, w: bv16, press: HostKey): (r: State)
    requires Valid(s) && MiscDefined(s, w)
    ensures Valid(r) && r.pc == s.pc && r.sp == s.sp && r.stack == s.stack && r.display == s.display
    ensures r.mem != s.mem ==> Lsb(w) == 0x33 || Lsb(w) == 0x55
  {
    var x := Lsn(Msb(w)) as int;
    var op := Lsb(w);
    if op == 0x07 then s.(regs := s.regs[x := s.dt])
    else if op == 0x0A then WaitKey(s, x, press)
    else if op == 0x15 then s.(dt := s.regs[x])
    else if op == 0x18 then s.(st := s.regs[x])
    else if op == 0x1E then s.(i := AddToIndex(s.i, s.regs[x]))
    else if op == 0x29 then s.(i := GlyphAddress(s.regs[x]))
    else if op == 0x33 then StoreBcd(s, Bcd(s.regs[x]))
    else if op == 0x55 then StoreRegs(s, x)
    else if op == 0x65 then LoadRegs(s, x)
    else s
  }

  /** FX__: the effect, then the program counter advances by 2 whatever the
      sub-opcode. */
  function Misc(s: State, w: bv16, press: HostKey): (r: State)
    requires Valid(s) && MiscDefined(s, w)
    ensures Valid(r) && r.pc == s.pc + 2 && r.sp == s.sp && r.stack == s.stack && r.display == s.display
  {
    var t := MiscEffect(s, w, press);
    t.(pc := t.pc + 2)
  }

  /** What the interpreter demands of the state to execute word w: the stack
      bounds its asserts check, and the array bounds the C code does not check. */
  predicate Defined(s: State, w: bv16)
    requires Valid(s)
    ensures !Defined(s, w) ==> Msn(Msb(w)) in {0x0, 0x2, 0x8, 0xD, 0xF}
  {
    if w == 0x00E0 then true
    else if w == 0x00EE then s.sp > 0
    else if Msn(Msb(w)) == 0x2 then s.sp < StackSize
    else if Msn(Msb(w)) == 0x8 then AluDefined(w)
    else if Msn(Msb(w)) == 0xD then DrawDefined(s, w)
    else if KeyBranch(w) then KeySkipDefined(s, w)
    else if Msn(Msb(w)) == 0xF then MiscDefined(s, w)
    else true
  }

  /** Executes instruction word w, trying the interpreter's tests in order.
      A word that passes none of them leaves the state as it was. */
  function Execute(s: State, w: bv16, rnd: bv8, press: HostKey): (r: State)
    requires Valid(s) && Defined(s, w)
    ensures Valid(r)
    ensures r.mem != s.mem ==> Msn(Msb(w)) == 0xF && (Lsb(w) == 0x33 || Lsb(w) == 0x55)
  {
    if w == 0x00E0 then ClearScreen(s)
    else if w == 0x00EE then Return(s)
    else if Msn(Msb(w)) == 0x1 then Jump(s, w)
    else if Msn(Msb(w)) == 0x2 then Call(s, w)
    else if Msn(Msb(w)) == 0x3 then SkipEqualByte(s, w)
    else if Msn(Msb(w)) == 0x4 then SkipNotEqualByte(s, w)
    else if Msn(Msb(w)) == 0x5 then SkipEqualRegs(s, w)
    else if Msn(Msb(w)) == 0x6 then LoadByte(s, w)
    else if Msn(Msb(w)) == 0x7 then AddByte(s, w)
    else if Msn(Msb(w)) == 0x8 then Alu(s, w)
    else if Msn(Msb(w)) == 0x9 then SkipNotEqualRegs(s, w)
    else if Msn(Msb(w)) == 0xA then LoadIndex(s, w)
    else if Msn(Msb(w)) == 0xC then RandomByte(s, w, rnd)
    else if Msn(Msb(w)) == 0xD then Draw(s, w)
    else if KeyBranch(w) then KeySkip(s, w)
    else if Msn(Msb(w)) == 0xF then Misc(s, w, press)
    else s
  }

  /** Whether one step is defined: the word at pc lies in memory and the
      instruction's own demands hold. */
  predicate CanStep(s: State)
    requires Valid(s)
    ensures CanStep(s) ==> s.pc < 0x0FFF
  {
    s.pc as int + 1 < MemorySpace && Defined(s, Fetch(s))
  }

  /** One fetch-decode-execute step.  rnd stands for the random byte of CXNN
      and press for the host key FX0A waits for. */
  function Step(s: State, rnd: bv8, press: HostKey): (r: State)
    requires Valid(s) && CanStep(s)
    ensures Valid(r)
    ensures r.mem != s.mem ==> Msn(Msb(Fetch(s))) == 0xF
  {
    Execute(s, Fetch(s), rnd, press)
  }
}

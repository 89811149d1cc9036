/** The interpreter as the C code runs it: a machine record whose arrays are
    updated in place by the step method.  Every method is proved to have the
    effect of the matching function of module Semantics on the record's value
    (View). */
module Interpreter {
  import opened Constants
  import opened Keypad
  import Semantics

  /** Whether cell (r, c) comes before the cursor (row, col) of the draw loops,
      which visit sprite rows top-down and, within a row, columns
      left-to-right; row and col count from the sprite's origin (x0, y0). */
  predicate Visited(x0: int, y0: int, row: int, col: int, r: int, c: int)
  {
    r < y0 + row || (r == y0 + row && c < x0 + col)
  }

  /** Whether a visited cell of the sprite was lit before the draw started. */
  ghost predicate HitSoFar(s: Semantics.State, x0: int, y0: int, n: int, row: int, col: int)
    requires Semantics.Valid(s) && 0 <= y0 < DisplayHeight && 0 <= n && Semantics.RowsFit(s, y0, n)
  {
    exists r, c | 0 <= r < DisplayHeight && 0 <= c < DisplayWidth ::
      Visited(x0, y0, row, col, r, c) && Semantics.Lit(s, x0, y0, n, r, c) && s.display[r][c]
  }

  /** The cell at column col of sprite row `row` is lit iff that bit of the
      row's sprite byte is set. */
  lemma LitCell(s: Semantics.State, x0: int, y0: int, n: int, row: int, col: int)
    requires Semantics.Valid(s) && 0 <= y0 < DisplayHeight && 0 <= n && Semantics.RowsFit(s, y0, n)
    requires 0 <= x0 && 0 <= col < 8 && x0 + col < DisplayWidth && 0 <= row < n && y0 + row < DisplayHeight
    ensures s.i as int + row < MemorySpace
    ensures Semantics.Lit(s, x0, y0, n, y0 + row, x0 + col) == Semantics.SpriteBit(s.mem[s.i as int + row], col)
  {
  }

  /** Moving the cursor one column right adds the cell it passes over to
      the hits when that cell is lit and was on. */
  lemma HitStep(s: Semantics.State, x0: int, y0: int, n: int, row: int, col: int)
    requires Semantics.Valid(s) && 0 <= y0 < DisplayHeight && 0 <= n && Semantics.RowsFit(s, y0, n)
    requires 0 <= x0 && 0 <= col && x0 + col < DisplayWidth && 0 <= row && y0 + row < DisplayHeight
    ensures HitSoFar(s, x0, y0, n, row, col + 1) ==
      (HitSoFar(s, x0, y0, n, row, col) ||
       (Semantics.Lit(s, x0, y0, n, y0 + row, x0 + col) && s.display[y0 + row][x0 + col]))
  {
    if HitSoFar(s, x0, y0, n, row, col + 1) && !HitSoFar(s, x0, y0, n, row, col) {
      var r, c :| 0 <= r < DisplayHeight && 0 <= c < DisplayWidth &&
        Visited(x0, y0, row, col + 1, r, c) && Semantics.Lit(s, x0, y0, n, r, c) && s.display[r][c];
      assert r == y0 + row && c == x0 + col;
    }
  }

  /** Moving the cursor to the next row once every lit cell of the current
      row has been visited changes neither the visited lit cells nor the hits. */
  lemma RowDone(s: Semantics.State, x0: int, y0: int, n: int, row: int, col: int)
    requires Semantics.Valid(s) && 0 <= y0 < DisplayHeight && 0 <= n && Semantics.RowsFit(s, y0, n)
    requires 0 <= x0 && (col >= 8 || x0 + col >= DisplayWidth)
    ensures forall r, c :: 0 <= r < DisplayHeight && 0 <= c < DisplayWidth ==>
      (Visited(x0, y0, row, col, r, c) && Semantics.Lit(s, x0, y0, n, r, c)) ==
      (Visited(x0, y0, row + 1, 0, r, c) && Semantics.Lit(s, x0, y0, n, r, c))
    ensures HitSoFar(s, x0, y0, n, row, col) == HitSoFar(s, x0, y0, n, row + 1, 0)
  {
  }

  /** Once the cursor is past every row of the sprite, the visited lit cells
      are all the lit cells. */
  lemma AllDone(s: Semantics.State, x0: int, y0: int, n: int, row: int)
    requires Semantics.Valid(s) && 0 <= y0 < DisplayHeight && 0 <= n && Semantics.RowsFit(s, y0, n)
    requires row >= n || y0 + row >= DisplayHeight
    ensures forall r, c :: 0 <= r < DisplayHeight && 0 <= c < DisplayWidth ==>
      (Visited(x0, y0, row, 0, r, c) && Semantics.Lit(s, x0, y0, n, r, c)) == Semantics.Lit(s, x0, y0, n, r, c)
    ensures HitSoFar(s, x0, y0, n, row, 0) == Semantics.Collides(s, x0, y0, n)
  {
  }

  /** The machine record.  Its arrays have fixed sizes and are never replaced,
      so they are constant references whose elements change. */
  class Chip8 {
    const mem: array<bv8>
    const regs: array<bv8>
    var dt: bv8
    var st: bv8
    var i: bv16
    var pc: bv16
    var sp: nat
    const stack: array<bv16>
    const display: array2<bool>
    const keys: array<bool>
    var key: bv8

    ghost predicate Valid()
      reads this
    {
      && mem.Length == MemorySpace
      && regs.Length == RegistersCount
      && stack.Length == StackSize
      && sp <= StackSize
      && display.Length0 == DisplayHeight && display.Length1 == DisplayWidth
      && keys.Length == Semantics.KeysCount
      && mem != regs
      && keys as object != mem && keys as object != regs
    }

    /** The display as rows of cells. */
    ghost function Screen(): (d: seq<seq<bool>>)
      requires display.Length0 == DisplayHeight && display.Length1 == DisplayWidth
      reads display
      ensures Semantics.IsScreen(d)
      ensures forall row, col :: 0 <= row < DisplayHeight && 0 <= col < DisplayWidth ==>
        d[row][col] == display[row, col]
    {
      seq(DisplayHeight, row requires 0 <= row < DisplayHeight reads display =>
        seq(DisplayWidth, col requires 0 <= col < DisplayWidth reads display => display[row, col]))
    }

    /** The value the record holds. */
    ghost function View(): (s: Semantics.State)
      requires Valid()
      reads this, mem, regs, stack, display, keys
      ensures Semantics.Valid(s)
    {
      Semantics.State(mem[..], regs[..], dt, st, i, pc, sp, stack[..], Screen(), keys[..], key)
    }

    /** chip8_init: a zeroed record, pc at the program area, then the font and
        the program copied in. */
    constructor Init(font: seq<bv8>, program: seq<bv8>)
      requires |font| == FontArrayLen
      requires |program| <= MemorySpace - ProgramsOffset
      ensures Valid() && View() == Semantics.Boot(font, program)
      ensures fresh(mem) && fresh(regs) && fresh(stack) && fresh(display) && fresh(keys)
    {
      mem := new bv8[MemorySpace](_ => 0);
      regs := new bv8[RegistersCount](_ => 0);
      dt, st, i, sp, key := 0, 0, 0, 0, 0;
      stack := new bv16[StackSize](_ => 0);
      display := new bool[DisplayHeight, DisplayWidth]((_, _) => false);
      keys := new bool[Semantics.KeysCount](_ => false);
      pc := 0x200;
      new;
      Semantics.ScreensEqual(Screen(), Semantics.Blank());
      LoadFont(font);
      LoadProgram(program);
    }

    /** chip8_loadfont: the font table to mem[0..80). */
    method LoadFont(font: seq<bv8>)
      requires Valid() && |font| == FontArrayLen
      modifies mem
      ensures mem[..] == Semantics.LoadFont(old(mem[..]), font)
    {
      forall a | 0 <= a < FontArrayLen {
        mem[a] := font[a];
      }
    }

    /** chip8_loadprogram: the program to mem[0x200..0x200+size). */
    method LoadProgram(program: seq<bv8>)
      requires Valid() && |program| <= MemorySpace - ProgramsOffset
      modifies mem
      ensures mem[..] == Semantics.LoadProgram(old(mem[..]), program)
    {
      forall a | 0 <= a < |program| {
        mem[ProgramsOffset + a] := program[a];
      }
    }

    /** chip8_fetch: the big-endian word at pc. */
    method Fetch() returns (w: bv16)
      requires Valid() && pc as int + 1 < MemorySpace
      ensures w == Semantics.Fetch(View())
      ensures w as int == mem[pc] as int * 256 + mem[pc as int + 1] as int
    {
      var most := mem[pc];
      var least := mem[pc as int + 1];
      w := Semantics.Word(most, least);
    }

    /** chip8_pop: the top of the stack, which it leaves. */
    method Pop() returns (v: bv16)
      requires Valid() && sp > 0
      modifies this
      ensures Valid() && (View(), v) == Semantics.Pop(old(View()))
    {
      sp := sp - 1;
      v := stack[sp];
    }

    /** chip8_push, with the stack bound its assert means to check. */
    method Push(v: bv16)
      requires Valid() && sp < StackSize
      modifies this, stack
      ensures Valid() && View() == Semantics.Push(old(View()), v)
    {
      stack[sp] := v;
      sp := sp + 1;
    }

    /** chip8_cleardisplay. */
    method ClearDisplay()
      requires Valid()
      modifies display
      ensures Screen() == Semantics.Blank()
    {
      for row := 0 to DisplayHeight
        invariant forall r, c :: 0 <= r < row && 0 <= c < DisplayWidth ==> !display[r, c]
      {
        for col := 0 to DisplayWidth
          invariant forall r, c :: 0 <= r < row && 0 <= c < DisplayWidth ==> !display[r, c]
          invariant forall c :: 0 <= c < col ==> !display[row, c]
        {
          display[row, col] := false;
        }
      }
      Semantics.ScreensEqual(Screen(), Semantics.Blank());
    }

    /** chip8_clearkeys. */
    method ClearKeys()
      requires Valid()
      modifies keys
      ensures keys[..] == Semantics.Released()
    {
      for k := 0 to Semantics.KeysCount
        invariant forall j :: 0 <= j < k ==> !keys[j]
      {
        keys[k] := false;
      }
    }

    /** chip8_readkey without its wait: releases every key, then records the
        logical key of the host key pressed. */
    method ReadKey(press: HostKey)
      requires Valid()
      modifies this, keys
      ensures Valid() && View() == old(View()).(keys := Semantics.Released(), key := LogicalKey(press))
    {
      ClearKeys();
      key := LogicalKey(press);
    }

    /** The register updates of 8XY_ with register indices x and y. */
    method AluRegisters(x: int, y: int, op: bv16)
      requires regs.Length == RegistersCount && 0 <= x < RegistersCount
      requires Semantics.ReadsVy(op) ==> 0 <= y < RegistersCount
      modifies regs
      ensures regs[..] == Semantics.AluRegs(old(regs[..]), x, y, op)
    {
      if op == 0x0 {
        regs[x] := regs[y];
      } else if op == 0x1 {
        regs[x] := Semantics.ByteOr(regs[x], regs[y]);
      } else if op == 0x2 {
        regs[x] := Semantics.ByteAnd(regs[x], regs[y]);
      } else if op == 0x3 {
        regs[x] := Semantics.ByteXor(regs[x], regs[y]);
      } else if op == 0x4 {
        regs[VF] := Semantics.Carry(regs[x], regs[y]);
        assert regs[..] == old(regs[..])[VF := regs[VF]];
        regs[x] := Semantics.ByteAdd(regs[x], regs[y]);
      } else if op == 0x5 {
        regs[VF] := Semantics.NoBorrow(regs[x], regs[y]);
        assert regs[..] == old(regs[..])[VF := regs[VF]];
        regs[x] := Semantics.ByteSub(regs[x], regs[y]);
      } else if op == 0x6 {
        regs[VF] := Semantics.LowBit(regs[x]);
        assert regs[..] == old(regs[..])[VF := regs[VF]];
        regs[x] := Semantics.ShiftRight(regs[x]);
      } else if op == 0x7 {
        regs[VF] := Semantics.NoBorrow(regs[y], regs[x]);
        assert regs[..] == old(regs[..])[VF := regs[VF]];
        regs[x] := Semantics.ByteSub(regs[y], regs[x]);
      } else if op == 0xE {
        regs[VF] := Semantics.HighBit(regs[x]);
        assert regs[..] == old(regs[..])[VF := regs[VF]];
        regs[x] := Semantics.ShiftLeft(regs[x]);
      }
    }

    /** The 8XY_ branch of chip8_exec. */
    method ExecAlu(w: bv16)
      requires Valid() && Semantics.AluDefined(w)
      modifies this, regs
      ensures Valid() && View() == Semantics.Alu(old(View()), w)
    {
      ghost var s := View();
      var xy := Mb(w);
      AluRegisters(Msn(xy) as int, Lsb(xy) as int, Lsn(Lsb(w)));
      pc := pc + 2;
      assert mem[..] == s.mem && stack[..] == s.stack && keys[..] == s.keys;
      assert Screen() == s.display;
    }

    /** The progress of the drawing loops with the cursor at (row, col):
        exactly the visited lit cells are flipped, no register but VF has
        changed, and VF is 1 if one of the visited lit cells was on. */
    ghost predicate Painted(s: Semantics.State, x0: int, y0: int, n: int, row: int, col: int)
      requires Valid() && Semantics.Valid(s) && 0 <= y0 < DisplayHeight && 0 <= n && Semantics.RowsFit(s, y0, n)
      reads this, display, regs
    {
      && (forall r, c :: 0 <= r < DisplayHeight && 0 <= c < DisplayWidth ==>
            display[r, c] == (s.display[r][c] != (Visited(x0, y0, row, col, r, c) && Semantics.Lit(s, x0, y0, n, r, c))))
      && regs[..] == s.regs[VF := regs[VF]]
      && regs[VF] == if HitSoFar(s, x0, y0, n, row, col) then 1 else s.regs[VF]
    }

    /** The body of the inner drawing loop: the cell of sprite column `col`
        is flipped when its sprite bit is set, and VF becomes 1 when it was on. */
    method DrawCell(ghost s: Semantics.State, x0: int, y0: int, n: int, row: int, col: int, byte: bv8)
      requires Valid() && Semantics.Valid(s) && s.mem == mem[..] && s.i == i
      requires 0 <= x0 && 0 <= col < 8 && x0 + col < DisplayWidth
      requires 0 <= y0 && 0 <= row < n && y0 + row < DisplayHeight
      requires Semantics.RowsFit(s, y0, n) && byte == mem[i as int + row]
      requires Painted(s, x0, y0, n, row, col)
      modifies regs, display
      ensures Painted(s, x0, y0, n, row, col + 1)
    {
      var cy := (y0 + row) % DisplayHeight;
      var cx := (x0 + col) % DisplayWidth;
      var bit := Semantics.SpriteBit(byte, col);
      assert cy == y0 + row && cx == x0 + col;
      assert byte == s.mem[s.i as int + row];
      LitCell(s, x0, y0, n, row, col);
      if bit {
        Flip(s, x0, y0, n, row, col, cy, cx);
      } else {
        PassUnlit(s, x0, y0, n, row, col);
      }
    }

    /** Flipping a lit cell moves the cursor past it. */
    method Flip(ghost s: Semantics.State, x0: int, y0: int, n: int, row: int, col: int, cy: int, cx: int)
      requires Valid() && Semantics.Valid(s)
      requires 0 <= x0 && 0 <= col && cx == x0 + col < DisplayWidth
      requires 0 <= y0 && 0 <= row < n && cy == y0 + row < DisplayHeight
      requires Semantics.RowsFit(s, y0, n) && Semantics.Lit(s, x0, y0, n, cy, cx)
      requires Painted(s, x0, y0, n, row, col)
      modifies regs, display
      ensures Painted(s, x0, y0, n, row, col + 1)
    {
      HitStep(s, x0, y0, n, row, col);
      if display[cy, cx] {
        regs[VF] := 1;
      }
      display[cy, cx] := !display[cy, cx];
      forall r, c | 0 <= r < DisplayHeight && 0 <= c < DisplayWidth
        ensures display[r, c] == (s.display[r][c] != (Visited(x0, y0, row, col + 1, r, c) && Semantics.Lit(s, x0, y0, n, r, c)))
      {
        assert old(display[r, c]) == (s.display[r][c] != (Visited(x0, y0, row, col, r, c) && Semantics.Lit(s, x0, y0, n, r, c)));
      }
      assert regs[..] == s.regs[VF := regs[VF]];
    }

    /** Passing over a cell that is not lit changes nothing but the cursor. */
    lemma PassUnlit(s: Semantics.State, x0: int, y0: int, n: int, row: int, col: int)
      requires Valid() && Semantics.Valid(s)
      requires 0 <= x0 && 0 <= col && x0 + col < DisplayWidth
      requires 0 <= y0 && 0 <= row < n && y0 + row < DisplayHeight
      requires Semantics.RowsFit(s, y0, n) && !Semantics.Lit(s, x0, y0, n, y0 + row, x0 + col)
      requires Painted(s, x0, y0, n, row, col)
      ensures Painted(s, x0, y0, n, row, col + 1)
    {
      HitStep(s, x0, y0, n, row, col);
      forall r, c | 0 <= r < DisplayHeight && 0 <= c < DisplayWidth
        ensures display[r, c] == (s.display[r][c] != (Visited(x0, y0, row, col + 1, r, c) && Semantics.Lit(s, x0, y0, n, r, c)))
      {
        assert display[r, c] == (s.display[r][c] != (Visited(x0, y0, row, col, r, c) && Semantics.Lit(s, x0, y0, n, r, c)));
      }
    }

    /** One pass of the inner drawing loop: the columns of sprite row `row`
        left-to-right, stopping after the rightmost display column. */
    method DrawRow(ghost s: Semantics.State, x0: int, y0: int, n: int, row: int)
      requires Valid() && Semantics.Valid(s) && s.mem == mem[..] && s.i == i
      requires 0 <= x0 < DisplayWidth && 0 <= y0 < DisplayHeight && 0 <= row < n && y0 + row < DisplayHeight
      requires Semantics.RowsFit(s, y0, n)
      requires Painted(s, x0, y0, n, row, 0)
      modifies regs, display
      ensures Painted(s, x0, y0, n, row + 1, 0)
    {
      var byte := mem[i as int + row];
      var col := 0;
      while col < 8
        invariant 0 <= col <= 8 && x0 + col < DisplayWidth
        invariant Painted(s, x0, y0, n, row, col)
      {
        DrawCell(s, x0, y0, n, row, col, byte);
        var cx := (x0 + col) % DisplayWidth;
        if cx == DisplayWidth - 1 {
          RowDone(s, x0, y0, n, row, col + 1);
          break;
        }
        col := col + 1;
      }
      if col == 8 {
        RowDone(s, x0, y0, n, row, col);
      }
    }

    /** The drawing loops of the DXYN branch: rows top-down from I, stopping
        after the bottom display row. */
    method DrawSprite(x0: int, y0: int, n: int)
      requires Valid() && 0 <= x0 < DisplayWidth && 0 <= y0 < DisplayHeight && 0 <= n
      requires Semantics.RowsFit(View(), y0, n)
      modifies regs, display
      ensures Valid() && View() == Semantics.Sprite(old(View()), x0, y0, n)
    {
      ghost var s := View();
      assert Painted(s, x0, y0, n, 0, 0) by {
        assert !HitSoFar(s, x0, y0, n, 0, 0);
      }
      var row := 0;
      while row < n
        invariant 0 <= row <= n && y0 + row < DisplayHeight
        invariant Painted(s, x0, y0, n, row, 0)
      {
        DrawRow(s, x0, y0, n, row);
        var cy := (y0 + row) % DisplayHeight;
        if cy == DisplayHeight - 1 {
          AllDone(s, x0, y0, n, row + 1);
          break;
        }
        row := row + 1;
      }
      if row == n {
        AllDone(s, x0, y0, n, row);
      }
      assert forall r, c :: 0 <= r < DisplayHeight && 0 <= c < DisplayWidth ==>
        display[r, c] == (s.display[r][c] != Semantics.Lit(s, x0, y0, n, r, c));
      assert regs[VF] == if Semantics.Collides(s, x0, y0, n) then 1 else s.regs[VF];
      Semantics.ScreensEqual(Screen(), Semantics.Drawn(s, x0, y0, n));
      assert mem[..] == s.mem && stack[..] == s.stack && keys[..] == s.keys;
    }

    /** The DXYN branch of chip8_exec. */
    method ExecDraw(w: bv16)
      requires Valid() && Semantics.DrawDefined(View(), w)
      modifies this, regs, display
      ensures Valid() && View() == Semantics.Draw(old(View()), w)
    {
      DrawAt(w);
      pc := pc + 2;
    }

    /** The origin and height of DXYN, then the drawing loops. */
    method DrawAt(w: bv16)
      requires Valid() && Semantics.DrawDefined(View(), w)
      modifies regs, display
      ensures Valid() && View() == Semantics.DrawEffect(old(View()), w)
    {
      ghost var s := View();
      var xy := Mb(w);
      var x := Msn(xy) as int;
      var y := Lsn(xy) as int;
      var n := Lsn(Lsb(w)) as int;
      var xcoord := (regs[x] % 64) as int;
      var ycoord := (regs[y] % 32) as int;
      assert xcoord == Semantics.OriginX(s, w) && ycoord == Semantics.OriginY(s, w) && n == Semantics.Height(w);
      DrawSprite(xcoord, ycoord, n);
    }

    /** The key-skip branch of chip8_exec (taken for words whose high byte is
        0): the key test, then the skip. */
    method ExecKeySkip(w: bv16)
      requires Valid() && Semantics.KeySkipDefined(View(), w)
      modifies this
      ensures Valid() && View() == Semantics.KeySkip(old(View()), w)
    {
      ghost var s := View();
      var x := Msb(Lsn(w)) as int;
      var op := Lsb(w);
      var skip := false;
      if op == 0x9E {
        skip := keys[regs[x]];
      } else if op == 0xA1 {
        skip := !keys[regs[x]];
      }
      assert skip == Semantics.KeyTest(s, w);
      SkipIf(skip);
    }

    /** FX55: for reg in 0..X, mem[I + reg] := V[reg]. */
    method StoreRegisters(x: int)
      requires Valid() && 0 <= x < RegistersCount && i as int + x < MemorySpace
      modifies mem
      ensures Valid() && View() == Semantics.StoreRegs(old(View()), x)
    {
      ghost var s := View();
      CopyOut(i as int, x);
      assert mem[..] == Semantics.StoreRegs(s, x).mem;
      assert regs[..] == s.regs && stack[..] == s.stack && keys[..] == s.keys;
      assert Screen() == s.display;
    }

    /** The loop of FX55: V0..VX to mem[base..base+X]. */
    method CopyOut(base: int, x: int)
      requires Valid() && 0 <= x < RegistersCount && 0 <= base && base + x < MemorySpace
      modifies mem
      ensures forall a :: 0 <= a < MemorySpace ==>
        mem[a] == if base <= a <= base + x then regs[a - base] else old(mem[a])
    {
      for reg := 0 to x + 1
        invariant forall a :: 0 <= a < MemorySpace ==>
          mem[a] == if base <= a < base + reg then regs[a - base] else old(mem[a])
      {
        mem[base + reg] := regs[reg];
      }
    }

    /** FX65 (the record's registers). */
    method LoadRegisters(x: int)
      requires Valid() && 0 <= x < RegistersCount && i as int + x < MemorySpace
      modifies regs
      ensures Valid() && View() == Semantics.LoadRegs(old(View()), x)
    {
      ghost var s := View();
      CopyIn(i as int, x);
      assert regs[..] == Semantics.LoadRegs(s, x).regs;
      assert mem[..] == s.mem && stack[..] == s.stack && keys[..] == s.keys;
      assert Screen() == s.display;
    }

    /** The loop of FX65: mem[base..base+X] to V0..VX. */
    method CopyIn(base: int, x: int)
      requires Valid() && 0 <= x < RegistersCount && 0 <= base && base + x < MemorySpace
      modifies regs
      ensures forall k :: 0 <= k < RegistersCount ==>
        regs[k] == if k <= x then mem[base + k] else old(regs[k])
    {
      for reg := 0 to x + 1
        invariant forall k :: 0 <= k < RegistersCount ==>
          regs[k] == if k < reg then mem[base + k] else old(regs[k])
      {
        regs[reg] := mem[base + reg];
      }
    }

    /** FX33: the three bytes Bcd(v) (v / 100, v / 10 and the remainder) to
        mem[I..I+2]. */
    method StoreDigits(v: bv8)
      requires Valid() && i as int + 2 < MemorySpace
      modifies mem
      ensures Valid() && View() == Semantics.StoreBcd(old(View()), Semantics.Bcd(v))
    {
      ghost var s := View();
      var d := Semantics.Bcd(v);
      var a := i as int;
      mem[a] := d[0];
      mem[a + 1] := d[1];
      mem[a + 2] := d[2];
      assert mem[..] == s.mem[a := d[0]][a + 1 := d[1]][a + 2 := d[2]];
      assert regs[..] == s.regs && stack[..] == s.stack && keys[..] == s.keys;
      assert Screen() == s.display;
    }
    /** Assignments to one register or one scalar field of the record. */
    method SetRegister(x: int, v: bv8)
      requires Valid() && 0 <= x < RegistersCount
      modifies regs
      ensures Valid() && View() == old(View()).(regs := old(View()).regs[x := v])
    {
      ghost var s := View();
      regs[x] := v;
      assert regs[..] == s.regs[x := v];
      assert mem[..] == s.mem && stack[..] == s.stack && keys[..] == s.keys;
      assert Screen() == s.display;
    }

    method SetIndex(v: bv16)
      requires Valid()
      modifies this
      ensures Valid() && View() == old(View()).(i := v)
    {
      i := v;
    }

    method SetDelay(v: bv8)
      requires Valid()
      modifies this
      ensures Valid() && View() == old(View()).(dt := v)
    {
      dt := v;
    }

    method SetSound(v: bv8)
      requires Valid()
      modifies this
      ensures Valid() && View() == old(View()).(st := v)
    {
      st := v;
    }

    /** The switch of the FX__ branch of chip8_exec. */
    method MiscSwitch(w: bv16, press: HostKey)
      requires Valid() && Semantics.MiscDefined(View(), w)
      modifies this, mem, regs, keys
      ensures Valid() && View() == Semantics.MiscEffect(old(View()), w, press)
    {
      var x := Lsn(Msb(w)) as int;
      var op := Lsb(w);
      if op == 0x07 {
        SetRegister(x, dt);
      } else if op == 0x0A {
        ReadKey(press);
        SetRegister(x, key);
      } else if op == 0x15 {
        SetDelay(regs[x]);
      } else if op == 0x18 {
        SetSound(regs[x]);
      } else if op == 0x1E {
        SetIndex(Semantics.AddToIndex(i, regs[x]));
      } else if op == 0x29 {
        SetIndex(Semantics.GlyphAddress(regs[x]));
      } else if op == 0x33 {
        StoreDigits(regs[x]);
      } else if op == 0x55 {
        StoreRegisters(x);
      } else if op == 0x65 {
        LoadRegisters(x);
      }
    }

    /** The FX__ branch of chip8_exec: the switch, then pc advances by 2. */
    method ExecMisc(w: bv16, press: HostKey)
      requires Valid() && Semantics.MiscDefined(View(), w)
      modifies this, mem, regs, keys
      ensures Valid() && View() == Semantics.Misc(old(View()), w, press)
    {
      MiscSwitch(w, press);
      pc := pc + 2;
    }

    /** pc += 2. */
    method Advance()
      requires Valid()
      modifies this
      ensures Valid() && View() == old(View()).(pc := old(pc) + 2)
    {
      pc := pc + 2;
    }

    /** pc += test ? 4 : 2, the step of every skip instruction. */
    method SkipIf(test: bool)
      requires Valid()
      modifies this
      ensures Valid() && View() == Semantics.Skip(old(View()), test)
    {
      pc := pc + if test then 4 else 2;
    }

    /** 00E0. */
    method ClearScreen()
      requires Valid()
      modifies this, display
      ensures Valid() && View() == Semantics.ClearScreen(old(View()))
    {
      ghost var s := View();
      ClearDisplay();
      assert mem[..] == s.mem && regs[..] == s.regs && stack[..] == s.stack && keys[..] == s.keys;
      Advance();
    }

    /** 00EE. */
    method Return()
      requires Valid() && sp > 0
      modifies this
      ensures Valid() && View() == Semantics.Return(old(View()))
    {
      pc := Pop();
    }

    /** 2NNN. */
    method Call(w: bv16)
      requires Valid() && sp < StackSize
      modifies this, stack
      ensures Valid() && View() == Semantics.Call(old(View()), w)
    {
      Push(pc + 2);
      pc := w & 0xFFF;
    }

    /** 1NNN. */
    method Jump(w: bv16)
      requires Valid()
      modifies this
      ensures Valid() && View() == Semantics.Jump(old(View()), w)
    {
      pc := w & 0x0FFF;
    }

    /** 3XNN. */
    method SkipEqualByte(w: bv16)
      requires Valid()
      modifies this
      ensures Valid() && View() == Semantics.SkipEqualByte(old(View()), w)
    {
      ghost var s := View();
      var x := ((w >> 8) & 0xF) as int;
      var test := regs[x] == (w & 0xFF) as bv8;
      assert test == (s.regs[((w >> 8) & 0xF) as int] == (w & 0xFF) as bv8);
      SkipIf(test);
    }

    /** 4XNN. */
    method SkipNotEqualByte(w: bv16)
      requires Valid()
      modifies this
      ensures Valid() && View() == Semantics.SkipNotEqualByte(old(View()), w)
    {
      ghost var s := View();
      var x := ((w >> 8) & 0xF) as int;
      var test := regs[x] != (w & 0xFF) as bv8;
      assert test == (s.regs[((w >> 8) & 0xF) as int] != (w & 0xFF) as bv8);
      SkipIf(test);
    }

    /** 5XY0. */
    method SkipEqualRegs(w: bv16)
      requires Valid()
      modifies this
      ensures Valid() && View() == Semantics.SkipEqualRegs(old(View()), w)
    {
      ghost var s := View();
      var xy := Mb(w);
      var x, y := Msn(xy) as int, Lsn(xy) as int;
      var test := regs[x] == regs[y];
      assert test == (s.regs[Msn(Mb(w)) as int] == s.regs[Lsn(Mb(w)) as int]);
      SkipIf(test);
    }

    /** 9XY0. */
    method SkipNotEqualRegs(w: bv16)
      requires Valid()
      modifies this
      ensures Valid() && View() == Semantics.SkipNotEqualRegs(old(View()), w)
    {
      ghost var s := View();
      var xy := Mb(w);
      var x, y := Msn(xy) as int, Lsn(xy) as int;
      var test := regs[x] != regs[y];
      assert test == (s.regs[Msn(Mb(w)) as int] != s.regs[Lsn(Mb(w)) as int]);
      SkipIf(test);
    }

    /** 6XNN. */
    method LoadByte(w: bv16)
      requires Valid()
      modifies this, regs
      ensures Valid() && View() == Semantics.LoadByte(old(View()), w)
    {
      SetRegister(Lsn(Msb(w)) as int, Lsb(w) as bv8);
      Advance();
    }

    /** 7XNN. */
    method AddByte(w: bv16)
      requires Valid()
      modifies this, regs
      ensures Valid() && View() == Semantics.AddByte(old(View()), w)
    {
      ghost var s := View();
      var x := Lsn(Msb(w)) as int;
      var v := Semantics.ByteAdd(regs[x], Lsb(w) as bv8);
      assert v == Semantics.ByteAdd(s.regs[x], Lsb(w) as bv8);
      SetRegister(x, v);
      Advance();
    }

    /** ANNN. */
    method LoadIndex(w: bv16)
      requires Valid()
      modifies this
      ensures Valid() && View() == Semantics.LoadIndex(old(View()), w)
    {
      SetIndex(((Lsn(Msb(w)) << 8) + Lsb(w)) & 0xFFF);
      Advance();
    }

    /** CXNN. */
    method RandomByte(w: bv16, rnd: bv8)
      requires Valid()
      modifies this, regs
      ensures Valid() && View() == Semantics.RandomByte(old(View()), w, rnd)
    {
      SetRegister(Lsn(Msb(w)) as int, rnd & Lsb(w) as bv8);
      Advance();
    }

    /** The decoding part of chip8_exec: the instruction word w selects one
        branch, tried in the order of the source; a word no branch claims
        leaves the machine untouched. */
    method Dispatch(w: bv16, rnd: bv8, press: HostKey)
      requires Valid() && Semantics.Defined(View(), w)
      modifies this, mem, regs, stack, display, keys
      ensures Valid() && View() == Semantics.Execute(old(View()), w, rnd, press)
    {
      if w == 0x00E0 {
        ClearScreen();
      } else if w == 0x00EE {
        Return();
      } else if Msn(Msb(w)) == 0x1 {
        Jump(w);
      } else if Msn(Msb(w)) == 0x2 {
        Call(w);
      } else if Msn(Msb(w)) == 0x3 {
        SkipEqualByte(w);
      } else if Msn(Msb(w)) == 0x4 {
        SkipNotEqualByte(w);
      } else if Msn(Msb(w)) == 0x5 {
        SkipEqualRegs(w);
      } else if Msn(Msb(w)) == 0x6 {
        LoadByte(w);
      } else if Msn(Msb(w)) == 0x7 {
        AddByte(w);
      } else if Msn(Msb(w)) == 0x8 {
        ExecAlu(w);
      } else if Msn(Msb(w)) == 0x9 {
        SkipNotEqualRegs(w);
      } else if Msn(Msb(w)) == 0xA {
        LoadIndex(w);
      } else if Msn(Msb(w)) == 0xC {
        RandomByte(w, rnd);
      } else if Msn(Msb(w)) == 0xD {
        ExecDraw(w);
      } else if Semantics.KeyBranch(w) {
        ExecKeySkip(w);
      } else if Msn(Msb(w)) == 0xF {
        ExecMisc(w, press);
      }
    }

    /** chip8_exec: one fetch-decode-execute step.  rnd is the random byte of
        CXNN; press is the host key FX0A waits for. */
    method Exec(rnd: bv8, press: HostKey)
      requires Valid() && Semantics.CanStep(View())
      modifies this, mem, regs, stack, display, keys
      ensures Valid() && View() == Semantics.Step(old(View()), rnd, press)
    {
      var w := Fetch();
      Dispatch(w, rnd, press);
    }
  }
}

/** Sizes of the machine and the bit-field extraction helpers of the interpreter.
    Every helper works on a 16-bit value: the interpreter applies them to an
    instruction word or to a byte already extracted from one. */
module Constants {

  const KB: nat := 1024

  /** Bytes of addressable memory. */
  const MemorySpace: nat := 4 * KB
  /** Address at which a program is loaded and execution starts. */
  const ProgramsOffset: nat := 0x200
  const RegistersCount: nat := 16
  /** Capacity of the return-address stack. */
  const StackSize: nat := 100

  const DisplayWidth: nat := 64
  const DisplayHeight: nat := 32

  /** Bytes per font glyph, number of glyphs, and the whole font table. */
  const FontSize: nat := 5
  const FontsCount: nat := 16
  const FontArrayLen: nat := FontSize * FontsCount

  /** Index of the flag register VF. */
  const VF: nat := 0xF

  /** Most significant nibble of the low byte: bits 4..7. */
  function Msn(v: bv16): (r: bv16)
    ensures r < 16
    ensures r << 4 == v & 0xF0
  {
    (v >> 4) & 0xF
  }

  /** Least significant nibble: bits 0..3. */
  function Lsn(v: bv16): (r: bv16)
    ensures r < 16
    ensures v == (v & 0xFFF0) | r
  {
    v & 0xF
  }

  /** Most significant byte: bits 8..15. */
  function Msb(v: bv16): (r: bv16)
    ensures r < 256
    ensures r << 8 == v & 0xFF00
  {
    (v >> (4 * 2)) & 0xFF
  }

  /** Least significant byte: bits 0..7. */
  function Lsb(v: bv16): (r: bv16)
    ensures r < 256
    ensures v == (v & 0xFF00) | r
  {
    v & 0xFF
  }

  /** Middle byte: bits 4..11, i.e. the X and Y nibbles of an instruction. */
  function Mb(v: bv16): (r: bv16)
    ensures r < 256
    ensures r << 4 == v & 0x0FF0
  {
    (v >> 4) & 0xFF
  }

  /** A high byte shifted up by eight, or-ed with a low byte, is their
      positional value. */
  lemma JoinBytes(h: bv16, l: bv16)
    requires h < 256 && l < 256
    ensures ((h << 8) | l) as int == h as int * 256 + l as int
  {
  }

  /** The two bytes of a word put it back together. */
  lemma SplitWord(w: bv16)
    ensures Msb(w) as int * 256 + Lsb(w) as int == w as int
  {
    var h, l := Msb(w), Lsb(w);
    assert w == (h << 8) | l;
    JoinBytes(h, l);
  }

  /** How the interpreter's compositions of the helpers decode an instruction
      word: the class nibble, X, Y and N. */
  lemma DecodeFields(w: bv16)
    ensures Msn(Msb(w)) == w >> 12
    ensures Lsn(Msb(w)) == (w >> 8) & 0xF
    ensures Msn(Mb(w)) == Lsn(Msb(w))
    ensures Lsn(Mb(w)) == (w >> 4) & 0xF
    ensures Lsn(Lsb(w)) == Lsn(w)
  {
  }

  /** Applying Msb twice always gives 0: a test `Msb(Msb(w)) == 0xB` can never hold. */
  lemma MsbOfMsbIsZero(w: bv16)
    ensures Msb(Msb(w)) == 0
  {
  }

  /** Msb of a nibble is 0: the register index used by the key-skip branch. */
  lemma MsbOfLsnIsZero(w: bv16)
    ensures Msb(Lsn(w)) == 0
  {
  }

  /** The font table sits below the program area, which starts inside memory,
      and VF is the last of the registers. */
  lemma Layout()
    ensures FontArrayLen == 80
    ensures FontArrayLen <= ProgramsOffset < MemorySpace
    ensures VF == RegistersCount - 1
  {
  }
}

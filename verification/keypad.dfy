/** The table that maps the sixteen host keyboard keys the interpreter listens to
    onto the sixteen logical keys of the CHIP-8 pad.  The pad's 4x4 layout

        1 2 3 C
        4 5 6 D
        7 8 9 E
        A 0 B F

    is laid over the keys 1-4, Q-R, A-F and Z-V of a QWERTY keyboard. */
module Keypad {

  /** The host keys that have a logical key; every other host key is ignored
      while waiting for a key press. */
  datatype HostKey =
    | Key1 | Key2 | Key3 | Key4
    | KeyQ | KeyW | KeyE | KeyR
    | KeyA | KeyS | KeyD | KeyF
    | KeyZ | KeyX | KeyC | KeyV

  /** The logical key of a host key. */
  function LogicalKey(k: HostKey): (v: bv8)
    ensures v < 16
  {
    match k
    case Key1 => 0x1
    case Key2 => 0x2
    case Key3 => 0x3
    case Key4 => 0xC
    case KeyQ => 0x4
    case KeyW => 0x5
    case KeyE => 0x6
    case KeyR => 0xD
    case KeyA => 0x7
    case KeyS => 0x8
    case KeyD => 0x9
    case KeyF => 0xE
    case KeyZ => 0xA
    case KeyX => 0x0
    case KeyC => 0xB
    case KeyV => 0xF
  }

  /** The host key that produces a given logical key: the inverse of the table. */
  function HostKeyOf(v: bv8): (k: HostKey)
    requires v < 16
    ensures LogicalKey(k) == v
  {
    if v == 0x0 then KeyX
    else if v == 0x1 then Key1
    else if v == 0x2 then Key2
    else if v == 0x3 then Key3
    else if v == 0x4 then KeyQ
    else if v == 0x5 then KeyW
    else if v == 0x6 then KeyE
    else if v == 0x7 then KeyA
    else if v == 0x8 then KeyS
    else if v == 0x9 then KeyD
    else if v == 0xA then KeyZ
    else if v == 0xB then KeyC
    else if v == 0xC then Key4
    else if v == 0xD then KeyR
    else if v == 0xE then KeyF
    else KeyV
  }

  /** No two host keys share a logical key, so the table is a bijection between
      the sixteen host keys and the sixteen logical keys. */
  lemma LogicalKeyInjective(a: HostKey, b: HostKey)
    ensures LogicalKey(a) == LogicalKey(b) ==> a == b
  {
    assert HostKeyOf(LogicalKey(a)) == a by { KeyRoundTrip(a); }
    assert HostKeyOf(LogicalKey(b)) == b by { KeyRoundTrip(b); }
  }

  lemma KeyRoundTrip(k: HostKey)
    ensures HostKeyOf(LogicalKey(k)) == k
  {
  }
}

/** Machine widths and bit-field extraction from a 16-bit CHIP-8
    instruction word.

    Every instruction shares one decomposition of its opcode, written here
    as hexadecimal nibbles I X Y N:
      - I   (bits 12-15) the instruction family, dispatched on by emulate;
      - X   (bits 8-11)  the first register operand;
      - Y   (bits 4-7)   the second register operand;
      - N   (bits 0-3)   a 4-bit immediate;
      - NN  (bits 0-7)   an 8-bit immediate;
      - NNN (bits 0-11)  a 12-bit address.
    The interpreter extracts them with a mask and a right shift; on a
    non-negative number `v & (2^k - 1)` is `v % 2^k` and `v >> k` is
    `v / 2^k`, which is how they are written here. */
module Decode {

  /** An unsigned 8-bit value (`uint8_t`). */
  type byte = x: int | 0 <= x < 0x100

  /** An unsigned 16-bit value (`uint16_t`). */
  type word = x: int | 0 <= x < 0x1_0000

  /** An unsigned 32-bit value (`uint32_t`), the type of a display cell. */
  type u32 = x: int | 0 <= x < 0x1_0000_0000

  /** The 12-bit address field, `opcode & 0x0FFF`. */
  function Nnn(opcode: word): (nnn: word)
    ensures nnn < 0x1000
  {
    opcode % 0x1000
  }

  /** The 8-bit immediate field, `opcode & 0xFF`: the low byte, so the
      opcode is its high byte followed by NN. */
  function Nn(opcode: word): (nn: byte)
    ensures opcode == opcode / 0x100 * 0x100 + nn
  {
    opcode % 0x100
  }

  /** The low nibble, `opcode & 0x0F`. */
  function N(opcode: word): (n: byte)
    ensures n < 16
  {
    opcode % 0x10
  }

  /** The first register operand, `(opcode & 0x0F00) >> 8`. */
  function X(opcode: word): (x: byte)
    ensures x < 16
  {
    opcode / 0x100 % 0x10
  }

  /** The second register operand, `(opcode & 0x00F0) >> 4`. */
  function Y(opcode: word): (y: byte)
    ensures y < 16
  {
    opcode / 0x10 % 0x10
  }

  /** The instruction family, `(opcode & 0xF000) >> 12`: one of sixteen. */
  function Index(opcode: word): (index: byte)
    ensures index < 16
  {
    opcode / 0x1000
  }

  /** The big-endian instruction word `(hi << 8) | lo` made of the byte at
      the program counter and the byte after it. */
  function Word(hi: byte, lo: byte): (opcode: word)
    ensures opcode / 0x100 == hi && opcode % 0x100 == lo
  {
    hi * 0x100 + lo
  }

  /** Decoding loses nothing: the four nibbles put back together give the
      opcode, and the wider immediates are the concatenations of the
      narrower fields. */
  lemma Recompose(opcode: word)
    ensures opcode == Index(opcode) * 0x1000 + X(opcode) * 0x100 + Y(opcode) * 0x10 + N(opcode)
    ensures Nn(opcode) == Y(opcode) * 0x10 + N(opcode)
    ensures Nnn(opcode) == X(opcode) * 0x100 + Nn(opcode)
  {
    var a := opcode / 0x10;
    var b := a / 0x10;
    assert opcode == a * 0x10 + N(opcode);
    assert a == b * 0x10 + Y(opcode) by { ShiftNibble(opcode, a); }
    assert b == Index(opcode) * 0x10 + X(opcode) by {
      ShiftNibble(a, b);
      ShiftByte(opcode, b);
      ShiftNibble(opcode / 0x100, Index(opcode));
      ShiftNibble(opcode / 0x100, opcode / 0x1000);
    }
  }

  /** Shifting right by 4 then by 4 is shifting by 8, and so on: a quotient
      of a quotient by sixteen. */
  lemma ShiftNibble(v: nat, q: nat)
    requires q == v / 0x10
    ensures v == q * 0x10 + v % 0x10
  {
  }

  lemma ShiftByte(v: nat, q: nat)
    requires q == v / 0x10 / 0x10
    ensures q == v / 0x100
  {
  }

  /** Decoding a fetched word: the family and X are the two nibbles of the
      byte at the program counter, NN is the byte after it, and Y and N are
      that byte's nibbles. */
  lemma {:induction false} WordFields(hi: byte, lo: byte)
    ensures Index(Word(hi, lo)) == hi / 0x10 && X(Word(hi, lo)) == hi % 0x10
    ensures Nn(Word(hi, lo)) == lo
    ensures Y(Word(hi, lo)) == lo / 0x10 && N(Word(hi, lo)) == lo % 0x10
  {
    var w := Word(hi, lo);
    assert w == hi * 0x100 + lo;
    assert w / 0x10 == hi * 0x10 + lo / 0x10;
    assert w / 0x1000 == hi / 0x10;
  }
}

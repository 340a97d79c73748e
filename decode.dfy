/** Extraction of the operand fields of a 16-bit instruction word, with the masks and
    shifts the interpreter uses, and the fact that the fields lose nothing. */
module Decode {
  import opened MachineState

  /** The opcode group: the top nibble. */
  function Group(inst: bv16): (g: bv16)
    ensures g < 16
  {
    (inst & 0xF000) >> 12
  }

  /** The first register selector. */
  function X(inst: bv16): (x: nat)
    ensures x < REGISTER_COUNT
  {
    ((inst & 0x0F00) >> 8) as nat
  }

  /** The second register selector. */
  function Y(inst: bv16): (y: nat)
    ensures y < REGISTER_COUNT
  {
    ((inst & 0x00F0) >> 4) as nat
  }

  /** The trailing nibble. */
  function N(inst: bv16): (n: bv16)
    ensures n < 16
  {
    inst & 0xF
  }

  /** The 8-bit immediate. */
  function Kk(inst: bv16): (k: bv8)
    ensures k as bv16 == inst & 0x00FF
  {
    (inst & 0xFF) as bv8
  }

  /** The 12-bit address. */
  function Nnn(inst: bv16): (a: u16)
    ensures a < 0x1000
  {
    (inst & 0xFFF) as int
  }

  /** The four nibbles rebuild the word: decoding loses nothing. */
  lemma FieldsRebuildWord(inst: bv16)
    ensures inst as int == Group(inst) as int * 0x1000 + X(inst) * 0x100 + Y(inst) * 0x10 + N(inst) as int
  {
    assert inst as int == Group(inst) as int * 0x1000 + Nnn(inst);
    WideFieldsOverlapNibbles(inst);
  }

  /** The 12-bit address is the first register selector followed by the immediate, and the
      immediate is the second selector followed by the trailing nibble: the wider operands
      are made of the nibbles they overlap. */
  lemma WideFieldsOverlapNibbles(inst: bv16)
    ensures Nnn(inst) == X(inst) * 0x100 + Kk(inst) as int
    ensures Kk(inst) as int == Y(inst) * 0x10 + N(inst) as int
  {
  }
}

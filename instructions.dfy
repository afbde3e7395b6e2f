/**
 * The HD44780 instruction set as the drivers build it: every instruction is
 * one byte whose highest set bit names the instruction and whose lower bits
 * carry its operand (the instruction table of the HD44780U datasheet).
 */
module Instructions {
  import opened Bytes
  import opened Options

  /** The instructions of the controller, by the position of their opcode bit. */
  datatype Instruction =
    | ClearDisplay    // 0000_0001
    | ReturnHome      // 0000_001x
    | EntryModeSet    // 0000_01 I/D S
    | DisplayControl  // 0000_1 D C B
    | CursorShift     // 0001 S/C R/L xx
    | FunctionSet     // 001 DL N F xx
    | SetCGRAMAddr    // 01 aaaaaa
    | SetDDRAMAddr    // 1 aaaaaaa

  /** Instruction carried by byte `b`: the one named by its highest set bit; none for 0. */
  function Decode(b: byte): Option<Instruction>
  {
    if b >= 0x80 then Some(SetDDRAMAddr)
    else if b >= 0x40 then Some(SetCGRAMAddr)
    else if b >= 0x20 then Some(FunctionSet)
    else if b >= 0x10 then Some(CursorShift)
    else if b >= 0x08 then Some(DisplayControl)
    else if b >= 0x04 then Some(EntryModeSet)
    else if b >= 0x02 then Some(ReturnHome)
    else if b == 0x01 then Some(ClearDisplay)
    else None
  }

  /** The operand bits of an instruction byte: those below its opcode bit. */
  function Operand(b: byte): byte
  {
    if b >= 0x80 then b & 0x7f
    else if b >= 0x40 then b & 0x3f
    else if b >= 0x20 then b & 0x1f
    else if b >= 0x10 then b & 0x0f
    else if b >= 0x08 then b & 0x07
    else if b >= 0x04 then b & 0x03
    else if b >= 0x02 then b & 0x01
    else 0
  }

  /**
   * The nibbles of 4-bit "initialising by instruction": Function Set for the
   * 8-bit interface three times, then Function Set for the 4-bit interface,
   * each sent as a lone upper nibble.
   */
  const Init4Bit: seq<byte> := [3, 3, 3, 2]

  // Flags of Entry Mode Set.
  const DecrMode: byte := 0
  const IncrMode: byte := 2
  const ShiftMode: byte := 1

  // Flags of Display Control.
  const DisplayOff: byte := 0
  const DisplayOn: byte := 4
  const CursorOff: byte := 0
  const CursorOn: byte := 2
  const BlinkOff: byte := 0
  const BlinkOn: byte := 1

  // Flags of Cursor/Display Shift.
  const ShiftCursor: byte := 0
  const ShiftScreen: byte := 8
  const ShiftLeft: byte := 0
  const ShiftRight: byte := 4

  // Flags of Function Set.
  const OneLine: byte := 0
  const TwoLines: byte := 8
  const Font5x8: byte := 0
  const Font5x10: byte := 4

  const ClearDisplayCmd: byte := 0x01
  const ReturnHomeCmd: byte := 0x02

  lemma FixedCommands()
    ensures Decode(ClearDisplayCmd) == Some(ClearDisplay)
    ensures Decode(ReturnHomeCmd) == Some(ReturnHome) && Operand(ReturnHomeCmd) == 0
  {
  }

  /** Entry Mode Set: only the I/D and S flags reach the byte. */
  function EntryModeCmd(f: byte): (r: byte)
    ensures Decode(r) == Some(EntryModeSet)
    ensures Operand(r) == f & 0x03
  {
    0x04 | (f & 0x03)
  }

  /** Display Control: only the D, C and B flags reach the byte. */
  function DisplayCmd(f: byte): (r: byte)
    ensures Decode(r) == Some(DisplayControl)
    ensures Operand(r) == f & 0x07
  {
    0x08 | (f & 0x07)
  }

  /** Cursor/Display Shift: only S/C and R/L reach the byte. */
  function ShiftCmd(f: byte): (r: byte)
    ensures Decode(r) == Some(CursorShift)
    ensures Operand(r) == f & 0x0c
  {
    0x10 | (f & 0x0c)
  }

  /** Function Set as `hdc.Device` builds it: the low four flag bits reach the byte. */
  function FunctionCmd(f: byte): (r: byte)
    ensures Decode(r) == Some(FunctionSet)
    ensures Operand(r) == f & 0x0f
  {
    0x20 | (f & 0x0f)
  }

  /** Set CGRAM Address: the address modulo 64. */
  function CGRAMAddrCmd(addr: int): (r: byte)
    ensures Decode(r) == Some(SetCGRAMAddr)
    ensures Operand(r) as int == addr % 64
  {
    var y := ToByte(addr);
    CGRAMByte(y);
    LowBits6(y);
    ModOfMod(addr, 64);
    0x40 | (y & 0x3f)
  }

  /** Set DDRAM Address: the address modulo 128. */
  function DDRAMAddrCmd(addr: int): (r: byte)
    ensures Decode(r) == Some(SetDDRAMAddr)
    ensures Operand(r) as int == addr % 128
  {
    var y := ToByte(addr);
    DDRAMByte(y);
    LowBits7(y);
    ModOfMod(addr, 128);
    0x80 | (y & 0x7f)
  }

  lemma CGRAMByte(y: byte)
    ensures Decode(0x40 | (y & 0x3f)) == Some(SetCGRAMAddr)
    ensures Operand(0x40 | (y & 0x3f)) == y & 0x3f
  {
  }

  lemma DDRAMByte(y: byte)
    ensures Decode(0x80 | (y & 0x7f)) == Some(SetDDRAMAddr)
    ensures Operand(0x80 | (y & 0x7f)) == y & 0x7f
  {
  }

  lemma LowBits6(y: byte)
    ensures (y & 0x3f) as int == (y as int) % 64
  {
  }

  lemma LowBits7(y: byte)
    ensures (y & 0x7f) as int == (y as int) % 128
  {
  }

  /** Reducing modulo 256 first does not change the remainder modulo 64 or 128. */
  lemma ModOfMod(x: int, m: int)
    requires m == 64 || m == 128
    ensures (x % 256) % m == x % m
  {
    var q := x / 256;
    assert x == 256 * q + x % 256;
    if m == 64 {
      assert 256 * q == 64 * (4 * q);
    } else {
      assert 256 * q == 128 * (2 * q);
    }
  }

  /**
   * Two builders of different instructions never produce the same byte,
   * whatever their flags or addresses, and neither fixed command is the
   * output of any builder.
   */
  lemma BuildersDisjoint(f: byte, g: byte, a1: int, a2: int)
    ensures EntryModeCmd(f) != DisplayCmd(g) && EntryModeCmd(f) != ShiftCmd(g)
    ensures EntryModeCmd(f) != FunctionCmd(g) && EntryModeCmd(f) != CGRAMAddrCmd(a1)
    ensures EntryModeCmd(f) != DDRAMAddrCmd(a1)
    ensures DisplayCmd(f) != ShiftCmd(g) && DisplayCmd(f) != FunctionCmd(g)
    ensures DisplayCmd(f) != CGRAMAddrCmd(a1) && DisplayCmd(f) != DDRAMAddrCmd(a1)
    ensures ShiftCmd(f) != FunctionCmd(g) && ShiftCmd(f) != CGRAMAddrCmd(a1)
    ensures ShiftCmd(f) != DDRAMAddrCmd(a1)
    ensures FunctionCmd(f) != CGRAMAddrCmd(a1) && FunctionCmd(f) != DDRAMAddrCmd(a1)
    ensures CGRAMAddrCmd(a1) != DDRAMAddrCmd(a2)
    ensures ClearDisplayCmd != ReturnHomeCmd
    ensures ClearDisplayCmd !in {EntryModeCmd(f), DisplayCmd(f), ShiftCmd(f), FunctionCmd(f), CGRAMAddrCmd(a1), DDRAMAddrCmd(a1)}
    ensures ReturnHomeCmd !in {EntryModeCmd(f), DisplayCmd(f), ShiftCmd(f), FunctionCmd(f), CGRAMAddrCmd(a1), DDRAMAddrCmd(a1)}
  {
    FixedCommands();
  }
}

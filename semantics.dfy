/** The meaning of one fetch and of one execute, as functions from machine state to
    machine state. Each follows the interpreter statement by statement, including the
    order in which a flag is written and an operand is read back. */
module Semantics {
  import opened MachineState
  import opened Decode

  /** Copy a program image into RAM from START_ADDRESS on, one byte at a time. A byte that
      would land past the end of RAM throws, leaving the bytes before it copied. */
  function Load(m: Machine, rom: seq<bv8>): (t: Transition<()>)
    requires m.Valid()
    ensures t.next.Valid()
  {
    var room := RAM_SIZE - START_ADDRESS;
    if |rom| <= room then
      Done(m.(ram := m.ram[..START_ADDRESS] + rom + m.ram[START_ADDRESS + |rom|..]))
    else
      Fail(m.(ram := m.ram[..START_ADDRESS] + rom[..room]), OutOfBounds)
  }

  /** Read the big-endian word at PC and advance PC by 2 (wrapping as a `ushort`).
      Either byte outside RAM is a fault that changes nothing. */
  function Fetch(m: Machine): (t: Transition<bv16>)
    requires m.Valid()
    ensures t.next.Valid()
  {
    if m.pc + 1 >= RAM_SIZE then Fail(m, OutOfBounds)
    else
      var inst := (m.ram[m.pc] as bv16 << 8) | m.ram[m.pc + 1] as bv16;
      Transition(Ok(inst), m.(pc := (m.pc + 2) % 0x1_0000))
  }

  /** PC advanced past the next instruction, as the skip instructions do. */
  function Skip(m: Machine): (m': Machine)
    ensures m'.pc == (m.pc + 2) % 0x1_0000 && m'.(pc := m.pc) == m
  {
    m.(pc := (m.pc + 2) % 0x1_0000)
  }

  /** The target of JP V0, nnn: nnn + V0, truncated to 16 bits. */
  function JumpTarget(nnn: u16, v0: bv8): (target: u16) {
    (nnn + v0 as int) % 0x1_0000
  }

  /** Execute one instruction word; `rnd` is the byte the random source produced. */
  function Execute(m: Machine, inst: bv16, rnd: bv8): (t: Transition<()>)
    requires m.Valid()
  {
    var nnn, x, y, kk := Nnn(inst), X(inst), Y(inst), Kk(inst);
    match Group(inst)
    case 0x0 => System(m, inst)
    case 0x1 => Done(m.(pc := nnn))                                   // JP nnn
    case 0x2 => Done(m.(stack := m.stack + [m.pc], pc := nnn))        // CALL nnn
    case 0x3 => Done(if m.v[x] == kk then Skip(m) else m)             // SE Vx, kk
    case 0x4 => Done(if m.v[x] != kk then Skip(m) else m)             // SNE Vx, kk
    case 0x5 => Done(if m.v[x] == m.v[y] then Skip(m) else m)         // SE Vx, Vy
    case 0x6 => Done(m.(v := m.v[x := kk]))                           // LD Vx, kk
    case 0x7 => Done(m.(v := m.v[x := m.v[x] + kk]))                  // ADD Vx, kk
    case 0x8 => Arith(m, inst)
    case 0x9 => Done(if m.v[x] != m.v[y] then Skip(m) else m)         // SNE Vx, Vy
    case 0xA => Done(m.(index := nnn))                                // LD I, nnn
    case 0xB => Done(m.(pc := JumpTarget(nnn, m.v[0])))               // JP V0, nnn
    case 0xC => Done(m.(v := m.v[x := rnd & kk]))                     // RND Vx, kk
    case 0xD => Draw(m, x, y, N(inst) as nat)                              // DRW Vx, Vy, n
    case _ => Fail(m, Unsupported(inst))
  }

  /** Groups 0, 8 and D are carried out by their own functions. */
  lemma ExecuteDispatch(m: Machine, inst: bv16, rnd: bv8)
    requires m.Valid()
    ensures Group(inst) == 0x0 ==> Execute(m, inst, rnd) == System(m, inst)
    ensures Group(inst) == 0x8 ==> Execute(m, inst, rnd) == Arith(m, inst)
    ensures Group(inst) == 0xD ==> Execute(m, inst, rnd) == Draw(m, X(inst), Y(inst), N(inst) as nat)
  {
  }

  /** Executing keeps RAM, the display and the register file at their sizes. */
  lemma ExecuteKeepsShape(m: Machine, inst: bv16, rnd: bv8)
    requires m.Valid()
    ensures Execute(m, inst, rnd).next.Valid()
  {
    ExecuteDispatch(m, inst, rnd);
  }

  /** Group 0: only CLS and RET are supported. */
  function System(m: Machine, inst: bv16): (t: Transition<()>)
    requires m.Valid()
    ensures t.next.Valid()
  {
    if inst == 0x00E0 then Done(m.(display := BlankDisplay()))        // CLS
    else if inst == 0x00EE then                                       // RET
      if m.stack == [] then Fail(m, StackEmpty)
      else Done(m.(pc := m.stack[|m.stack| - 1], stack := m.stack[..|m.stack| - 1]))
    else Fail(m, Unsupported(inst))
  }

  /** Group 8: register-to-register operations, selected by the trailing nibble. */
  function Arith(m: Machine, inst: bv16): (t: Transition<()>)
    requires m.Valid()
    ensures t.next.Valid()
  {
    var x, y, v := X(inst), Y(inst), m.v;
    match N(inst)
    case 0x0 => Done(m.(v := v[x := v[y]]))                           // LD Vx, Vy
    case 0x1 => Done(m.(v := v[x := v[x] | v[y]]))                    // OR
    case 0x2 => Done(m.(v := v[x := v[x] & v[y]]))                    // AND
    case 0x3 => Done(m.(v := v[x := v[x] ^ v[y]]))                    // XOR
    case 0x4 => Done(m.(v := AddRegisters(v, x, y)))                  // ADD Vx, Vy
    case 0x5 => Done(m.(v := SubRegisters(v, x, y)))                  // SUB Vx, Vy
    case 0x6 => Done(m.(v := ShiftRightRegister(v, x)))               // SHR Vx
    case 0x7 => Done(m.(v := SubnRegisters(v, x, y)))                 // SUBN Vx, Vy
    case 0xE => Done(m.(v := ShiftLeftRegister(v, x)))                // SHL Vx
    case _ => Fail(m, Unsupported(inst))
  }

  // The group-8 operations that set the flag. Each runs its two statements in the
  // source's order: the second reads the registers as the first one left them.

  /** ADD Vx, Vy: Vx += Vy, then VF := (Vx < Vy) on the new Vx. */
  function AddRegisters(v: seq<bv8>, x: nat, y: nat): (w: seq<bv8>)
    requires |v| == REGISTER_COUNT && x < REGISTER_COUNT && y < REGISTER_COUNT
    ensures |w| == REGISTER_COUNT
  {
    var v1 := v[x := v[x] + v[y]];
    v1[VF := if v1[x] < v1[y] then 1 else 0]
  }

  /** ADD Vx, Vy as its two statements: the register file after the sum is written, then
      after the flag is written. */
  lemma AddRegistersInTwoSteps(v: seq<bv8>, x: nat, y: nat, summed: seq<bv8>, w: seq<bv8>)
    requires |v| == REGISTER_COUNT && x < REGISTER_COUNT && y < REGISTER_COUNT
    requires summed == v[x := v[x] + v[y]]
    requires w == summed[VF := if summed[x] < summed[y] then 1 else 0]
    ensures AddRegisters(v, x, y) == w
  {
  }

  /** SUB Vx, Vy: VF := (Vx > Vy), then Vx -= Vy. */
  function SubRegisters(v: seq<bv8>, x: nat, y: nat): (w: seq<bv8>)
    requires |v| == REGISTER_COUNT && x < REGISTER_COUNT && y < REGISTER_COUNT
    ensures |w| == REGISTER_COUNT
  {
    var v1 := v[VF := if v[x] > v[y] then 1 else 0];
    v1[x := v1[x] - v1[y]]
  }

  /** SUB Vx, Vy as its two statements: the register file after the flag is written, then
      after the difference is written. */
  lemma SubRegistersInTwoSteps(v: seq<bv8>, x: nat, y: nat, flagged: seq<bv8>, w: seq<bv8>)
    requires |v| == REGISTER_COUNT && x < REGISTER_COUNT && y < REGISTER_COUNT
    requires flagged == v[VF := if v[x] > v[y] then 1 else 0]
    requires w == flagged[x := flagged[x] - flagged[y]]
    ensures SubRegisters(v, x, y) == w
  {
  }

  /** SHR Vx: VF := the low bit of Vx, then Vx >>= 1. */
  function ShiftRightRegister(v: seq<bv8>, x: nat): (w: seq<bv8>)
    requires |v| == REGISTER_COUNT && x < REGISTER_COUNT
    ensures |w| == REGISTER_COUNT
  {
    var v1 := v[VF := v[x] & 0x1];
    v1[x := v1[x] >> 1]
  }

  /** SUBN Vx, Vy: VF := (Vy > Vx), then Vx := Vy - Vx. */
  function SubnRegisters(v: seq<bv8>, x: nat, y: nat): (w: seq<bv8>)
    requires |v| == REGISTER_COUNT && x < REGISTER_COUNT && y < REGISTER_COUNT
    ensures |w| == REGISTER_COUNT
  {
    var v1 := v[VF := if v[y] > v[x] then 1 else 0];
    v1[x := v1[y] - v1[x]]
  }

  /** SUBN Vx, Vy as its two statements: the register file after the flag is written, then
      after the reversed difference is written. */
  lemma SubnRegistersInTwoSteps(v: seq<bv8>, x: nat, y: nat, flagged: seq<bv8>, w: seq<bv8>)
    requires |v| == REGISTER_COUNT && x < REGISTER_COUNT && y < REGISTER_COUNT
    requires flagged == v[VF := if v[y] > v[x] then 1 else 0]
    requires w == flagged[x := flagged[y] - flagged[x]]
    ensures SubnRegisters(v, x, y) == w
  {
  }

  /** SHL Vx: VF := the top bit of Vx, then Vx <<= 1. */
  function ShiftLeftRegister(v: seq<bv8>, x: nat): (w: seq<bv8>)
    requires |v| == REGISTER_COUNT && x < REGISTER_COUNT
    ensures |w| == REGISTER_COUNT
  {
    var v1 := v[VF := (v[x] & 0x80) >> 7];
    v1[x := v1[x] << 1]
  }

  /** The display index of the pixel in row `i`, column `j` of a sprite drawn at (vx, vy):
      each coordinate truncated to a byte, then `row * 64 + column` without any further
      wrapping (see `PixelIndexPlacement`). */
  function PixelIndex(vx: bv8, vy: bv8, i: nat, j: nat): (target: nat)
    requires i < 16 && j < 8
  {
    var row := (vy as int + i) % 256;
    var column := (vx as int + j) % 256;
    row * DISPLAY_WIDTH + column
  }

  /** Where a pixel lands: a truncated column c is c / 64 rows below the truncated row, at
      column c % 64, so a column past 63 spills into a later row rather than wrapping. */
  lemma PixelIndexPlacement(vx: bv8, vy: bv8, i: nat, j: nat)
    requires i < 16 && j < 8
    ensures PixelIndex(vx, vy, i, j) % DISPLAY_WIDTH == (vx as int + j) % 256 % DISPLAY_WIDTH
    ensures PixelIndex(vx, vy, i, j) / DISPLAY_WIDTH
              == (vy as int + i) % 256 + (vx as int + j) % 256 / DISPLAY_WIDTH
  {
  }

  /** Bit `j` of a sprite row, most significant first: the top bit once the row has
      been shifted left `j` times. */
  function SpriteBit(rowBits: bv8, j: nat): (b: bv8)
    requires j < 8
    ensures b <= 1
    decreases j
  {
    if j == 0 then rowBits >> 7 else SpriteBit(rowBits << 1, j - 1)
  }

  /** The sprite bit is the source's `(pixelRow >> (7 - j)) & 1`. */
  lemma SpriteBitIsShiftedBit(rowBits: bv8, j: nat)
    requires j < 8
    ensures SpriteBit(rowBits, j) == (rowBits >> (7 - j)) & 0x1
  {
    match j
    case 0 =>
    case 1 =>
    case 2 =>
    case 3 =>
    case 4 =>
    case 5 =>
    case 6 =>
    case 7 =>
  }

  /** One pass of the inner drawing loop, for the pixel in sprite row `i`, column `j`.
      The sprite row at I + i and the display index must both exist; otherwise the loop
      throws, leaving the state as the earlier pixels made it. A sprite bit equal to the
      pixel it lands on sets VF; the bit is then XORed into the pixel. The registers Vx
      and Vy are read afresh, as the source reads them at every pixel. */
  function DrawPixel(m: Machine, x: nat, y: nat, i: nat, j: nat): (t: Transition<()>)
    requires m.Valid() && x < REGISTER_COUNT && y < REGISTER_COUNT && i < 16 && j < 8
    ensures t.next.Valid()
  {
    var address := m.index + i;
    if address >= RAM_SIZE then Fail(m, OutOfBounds)
    else
      var pixel := SpriteBit(m.ram[address], j);
      var target := PixelIndex(m.v[x], m.v[y], i, j);
      if target >= DISPLAY_SIZE then Fail(m, OutOfBounds)
      else
        Done(m.(v := Flagged(m.v, m.display, target, pixel), display := Xored(m.display, target, pixel)))
  }

  /** The registers after a sprite bit lands on a display cell: VF is set when the bit
      equals the pixel already there. */
  function Flagged(v: seq<bv8>, d: seq<bv8>, target: nat, pixel: bv8): (w: seq<bv8>)
    requires |v| == REGISTER_COUNT && target < |d|
    ensures |w| == REGISTER_COUNT
  {
    if pixel == d[target] then v[VF := 1] else v
  }

  /** The display after a sprite bit is XORed into one cell. */
  function Xored(d: seq<bv8>, target: nat, pixel: bv8): (e: seq<bv8>)
    requires target < |d|
    ensures |e| == |d|
  {
    d[target := d[target] ^ pixel]
  }

  /** The drawing loops stopped just before row `i`, column `j`: VF cleared, then the
      pixels of rows 0 to i - 1 and the first `j` pixels of row `i` drawn, or the fault
      that stopped the loops with the state at that moment. The end of row `i` (j == 8)
      is the start of row i + 1. */
  function DrawPrefix(m: Machine, x: nat, y: nat, i: nat, j: nat): (t: Transition<()>)
    requires m.Valid() && x < REGISTER_COUNT && y < REGISTER_COUNT && i < 16 && j <= 8
    ensures t.next.Valid()
    decreases i, j
  {
    if j == 0 then
      if i == 0 then Done(m.(v := m.v[VF := 0])) else DrawPrefix(m, x, y, i - 1, 8)
    else
      var t := DrawPrefix(m, x, y, i, j - 1);
      if t.result.Err? then t else DrawPixel(t.next, x, y, i, j - 1)
  }

  /** Once the drawing loops have faulted, the later pixels change nothing: every prefix
      from row `i`, column `j` on is the faulted one. */
  lemma DrawPrefixStops(m: Machine, x: nat, y: nat, i: nat, j: nat, i': nat, j': nat)
    requires m.Valid() && x < REGISTER_COUNT && y < REGISTER_COUNT
    requires i < 16 && j <= 8 && i' < 16 && j' <= 8 && 8 * i + j <= 8 * i' + j'
    requires DrawPrefix(m, x, y, i, j).result.Err?
    ensures DrawPrefix(m, x, y, i', j') == DrawPrefix(m, x, y, i, j)
  {
    if i' == i {
      FaultPersistsInRow(m, x, y, i, j, j');
    } else if i == i' + 1 {
      assert j == 0 && j' == 8;
      DrawPrefixRowStart(m, x, y, i);
    } else {
      FaultPersistsInRow(m, x, y, i, j, 8);
      FaultPersistsAcrossRows(m, x, y, i, i' - 1);
      DrawPrefixRowStart(m, x, y, i');
      FaultPersistsInRow(m, x, y, i', 0, j');
    }
  }

  /** A fault in row `i` before column `j` is the outcome of every later prefix of the row. */
  lemma {:induction false} FaultPersistsInRow(m: Machine, x: nat, y: nat, i: nat, j: nat, j': nat)
    requires m.Valid() && x < REGISTER_COUNT && y < REGISTER_COUNT && i < 16 && j <= j' <= 8
    requires DrawPrefix(m, x, y, i, j).result.Err?
    ensures DrawPrefix(m, x, y, i, j') == DrawPrefix(m, x, y, i, j)
    decreases j'
  {
    if j' > j {
      FaultPersistsInRow(m, x, y, i, j, j' - 1);
      var before := DrawPrefix(m, x, y, i, j' - 1);
      assert before.result.Err?;
      DrawPrefixKeepsFault(m, x, y, i, j');
    }
  }

  /** A fault by the end of row `i` is the outcome at the end of every later row. */
  lemma {:induction false} FaultPersistsAcrossRows(m: Machine, x: nat, y: nat, i: nat, i': nat)
    requires m.Valid() && x < REGISTER_COUNT && y < REGISTER_COUNT && i <= i' < 16
    requires DrawPrefix(m, x, y, i, 8).result.Err?
    ensures DrawPrefix(m, x, y, i', 8) == DrawPrefix(m, x, y, i, 8)
    decreases i'
  {
    if i' > i {
      FaultPersistsAcrossRows(m, x, y, i, i' - 1);
      DrawPrefixRowStart(m, x, y, i');
      FaultPersistsInRow(m, x, y, i', 0, 8);
    }
  }

  /** The state before row `i` (past the first) is the state after row `i - 1`. */
  lemma DrawPrefixRowStart(m: Machine, x: nat, y: nat, i: nat)
    requires m.Valid() && x < REGISTER_COUNT && y < REGISTER_COUNT && 0 < i < 16
    ensures DrawPrefix(m, x, y, i, 0) == DrawPrefix(m, x, y, i - 1, 8)
  {
  }

  /** A faulted prefix is not extended by one more pixel. */
  lemma DrawPrefixKeepsFault(m: Machine, x: nat, y: nat, i: nat, j: nat)
    requires m.Valid() && x < REGISTER_COUNT && y < REGISTER_COUNT && i < 16 && 0 < j <= 8
    requires DrawPrefix(m, x, y, i, j - 1).result.Err?
    ensures DrawPrefix(m, x, y, i, j) == DrawPrefix(m, x, y, i, j - 1)
  {
  }

  /** DRW Vx, Vy, n: an n-row sprite from address I, eight pixels per row. */
  function Draw(m: Machine, x: nat, y: nat, n: nat): (t: Transition<()>)
    requires m.Valid() && x < REGISTER_COUNT && y < REGISTER_COUNT && n < 16
    ensures t.next.Valid()
  {
    DrawPrefix(m, x, y, n, 0)
  }
}

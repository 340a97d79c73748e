/** The CHIP-8 machine state as a value: memory, framebuffer, registers, index register,
    program counter, timers and the call stack, together with the closed set of faults
    that a fetch or an execute can report instead of throwing. */
module MachineState {

  /** An unsigned 16-bit quantity (C# `ushort`): addresses, the program counter, stack entries. */
  type u16 = w: int | 0 <= w < 0x1_0000

  const START_ADDRESS: u16 := 0x200
  const RAM_SIZE: nat := 4096
  const DISPLAY_WIDTH: nat := 64
  const DISPLAY_SIZE: nat := 64 * 32
  const REGISTER_COUNT: nat := 16
  /** Register VF doubles as the flag register. */
  const VF: nat := 0xF

  /** The errors the interpreter reports where the source throws. */
  datatype Fault =
    | Unsupported(inst: bv16)  // opcode not supported, carrying the raw word
    | OutOfBounds              // an array index outside RAM or the display
    | StackEmpty               // RET with nothing to pop

  datatype Result<T> = Ok(value: T) | Err(fault: Fault)

  /** The outcome of one fetch or execute, with the machine state it leaves behind. */
  datatype Transition<T> = Transition(result: Result<T>, next: Machine)

  datatype Machine = Machine(
    ram: seq<bv8>,
    display: seq<bv8>,   // 64 x 32, one byte per pixel, row-major
    v: seq<bv8>,         // V0 .. VF
    index: u16,          // the register I
    pc: u16,
    soundTimer: bv8,
    delayTimer: bv8,
    stack: seq<u16>)     // the top of the stack is the last element
  {
    predicate Valid() {
      |ram| == RAM_SIZE && |display| == DISPLAY_SIZE && |v| == REGISTER_COUNT
    }
  }

  function Done(m: Machine): (t: Transition<()>) {
    Transition(Ok(()), m)
  }

  function Fail<T>(m: Machine, f: Fault): (t: Transition<T>) {
    Transition(Err(f), m)
  }

  /** A display with every pixel off. */
  function BlankDisplay(): (d: seq<bv8>)
    ensures |d| == DISPLAY_SIZE
    ensures forall k :: 0 <= k < |d| ==> d[k] == 0
  {
    seq(DISPLAY_SIZE, _ => 0)
  }

  /** Every pixel holds 0 or 1. */
  predicate BinaryDisplay(d: seq<bv8>) {
    forall k :: 0 <= k < |d| ==> d[k] <= 1
  }

  /** The state of a freshly constructed CPU: everything zero except PC. */
  function Initial(): (m: Machine)
    ensures m.Valid() && BinaryDisplay(m.display)
    ensures forall a :: 0 <= a < |m.ram| ==> m.ram[a] == 0
    ensures forall r :: 0 <= r < |m.v| ==> m.v[r] == 0
    ensures m.display == BlankDisplay()
    ensures m.index == 0 && m.soundTimer == 0 && m.delayTimer == 0
    ensures m.pc == START_ADDRESS && m.stack == []
  {
    Machine(seq(RAM_SIZE, _ => 0), BlankDisplay(), seq(REGISTER_COUNT, _ => 0),
            0, START_ADDRESS, 0, 0, [])
  }
}

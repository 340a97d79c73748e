/** The interpreter object: RAM, the framebuffer and the registers are arrays updated in
    place, the call stack a sequence the methods reassign. Every method is proved to
    leave exactly the state, and report exactly the outcome, that the functions of
    `Semantics` prescribe. */
module Cpu {
  import opened MachineState
  import opened Decode
  import opened Semantics

  class CPU {
    var ram: array<bv8>
    var display: array<bv8>
    var v: array<bv8>
    var index: u16
    var pc: u16
    var soundTimer: bv8
    var delayTimer: bv8
    var stack: seq<u16>

    /** The three arrays have their sizes and are distinct objects. */
    ghost predicate Valid()
      reads this
    {
      && ram.Length == RAM_SIZE && display.Length == DISPLAY_SIZE && v.Length == REGISTER_COUNT
      && ram != display && ram != v && display != v
    }

    /** The object's state as a value. */
    ghost function State(): (m: Machine)
      reads this, ram, display, v
      ensures Valid() ==> m.Valid()
    {
      Machine(ram[..], display[..], v[..], index, pc, soundTimer, delayTimer, stack)
    }

    /** Everything zero except PC, which starts at the load address. */
    constructor()
      ensures Valid() && State() == Initial()
      ensures fresh(ram) && fresh(display) && fresh(v)
    {
      ram := new bv8[RAM_SIZE](_ => 0);
      display := new bv8[DISPLAY_SIZE](_ => 0);
      v := new bv8[REGISTER_COUNT](_ => 0);
      index := 0;
      pc := START_ADDRESS;
      soundTimer := 0;
      delayTimer := 0;
      stack := [];
      new;
      assert display[..] == BlankDisplay();
    }

    /** Copy `rom` into RAM from START_ADDRESS on; a byte past the end of RAM faults with
        the earlier bytes already copied. */
    method LoadRom(rom: seq<bv8>) returns (r: Result<()>)
      requires Valid()
      modifies ram
      ensures Valid()
      ensures r == Load(old(State()), rom).result
      ensures State() == Load(old(State()), rom).next
    {
      var k := 0;
      while k < |rom|
        invariant 0 <= k <= |rom| && k <= RAM_SIZE - START_ADDRESS
        invariant ram[..] == old(ram[..START_ADDRESS]) + rom[..k] + old(ram[START_ADDRESS + k..])
      {
        if START_ADDRESS + k >= RAM_SIZE {
          assert rom[..k] == rom[..RAM_SIZE - START_ADDRESS];
          return Err(OutOfBounds);
        }
        ram[START_ADDRESS + k] := rom[k];
        assert rom[..k + 1] == rom[..k] + [rom[k]];
        k := k + 1;
      }
      assert rom[..k] == rom;
      r := Ok(());
    }

    /** Read the word at PC and advance PC by 2. */
    method FetchInstruction() returns (r: Result<bv16>)
      requires Valid()
      modifies this
      ensures Valid() && ram == old(ram) && display == old(display) && v == old(v)
      ensures r == Fetch(old(State())).result
      ensures State() == Fetch(old(State())).next
    {
      if pc + 1 >= RAM_SIZE {
        return Err(OutOfBounds);
      }
      var inst := (ram[pc] as bv16 << 8) | ram[pc + 1] as bv16;
      pc := (pc + 2) % 0x1_0000;
      r := Ok(inst);
    }

    /** Execute one instruction word; `rnd` is the byte the random source produced, which
        lies in [0, 254]. */
    method ExecuteInstruction(inst: bv16, rnd: bv8) returns (r: Result<()>)
      requires Valid() && rnd <= 254
      modifies this, v, display
      ensures Valid() && ram == old(ram) && v == old(v)
      ensures r == Execute(old(State()), inst, rnd).result
      ensures State() == Execute(old(State()), inst, rnd).next
    {
      ExecuteDispatch(State(), inst, rnd);
      match Group(inst)
      case 0x0 =>
        r := ExecuteSystem(inst);
      case 0x8 =>
        r := ExecuteArith(inst);
      case 0xD =>
        r := DrawSprite(X(inst), Y(inst), N(inst) as nat);
      case 0x1 | 0x2 | 0x3 | 0x4 | 0x5 | 0x9 | 0xB =>
        ExecuteFlow(inst, rnd);
        r := Ok(());
      case 0xA =>
        LoadIndex(inst, rnd);
        r := Ok(());
      case 0x6 =>
        LoadImmediate(inst, rnd);
        r := Ok(());
      case 0x7 =>
        AddImmediate(inst, rnd);
        r := Ok(());
      case 0xC =>
        LoadRandom(inst, rnd);
        r := Ok(());
      case _ =>
        r := Err(Unsupported(inst));
    }

    /** The jumps, the call and the skips: they change only PC and the stack. */
    method ExecuteFlow(inst: bv16, rnd: bv8)
      requires Valid() && Group(inst) in {0x1, 0x2, 0x3, 0x4, 0x5, 0x9, 0xB}
      modifies this
      ensures Valid() && ram == old(ram) && display == old(display) && v == old(v)
      ensures Execute(old(State()), inst, rnd) == Done(State())
    {
      ghost var m := State();
      var nnn, x, y, kk := Nnn(inst), X(inst), Y(inst), Kk(inst);
      match Group(inst)
      case 0x1 =>
        pc := nnn;
        assert State() == m.(pc := nnn);
      case 0x2 =>
        stack := stack + [pc];
        pc := nnn;
        assert State() == m.(stack := m.stack + [m.pc], pc := nnn);
      case 0x3 =>
        if v[x] == kk { pc := (pc + 2) % 0x1_0000; }
        assert State() == if m.v[x] == kk then Skip(m) else m;
      case 0x4 =>
        if v[x] != kk { pc := (pc + 2) % 0x1_0000; }
        assert State() == if m.v[x] != kk then Skip(m) else m;
      case 0x5 =>
        if v[x] == v[y] { pc := (pc + 2) % 0x1_0000; }
        assert State() == if m.v[x] == m.v[y] then Skip(m) else m;
      case 0x9 =>
        if v[x] != v[y] { pc := (pc + 2) % 0x1_0000; }
        assert State() == if m.v[x] != m.v[y] then Skip(m) else m;
      case 0xB =>
        pc := JumpTarget(nnn, v[0]);
        assert State() == m.(pc := JumpTarget(nnn, m.v[0]));
    }

    /** LD Vx, kk: Vx takes the byte kk. */
    method LoadImmediate(inst: bv16, rnd: bv8)
      requires Valid() && Group(inst) == 0x6
      modifies v
      ensures Valid() && Execute(old(State()), inst, rnd) == Done(State())
    {
      SetRegister(X(inst), Kk(inst));
    }

    /** ADD Vx, kk: Vx grows by kk modulo 256, VF untouched. */
    method AddImmediate(inst: bv16, rnd: bv8)
      requires Valid() && Group(inst) == 0x7
      modifies v
      ensures Valid() && Execute(old(State()), inst, rnd) == Done(State())
    {
      SetRegister(X(inst), v[X(inst)] + Kk(inst));
    }

    /** RND Vx, kk: Vx takes the random byte masked by kk. */
    method LoadRandom(inst: bv16, rnd: bv8)
      requires Valid() && Group(inst) == 0xC
      modifies v
      ensures Valid() && Execute(old(State()), inst, rnd) == Done(State())
    {
      SetRegister(X(inst), rnd & Kk(inst));
    }

    /** LD I, nnn writes the index register alone. */
    method LoadIndex(inst: bv16, rnd: bv8)
      requires Valid() && Group(inst) == 0xA
      modifies this
      ensures Valid() && ram == old(ram) && display == old(display) && v == old(v)
      ensures Execute(old(State()), inst, rnd) == Done(State())
    {
      ghost var m := State();
      index := Nnn(inst);
      assert State() == m.(index := Nnn(inst));
    }

    /** Writes one general-purpose register and nothing else. */
    method SetRegister(x: nat, value: bv8)
      requires Valid() && x < REGISTER_COUNT
      modifies v
      ensures Valid() && State() == old(State()).(v := old(State()).v[x := value])
    {
      v[x] := value;
    }

    /** Group 0: CLS replaces the framebuffer with a blank one; RET pops PC. */
    method ExecuteSystem(inst: bv16) returns (r: Result<()>)
      requires Valid()
      modifies this
      ensures Valid() && ram == old(ram) && v == old(v)
      ensures r == System(old(State()), inst).result
      ensures State() == System(old(State()), inst).next
    {
      if inst == 0x00E0 {
        display := new bv8[DISPLAY_SIZE](_ => 0);
        assert display[..] == BlankDisplay();
        r := Ok(());
      } else if inst == 0x00EE {
        if stack == [] {
          return Err(StackEmpty);
        }
        pc := stack[|stack| - 1];
        stack := stack[..|stack| - 1];
        r := Ok(());
      } else {
        r := Err(Unsupported(inst));
      }
    }

    /** Group 8, writing the registers in place. */
    method ExecuteArith(inst: bv16) returns (r: Result<()>)
      requires Valid()
      modifies v
      ensures r == Arith(old(State()), inst).result
      ensures State() == Arith(old(State()), inst).next
    {
      var x, y := X(inst), Y(inst);
      r := Ok(());
      match N(inst)
      case 0x0 =>
        v[x] := v[y];
      case 0x1 =>
        v[x] := v[x] | v[y];
      case 0x2 =>
        v[x] := v[x] & v[y];
      case 0x3 =>
        v[x] := v[x] ^ v[y];
      case 0x4 =>
        AddInPlace(x, y);
      case 0x5 =>
        SubInPlace(x, y);
      case 0x6 =>
        ShiftRightInPlace(x);
      case 0x7 =>
        SubnInPlace(x, y);
      case 0xE =>
        ShiftLeftInPlace(x);
      case _ =>
        r := Err(Unsupported(inst));
    }

    // The flag-setting group-8 operations, statement by statement as the source has them.

    method AddInPlace(x: nat, y: nat)
      requires Valid() && x < REGISTER_COUNT && y < REGISTER_COUNT
      modifies v
      ensures v[..] == AddRegisters(old(v[..]), x, y)
    {
      ghost var v0 := v[..];
      v[x] := v[x] + v[y];
      ghost var v1 := v[..];
      var carry: bv8 := if v[x] < v[y] then 1 else 0;
      assert carry == if v1[x] < v1[y] then 1 else 0;
      v[VF] := carry;
      assert v[..] == v1[VF := carry];
      AddRegistersInTwoSteps(v0, x, y, v1, v[..]);
    }

    method SubInPlace(x: nat, y: nat)
      requires Valid() && x < REGISTER_COUNT && y < REGISTER_COUNT
      modifies v
      ensures v[..] == SubRegisters(old(v[..]), x, y)
    {
      ghost var v0 := v[..];
      v[VF] := if v[x] > v[y] then 1 else 0;
      ghost var v1 := v[..];
      v[x] := v[x] - v[y];
      SubRegistersInTwoSteps(v0, x, y, v1, v[..]);
    }

    method ShiftRightInPlace(x: nat)
      requires Valid() && x < REGISTER_COUNT
      modifies v
      ensures v[..] == ShiftRightRegister(old(v[..]), x)
    {
      v[VF] := v[x] & 0x1;
      v[x] := v[x] >> 1;
    }

    method SubnInPlace(x: nat, y: nat)
      requires Valid() && x < REGISTER_COUNT && y < REGISTER_COUNT
      modifies v
      ensures v[..] == SubnRegisters(old(v[..]), x, y)
    {
      ghost var v0 := v[..];
      v[VF] := if v[y] > v[x] then 1 else 0;
      ghost var v1 := v[..];
      v[x] := v[y] - v[x];
      SubnRegistersInTwoSteps(v0, x, y, v1, v[..]);
    }

    method ShiftLeftInPlace(x: nat)
      requires Valid() && x < REGISTER_COUNT
      modifies v
      ensures v[..] == ShiftLeftRegister(old(v[..]), x)
    {
      v[VF] := (v[x] & 0x80) >> 7;
      v[x] := v[x] << 1;
    }

    /** DRW Vx, Vy, n: clear VF, then draw the n sprite rows one after the other. */
    method DrawSprite(x: nat, y: nat, n: nat) returns (r: Result<()>)
      requires Valid() && x < REGISTER_COUNT && y < REGISTER_COUNT && n < 16
      modifies v, display
      ensures r == Draw(old(State()), x, y, n).result
      ensures State() == Draw(old(State()), x, y, n).next
    {
      ghost var start := State();
      v[VF] := 0;
      assert DrawPrefix(start, x, y, 0, 0) == Done(start.(v := v[..]));
      r := DrawRows(x, y, n, start);
      assert State() == start.(v := v[..], display := display[..]);
    }

    /** The outer drawing loop. While it runs, the state is the starting state with the
        current registers and display; it stops at the first row that faults. */
    method DrawRows(x: nat, y: nat, n: nat, ghost start: Machine) returns (r: Result<()>)
      requires Valid() && start.Valid() && x < REGISTER_COUNT && y < REGISTER_COUNT && n < 16
      requires start.ram == ram[..] && start.index == index
      requires DrawPrefix(start, x, y, 0, 0) == Done(start.(v := v[..], display := display[..]))
      modifies v, display
      ensures Draw(start, x, y, n) == Transition(r, start.(v := v[..], display := display[..]))
    {
      var i := 0;
      while i < n
        invariant 0 <= i <= n
        invariant DrawPrefix(start, x, y, i, 0) == Done(start.(v := v[..], display := display[..]))
      {
        var ok := DrawRow(x, y, i, start);
        if !ok {
          DrawPrefixStops(start, x, y, i, 8, n, 0);
          return Err(OutOfBounds);
        }
        DrawPrefixRowStart(start, x, y, i + 1);
        i := i + 1;
      }
      r := Ok(());
    }

    /** One pass of the outer drawing loop: read sprite row `i` from I + i, then plot its
        eight bits left to right. Reports false when an index falls outside RAM or the
        display, leaving the pixels before it drawn. */
    method DrawRow(x: nat, y: nat, i: nat, ghost start: Machine) returns (ok: bool)
      requires Valid() && start.Valid() && x < REGISTER_COUNT && y < REGISTER_COUNT && i < 16
      requires start.ram == ram[..] && start.index == index
      requires DrawPrefix(start, x, y, i, 0) == Done(start.(v := v[..], display := display[..]))
      modifies v, display
      ensures DrawPrefix(start, x, y, i, 8) ==
                Transition(if ok then Ok(()) else Err(OutOfBounds), start.(v := v[..], display := display[..]))
    {
      if index + i >= RAM_SIZE {
        assert DrawPrefix(start, x, y, i, 1) == Fail(start.(v := v[..], display := display[..]), OutOfBounds);
        DrawPrefixStops(start, x, y, i, 1, i, 8);
        return false;
      }
      var pixelRow := ram[index + i];
      var j := 0;
      while j < 8
        invariant 0 <= j <= 8
        invariant DrawPrefix(start, x, y, i, j) == Done(start.(v := v[..], display := display[..]))
      {
        ok := PlotPixel(x, y, i, j, pixelRow, start);
        if !ok {
          DrawPrefixStops(start, x, y, i, j + 1, i, 8);
          return false;
        }
        j := j + 1;
      }
      ok := true;
    }

    /** One pass of the inner drawing loop, for column `j` of sprite row `i`, already read
        into `pixelRow`: it takes the loops one pixel further. Vx and Vy are read afresh,
        as the source reads them at every pixel; a sprite bit equal to the pixel it lands
        on sets VF, then the bit is XORed into the pixel. A target outside the display
        faults before anything is written. */
    method PlotPixel(x: nat, y: nat, i: nat, j: nat, pixelRow: bv8, ghost start: Machine) returns (ok: bool)
      requires Valid() && start.Valid() && x < REGISTER_COUNT && y < REGISTER_COUNT && i < 16 && j < 8
      requires start.index + i < RAM_SIZE && pixelRow == start.ram[start.index + i]
      requires DrawPrefix(start, x, y, i, j) == Done(start.(v := v[..], display := display[..]))
      modifies v, display
      ensures DrawPrefix(start, x, y, i, j + 1) ==
                Transition(if ok then Ok(()) else Err(OutOfBounds), start.(v := v[..], display := display[..]))
    {
      var pixel := SpriteBit(pixelRow, j);
      var target := PixelIndex(v[x], v[y], i, j);
      if target >= DISPLAY_SIZE {
        return false;
      }
      XorPixel(target, pixel);
      ok := true;
    }

    /** Set VF when the sprite bit equals the pixel it lands on, then XOR the bit in. */
    method XorPixel(target: nat, pixel: bv8)
      requires Valid() && target < DISPLAY_SIZE
      modifies v, display
      ensures v[..] == Flagged(old(v[..]), old(display[..]), target, pixel)
      ensures display[..] == Xored(old(display[..]), target, pixel)
    {
      if pixel == display[target] {
        v[VF] := 1;
      }
      display[target] := display[target] ^ pixel;
    }
  }
}

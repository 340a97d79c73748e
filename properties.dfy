/** What one fetch or one execute does, opcode group by opcode group, and the facts that
    hold across every instruction: RAM is never written, a display of 0s and 1s stays
    so, and every fault except one inside DRW leaves the machine untouched. */
module Properties {
  import opened MachineState
  import opened Decode
  import opened Semantics
  import opened DrawProperties

  /** Loading a program image copies it byte for byte to START_ADDRESS onwards and leaves
      every other RAM byte and everything but RAM alone. An image longer than the room
      left in RAM faults with the part that fits already copied. */
  lemma LoadCopiesImage(m: Machine, rom: seq<bv8>)
    requires m.Valid()
    ensures var room := RAM_SIZE - START_ADDRESS;
            var copied := if |rom| <= room then |rom| else room;
            var t := Load(m, rom);
            && (t.result.Ok? <==> |rom| <= room)
            && (t.result.Err? ==> t.result.fault == OutOfBounds)
            && t.next.(ram := m.ram) == m
            && (forall k :: 0 <= k < copied ==> t.next.ram[START_ADDRESS + k] == rom[k])
            && (forall a :: 0 <= a < START_ADDRESS ==> t.next.ram[a] == m.ram[a])
            && (forall a :: START_ADDRESS + copied <= a < RAM_SIZE ==> t.next.ram[a] == m.ram[a])
  {
  }

  /** A fetch with both bytes in RAM returns them as a big-endian word and advances PC by 2
      (wrapping at 0x10000); otherwise it faults before anything changes. */
  lemma FetchReadsBigEndianWord(m: Machine)
    requires m.Valid()
    ensures m.pc + 1 < RAM_SIZE ==>
              && Fetch(m).result.Ok?
              && Fetch(m).result.value as int == m.ram[m.pc] as int * 0x100 + m.ram[m.pc + 1] as int
              && Fetch(m).next == m.(pc := (m.pc + 2) % 0x1_0000)
    ensures m.pc + 1 >= RAM_SIZE ==> Fetch(m) == Fail(m, OutOfBounds)
  {
  }

  /** The fetched word's nibbles are the nibbles of the two bytes, high byte first. */
  lemma FetchedFields(m: Machine)
    requires m.Valid() && m.pc + 1 < RAM_SIZE
    ensures var inst, hi, lo := Fetch(m).result.value, m.ram[m.pc], m.ram[m.pc + 1];
            && Group(inst) == (hi >> 4) as bv16 && X(inst) == (hi & 0xF) as nat
            && Y(inst) == (lo >> 4) as nat && N(inst) == (lo & 0xF) as bv16
            && Kk(inst) == lo
  {
  }

  /** The words the interpreter rejects: group 0 other than CLS and RET, group 8 with a
      trailing nibble outside 0-7 and E, and groups E and F. */
  predicate IsUnsupported(inst: bv16) {
    || (Group(inst) == 0x0 && inst != 0x00E0 && inst != 0x00EE)
    || (Group(inst) == 0x8 && N(inst) in {0x8, 0x9, 0xA, 0xB, 0xC, 0xD, 0xF})
    || Group(inst) >= 0xE
  }

  /** Execute reports Unsupported for exactly the unsupported words, and then the
      machine is exactly as it was. */
  lemma UnsupportedExactly(m: Machine, inst: bv16, rnd: bv8)
    requires m.Valid()
    ensures Execute(m, inst, rnd).result == Err(Unsupported(inst)) <==> IsUnsupported(inst)
    ensures IsUnsupported(inst) ==> Execute(m, inst, rnd).next == m
  {
    ExecuteDispatch(m, inst, rnd);
    if Group(inst) == 0xD {
      DrawFaultsAreOutOfBounds(m, X(inst), Y(inst), N(inst) as nat, 0);
    }
  }

  /** CALL saves the already advanced PC on the stack and jumps; a RET right after it
      returns to exactly the machine before the CALL. */
  lemma CallThenReturnRestores(m: Machine, call: bv16, rnd: bv8, rnd': bv8)
    requires m.Valid() && Group(call) == 0x2
    ensures Execute(m, call, rnd) == Done(m.(stack := m.stack + [m.pc], pc := Nnn(call)))
    ensures Execute(Execute(m, call, rnd).next, 0x00EE, rnd') == Done(m)
  {
    var m1 := m.(stack := m.stack + [m.pc], pc := Nnn(call));
    assert Group(0x00EE) == 0;
    assert m1.stack[..|m1.stack| - 1] == m.stack;
  }

  /** RET pops the top of the stack into PC; on an empty stack it faults and changes
      nothing. */
  lemma ReturnPopsStack(m: Machine, rnd: bv8)
    requires m.Valid()
    ensures m.stack == [] ==> Execute(m, 0x00EE, rnd) == Fail(m, StackEmpty)
    ensures m.stack != [] ==>
              && Execute(m, 0x00EE, rnd).result.Ok?
              && Execute(m, 0x00EE, rnd).next.stack + [Execute(m, 0x00EE, rnd).next.pc] == m.stack
              && Execute(m, 0x00EE, rnd).next.(pc := m.pc, stack := m.stack) == m
  {
    assert Group(0x00EE) == 0;
  }

  /** CLS turns every pixel off and changes nothing else. */
  lemma ClearBlanksDisplay(m: Machine, rnd: bv8)
    requires m.Valid()
    ensures Execute(m, 0x00E0, rnd).result.Ok?
    ensures forall k :: 0 <= k < DISPLAY_SIZE ==> Execute(m, 0x00E0, rnd).next.display[k] == 0
    ensures Execute(m, 0x00E0, rnd).next.(display := m.display) == m
  {
    assert Group(0x00E0) == 0;
  }

  /** The skip instructions add 2 to PC exactly when their comparison holds, and change
      nothing else. 5xyN and 9xyN ignore N. */
  lemma SkipsWhenComparisonHolds(m: Machine, inst: bv16, rnd: bv8)
    requires m.Valid() && Group(inst) in {0x3, 0x4, 0x5, 0x9}
    ensures Execute(m, inst, rnd).result.Ok?
    ensures var vx, vy, kk := m.v[X(inst)], m.v[Y(inst)], Kk(inst);
            var holds := match Group(inst)
                         case 0x3 => vx == kk
                         case 0x4 => vx != kk
                         case 0x5 => vx == vy
                         case _ => vx != vy;
            Execute(m, inst, rnd).next == m.(pc := if holds then (m.pc + 2) % 0x1_0000 else m.pc)
  {
  }

  /** JP nnn jumps to nnn and changes nothing else. */
  lemma JumpSetsPc(m: Machine, inst: bv16, rnd: bv8)
    requires m.Valid() && Group(inst) == 0x1
    ensures Execute(m, inst, rnd) == Done(m.(pc := Nnn(inst)))
  {
  }

  /** JP V0, nnn jumps to nnn + V0, which is at most 0x10FE and so never wraps; nothing
      else changes. */
  lemma JumpOffsetSetsPc(m: Machine, inst: bv16, rnd: bv8)
    requires m.Valid() && Group(inst) == 0xB
    ensures Nnn(inst) + m.v[0] as int <= 0x10FE
    ensures Execute(m, inst, rnd) == Done(m.(pc := Nnn(inst) + m.v[0] as int))
  {
    assert Execute(m, inst, rnd) == Done(m.(pc := JumpTarget(Nnn(inst), m.v[0])));
    JumpTargetNeverWraps(Nnn(inst), m.v[0]);
  }

  /** A 12-bit address plus a byte stays below 0x10FF, so the 16-bit wrap-around of the
      target never happens. */
  lemma JumpTargetNeverWraps(nnn: u16, v0: bv8)
    requires nnn < 0x1000
    ensures JumpTarget(nnn, v0) == nnn + v0 as int <= 0x10FE
  {
  }

  /** LD Vx, kk and ADD Vx, kk write Vx alone; the addition wraps and, unlike ADD Vx, Vy,
      leaves VF alone. */
  lemma LoadAndAddImmediate(m: Machine, inst: bv16, rnd: bv8)
    requires m.Valid()
    ensures var x, vx, kk := X(inst), m.v[X(inst)], Kk(inst);
            && (Group(inst) == 0x6 ==> Execute(m, inst, rnd) == Done(m.(v := m.v[x := kk])))
            && (Group(inst) == 0x7 ==> Execute(m, inst, rnd) == Done(m.(v := m.v[x := vx + kk])))
  {
  }

  /** LD Vx, Vy / OR / AND / XOR write Vx alone, with VF untouched. */
  lemma LogicWritesTarget(m: Machine, inst: bv16)
    requires m.Valid() && N(inst) <= 0x3
    ensures var x, vx, vy := X(inst), m.v[X(inst)], m.v[Y(inst)];
            var r := match N(inst)
                     case 0x0 => vy
                     case 0x1 => vx | vy
                     case 0x2 => vx & vy
                     case _ => vx ^ vy;
            Arith(m, inst) == Done(m.(v := m.v[x := r]))
  {
  }

  /** LD I, nnn sets I alone; RND Vx, kk sets Vx alone to the random byte masked by kk. */
  lemma IndexAndRandomWrites(m: Machine, inst: bv16, rnd: bv8)
    requires m.Valid()
    ensures Group(inst) == 0xA ==> Execute(m, inst, rnd) == Done(m.(index := Nnn(inst)))
    ensures Group(inst) == 0xC ==> Execute(m, inst, rnd) == Done(m.(v := m.v[X(inst) := rnd & Kk(inst)]))
  {
  }

  /** RND Vx, kk leaves no bit of Vx outside kk and, as the random byte is below 255,
      never yields 255. */
  lemma RandomMasked(m: Machine, inst: bv16, rnd: bv8)
    requires m.Valid() && Group(inst) == 0xC && rnd <= 254
    ensures Execute(m, inst, rnd).next.v[X(inst)] & !Kk(inst) == 0
    ensures Execute(m, inst, rnd).next.v[X(inst)] != 0xFF
  {
  }

  /** Every register other than Vx and VF is as it was. */
  predicate OnlyTargetAndFlag(v: seq<bv8>, w: seq<bv8>, x: nat)
    requires |v| == REGISTER_COUNT && |w| == REGISTER_COUNT
  {
    forall r :: 0 <= r < VF && r != x ==> w[r] == v[r]
  }

  /** Group 8 changes only the register file, and for its supported operations it
      reports success. */
  lemma ArithOnlyWritesRegisters(m: Machine, inst: bv16)
    requires m.Valid()
    ensures Arith(m, inst).next.(v := m.v) == m
    ensures Arith(m, inst).result.Ok? <==> N(inst) <= 0x7 || N(inst) == 0xE
  {
  }

  /** The wrapped sum of two bytes is below an operand exactly when the true sum exceeds
      a byte: the carry test the interpreter uses. */
  lemma WrappedSumBelowOperandIsCarry(a: bv8, b: bv8)
    ensures a + b < b <==> a as int + b as int > 0xFF
  {
  }

  /** ADD Vx, Vy with distinct registers and Vx other than VF: Vx becomes the wrapped sum
      and VF the carry of the unwrapped sum, which is what the test `Vx < Vy` on the new Vx
      computes. Vy may be VF itself, since VF is read before the flag is written. */
  lemma AddSetsCarry(v: seq<bv8>, x: nat, y: nat)
    requires |v| == REGISTER_COUNT && x < VF && y < REGISTER_COUNT && x != y
    ensures AddRegisters(v, x, y)[x] == v[x] + v[y]
    ensures AddRegisters(v, x, y)[VF] == 1 <==> v[x] as int + v[y] as int > 0xFF
    ensures AddRegisters(v, x, y)[VF] <= 1
    ensures OnlyTargetAndFlag(v, AddRegisters(v, x, y), x)
  {
    WrappedSumBelowOperandIsCarry(v[x], v[y]);
  }

  /** ADD Vx, Vx: the test `Vx < Vy` reads the new Vx on both sides, so VF is always
      cleared, even when doubling Vx overflows. */
  lemma AddToItselfClearsFlag(v: seq<bv8>, x: nat)
    requires |v| == REGISTER_COUNT && x < VF
    ensures AddRegisters(v, x, x)[x] == v[x] + v[x]
    ensures AddRegisters(v, x, x)[VF] == 0
    ensures OnlyTargetAndFlag(v, AddRegisters(v, x, x), x)
  {
  }

  /** ADD VF, Vy: the flag is written last, so VF ends as the carry and the sum is lost. */
  lemma AddIntoFlagKeepsCarry(v: seq<bv8>, y: nat)
    requires |v| == REGISTER_COUNT && y < VF
    ensures AddRegisters(v, VF, y)[VF] == if v[VF] as int + v[y] as int > 0xFF then 1 else 0
    ensures OnlyTargetAndFlag(v, AddRegisters(v, VF, y), VF)
  {
    WrappedSumBelowOperandIsCarry(v[VF], v[y]);
  }

  /** SUB Vx, Vy: VF is 1 exactly when Vx was strictly greater than Vy (so equal operands
      give 0), and adding Vy back to the new Vx gives the old Vx. */
  lemma SubSetsNotBorrow(v: seq<bv8>, x: nat, y: nat)
    requires |v| == REGISTER_COUNT && x < VF && y < VF
    ensures SubRegisters(v, x, y)[x] + v[y] == v[x]
    ensures SubRegisters(v, x, y)[VF] == if v[x] > v[y] then 1 else 0
    ensures OnlyTargetAndFlag(v, SubRegisters(v, x, y), x)
  {
  }

  /** SUBN Vx, Vy: VF is 1 exactly when Vy was strictly greater than Vx, and adding the
      old Vx to the new Vx gives Vy. */
  lemma SubnSetsNotBorrow(v: seq<bv8>, x: nat, y: nat)
    requires |v| == REGISTER_COUNT && x < VF && y < VF
    ensures SubnRegisters(v, x, y)[x] + v[x] == v[y]
    ensures SubnRegisters(v, x, y)[VF] == if v[y] > v[x] then 1 else 0
    ensures OnlyTargetAndFlag(v, SubnRegisters(v, x, y), x)
  {
  }

  /** SHR Vx: VF receives the bit shifted out, and the new Vx and VF together rebuild the
      old Vx; the new Vx is below 128. */
  lemma ShiftRightKeepsLostBit(v: seq<bv8>, x: nat)
    requires |v| == REGISTER_COUNT && x < VF
    ensures var w := ShiftRightRegister(v, x);
            && w[VF] <= 1 && w[x] < 0x80
            && (w[x] << 1) | w[VF] == v[x]
            && OnlyTargetAndFlag(v, w, x)
  {
  }

  /** SHL Vx: VF receives the top bit shifted out, and the new Vx and VF together rebuild
      the old Vx; the new Vx is even. */
  lemma ShiftLeftKeepsLostBit(v: seq<bv8>, x: nat)
    requires |v| == REGISTER_COUNT && x < VF
    ensures var w := ShiftLeftRegister(v, x);
            && w[VF] <= 1 && w[x] & 1 == 0
            && (w[VF] << 7) | (w[x] >> 1) == v[x]
            && (w[VF] == 1 <==> v[x] as int >= 0x80)
            && OnlyTargetAndFlag(v, w, x)
  {
  }

  /** SUB, SHR and SHL with VF as the target write the flag first and then overwrite it
      with the result computed from that flag: SHR VF always leaves 0, SHL VF leaves 2 or 0. */
  lemma FlagTargetKeepsResult(v: seq<bv8>, y: nat)
    requires |v| == REGISTER_COUNT && y < VF
    ensures SubRegisters(v, VF, y)[VF] == (if v[VF] > v[y] then 1 else 0) - v[y]
    ensures ShiftRightRegister(v, VF)[VF] == 0
    ensures ShiftLeftRegister(v, VF)[VF] == if v[VF] >= 0x80 then 2 else 0
    ensures OnlyTargetAndFlag(v, SubRegisters(v, VF, y), VF)
    ensures OnlyTargetAndFlag(v, ShiftRightRegister(v, VF), VF)
    ensures OnlyTargetAndFlag(v, ShiftLeftRegister(v, VF), VF)
  {
  }

  /** SUBN VF, Vy: the flag is written first and then overwritten by Vy minus that flag. */
  lemma SubnIntoFlagKeepsResult(v: seq<bv8>, y: nat)
    requires |v| == REGISTER_COUNT && y < VF
    ensures SubnRegisters(v, VF, y)[VF] == v[y] - (if v[y] > v[VF] then 1 else 0)
    ensures OnlyTargetAndFlag(v, SubnRegisters(v, VF, y), VF)
  {
  }

  /** SUB Vx, VF: the flag is written before `Vx -= VF` reads VF, so Vx loses the fresh
      flag (0 or 1), not the old VF, and VF keeps that flag. Adding the old VF back
      therefore does not in general rebuild the old Vx. */
  lemma SubFlagOperandReadsFreshFlag(v: seq<bv8>, x: nat)
    requires |v| == REGISTER_COUNT && x < VF
    ensures SubRegisters(v, x, VF)[VF] == if v[x] > v[VF] then 1 else 0
    ensures SubRegisters(v, x, VF)[x] == v[x] - SubRegisters(v, x, VF)[VF]
    ensures OnlyTargetAndFlag(v, SubRegisters(v, x, VF), x)
  {
  }

  /** SUBN Vx, VF: likewise `Vx = VF - Vx` reads the fresh flag, not the old VF. */
  lemma SubnFlagOperandReadsFreshFlag(v: seq<bv8>, x: nat)
    requires |v| == REGISTER_COUNT && x < VF
    ensures SubnRegisters(v, x, VF)[VF] == if v[VF] > v[x] then 1 else 0
    ensures SubnRegisters(v, x, VF)[x] == SubnRegisters(v, x, VF)[VF] - v[x]
    ensures OnlyTargetAndFlag(v, SubnRegisters(v, x, VF), x)
  {
  }

  /** An example of `SubFlagOperandReadsFreshFlag`: with V0 = 5 and VF = 3, SUB V0, VF
      leaves V0 = 4, not 5 - 3 = 2, because the subtraction reads the flag 1 that was just
      written. */
  lemma SubFromFlagExample()
    ensures var v := [5, 0, 0, 0, 0, 0, 0, 0, 0, 0, 0, 0, 0, 0, 0, 3];
            SubRegisters(v, 0, VF)[0] == 4 && SubRegisters(v, 0, VF)[VF] == 1
  {
    var v: seq<bv8> := [5, 0, 0, 0, 0, 0, 0, 0, 0, 0, 0, 0, 0, 0, 0, 3];
    SubFlagOperandReadsFreshFlag(v, 0);
  }

  /** ADD, SUB and SUBN of VF with itself all leave VF = 0: ADD compares the new VF with
      itself, and SUB and SUBN subtract the fresh flag from itself. */
  lemma FlagWithItselfIsZero(v: seq<bv8>)
    requires |v| == REGISTER_COUNT
    ensures AddRegisters(v, VF, VF)[VF] == 0
    ensures SubRegisters(v, VF, VF)[VF] == 0
    ensures SubnRegisters(v, VF, VF)[VF] == 0
    ensures OnlyTargetAndFlag(v, AddRegisters(v, VF, VF), VF)
    ensures OnlyTargetAndFlag(v, SubRegisters(v, VF, VF), VF)
    ensures OnlyTargetAndFlag(v, SubnRegisters(v, VF, VF), VF)
  {
  }

  /** No instruction writes RAM, I changes only through LD I, and the timers never change. */
  lemma ExecuteNeverWritesRam(m: Machine, inst: bv16, rnd: bv8)
    requires m.Valid()
    ensures Execute(m, inst, rnd).next.ram == m.ram
    ensures Group(inst) != 0xA ==> Execute(m, inst, rnd).next.index == m.index
    ensures Execute(m, inst, rnd).next.soundTimer == m.soundTimer
    ensures Execute(m, inst, rnd).next.delayTimer == m.delayTimer
  {
    ExecuteDispatch(m, inst, rnd);
    if Group(inst) == 0xD {
      DrawPrefixFrame(m, X(inst), Y(inst), N(inst) as nat, 0);
    }
  }

  /** Every fault except one raised inside DRW leaves the machine exactly as it was. */
  lemma FaultsOutsideDrawChangeNothing(m: Machine, inst: bv16, rnd: bv8)
    requires m.Valid() && Group(inst) != 0xD
    requires Execute(m, inst, rnd).result.Err?
    ensures Execute(m, inst, rnd).next == m
    ensures Execute(m, inst, rnd).result.fault in {Unsupported(inst), StackEmpty}
  {
  }

  /** If every pixel holds 0 or 1, it still does after any instruction. */
  lemma ExecuteKeepsBinaryDisplay(m: Machine, inst: bv16, rnd: bv8)
    requires m.Valid() && BinaryDisplay(m.display)
    ensures BinaryDisplay(Execute(m, inst, rnd).next.display)
  {
    ExecuteDispatch(m, inst, rnd);
    if Group(inst) == 0xD {
      DrawKeepsBinary(m, X(inst), Y(inst), N(inst) as nat, 0);
    }
  }
}

/**
 * What `cpu::next` and the run loop guarantee, stated over the step function
 * of module Semantics (and so, through the contracts of class `Cpu`, over the
 * emulator itself).
 */
module Behaviour {
  import opened Isa
  import opened FlagsRegister
  import opened ByteStack
  import opened Semantics

  /** A halted cpu does nothing: `next` returns at once, and the run loop
      stops before its first step. */
  lemma HaltedIsIdle(program: seq<bv64>, m: Machine, fuel: nat)
    requires Valid(m) && Halted(m)
    ensures CanStep(program, m) && Step(program, m) == m
    ensures Trace(program, m, fuel) == m
  {
  }

  /** An operation the emulator does not implement is skipped: the only
      change is the advanced instruction pointer. `raise_exception` clears
      the halt flag, which `next` only reaches when it is already clear. */
  lemma UndefinedIsSkipped(program: seq<bv64>, m: Machine)
    requires Valid(m) && !Halted(m) && HasNext(program, m)
    requires !DefinedOpcode(Format(Fetch(program, m)), Fetch(program, m).op)
    ensures CanStep(program, m)
    ensures Step(program, m) == Advance(m)
  {
    var a := Advance(m);
    SetSame(a.flags, HALT);
  }

  /** `hlt` sets the halt flag and changes nothing else. */
  lemma HaltHalts(m: Machine, unused: bv56)
    requires Valid(m)
    ensures var n := Exec(NoOperand(0, unused), m);
            Halted(n) && n.registers == m.registers && n.stack == m.stack
    ensures var n := Exec(NoOperand(0, unused), m);
            GetBit(n.flags, EQUAL) == GetBit(m.flags, EQUAL) && GetBit(n.flags, ABOVE) == GetBit(m.flags, ABOVE)
  {
    SetThenGet(m.flags, HALT, true);
    SetKeepsOthers(m.flags, HALT, true, EQUAL);
    SetKeepsOthers(m.flags, HALT, true, ABOVE);
  }

  /** `cmp o1, o2` leaves `equal` holding `o1 > o2` (the second write wins),
      never touches `above` or `halt`, and changes no register or stack
      byte. */
  lemma CompareFlags(m: Machine, o1: bv7, o2: bv7)
    requires Valid(m)
    ensures var n := Compared(m, o1, o2);
            && GetBit(n.flags, EQUAL) == (Reg(m, o1) > Reg(m, o2))
            && GetBit(n.flags, ABOVE) == GetBit(m.flags, ABOVE)
            && GetBit(n.flags, HALT) == GetBit(m.flags, HALT)
            && n.registers == m.registers && n.stack == m.stack
  {
    var a := Reg(m, o1);
    var b := Reg(m, o2);
    var f1 := SetBit(m.flags, EQUAL, a == b);
    SetThenGet(f1, EQUAL, Exceeds(a, b));
    SetKeepsOthers(m.flags, EQUAL, a == b, ABOVE);
    SetKeepsOthers(f1, EQUAL, Exceeds(a, b), ABOVE);
    SetKeepsOthers(m.flags, EQUAL, a == b, HALT);
    SetKeepsOthers(f1, EQUAL, Exceeds(a, b), HALT);
  }

  /** After `cmp o1, o2`, `je` and `jne` branch on `o1 > o2`, while `ja`
      and `jb` still see whatever `above` held before. */
  lemma BranchAfterCompare(m: Machine, o1: bv7, o2: bv7)
    requires Valid(m)
    ensures var f := Compared(m, o1, o2).flags;
            var greater := Reg(m, o1) > Reg(m, o2);
            && (Taken(5, f) <==> greater)
            && (Taken(6, f) <==> !greater)
            && (Taken(7, f) <==> GetBit(m.flags, ABOVE))
            && (Taken(9, f) <==> !greater && !GetBit(m.flags, ABOVE))
  {
    CompareFlags(m, o1, o2);
  }

  /** `ret` undoes `call`: it pops the return address `call` pushed, so the
      instruction pointer and the stack are back where they were. */
  lemma ReturnUndoesCall(m: Machine, target: bv64)
    requires Valid(m)
    ensures |Called(m, target).stack| >= 8
    ensures ExecNoOperand(1, Called(m, target)) == m
  {
    var c := Called(m, target);
    PushPop64(m.stack, Ip(m));
    assert c.registers[IP := Ip(m)] == m.registers;
  }

  /** `pop` right after `push` writes the pushed value back and leaves the
      stack as it was. */
  lemma PopUndoesPush(m: Machine, data: bv64, mode: bv2, payload: bv54)
    requires Valid(m)
    ensures |Pushed(m, data).stack| >= 8
    ensures PoppedInto(Pushed(m, data), mode, payload) == Assign(m, mode, payload, data)
  {
    PushPop64(m.stack, data);
  }

  /** `inc`, `dec` and `pop` write nothing unless their operand is a
      register: with an immediate or pointer operand, `inc` and `dec` change
      nothing and `pop` only drops 8 bytes. */
  lemma NoWriteBackWithoutRegister(op: bv5, mode: bv2, payload: bv54, m: Machine)
    requires Valid(m) && mode != 0
    requires op == 0 || op == 1 || (op == 12 && |m.stack| >= 8)
    ensures ExecUnary(op, mode, payload, m) == if op == 12 then m.(stack := Below(m.stack, 8)) else m
  {
  }

  /** `asgnh` replaces the high half with the low 32 bits of the immediate
      and keeps the low half. */
  lemma HighHalfLoad(r: bv64, immediate: bv49)
    ensures Loaded(1, r, immediate) >> 32 == (immediate as bv64) & 0xffff_ffff
    ensures Loaded(1, r, immediate) & 0xffff_ffff == r & 0xffff_ffff
  {
  }

  /** `asgnl` replaces the low half with the low 32 bits of the immediate and
      keeps the high half. */
  lemma LowHalfLoad(r: bv64, immediate: bv49)
    ensures Loaded(2, r, immediate) >> 32 == r >> 32
    ensures Loaded(2, r, immediate) & 0xffff_ffff == (immediate as bv64) & 0xffff_ffff
  {
  }

  /** `asgnh` then `asgnl` loads a full 64-bit constant, whatever the
      register held. */
  lemma LoadConstant(r: bv64, high: bv49, low: bv49)
    ensures Loaded(2, Loaded(1, r, high), low) == ((high as bv64 & 0xffff_ffff) << 32) | (low as bv64 & 0xffff_ffff)
  {
  }

  /** `shl` shifts `src1` by itself: the second source register plays no
      part. */
  lemma ShiftLeftIgnoresSecondSource(d: bv7, s1: bv7, s2: bv7, s3: bv7, m: Machine)
    requires Valid(m) && Reg(m, s1) < 64
    ensures ExecThreeAddress(5, d, s1, s2, m) == ExecThreeAddress(5, d, s1, s3, m)
    ensures Reg(ExecThreeAddress(5, d, s1, s2, m), d) == Reg(m, s1) << Reg(m, s1)
  {
  }

  /** Running for `a + b` steps is running for `a`, then for `b` from where
      that stopped. */
  lemma {:induction false} TraceSplit(program: seq<bv64>, m: Machine, a: nat, b: nat)
    requires Valid(m)
    ensures Trace(program, m, a + b) == Trace(program, Trace(program, m, a), b)
    decreases a, 1
  {
    if a == 0 {
    } else if Stopped(program, m) {
      StoppedStays(program, m, a);
      StoppedStays(program, m, b);
      StoppedStays(program, m, a + b);
    } else {
      TraceSplitStep(program, m, a, b);
    }
  }

  lemma {:induction false} TraceSplitStep(program: seq<bv64>, m: Machine, a: nat, b: nat)
    requires Valid(m) && a > 0 && !Stopped(program, m)
    ensures Trace(program, m, a + b) == Trace(program, Trace(program, m, a), b)
    decreases a, 0
  {
    var n := Step(program, m);
    TraceUnfold(program, m, a + b);
    TraceUnfold(program, m, a);
    TraceSplit(program, n, a - 1, b);
  }
}

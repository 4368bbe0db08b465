/**
 * Class `cpu` of emulator_main.cpp: 128 registers, a flags object, the
 * program and a stack. Each method is proved to change the fields exactly
 * as the functions of module Semantics say.
 */
module Emulator {
  import opened Isa
  import opened FlagsRegister
  import opened ByteStack
  import opened Semantics

  class Cpu {
    const registers: array<bv64>
    const flags: Flags
    const stack: Stack
    const instructions: seq<bv64>

    /** A new cpu: all registers 0, no flag set, an empty stack. */
    constructor(program: seq<bv64>)
      ensures Valid() && instructions == program
      ensures State() == Machine(seq(REGISTER_COUNT, _ => 0), 0, [])
    {
      registers := new bv64[REGISTER_COUNT](_ => 0);
      flags := new Flags();
      stack := new Stack();
      instructions := program;
    }

    predicate Valid() {
      registers.Length == REGISTER_COUNT
    }

    /** The state as a value. */
    function State(): Machine
      reads registers, flags, stack
    {
      Machine(registers[..], flags.value, stack.bytes)
    }

    /** `halted`. */
    predicate Halted()
      reads flags
    {
      flags.Halt()
    }

    /** `has_next`. */
    predicate HasNext()
      requires Valid()
      reads registers
    {
      registers[IP] as int < |instructions|
    }

    /** `raise_exception`: report (not modelled) and clear the halt flag. */
    method RaiseException()
      modifies flags
      ensures flags.value == SetBit(old(flags.value), HALT, false)
    {
      flags.SetHalt(false);
    }

    method ExecuteThreeAddress(op: bv5, d: bv7, s1: bv7, s2: bv7)
      requires Valid() && !AluFaults(op, registers[s1], registers[s2])
      modifies registers, flags
      ensures State() == ExecThreeAddress(op, d, s1, s2, old(State()))
    {
      ghost var m := State();
      var src1 := registers[s1];
      var src2 := registers[s2];
      if op > 8 {
        RaiseException();
        return;
      }
      var v := Alu(op, src1, src2);
      registers[d] := v;
      assert registers[..] == m.registers[d := v];
      assert State() == Write(m, d, v);
    }

    method ExecuteBinomial(op: bv5, o1: bv7, o2: bv7)
      requires Valid()
      modifies registers, flags
      ensures State() == ExecBinomial(op, o1, o2, old(State()))
    {
      if op == 0 {
        Negate(o1, o2);
      } else if op == 1 {
        Exchange(o1, o2);
      } else if op == 2 {
        CompareOperands(o1, o2);
      } else {
        RaiseException();
      }
    }

    /** `not`. */
    method Negate(o1: bv7, o2: bv7)
      requires Valid()
      modifies registers
      ensures State() == Negated(old(State()), o1, o2)
    {
      ghost var m := State();
      var op2 := registers[o2];
      registers[o1] := !op2;
      assert registers[..] == m.registers[o1 := !op2];
      assert State() == Write(m, o1, !op2);
    }

    /** `xchg`. */
    method Exchange(o1: bv7, o2: bv7)
      requires Valid()
      modifies registers
      ensures State() == Exchanged(old(State()), o1, o2)
    {
      ghost var m := State();
      var op1 := registers[o1];
      var op2 := registers[o2];
      if o1 != o2 {
        registers[o1], registers[o2] := op2, op1;
      }
    }

    /** `cmp`. */
    method CompareOperands(o1: bv7, o2: bv7)
      requires Valid()
      modifies flags
      ensures State() == Compared(old(State()), o1, o2)
    {
      ghost var m := State();
      var op1 := registers[o1];
      var op2 := registers[o2];
      flags.SetEqual(op1 == op2);
      flags.SetEqual(Exceeds(op1, op2));
    }

    /** The operand value of a unary instruction. */
    method ReadData(mode: bv2, payload: bv54) returns (data: bv64)
      requires Valid()
      ensures data == UnaryData(mode, payload, State())
    {
      data := 0;
      if mode == 0 {
        data := registers[PayloadOperand(payload)];
      } else if mode == 3 {
        data := payload as bv64;
      }
    }

    /** The jump decision of operations 3..10, read through the flag
        accessors. */
    method JumpTaken(op: bv5) returns (jump: bool)
      requires 3 <= op <= 10
      ensures jump == Taken(op, flags.value)
    {
      if op == 3 || op == 4 {
        jump := true;
      } else if op == 5 {
        jump := flags.Equal();
      } else if op == 6 {
        jump := !flags.Equal();
      } else if op == 7 {
        jump := flags.Above();
      } else if op == 8 {
        jump := flags.Equal() || flags.Above();
      } else if op == 9 {
        jump := !flags.Equal() && !flags.Above();
      } else {
        jump := !flags.Above();
      }
    }

    /** The write-back of `inc`, `dec` and `pop` (`if(assign)`): only a
        register operand is written. */
    method WriteBack(mode: bv2, payload: bv54, data: bv64)
      requires Valid()
      modifies registers
      ensures State() == Assign(old(State()), mode, payload, data)
    {
      if mode == 0 {
        ghost var m := State();
        var r := PayloadOperand(payload);
        registers[r] := data;
        assert registers[..] == m.registers[r := data];
      }
    }

    /** `call`: push the instruction pointer, then jump. */
    method CallTo(data: bv64)
      requires Valid()
      modifies registers, stack
      ensures State() == Called(old(State()), data)
    {
      ghost var m := State();
      stack.Push64(registers[IP]);
      registers[IP] := data;
      assert registers[..] == m.registers[IP := data];
    }

    /** The conditional and unconditional jumps. */
    method JumpTo(op: bv5, data: bv64)
      requires Valid() && 3 <= op <= 10
      modifies registers
      ensures State() == Jumped(op, old(State()), data)
    {
      var jump := JumpTaken(op);
      if jump {
        ghost var m := State();
        registers[IP] := data;
        assert registers[..] == m.registers[IP := data];
      }
    }

    method ExecuteUnary(op: bv5, mode: bv2, payload: bv54)
      requires Valid() && !(op == 12 && |stack.bytes| < 8)
      modifies registers, flags, stack
      ensures State() == ExecUnary(op, mode, payload, old(State()))
    {
      var data := ReadData(mode, payload);
      if op == 0 {
        WriteBack(mode, payload, Successor(data));
      } else if op == 1 {
        WriteBack(mode, payload, Predecessor(data));
      } else if op == 11 {
        stack.Push64(data);
      } else if op == 12 {
        data := stack.Pop64();
        WriteBack(mode, payload, data);
      } else if op == 2 {
        CallTo(data);
      } else if op <= 10 {
        JumpTo(op, data);
      } else {
        RaiseException();
      }
    }

    method ExecuteNoOperand(op: bv5)
      requires Valid() && !(op == 1 && |stack.bytes| < 8)
      modifies registers, flags, stack
      ensures State() == ExecNoOperand(op, old(State()))
    {
      if op == 0 {
        flags.SetHalt(true);
      } else if op == 1 {
        var address := stack.Pop64();
        registers[IP] := address;
      } else {
        RaiseException();
      }
    }

    method ExecuteRegisterImmediate(op: bv5, reg: bv7, immediate: bv49)
      requires Valid()
      modifies registers, flags
      ensures State() == ExecRegisterImmediate(op, reg, immediate, old(State()))
    {
      if op > 2 {
        RaiseException();
        return;
      }
      var value := LoadValue(op, registers[reg], immediate);
      registers[reg] := value;
    }

    /** `next`: one fetch-decode-execute step. */
    method Next()
      requires Valid() && CanStep(instructions, State())
      modifies registers, flags, stack
      ensures State() == Step(instructions, old(State()))
    {
      if flags.Halt() {
        return;
      }
      ghost var m := State();
      var ip := registers[IP];
      registers[IP] := Successor(ip);
      assert registers[..] == m.registers[IP := Successor(ip)];
      assert State() == Advance(m);
      var ins := Unpack(instructions[ip]);
      assert ins == Fetch(instructions, m);
      match ins
      case ThreeAddress(op, _, d, s1, s2, _, _, _, _) =>
        ExecuteThreeAddress(op, d, s1, s2);
      case Binomial(op, _, o1, o2, _, _) =>
        ExecuteBinomial(op, o1, o2);
      case Unary(op, mode, payload) =>
        ExecuteUnary(op, mode, payload);
      case NoOperand(op, _) =>
        ExecuteNoOperand(op);
      case RegisterImmediate(op, reg, immediate) =>
        ExecuteRegisterImmediate(op, reg, immediate);
      case Unassigned(_, _, _) =>
    }

    /** Whether the run loop goes on: `has_next() && !halted()`, and the
        next step is defined. */
    method Runnable() returns (more: bool)
      requires Valid()
      ensures more == !Stopped(instructions, State())
    {
      more := HasNext() && !Halted() && CanStep(instructions, State());
    }

    /** One turn of the run loop, seen through `Trace`. */
    method RunOnce(ghost fuel: nat)
      requires Valid() && fuel > 0 && !Stopped(instructions, State())
      modifies registers, flags, stack
      ensures Trace(instructions, State(), fuel - 1) == Trace(instructions, old(State()), fuel)
    {
      TraceUnfold(instructions, State(), fuel);
      Next();
    }

    /** The loop of the emulator's `main`, for at most `fuel` steps; it also
        stops before an instruction whose effect is undefined. */
    method Run(fuel: nat) returns (steps: nat)
      requires Valid()
      modifies registers, flags, stack
      ensures steps <= fuel
      ensures State() == Trace(instructions, old(State()), fuel)
    {
      steps := 0;
      var more := Runnable();
      while steps < fuel && more
        invariant steps <= fuel
        invariant more == !Stopped(instructions, State())
        invariant Trace(instructions, State(), fuel - steps) == Trace(instructions, old(State()), fuel)
        decreases fuel - steps
      {
        RunOnce(fuel - steps);
        steps := steps + 1;
        more := Runnable();
      }
      StoppedStays(instructions, State(), fuel - steps);
    }
  }

  /** The value `asgn`, `asgnh` or `asgnl` writes, computed step by step as
      the source does on a copy of the immediate. */
  method LoadValue(op: bv5, r: bv64, immediate: bv49) returns (imm: bv64)
    requires op <= 2
    ensures imm == Loaded(op, r, immediate)
  {
    imm := immediate as bv64;
    if op == 1 {
      imm := imm & 0xffff_ffff;
      imm := imm << 32;
      imm := imm | (r & 0xffff_ffff);
    } else if op == 2 {
      imm := imm & 0xffff_ffff;
      imm := imm | (r & 0xffff_ffff_0000_0000);
    }
  }
}

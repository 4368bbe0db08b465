/** A worked run of the emulator. */
module EmulatorExamples {
  import opened Isa
  import opened FlagsRegister
  import opened Semantics
  import opened Behaviour

  /** The program `jmp end; add rs0,rs0,rs0; end: hlt` as the assembler
      encodes it: the jump's operand is the immediate 2. */
  predicate JumpOverProgram(program: seq<bv64>) {
    program == [Pack(Unary(3, 3, 2)), Pack(ThreeAddress(0, 0, RS(0), RS(0), RS(0), 0, 0, 0, 0)), Pack(NoOperand(0, 0))]
  }

  /** Started at address 0, the program jumps over the `add`, halts after
      two steps with the instruction pointer at 3, and leaves `rs0` and the
      stack untouched. */
  lemma JumpOverAdd(program: seq<bv64>, m: Machine)
    requires JumpOverProgram(program)
    requires Valid(m) && Ip(m) == 0 && !Halted(m)
    ensures var n := Trace(program, m, 10);
            Halted(n) && Ip(n) == 3 && Reg(n, RS(0)) == Reg(m, RS(0)) && n.stack == m.stack
  {
    UnpackPack(Unary(3, 3, 2));
    UnpackPack(NoOperand(0, 0));
    assert Fetch(program, m) == Unary(3, 3, 2);
    var m1 := Step(program, m);
    assert m1 == Write(Advance(m), IP, 2);
    TraceUnfold(program, m, 10);
    assert Fetch(program, m1) == NoOperand(0, 0);
    var m2 := Step(program, m1);
    TraceUnfold(program, m1, 9);
    HaltHalts(Advance(m1), 0);
    StoppedStays(program, m2, 8);
  }
}

/**
 * Facts that tie the assembler, the binary codec and the emulator together:
 * they share the opcode numbering, and the loader's extra record is an
 * instruction the emulator understands.
 */
module Agreement {
  import opened Results
  import opened Isa
  import opened Tables
  import opened FlagsRegister
  import opened Codec
  import opened Semantics
  import opened Behaviour

  /** An opcode has a mnemonic in the assembler's table exactly when the
      emulator's `next` has a case for it. */
  lemma TableMatchesEmulator(c: Opcode)
    ensures MnemonicOf(c).Some? <==> DefinedOpcode(c.format, c.op)
  {
    if c.format == UNARY {
      assert MnemonicOf(c).Some? <==> c.op < 13;
    } else if c.format == THREE_ADDRESS {
      assert MnemonicOf(c).Some? <==> c.op < 9;
    }
  }

  /** Every instruction the assembler can emit is one the emulator
      executes. */
  lemma EveryMnemonicExecutes(name: string)
    requires name in INSTRUCTIONS
    ensures DefinedOpcode(INSTRUCTIONS[name].format, INSTRUCTIONS[name].op)
  {
    MnemonicsDistinct();
    TableMatchesEmulator(INSTRUCTIONS[name]);
  }

  /** Every operation the emulator executes has a mnemonic. */
  lemma EveryOperationNamed(format: bv3, op: bv5)
    requires DefinedOpcode(format, op)
    ensures exists name :: name in INSTRUCTIONS && INSTRUCTIONS[name] == Opcode(op, format)
  {
    TableMatchesEmulator(Opcode(op, format));
    var name := MnemonicOf(Opcode(op, format)).value;
    assert name in INSTRUCTIONS && INSTRUCTIONS[name] == Opcode(op, format);
  }

  /** A word of zero bits is `hlt`: executing it sets the halt flag. */
  lemma ZeroWordHalts(m: Machine)
    requires Valid(m)
    ensures !Faults(Unpack(0), m) && Halted(Exec(Unpack(0), m))
  {
    ZeroWordIsNoOperandZero();
    HaltHalts(m, 0);
  }

  /** A zero word at the instruction pointer halts the cpu. */
  lemma ZeroAtIpHalts(program: seq<bv64>, m: Machine)
    requires Valid(m) && HasNext(program, m) && !Halted(m) && program[Ip(m)] == 0
    ensures CanStep(program, m)
    ensures Halted(Step(program, m)) && Ip(Step(program, m)) == Successor(Ip(m))
  {
    ZeroWordIsNoOperandZero();
    assert Fetch(program, m) == NoOperand(0, 0);
    HaltHalts(Advance(m), 0);
  }

  /** A program read back from the file `save_binary` wrote is the saved
      words plus one zero record; a run that falls off the end of the saved
      words executes that record as `hlt` and halts, instead of stopping
      because `has_next` fails. */
  lemma LoadedProgramHalts(ws: seq<bv64>, m: Machine)
    requires Valid(m) && Ip(m) as int == |ws| && !Halted(m)
    ensures var program := LoadSpec(Encode(ws));
            && program[..|ws|] == ws
            && HasNext(program, m) && CanStep(program, m)
            && Halted(Step(program, m)) && Ip(Step(program, m)) == Successor(Ip(m))
  {
    var program := LoadSpec(Encode(ws));
    LoadSaved(ws);
    assert program[..|ws|] == ws;
    assert program[Ip(m)] == 0;
    ZeroAtIpHalts(program, m);
  }
}

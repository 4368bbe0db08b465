/**
 * The pseudo-instructions and label resolution of the assembler on concrete
 * lines. Example strings are parameters fixed by a precondition, so that the
 * proofs go through the general lemmas instead of unfolding every definition
 * on a literal.
 */
module AssemblerExamples {
  import opened Results
  import opened Isa
  import opened Text
  import opened Numbers
  import opened Tables
  import opened Assembler

  /** `r0` names register 0 and decodes to it. */
  lemma ZeroRegister(r: string)
    requires r == "r0"
    ensures DecodeOperand(r) == Success(Operand(R0, 0, 0))
  {
    assert RegisterName(R0) == Some(r);
    DecodeRegisterName(R0);
  }

  /** The operand list "r0,r0" is two `r0` operands. */
  lemma ZeroPair(p: string, r: string)
    requires p == "r0,r0" && r == "r0"
    ensures Split(p, ",") == [r, r]
  {
    assert p == r + [','] + r;
    SplitFirst(r, ',', r, ",");
    SplitWhole(r, ",");
  }

  /** A body without spaces is a single part. */
  lemma OnePart(body: string)
    requires Avoids(body, " ")
    ensures Split(body, " ") == [body]
  {
    SplitWhole(body, " ");
  }

  /** Two `r0` operands encode as a binomial instruction with zero fields. */
  lemma ZeroBinomial(op: bv5, r: string)
    requires r == "r0"
    ensures EncodeBinomial(op, [r, r]) == Success(Binomial(op, 0, R0, R0, 0, 0))
  {
    ZeroRegister(r);
  }

  /** A binomial mnemonic with the operand text "r0,r0". */
  lemma ZeroPairParts(lines: seq<string>, m: string, p: string)
    requires m in INSTRUCTIONS && INSTRUCTIONS[m].format == BINOMIAL && p == "r0,r0"
    ensures AssembleParts(lines, [m, p]) == Success(Binomial(INSTRUCTIONS[m].op, 0, R0, R0, 0, 0))
  {
    var code := INSTRUCTIONS[m];
    ZeroPair(p, "r0");
    PartsWithOperands(lines, m, p);
    assert EncodeOperands(lines, m, code, ["r0", "r0"]) == EncodeBinomial(code.op, ["r0", "r0"]);
    ZeroBinomial(code.op, "r0");
  }

  /** `nop` assembles as `xchg r0,r0`: a binomial instruction with operation 1
      and both operands register 0. */
  lemma NopIsXchg(lines: seq<string>, body: string)
    requires body == "nop"
    ensures AssembleBody(lines, body) == Success(Binomial(1, 0, R0, R0, 0, 0))
  {
    OnePart(body);
    var parts := ["xchg", "r0,r0"];
    assert [body][0] == body && [body][1..] == [];
    assert ["xchg"] + [body][1..] + ["r0,r0"] == parts;
    assert ExpandPseudo([body]) == Success(parts);
    assert INSTRUCTIONS["xchg"] == Opcode(1, BINOMIAL);
    ZeroPairParts(lines, "xchg", "r0,r0");
  }

  /** `raise` assembles as `cmp r0,r0`: operation 2 of the binomial format. */
  lemma RaiseIsCmp(lines: seq<string>, body: string)
    requires body == "raise"
    ensures AssembleBody(lines, body) == Success(Binomial(2, 0, R0, R0, 0, 0))
  {
    OnePart(body);
    var parts := ["cmp", "r0,r0"];
    assert [body][0] == body && [body][1..] == [];
    assert ["cmp"] + [body][1..] + ["r0,r0"] == parts;
    assert ExpandPseudo([body]) == Success(parts);
    assert INSTRUCTIONS["cmp"] == Opcode(2, BINOMIAL);
    ZeroPairParts(lines, "cmp", "r0,r0");
  }

  /** A mnemonic, a space and a text without spaces are two parts. */
  lemma TwoParts(m: string, rest: string)
    requires Avoids(m, " ") && Avoids(rest, " ")
    ensures Split(m + " " + rest, " ") == [m, rest]
  {
    SplitWhole(rest, " ");
    SplitFirst(m, ' ', rest, " ");
    assert m + " " + rest == m + [' '] + rest;
  }

  /** The rewriting of `mov a,b` is `add a,b,r0`. */
  lemma MovExpands(a: string, b: string)
    requires Avoids(a, ",") && Avoids(b, ",")
    ensures ExpandPseudo(["mov", a + "," + b]) == Success(["add", a + "," + b + ",r0"])
  {
    var operands := a + "," + b;
    SplitWhole(b, ",");
    SplitFirst(a, ',', b, ",");
    assert operands == a + [','] + b;
    assert ["mov", operands][2..] == [];
    assert ["add", a + "," + b + ",r0"] + ["mov", operands][2..] == ["add", a + "," + b + ",r0"];
  }

  /** `mov a,b` assembles exactly as `add a,b,r0`, whatever the operands. */
  lemma MovIsAdd(lines: seq<string>, a: string, b: string)
    requires Avoids(a, ", ") && Avoids(b, ", ")
    ensures AssembleBody(lines, "mov " + a + "," + b) == AssembleBody(lines, "add " + a + "," + b + ",r0")
  {
    var operands := a + "," + b;
    var added := a + "," + b + ",r0";
    assert Avoids(operands, " ") && Avoids(added, " ") && Avoids("mov", " ") && Avoids("add", " ");
    TwoParts("mov", operands);
    TwoParts("add", added);
    assert "mov " + a + "," + b == "mov" + " " + operands;
    assert "add " + a + "," + b + ",r0" == "add" + " " + added;
    assert Avoids(a, ",") && Avoids(b, ",");
    MovExpands(a, b);
  }

  /** `mov` with other than two operands is an operand-count error. */
  lemma MovNeedsTwo(lines: seq<string>, a: string)
    requires Avoids(a, ", ")
    ensures AssembleBody(lines, "mov " + a) == Failure(OperandCount(2, 1))
  {
    SplitWhole(a, " ");
    SplitFirst("mov", ' ', a, " ");
    assert "mov " + a == "mov" + [' '] + a;
    SplitWhole(a, ",");
  }

  /** A line without ':' and without whitespace at its ends is its own body. */
  lemma BodyNoColon(line: string)
    requires line != [] && ':' !in line && !IsSpace(line[0]) && !IsSpace(line[|line| - 1])
    ensures Body(line) == line
  {
    TrimNoop(line);
  }

  /** Only the pseudo-instructions are rewritten. */
  lemma OrdinaryUnchanged(parts: seq<string>)
    requires parts != [] && parts[0] != "nop" && parts[0] != "raise" && parts[0] != "mov"
    ensures ExpandPseudo(parts) == Success(parts)
  {
  }

  /** A mnemonic that is not a pseudo-instruction, a space and an operand
      text: the body is assembled from those two parts. */
  lemma OrdinaryBody(lines: seq<string>, m: string, operands: string)
    requires Avoids(m, " ") && Avoids(operands, " ")
    requires m != "nop" && m != "raise" && m != "mov"
    ensures AssembleBody(lines, m + " " + operands) == AssembleParts(lines, [m, operands])
  {
    TwoParts(m, operands);
    OrdinaryUnchanged([m, operands]);
  }

  /** A mnemonic with operands is encoded from its comma-separated operands. */
  lemma PartsWithOperands(lines: seq<string>, m: string, operands: string)
    requires m in INSTRUCTIONS && INSTRUCTIONS[m].format != NO_OPERAND
    ensures AssembleParts(lines, [m, operands]) == EncodeOperands(lines, m, INSTRUCTIONS[m], Split(operands, ","))
  {
  }

  /** The register-immediate mnemonics are not pseudo-instructions and
      contain no space. */
  lemma RegisterImmediateNames(m: string)
    requires m in INSTRUCTIONS && INSTRUCTIONS[m].format == REGISTER_IMMEDIATE
    ensures m == "asgn" || m == "asgnh" || m == "asgnl"
    ensures Avoids(m, " ")
  {
    assert m == "asgn" || m == "asgnh" || m == "asgnl";
    forall i | 0 <= i < |m| ensures m[i] !in " " {
      assert 'a' <= m[i] <= 'z';
    }
  }

  /** Joining two texts without spaces at a comma gives a text without spaces. */
  lemma CommaJoin(a: string, b: string)
    requires Avoids(a, ", ") && Avoids(b, ", ")
    ensures Avoids(a + "," + b, " ") && Avoids(a, ",") && Avoids(b, ",")
    ensures Split(a + "," + b, ",") == [a, b]
  {
    assert a + "," + b == a + [','] + b;
    SplitFirst(a, ',', b, ",");
    SplitWhole(b, ",");
  }

  /** A register-immediate instruction whose second operand is not a literal
      is refused once its register operand decodes. */
  lemma ImmediateRefused(lines: seq<string>, m: string, reg: string, imm: string)
    requires m in INSTRUCTIONS && INSTRUCTIONS[m].format == REGISTER_IMMEDIATE
    requires Avoids(reg, ", ") && Avoids(imm, ", ")
    requires DecodeOperand(reg).Success? && !IsLiteral(imm)
    ensures AssembleBody(lines, m + " " + reg + "," + imm) == Failure(NotImmediate)
  {
    var operands := reg + "," + imm;
    CommaJoin(reg, imm);
    Regroup(m, reg, imm);
    RegisterImmediateNames(m);
    OrdinaryBody(lines, m, operands);
    PartsWithOperands(lines, m, operands);
    RegisterImmediateOperands(lines, m, INSTRUCTIONS[m], [reg, imm]);
  }

  lemma Regroup(m: string, a: string, b: string)
    ensures m + " " + a + "," + b == m + " " + (a + "," + b)
  {
  }

  /** The register-immediate format encodes through its own encoder. */
  lemma RegisterImmediateOperands(lines: seq<string>, m: string, code: Opcode, operands: seq<string>)
    requires code.format == REGISTER_IMMEDIATE
    ensures EncodeOperands(lines, m, code, operands) == EncodeRegisterImmediate(code.op, operands)
  {
  }

  /** `asgn r0,10` (and the same with `asgnh` or `asgnl`) is refused: 10 does
      not match the literal pattern, whose decimal branch admits no 0 after
      the first digit. */
  lemma TenIsNotImmediate(lines: seq<string>, m: string, reg: string, imm: string)
    requires m in INSTRUCTIONS && INSTRUCTIONS[m].format == REGISTER_IMMEDIATE
    requires reg == "r0" && imm == "10"
    ensures AssembleBody(lines, m + " " + reg + "," + imm) == Failure(NotImmediate)
  {
    ZeroRegister(reg);
    TensAreNotLiterals();
    RegisterImmediateNames(m);
    ImmediateRefused(lines, m, reg, imm);
  }

  /** A jump to a label that is not a literal takes the index of the line
      that holds the label. */
  lemma JumpBody(lines: seq<string>, m: string, name: string)
    requires m in INSTRUCTIONS && m in JUMP_TYPE_OPERATORS
    requires Avoids(m, " ") && Avoids(name, ", ") && !IsLiteral(name)
    requires ResolveLabel(lines, name).Success?
    ensures AssembleBody(lines, m + " " + name) ==
              Success(Unary(INSTRUCTIONS[m].op, 3, Low54(AddressWord(ResolveLabel(lines, name).value))))
  {
    assert m != "nop" && m != "raise" && m != "mov";
    assert Avoids(name, " ") && Avoids(name, ",");
    OrdinaryBody(lines, m, name);
    JumpTypeUnary(m);
    var code := INSTRUCTIONS[m];
    PartsWithOperands(lines, m, name);
    SplitWhole(name, ",");
    assert EncodeOperands(lines, m, code, [name]) == EncodeUnary(lines, m, code.op, [name]);
  }

  /** The jump-type mnemonics are unary. */
  lemma JumpTypeUnary(m: string)
    requires m in INSTRUCTIONS && m in JUMP_TYPE_OPERATORS
    ensures INSTRUCTIONS[m].format == UNARY
  {
  }

  /** The label `end` is found on line 2 of the program. */
  lemma EndLabel(lines: seq<string>)
    requires lines == ["jmp end", "add rs0,rs0,rs0", "end:hlt"]
    ensures ResolveLabel(lines, "end") == Success(2)
  {
    assert !StartsWith(lines[0], "end:") by {
      assert lines[0][0] == 'j';
    }
    assert !StartsWith(lines[1], "end:") by {
      assert lines[1][0] == 'a';
    }
    assert lines[2][..4] == "end:";
  }

  /** `jmp end` takes the line index of the label as its immediate. */
  lemma JumpToEnd(lines: seq<string>, m: string, name: string)
    requires lines == ["jmp end", "add rs0,rs0,rs0", "end:hlt"] && m == "jmp" && name == "end"
    ensures AssembleBody(lines, m + " " + name) == Success(Unary(3, 3, 2))
  {
    assert !IsLiteral(name) by {
      assert name[0] == 'e';
    }
    EndLabel(lines);
    assert Low54(AddressWord(2)) == 2;
    assert INSTRUCTIONS[m].op == 3;
    JumpBody(lines, m, name);
  }

  /**
   * In the program `jmp end` / `add rs0,rs0,rs0` / `end:hlt`, the jump on
   * line 0 carries the immediate 2: the index of the line that holds the
   * label, among all reformatted lines.
   */
  lemma JumpLine(lines: seq<string>)
    requires lines == ["jmp end", "add rs0,rs0,rs0", "end:hlt"]
    ensures AssembleLine(lines, 0) == Success(Some(Unary(3, 3, 2)))
  {
    var line := lines[0];
    assert ':' !in line && !IsSpace(line[0]) && !IsSpace(line[|line| - 1]);
    BodyNoColon(line);
    assert line == "jmp" + " " + "end";
    JumpToEnd(lines, "jmp", "end");
    LineOfBody(lines, 0, Unary(3, 3, 2));
  }

  /** A line whose body assembles is that instruction. */
  lemma LineOfBody(lines: seq<string>, index: nat, ins: Instruction)
    requires index < |lines| && Body(lines[index]) != []
    requires AssembleBody(lines, Body(lines[index])) == Success(ins)
    ensures AssembleLine(lines, index) == Success(Some(ins))
  {
  }
}

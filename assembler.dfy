/**
 * The assembler proper: `decode_operand`, `assemble_line` with its helper
 * lambdas, and `assemble`. Every `exit(EXIT_FAILURE)` of the source, and every
 * exception or out-of-range access it leaves unguarded, is a `Failure`
 * carrying the index of the line being assembled.
 */
module Assembler {
  import opened Results
  import opened Isa
  import opened Text
  import opened Numbers
  import opened Tables
  import opened Reformat

  datatype ErrorKind =
    | OperandCount(expected: nat, passed: nat)  // operands count mismatch
    | UnknownInstruction
    | UnknownOperand                            // not a register name
    | UndefinedIdentifier                       // no line carries the label
    | NotImmediate                              // register-immediate without a literal
    | MissingOperand                            // `parts[1]` read past the end
    | BadNumber(cause: ConversionError)         // `stoull` threw

  datatype AsmError = AsmError(line: nat, kind: ErrorKind)

  /** `stoull`'s exceptions as assembly errors. */
  function Number(r: Result<bv64, ConversionError>): (n: Result<bv64, ErrorKind>)
    ensures n.Success? <==> r.Success?
    ensures n.Success? ==> n.value == r.value
    ensures n.Failure? ==> n.error == BadNumber(r.error)
  {
    match r
    case Success(v) => Success(v)
    case Failure(e) => Failure(BadNumber(e))
  }

  /** A register number, its option and its addressing mode (1 for a pointer). */
  datatype Operand = Operand(reg: bv7, option: bv64, mode: bv2)

  predicate IsPointer(operand: string) {
    |operand| > 0 && operand[0] == '['
  }

  function PointerParts(operand: string): (op: seq<string>)
    ensures |op| >= 1
  {
    TrimAll(Split(StripClose(StripOpen(operand)), "+"))
  }

  function RegisterParts(operand: string): (op: seq<string>)
    ensures |op| >= 1
  {
    TrimAll(Split(operand, " "))
  }

  function SizeOption(keyword: string): (option: bv64)
    ensures option <= 3
    ensures option == 1 <==> keyword == "byte"
    ensures option == 2 <==> keyword == "word"
    ensures option == 3 <==> keyword == "dword"
  {
    if keyword == "byte" then 1
    else if keyword == "word" then 2
    else if keyword == "dword" then 3
    else 0
  }

  function LookupRegister(name: string): (r: Result<bv7, ErrorKind>)
    ensures r.Success? <==> RegisterId(name).Some?
    ensures r.Success? ==> r.value == RegisterId(name).value && r.value <= BP
    ensures r.Failure? ==> r.error == UnknownOperand
  {
    if RegisterId(name).Some? then
      RegisterIdNamed(name);
      Success(RegisterId(name).value)
    else Failure(UnknownOperand)
  }

  /**
   * `decode_operand`. An operand starting with '[' is a pointer: the brackets
   * and the whitespace inside them go, the rest is split at '+', the first
   * piece must name a register and a second piece, if any, is converted by
   * `stoull`. Any other operand is split at ' '; with more than two pieces
   * the first may be a size keyword, and the last must name a register.
   */
  function DecodeOperand(operand: string): (r: Result<Operand, ErrorKind>)
    ensures r.Success? ==> r.value.mode == (if IsPointer(operand) then 1 else 0) && r.value.reg <= BP
    ensures r.Failure? ==> r.error == UnknownOperand || (IsPointer(operand) && r.error.BadNumber?)
    ensures !IsPointer(operand) ==>
              var op := RegisterParts(operand);
              (r.Success? <==> RegisterId(op[|op| - 1]).Some?) && (r.Success? ==> r.value.option <= 3)
    ensures IsPointer(operand) && RegisterId(PointerParts(operand)[0]).None? ==> r == Failure(UnknownOperand)
    ensures !IsPointer(operand) && r.Success? ==>
              var op := RegisterParts(operand);
              r.value.reg == RegisterId(op[|op| - 1]).value &&
              r.value.option == (if |op| > 2 then SizeOption(op[0]) else 0)
    ensures IsPointer(operand) && RegisterId(PointerParts(operand)[0]).Some? ==>
              var op := PointerParts(operand);
              (r.Success? <==> |op| == 1 || ParseULL(op[1], 10).Success?) &&
              (r.Success? ==> r.value.reg == RegisterId(op[0]).value &&
                              r.value.option == (if |op| > 1 then ParseULL(op[1], 10).value else 0))
  {
    if IsPointer(operand) then DecodePointer(PointerParts(operand))
    else DecodeRegister(RegisterParts(operand))
  }

  /** The pointer branch, on the trimmed `+`-separated parts. */
  function DecodePointer(op: seq<string>): (r: Result<Operand, ErrorKind>)
    requires |op| >= 1
    ensures r.Failure? ==> r.error == UnknownOperand || r.error.BadNumber?
    ensures RegisterId(op[0]).None? ==> r == Failure(UnknownOperand)
    ensures RegisterId(op[0]).Some? ==> (r.Success? <==> |op| == 1 || ParseULL(op[1], 10).Success?)
    ensures r.Success? ==>
              r.value.mode == 1 && r.value.reg == RegisterId(op[0]).value && r.value.reg <= BP &&
              r.value.option == (if |op| > 1 then ParseULL(op[1], 10).value else 0)
  {
    var reg :- LookupRegister(op[0]);
    var option :- if |op| > 1 then Number(ParseULL(op[1], 10)) else Success(0);
    Success(Operand(reg, option, 1))
  }

  /** The register branch, on the trimmed space-separated parts. */
  function DecodeRegister(op: seq<string>): (r: Result<Operand, ErrorKind>)
    requires |op| >= 1
    ensures r.Success? <==> RegisterId(op[|op| - 1]).Some?
    ensures r.Failure? ==> r.error == UnknownOperand
    ensures r.Success? ==>
              r.value.mode == 0 && r.value.reg == RegisterId(op[|op| - 1]).value && r.value.reg <= BP &&
              r.value.option == (if |op| > 2 then SizeOption(op[0]) else 0) && r.value.option <= 3
  {
    var option := if |op| > 2 then SizeOption(op[0]) else 0;
    var reg :- LookupRegister(op[|op| - 1]);
    Success(Operand(reg, option, 0))
  }

  /** A string that already has no whitespace at either end is its own trim. */
  lemma TrimNoop(s: string)
    requires s != [] && !IsSpace(s[0]) && !IsSpace(s[|s| - 1])
    ensures Trim(s) == s
  {
    assert LeadingSpaces(s) == 0;
    assert s[0..] == s;
    assert TrailingStart(s) == |s|;
  }

  /** Lower-case letters and digits only, as in every register name. */
  predicate IsWord(s: string) {
    forall i :: 0 <= i < |s| ==> 'a' <= s[i] <= 'z' || '0' <= s[i] <= '9'
  }

  /** Every register name is a run of lower-case letters and digits. */
  lemma RegisterNameShape(id: bv7)
    requires id <= BP
    ensures RegisterName(id).value != [] && IsWord(RegisterName(id).value)
  {
  }

  /** A word is split into itself alone, at ' ' or at '+'. */
  lemma WordParts(name: string)
    requires name != [] && IsWord(name)
    ensures RegisterParts(name) == [name]
    ensures Split(name, "+") == [name] && TrimAll([name]) == [name]
  {
    SplitWhole(name, " ");
    SplitWhole(name, "+");
    TrimNoop(name);
  }

  /** A bare register name decodes to its register, with option 0 and mode 0. */
  lemma DecodeRegisterName(id: bv7)
    requires id <= BP
    ensures DecodeOperand(RegisterName(id).value) == Success(Operand(id, 0, 0))
  {
    var name := RegisterName(id).value;
    RegisterNameShape(id);
    WordParts(name);
    RegisterNameFound(id);
  }

  /** Through `assemble_line` an operand never holds a ' ' (the line was split
      at ' ' first), so a register operand always gets option 0: the size
      keywords cannot take effect. */
  lemma RegisterOptionZero(operand: string)
    requires Avoids(operand, " ") && !IsPointer(operand)
    requires DecodeOperand(operand).Success?
    ensures DecodeOperand(operand).value.option == 0
  {
    SplitWhole(operand, " ");
  }

  /** `StripOpen` leaves a word followed by ']' alone. */
  lemma {:induction false} StripOpenWord(name: string)
    requires IsWord(name)
    ensures StripOpen(name + "]") == name + "]"
    decreases |name|
  {
    if name == [] {
      assert "]"[1..] == [];
    } else {
      var t := name + "]";
      assert t[0] == name[0] && t[1..] == name[1..] + "]";
      StripOpenWord(name[1..]);
      assert [name[0]] + (name[1..] + "]") == t;
    }
  }

  /** `StripClose` removes the ']' after a word and nothing else. */
  lemma {:induction false} StripCloseWord(name: string)
    requires IsWord(name)
    ensures StripClose(name + "]") == name
    decreases |name|
  {
    var t := name + "]";
    if name == [] {
      assert t[0] == ']' && !IsSpace(t[0]);
      assert t[1..] == [];
    } else {
      assert t[0] == name[0] && !IsSpace(t[0]) && t[0] != ']';
      assert t[1..] == name[1..] + "]";
      StripCloseWord(name[1..]);
      assert [name[0]] + name[1..] == name;
    }
  }

  /** A word in brackets loses its brackets and is the only pointer part. */
  lemma PointerPartsOfWord(name: string)
    requires name != [] && IsWord(name)
    ensures PointerParts("[" + name + "]") == [name]
  {
    var operand := "[" + name + "]";
    var t := operand[1..];
    assert t == name + "]";
    assert t[0] == name[0] && !IsSpace(t[0]);
    assert LeadingSpaces(t) == 0;
    assert t[0..] == t;
    StripOpenWord(name);
    StripCloseWord(name);
    WordParts(name);
  }

  /** A register name in brackets decodes to that register in mode 1. */
  lemma DecodePointerName(id: bv7)
    requires id <= BP
    ensures DecodeOperand("[" + RegisterName(id).value + "]") == Success(Operand(id, 0, 1))
  {
    var name := RegisterName(id).value;
    RegisterNameShape(id);
    PointerPartsOfWord(name);
    RegisterNameFound(id);
  }

  /** The index of the first `c` in `s`, or |s| (`std::string::npos`). */
  function IndexOf(s: string, c: char): (k: nat)
    ensures k <= |s| && c !in s[..k]
    ensures k < |s| ==> s[k] == c
  {
    if s == [] then 0
    else if s[0] == c then 0
    else
      var k := IndexOf(s[1..], c);
      assert s[..k + 1] == [s[0]] + s[1..][..k];
      k + 1
  }

  /** The text of a line after its first ':', trimmed. */
  function Body(line: string): (body: string)
    ensures body != [] ==> !IsSpace(body[0]) && !IsSpace(body[|body| - 1])
  {
    var colon := IndexOf(line, ':');
    Trim(if colon < |line| then line[colon + 1..] else line)
  }

  predicate StartsWith(line: string, prefix: string) {
    |prefix| <= |line| && line[..|prefix|] == prefix
  }

  /** The `find_if` of `get_absolute_label_address`, from index `from` on. */
  function FindLabel(lines: seq<string>, target: string, from: nat): (r: Option<nat>)
    requires from <= |lines|
    ensures r.Some? ==> from <= r.value < |lines| && StartsWith(lines[r.value], target)
    ensures r.Some? ==> forall j :: from <= j < r.value ==> !StartsWith(lines[j], target)
    ensures r.None? ==> forall j :: from <= j < |lines| ==> !StartsWith(lines[j], target)
    decreases |lines| - from
  {
    if from == |lines| then None
    else if StartsWith(lines[from], target) then Some(from)
    else FindLabel(lines, target, from + 1)
  }

  /**
   * `get_absolute_label_address`: the index of the first line, among all the
   * reformatted lines, that begins with the label and a ':'. The index counts
   * lines, not emitted words.
   */
  function ResolveLabel(lines: seq<string>, name: string): (r: Result<nat, ErrorKind>)
    ensures r.Success? ==> r.value < |lines| && StartsWith(lines[r.value], name + ":")
    ensures r.Success? ==> forall j :: 0 <= j < r.value ==> !StartsWith(lines[j], name + ":")
    ensures r.Failure? <==> forall j :: 0 <= j < |lines| ==> !StartsWith(lines[j], name + ":")
    ensures r.Failure? ==> r.error == UndefinedIdentifier
  {
    match FindLabel(lines, name + ":", 0)
    case Some(k) => Success(k)
    case None => Failure(UndefinedIdentifier)
  }

  /** The line index as the `uint64_t` the source casts it to. */
  function AddressWord(index: nat): bv64 {
    (index % ULL_LIMIT) as bv64
  }

  /** The mnemonic a pseudo-instruction is rewritten to. */
  function Target(mnemonic: string): string {
    if mnemonic == "nop" then "xchg"
    else if mnemonic == "raise" then "cmp"
    else if mnemonic == "mov" then "add"
    else mnemonic
  }

  /**
   * The rewriting of pseudo-instructions: `nop` becomes `xchg` and `raise`
   * becomes `cmp`, each with an extra last part "r0,r0"; `mov a,b` becomes
   * `add a,b,r0` and needs exactly two operands.
   */
  function ExpandPseudo(parts: seq<string>): (r: Result<seq<string>, ErrorKind>)
    requires parts != []
    ensures r.Success? ==> |r.value| >= 1 && r.value[0] == Target(parts[0])
    ensures r.Success? && parts[0] != "mov" ==> |r.value| >= |parts|
    ensures r.Success? && parts[0] != "mov" ==> r.value[1..|parts|] == parts[1..]
    ensures r.Failure? ==> parts[0] == "mov"
    ensures parts[0] == "mov" && |parts| >= 2 ==>
              (r.Success? <==> |Split(parts[1], ",")| == 2) &&
              (r.Failure? ==> r.error == OperandCount(2, |Split(parts[1], ",")|))
    ensures parts[0] == "mov" && |parts| < 2 ==> r == Failure(MissingOperand)
    ensures parts[0] == "nop" || parts[0] == "raise" ==>
              r.Success? && |r.value| == |parts| + 1 && r.value[|parts|] == "r0,r0"
    ensures parts[0] == "mov" && r.Success? ==>
              |parts| >= 2 && |r.value| == |parts| && r.value[2..] == parts[2..] &&
              var operand := Split(parts[1], ",");
              |operand| == 2 && r.value[1] == operand[0] + "," + operand[1] + ",r0"
  {
    if parts[0] == "nop" then Success(["xchg"] + parts[1..] + ["r0,r0"])
    else if parts[0] == "raise" then Success(["cmp"] + parts[1..] + ["r0,r0"])
    else if parts[0] == "mov" then
      if |parts| < 2 then Failure(MissingOperand)
      else
        var operand := Split(parts[1], ",");
        if |operand| != 2 then Failure(OperandCount(2, |operand|))
        else Success(["add", operand[0] + "," + operand[1] + ",r0"] + parts[2..])
    else Success(parts)
  }

  /** Whether bit `k` of an addressing-mode field is set. */
  predicate ModeBit(modes: bv3, k: nat)
    requires k < 3
  {
    (modes >> k) & 1 == 1
  }

  function EncodeThreeAddress(op: bv5, operands: seq<string>): (r: Result<Instruction, ErrorKind>)
    ensures |operands| != 3 ==> r == Failure(OperandCount(3, |operands|))
    ensures r.Success? ==> |operands| == 3 && r.value.ThreeAddress? && r.value.op == op && r.value.spare == 0
    ensures r.Success? ==> (ModeBit(r.value.modes, 2) <==> IsPointer(operands[0]))
    ensures r.Success? ==> (ModeBit(r.value.modes, 1) <==> IsPointer(operands[1]))
    ensures r.Success? ==> (ModeBit(r.value.modes, 0) <==> IsPointer(operands[2]))
    ensures |operands| == 3 ==>
              (r.Success? <==> DecodeOperand(operands[0]).Success? && DecodeOperand(operands[1]).Success? &&
                               DecodeOperand(operands[2]).Success?)
    ensures r.Success? ==>
              var d := DecodeOperand(operands[0]).value;
              r.value.destination == d.reg && r.value.destinationOption == Low10(d.option)
    ensures r.Success? ==>
              var s1 := DecodeOperand(operands[1]).value;
              r.value.source1 == s1.reg && r.value.source1Option == Low10(s1.option)
    ensures r.Success? ==>
              var s2 := DecodeOperand(operands[2]).value;
              r.value.source2 == s2.reg && r.value.source2Option == Low10(s2.option)
  {
    if |operands| != 3 then Failure(OperandCount(3, |operands|))
    else
      var d :- DecodeOperand(operands[0]);
      var s1 :- DecodeOperand(operands[1]);
      var s2 :- DecodeOperand(operands[2]);
      Success(PackThreeAddress(op, d, s1, s2))
  }

  /** The three-address word for three decoded operands: one mode bit each, destination highest. */
  function PackThreeAddress(op: bv5, d: Operand, s1: Operand, s2: Operand): (i: Instruction)
    requires d.mode <= 1 && s1.mode <= 1 && s2.mode <= 1
    ensures i.ThreeAddress? && i.op == op && i.spare == 0
    ensures ModeBit(i.modes, 2) <==> d.mode == 1
    ensures ModeBit(i.modes, 1) <==> s1.mode == 1
    ensures ModeBit(i.modes, 0) <==> s2.mode == 1
  {
    var modes := ((d.mode as bv3) << 2) | ((s1.mode as bv3) << 1) | (s2.mode as bv3);
    ThreeAddress(op, modes, d.reg, s1.reg, s2.reg,
                 Low10(d.option), Low10(s1.option), Low10(s2.option), 0)
  }

  function EncodeBinomial(op: bv5, operands: seq<string>): (r: Result<Instruction, ErrorKind>)
    ensures |operands| != 2 ==> r == Failure(OperandCount(2, |operands|))
    ensures r.Success? ==> |operands| == 2 && r.value.Binomial? && r.value.op == op
    ensures r.Success? ==> (r.value.flags & 2 == 2 <==> IsPointer(operands[0]))
    ensures r.Success? ==> (r.value.flags & 1 == 1 <==> IsPointer(operands[1]))
    ensures |operands| == 2 ==>
              (r.Success? <==> DecodeOperand(operands[0]).Success? && DecodeOperand(operands[1]).Success?)
    ensures r.Success? ==>
              var o1 := DecodeOperand(operands[0]).value;
              r.value.operand1 == o1.reg && r.value.operand1Option == Low20(o1.option)
    ensures r.Success? ==>
              var o2 := DecodeOperand(operands[1]).value;
              r.value.operand2 == o2.reg && r.value.operand2Option == Low20(o2.option)
  {
    if |operands| != 2 then Failure(OperandCount(2, |operands|))
    else
      var o1 :- DecodeOperand(operands[0]);
      var o2 :- DecodeOperand(operands[1]);
      Success(PackBinomial(op, o1, o2))
  }

  /** The binomial word for two decoded operands: one flag bit each, the first operand higher. */
  function PackBinomial(op: bv5, o1: Operand, o2: Operand): (i: Instruction)
    requires o1.mode <= 1 && o2.mode <= 1
    ensures i.Binomial? && i.op == op
    ensures i.flags & 2 == 2 <==> o1.mode == 1
    ensures i.flags & 1 == 1 <==> o2.mode == 1
  {
    var flags := ((o1.mode as bv2) << 1) | o2.mode;
    Binomial(op, flags, o1.reg, o2.reg, Low20(o1.option), Low20(o2.option))
  }

  function EncodeUnary(lines: seq<string>, mnemonic: string, op: bv5, operands: seq<string>): (r: Result<Instruction, ErrorKind>)
    ensures |operands| != 1 ==> r == Failure(OperandCount(1, |operands|))
    ensures r.Success? ==> |operands| == 1 && r.value.Unary? && r.value.op == op
    ensures r.Success? && IsLiteral(operands[0]) ==>
              DecodeImmediate(operands[0]).Success? && r.value.mode == 3 && r.value.payload == Low54(DecodeImmediate(operands[0]).value)
    ensures |operands| == 1 && !IsLiteral(operands[0]) && mnemonic in JUMP_TYPE_OPERATORS ==>
              var address := ResolveLabel(lines, operands[0]);
              (r.Success? <==> address.Success?) &&
              (r.Success? ==> r.value.mode == 3 && r.value.payload == Low54(AddressWord(address.value)))
    ensures r.Success? && !IsLiteral(operands[0]) && mnemonic !in JUMP_TYPE_OPERATORS ==>
              DecodeOperand(operands[0]).Success? &&
              var o := DecodeOperand(operands[0]).value;
              r.value.mode == o.mode && PayloadOperand(r.value.payload) == o.reg &&
              PayloadOption(r.value.payload) == Low47(o.option)
  {
    if |operands| != 1 then Failure(OperandCount(1, |operands|))
    else if IsLiteral(operands[0]) then
      var imm :- Number(DecodeImmediate(operands[0]));
      Success(Unary(op, 3, Low54(imm)))
    else if mnemonic in JUMP_TYPE_OPERATORS then
      var address :- ResolveLabel(lines, operands[0]);
      Success(Unary(op, 3, Low54(AddressWord(address))))
    else
      var o :- DecodeOperand(operands[0]);
      Success(Unary(op, o.mode, RegisterPayload(o.reg, Low47(o.option))))
  }

  function EncodeRegisterImmediate(op: bv5, operands: seq<string>): (r: Result<Instruction, ErrorKind>)
    ensures |operands| != 2 ==> r == Failure(OperandCount(2, |operands|))
    ensures |operands| == 2 && DecodeOperand(operands[0]).Success? && !IsLiteral(operands[1]) ==>
              r == Failure(NotImmediate)
    ensures r.Success? ==> |operands| == 2 && IsLiteral(operands[1]) && r.value.RegisterImmediate? && r.value.op == op
    ensures r.Success? ==> DecodeOperand(operands[0]).Success? && r.value.reg == DecodeOperand(operands[0]).value.reg
    ensures r.Success? ==> DecodeImmediate(operands[1]).Success? && r.value.immediate == Low49(DecodeImmediate(operands[1]).value)
  {
    if |operands| != 2 then Failure(OperandCount(2, |operands|))
    else
      var o :- DecodeOperand(operands[0]);
      if !IsLiteral(operands[1]) then Failure(NotImmediate)
      else
        var imm :- Number(DecodeImmediate(operands[1]));
        Success(RegisterImmediate(op, o.reg, Low49(imm)))
  }

  /** How many comma-separated operands a format takes. */
  function Arity(format: bv3): nat {
    if format == THREE_ADDRESS then 3
    else if format == BINOMIAL || format == REGISTER_IMMEDIATE then 2
    else if format == UNARY then 1
    else 0
  }

  /** The instruction for the operands of a mnemonic that takes some. */
  function EncodeOperands(lines: seq<string>, mnemonic: string, code: Opcode, operands: seq<string>): (r: Result<Instruction, ErrorKind>)
    requires code.format != NO_OPERAND
    ensures r.Success? ==> Format(r.value) == code.format && r.value.op == code.op && WellFormed(r.value)
    ensures r.Success? ==> |operands| == Arity(code.format) && !r.value.Unassigned?
  {
    if code.format == THREE_ADDRESS then EncodeThreeAddress(code.op, operands)
    else if code.format == BINOMIAL then EncodeBinomial(code.op, operands)
    else if code.format == UNARY then EncodeUnary(lines, mnemonic, code.op, operands)
    else if code.format == REGISTER_IMMEDIATE then EncodeRegisterImmediate(code.op, operands)
    else Failure(UnknownInstruction)
  }

  /** The instruction for already expanded parts. */
  function AssembleParts(lines: seq<string>, parts: seq<string>): (r: Result<Instruction, ErrorKind>)
    requires parts != []
    ensures parts[0] !in INSTRUCTIONS ==> r == Failure(UnknownInstruction)
    ensures r.Success? ==>
              parts[0] in INSTRUCTIONS && Format(r.value) == INSTRUCTIONS[parts[0]].format &&
              r.value.op == INSTRUCTIONS[parts[0]].op && WellFormed(r.value) && !r.value.Unassigned?
  {
    var mnemonic := parts[0];
    if mnemonic !in INSTRUCTIONS then Failure(UnknownInstruction)
    else
      var code := INSTRUCTIONS[mnemonic];
      if code.format == NO_OPERAND then Success(NoOperand(code.op, 0))
      else if |parts| < 2 then Failure(MissingOperand)
      else EncodeOperands(lines, mnemonic, code, Split(parts[1], ","))
  }

  /** The instruction for the non-empty body of a line. */
  function AssembleBody(lines: seq<string>, body: string): (r: Result<Instruction, ErrorKind>)
    ensures r.Success? ==>
              var m := Target(Split(body, " ")[0]);
              m in INSTRUCTIONS && Format(r.value) == INSTRUCTIONS[m].format && r.value.op == INSTRUCTIONS[m].op
    ensures r.Success? ==> WellFormed(r.value) && !r.value.Unassigned?
    ensures var w := Split(body, " ")[0];
            w !in INSTRUCTIONS && w != "nop" && w != "raise" && w != "mov" ==> r == Failure(UnknownInstruction)
  {
    var parts :- ExpandPseudo(Split(body, " "));
    AssembleParts(lines, parts)
  }

  /**
   * `assemble_line`: `None` for a line whose body is empty (a label alone),
   * otherwise the instruction, or the error and the line it was found on.
   */
  function AssembleLine(lines: seq<string>, index: nat): (r: Result<Option<Instruction>, AsmError>)
    requires index < |lines|
    ensures (r.Success? && r.value.None?) <==> Body(lines[index]) == []
    ensures r.Failure? ==> r.error.line == index
    ensures r.Success? && r.value.Some? ==> WellFormed(r.value.value) && !r.value.value.Unassigned?
  {
    var body := Body(lines[index]);
    if body == [] then Success(None)
    else
      match AssembleBody(lines, body)
      case Success(ins) => Success(Some(ins))
      case Failure(kind) => Failure(AsmError(index, kind))
  }

  /** Every line assembled on its own. */
  function LineResults(lines: seq<string>): (rs: seq<Result<Option<Instruction>, AsmError>>)
    ensures |rs| == |lines|
  {
    seq(|lines|, j requires 0 <= j < |lines| => AssembleLine(lines, j))
  }

  /** The loop of `assemble` over the results of the lines: the words so far,
      or the first error. */
  function Collect(rs: seq<Result<Option<Instruction>, AsmError>>): Result<seq<bv64>, AsmError>
    decreases |rs|
  {
    if rs == [] then Success([])
    else
      var words :- Collect(rs[..|rs| - 1]);
      var line :- rs[|rs| - 1];
      Success(if line.Some? then words + [Pack(line.value)] else words)
  }

  /** The instructions of the lines that have one, in line order. */
  function Emitted(rs: seq<Result<Option<Instruction>, AsmError>>): seq<Instruction>
    decreases |rs|
  {
    if rs == [] then []
    else
      var last := rs[|rs| - 1];
      Emitted(rs[..|rs| - 1]) + (if last.Success? && last.value.Some? then [last.value.value] else [])
  }

  function PackAll(ins: seq<Instruction>): (ws: seq<bv64>)
    ensures |ws| == |ins|
  {
    seq(|ins|, k requires 0 <= k < |ins| => Pack(ins[k]))
  }

  /** The words `assemble` produces for the reformatted lines. */
  function Assembled(lines: seq<string>): Result<seq<bv64>, AsmError> {
    Collect(LineResults(lines))
  }

  lemma CollectStep(rs: seq<Result<Option<Instruction>, AsmError>>, i: nat)
    requires i < |rs|
    ensures Collect(rs[..i + 1]) ==
              match Collect(rs[..i])
              case Failure(e) => Failure(e)
              case Success(words) =>
                match rs[i]
                case Failure(e) => Failure(e)
                case Success(line) => Success(if line.Some? then words + [Pack(line.value)] else words)
  {
    assert rs[..i + 1][..i] == rs[..i];
  }

  /** Once a line fails, the whole assembly fails with that line's error. */
  lemma {:induction false} FailureStays(rs: seq<Result<Option<Instruction>, AsmError>>, k: nat)
    requires k <= |rs| && Collect(rs[..k]).Failure?
    ensures Collect(rs) == Collect(rs[..k])
    decreases |rs| - k
  {
    if k < |rs| {
      CollectStep(rs, k);
      FailureStays(rs, k + 1);
    } else {
      assert rs[..k] == rs;
    }
  }

  /** Assembly succeeds exactly when every line assembles, and then its words
      are the packed instructions of the lines that have one, in line order. */
  lemma {:induction false} CollectSucceeds(rs: seq<Result<Option<Instruction>, AsmError>>)
    ensures Collect(rs).Success? <==> forall j :: 0 <= j < |rs| ==> rs[j].Success?
    ensures Collect(rs).Success? ==> Collect(rs).value == PackAll(Emitted(rs))
    decreases |rs|
  {
    if rs != [] {
      var init := rs[..|rs| - 1];
      CollectSucceeds(init);
      assert forall j :: 0 <= j < |init| ==> init[j] == rs[j];
      if Collect(rs).Success? {
        var last := rs[|rs| - 1].value;
        if last.Some? {
          assert PackAll(Emitted(rs)) == PackAll(Emitted(init)) + [Pack(last.value)];
        } else {
          assert Emitted(rs) == Emitted(init);
        }
      }
    }
  }

  /** A failed assembly reports the first line that fails. */
  lemma {:induction false} CollectFailsAtFirst(rs: seq<Result<Option<Instruction>, AsmError>>)
    requires Collect(rs).Failure?
    ensures exists i :: 0 <= i < |rs| && rs[i] == Failure(Collect(rs).error) &&
                        forall j :: 0 <= j < i ==> rs[j].Success?
    decreases |rs|
  {
    var init := rs[..|rs| - 1];
    assert forall j :: 0 <= j < |init| ==> init[j] == rs[j];
    if Collect(init).Failure? {
      CollectFailsAtFirst(init);
    } else {
      CollectSucceeds(init);
      assert rs[|rs| - 1] == Failure(Collect(rs).error);
    }
  }

  /** The number of lines with a non-empty body. */
  function CountBodies(lines: seq<string>): nat
    decreases |lines|
  {
    if lines == [] then 0
    else CountBodies(lines[..|lines| - 1]) + (if Body(lines[|lines| - 1]) == [] then 0 else 1)
  }

  /** Only well-formed instructions are emitted when every line yields one. */
  lemma {:induction false} EmittedWellFormed(rs: seq<Result<Option<Instruction>, AsmError>>)
    requires forall j :: 0 <= j < |rs| && rs[j].Success? && rs[j].value.Some? ==> WellFormed(rs[j].value.value)
    ensures forall k :: 0 <= k < |Emitted(rs)| ==> WellFormed(Emitted(rs)[k])
    decreases |rs|
  {
    if rs != [] {
      var init := rs[..|rs| - 1];
      assert forall j :: 0 <= j < |init| ==> init[j] == rs[j];
      EmittedWellFormed(init);
    }
  }

  /** One instruction per line whose body is not empty. */
  lemma {:induction false} EmittedCount(rs: seq<Result<Option<Instruction>, AsmError>>, ls: seq<string>)
    requires |rs| == |ls|
    requires forall j :: 0 <= j < |rs| ==> rs[j].Success? && (rs[j].value.None? <==> Body(ls[j]) == [])
    ensures |Emitted(rs)| == CountBodies(ls)
    decreases |rs|
  {
    if rs != [] {
      var init := rs[..|rs| - 1];
      assert forall j :: 0 <= j < |init| ==> init[j] == rs[j];
      var linit := ls[..|ls| - 1];
      assert forall j :: 0 <= j < |linit| ==> linit[j] == ls[j];
      EmittedCount(init, linit);
    }
  }

  /** Assembly succeeds exactly when every line assembles, and a failure
      names the first failing line. */
  lemma AssembledOutcome(lines: seq<string>)
    ensures Assembled(lines).Success? <==> forall j :: 0 <= j < |lines| ==> AssembleLine(lines, j).Success?
    ensures Assembled(lines).Failure? ==>
              var e := Assembled(lines).error;
              e.line < |lines| && AssembleLine(lines, e.line) == Failure(e) &&
              forall j :: 0 <= j < e.line ==> AssembleLine(lines, j).Success?
  {
    var rs := LineResults(lines);
    assert forall j :: 0 <= j < |lines| ==> rs[j] == AssembleLine(lines, j);
    CollectSucceeds(rs);
    if Collect(rs).Failure? {
      CollectFailsAtFirst(rs);
    }
  }

  /** A successful assembly emits one word per line with a body, and each
      word unpacks to that line's instruction. */
  lemma AssembledWords(lines: seq<string>)
    requires Assembled(lines).Success?
    ensures var words := Assembled(lines).value;
            var ins := Emitted(LineResults(lines));
            |words| == |ins| == CountBodies(lines) && forall k :: 0 <= k < |words| ==> Unpack(words[k]) == ins[k]
  {
    var rs := LineResults(lines);
    CollectSucceeds(rs);
    EmittedWellFormed(rs);
    EmittedCount(rs, lines);
    forall k | 0 <= k < |Emitted(rs)| ensures Unpack(PackAll(Emitted(rs))[k]) == Emitted(rs)[k] {
      UnpackPack(Emitted(rs)[k]);
    }
  }

  /** The loop of `assemble`: each line in turn, appending the words. */
  method AssembleLines(lines: seq<string>) returns (r: Result<seq<bv64>, AsmError>)
    ensures r == Assembled(lines)
  {
    ghost var rs := LineResults(lines);
    var words := [];
    for i := 0 to |lines|
      invariant Collect(rs[..i]) == Success(words)
    {
      var line := AssembleLine(lines, i);
      assert rs[i] == line;
      CollectStep(rs, i);
      if line.Failure? {
        FailureStays(rs, i + 1);
        return Failure(line.error);
      }
      if line.value.Some? {
        words := words + [Pack(line.value.value)];
      }
    }
    assert rs[..|lines|] == rs;
    return Success(words);
  }

  /** `assemble`: reformat the source text, then assemble its lines. */
  method Assemble(content: string) returns (r: Result<seq<bv64>, AsmError>)
    ensures r == Assembled(Lines(content))
  {
    var lines := ReformatData(content);
    r := AssembleLines(lines);
  }
}

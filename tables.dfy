/**
 * The two tables the assembler's `main` builds: mnemonic -> (operation,
 * format) and register name -> register id.
 */
module Tables {
  import opened Results
  import opened Isa

  /** An operation number and the format it belongs to. */
  datatype Opcode = Opcode(op: bv5, format: bv3)

  /** The instruction map, pseudo-instructions excluded. */
  const INSTRUCTIONS: map<string, Opcode> := map[
    "add" := Opcode(0, THREE_ADDRESS),
    "sub" := Opcode(1, THREE_ADDRESS),
    "mul" := Opcode(2, THREE_ADDRESS),
    "div" := Opcode(3, THREE_ADDRESS),
    "shr" := Opcode(4, THREE_ADDRESS),
    "shl" := Opcode(5, THREE_ADDRESS),
    "inc" := Opcode(0, UNARY),
    "dec" := Opcode(1, UNARY),
    "not" := Opcode(0, BINOMIAL),
    "and" := Opcode(6, THREE_ADDRESS),
    "or" := Opcode(7, THREE_ADDRESS),
    "xor" := Opcode(8, THREE_ADDRESS),
    "call" := Opcode(2, UNARY),
    "jmp" := Opcode(3, UNARY),
    "jr" := Opcode(4, UNARY),
    "je" := Opcode(5, UNARY),
    "jne" := Opcode(6, UNARY),
    "ja" := Opcode(7, UNARY),
    "jae" := Opcode(8, UNARY),
    "jb" := Opcode(9, UNARY),
    "jbe" := Opcode(10, UNARY),
    "push" := Opcode(11, UNARY),
    "pop" := Opcode(12, UNARY),
    "hlt" := Opcode(0, NO_OPERAND),
    "xchg" := Opcode(1, BINOMIAL),
    "ret" := Opcode(1, NO_OPERAND),
    "cmp" := Opcode(2, BINOMIAL),
    "asgn" := Opcode(0, REGISTER_IMMEDIATE),
    "asgnh" := Opcode(1, REGISTER_IMMEDIATE),
    "asgnl" := Opcode(2, REGISTER_IMMEDIATE)
  ]

  /** The mnemonics whose operand is a label when it is not a literal. */
  const JUMP_TYPE_OPERATORS: seq<string> := ["call", "jmp", "jr", "je", "jne", "ja", "jae", "jb", "jbe"]

  /** The reverse reading of the instruction map. */
  function MnemonicOf(c: Opcode): (name: Option<string>)
    ensures name.Some? ==> name.value in INSTRUCTIONS && INSTRUCTIONS[name.value] == c
  {
    if c.format == NO_OPERAND then NoOperandMnemonic(c.op)
    else if c.format == UNARY then UnaryMnemonic(c.op)
    else if c.format == BINOMIAL then BinomialMnemonic(c.op)
    else if c.format == THREE_ADDRESS then ThreeAddressMnemonic(c.op)
    else if c.format == REGISTER_IMMEDIATE then RegisterImmediateMnemonic(c.op)
    else None
  }

  function NoOperandMnemonic(op: bv5): (name: Option<string>)
    ensures name.Some? <==> op < 2
    ensures name.Some? ==> name.value in INSTRUCTIONS && INSTRUCTIONS[name.value] == Opcode(op, NO_OPERAND)
  {
    if op == 0 then Some("hlt")
    else if op == 1 then Some("ret")
    else None
  }

  function UnaryMnemonic(op: bv5): (name: Option<string>)
    ensures name.Some? <==> op < 13
    ensures name.Some? ==> name.value in INSTRUCTIONS && INSTRUCTIONS[name.value] == Opcode(op, UNARY)
  {
    if op == 0 then Some("inc")
    else if op == 1 then Some("dec")
    else if op == 2 then Some("call")
    else if op == 3 then Some("jmp")
    else if op == 4 then Some("jr")
    else if op == 5 then Some("je")
    else if op == 6 then Some("jne")
    else if op == 7 then Some("ja")
    else if op == 8 then Some("jae")
    else if op == 9 then Some("jb")
    else if op == 10 then Some("jbe")
    else if op == 11 then Some("push")
    else if op == 12 then Some("pop")
    else None
  }

  function BinomialMnemonic(op: bv5): (name: Option<string>)
    ensures name.Some? <==> op < 3
    ensures name.Some? ==> name.value in INSTRUCTIONS && INSTRUCTIONS[name.value] == Opcode(op, BINOMIAL)
  {
    if op == 0 then Some("not")
    else if op == 1 then Some("xchg")
    else if op == 2 then Some("cmp")
    else None
  }

  function ThreeAddressMnemonic(op: bv5): (name: Option<string>)
    ensures name.Some? <==> op < 9
    ensures name.Some? ==> name.value in INSTRUCTIONS && INSTRUCTIONS[name.value] == Opcode(op, THREE_ADDRESS)
  {
    if op == 0 then Some("add")
    else if op == 1 then Some("sub")
    else if op == 2 then Some("mul")
    else if op == 3 then Some("div")
    else if op == 4 then Some("shr")
    else if op == 5 then Some("shl")
    else if op == 6 then Some("and")
    else if op == 7 then Some("or")
    else if op == 8 then Some("xor")
    else None
  }

  function RegisterImmediateMnemonic(op: bv5): (name: Option<string>)
    ensures name.Some? <==> op < 3
    ensures name.Some? ==> name.value in INSTRUCTIONS && INSTRUCTIONS[name.value] == Opcode(op, REGISTER_IMMEDIATE)
  {
    if op == 0 then Some("asgn")
    else if op == 1 then Some("asgnh")
    else if op == 2 then Some("asgnl")
    else None
  }

  /** No two mnemonics share an opcode: the map read backwards gives the
      mnemonic back, so the opcode byte identifies the mnemonic. */
  lemma MnemonicsDistinct()
    ensures forall name :: name in INSTRUCTIONS ==> MnemonicOf(INSTRUCTIONS[name]) == Some(name)
    ensures forall a, b :: a in INSTRUCTIONS && b in INSTRUCTIONS && a != b ==>
              OpcodeByte(INSTRUCTIONS[a].format, INSTRUCTIONS[a].op) != OpcodeByte(INSTRUCTIONS[b].format, INSTRUCTIONS[b].op)
  {
    forall name | name in INSTRUCTIONS ensures MnemonicOf(INSTRUCTIONS[name]) == Some(name) {
    }
    forall a, b | a in INSTRUCTIONS && b in INSTRUCTIONS && a != b
      ensures OpcodeByte(INSTRUCTIONS[a].format, INSTRUCTIONS[a].op) != OpcodeByte(INSTRUCTIONS[b].format, INSTRUCTIONS[b].op)
    {
      var x := OpcodeByte(INSTRUCTIONS[a].format, INSTRUCTIONS[a].op);
      var y := OpcodeByte(INSTRUCTIONS[b].format, INSTRUCTIONS[b].op);
      if x == y {
        assert false;
      }
    }
  }

  /** The digit character for 0..9. */
  function DigitChar(d: nat): char
    requires d < 10
  {
    ('0' as int + d) as char
  }

  /** `n` written in decimal, as the preprocessor writes 0..31. */
  function Numeral(n: nat): (s: string)
    requires n < 100
    ensures 1 <= |s| <= 2
  {
    if n < 10 then [DigitChar(n)] else [DigitChar(n / 10), DigitChar(n % 10)]
  }

  function DigitOf(c: char): Option<nat> {
    if '0' <= c <= '9' then Some(c as int - '0' as int) else None
  }

  /** The reading of a one- or two-digit decimal numeral without a leading
      zero. */
  function SmallNumeral(s: string): (r: Option<nat>)
    ensures r.Some? ==> r.value < 100 && Numeral(r.value) == s
  {
    if |s| == 1 && DigitOf(s[0]).Some? then Some(DigitOf(s[0]).value)
    else if |s| == 2 && DigitOf(s[0]).Some? && DigitOf(s[1]).Some? && s[0] != '0' then
      var v := DigitOf(s[0]).value * 10 + DigitOf(s[1]).value;
      assert v / 10 == DigitOf(s[0]).value && v % 10 == DigitOf(s[1]).value;
      Some(v)
    else None
  }

  lemma NumeralRead(n: nat)
    requires n < 100
    ensures SmallNumeral(Numeral(n)) == Some(n)
  {
    if n >= 10 {
      var s := Numeral(n);
      assert DigitOf(s[0]) == Some(n / 10) && DigitOf(s[1]) == Some(n % 10);
      assert (n / 10) * 10 + n % 10 == n;
    }
  }

  lemma Bv5Index(n: nat)
    requires n < 32
    ensures (n as bv5) as nat == n
  {
  }

  /** The general register ids are read back into their index. */
  lemma GeneralIndex(m: bv5)
    ensures (RS(m) - 1) as bv5 == m && 1 <= RS(m) <= 32
    ensures (RT(m) - 33) as bv5 == m && 33 <= RT(m) <= 64
  {
  }

  lemma GeneralId(id: bv7)
    ensures 1 <= id <= 32 ==> RS((id - 1) as bv5) == id
    ensures 33 <= id <= 64 ==> RT((id - 33) as bv5) == id
  {
  }

  /** The register map: `r0`, `rs0`..`rs31`, `rt0`..`rt31`, `ip`, `flags`,
      `sp` and `bp`. */
  function RegisterId(name: string): (id: Option<bv7>)
  {
    if name == "r0" then Some(R0)
    else if name == "ip" then Some(IP)
    else if name == "flags" then Some(FLAGS)
    else if name == "sp" then Some(SP)
    else if name == "bp" then Some(BP)
    else if |name| >= 3 && name[0] == 'r' && (name[1] == 's' || name[1] == 't') then
      match SmallNumeral(name[2..])
      case Some(n) =>
        if n < 32 then Some(if name[1] == 's' then RS(n as bv5) else RT(n as bv5)) else None
      case None => None
    else None
  }

  /** The name the register map gives an id, for the ids 0..68 it names. */
  function RegisterName(id: bv7): (name: Option<string>)
    ensures name.Some? <==> id <= BP
  {
    if id == R0 then Some("r0")
    else if id <= 32 then Some("rs" + Numeral(((id - 1) as bv5) as nat))
    else if id <= 64 then Some("rt" + Numeral(((id - 33) as bv5) as nat))
    else if id == IP then Some("ip")
    else if id == FLAGS then Some("flags")
    else if id == SP then Some("sp")
    else if id == BP then Some("bp")
    else None
  }

  /** Every id the map names is found under its name. */
  lemma RegisterNameFound(id: bv7)
    requires id <= BP
    ensures RegisterId(RegisterName(id).value) == Some(id)
  {
    if R0 < id <= 32 {
      SourceNameFound(id);
    } else if 32 < id <= 64 {
      TargetNameFound(id);
    }
  }

  lemma SourceNameFound(id: bv7)
    requires R0 < id <= 32
    ensures RegisterId(RegisterName(id).value) == Some(id)
  {
    var name := RegisterName(id).value;
    var m := (id - 1) as bv5;
    Bv5Index(m as nat);
    GeneralId(id);
    NumeralRead(m as nat);
    assert name == "rs" + Numeral(m as nat);
    assert name[2..] == Numeral(m as nat);
  }

  lemma TargetNameFound(id: bv7)
    requires 32 < id <= 64
    ensures RegisterId(RegisterName(id).value) == Some(id)
  {
    var name := RegisterName(id).value;
    var m := (id - 33) as bv5;
    Bv5Index(m as nat);
    GeneralId(id);
    NumeralRead(m as nat);
    assert name == "rt" + Numeral(m as nat);
    assert name[2..] == Numeral(m as nat);
  }

  /** Every name the map knows is the name of the id it maps to, so the map
      is a bijection between 69 names and the ids 0..68. */
  lemma RegisterIdNamed(name: string)
    requires RegisterId(name).Some?
    ensures RegisterName(RegisterId(name).value) == Some(name)
  {
    if |name| >= 3 && name[0] == 'r' && (name[1] == 's' || name[1] == 't') && name != "r0" {
      var n := SmallNumeral(name[2..]).value;
      assert name == name[..2] + Numeral(n);
      Bv5Index(n);
      var m := n as bv5;
      GeneralIndex(m);
      if name[1] == 's' {
        assert name[..2] == "rs";
        assert RegisterId(name) == Some(RS(m));
        assert RegisterName(RS(m)) == Some("rs" + Numeral(m as nat));
      } else {
        assert name[..2] == "rt";
        assert RegisterId(name) == Some(RT(m));
        assert RegisterName(RT(m)) == Some("rt" + Numeral(m as nat));
      }
    }
  }
}

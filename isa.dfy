/** The n64 instruction word and register numbering (instruction.hpp).

    Every 64-bit word starts with an opcode byte whose low three bits are the
    format code and whose high five bits are the operation; the format decides
    how the remaining 56 bits are split into fields. The C++ header describes
    the layouts as packed bit-field structs overlaid by a union; here each
    layout is a variant of one datatype, and `Pack`/`Unpack` place the fields
    explicitly, least-significant bit first, in declaration order. */
module Isa {

  // Format codes: the low three bits of the opcode byte.
  const NO_OPERAND: bv3 := 0
  const UNARY: bv3 := 1
  const BINOMIAL: bv3 := 2
  const THREE_ADDRESS: bv3 := 3
  const REGISTER_IMMEDIATE: bv3 := 4

  /** Bytes per instruction word in a binary file. */
  const WIDTH: nat := 8

  /** One variant per format. `Unassigned` holds words whose format code
      (5, 6 or 7) names none of the five layouts, so that every 64-bit word
      decodes to exactly one value. Field widths are those of the C++
      bit-fields: they add up to 64 in every variant. */
  datatype Instruction =
    | ThreeAddress(op: bv5, modes: bv3, destination: bv7, source1: bv7, source2: bv7,
                   destinationOption: bv10, source1Option: bv10, source2Option: bv10, spare: bv2)
    | Binomial(op: bv5, flags: bv2, operand1: bv7, operand2: bv7,
               operand1Option: bv20, operand2Option: bv20)
    | Unary(op: bv5, mode: bv2, payload: bv54)
    | RegisterImmediate(op: bv5, reg: bv7, immediate: bv49)
    | NoOperand(op: bv5, unused: bv56)
    | Unassigned(code: bv3, op: bv5, unused: bv56)

  /** The format code an instruction carries in its opcode byte. */
  function Format(ins: Instruction): bv3 {
    match ins
    case ThreeAddress(_, _, _, _, _, _, _, _, _) => THREE_ADDRESS
    case Binomial(_, _, _, _, _, _) => BINOMIAL
    case Unary(_, _, _) => UNARY
    case RegisterImmediate(_, _, _) => REGISTER_IMMEDIATE
    case NoOperand(_, _) => NO_OPERAND
    case Unassigned(code, _, _) => code
  }

  /** An `Unassigned` value must not claim one of the five real format codes. */
  predicate WellFormed(ins: Instruction) {
    ins.Unassigned? ==> ins.code >= 5
  }

  /** The leading byte of every layout: format in bits 0-2, operation in bits 3-7. */
  function OpcodeByte(format: bv3, op: bv5): (b: bv8)
    ensures (b & 7) as bv3 == format && (b >> 3) as bv5 == op
  {
    ((op as bv8) << 3) | (format as bv8)
  }

  /** The lowest byte of a word: the `instruction:8` field every layout starts with. */
  function LeadingByte(w: bv64): bv8 {
    (w & 0xff) as bv8
  }

  function Pack(ins: Instruction): (w: bv64)
    ensures LeadingByte(w) == OpcodeByte(Format(ins), ins.op)
  {
    var opcode := OpcodeByte(Format(ins), ins.op) as bv64;
    match ins
    case ThreeAddress(_, modes, d, s1, s2, od, os1, os2, spare) =>
      opcode | ((modes as bv64) << 8) | ((d as bv64) << 11) | ((s1 as bv64) << 18)
        | ((s2 as bv64) << 25) | ((od as bv64) << 32) | ((os1 as bv64) << 42)
        | ((os2 as bv64) << 52) | ((spare as bv64) << 62)
    case Binomial(_, flags, o1, o2, oo1, oo2) =>
      opcode | ((flags as bv64) << 8) | ((o1 as bv64) << 10) | ((o2 as bv64) << 17)
        | ((oo1 as bv64) << 24) | ((oo2 as bv64) << 44)
    case Unary(_, mode, payload) =>
      opcode | ((mode as bv64) << 8) | ((payload as bv64) << 10)
    case RegisterImmediate(_, reg, imm) =>
      opcode | ((reg as bv64) << 8) | ((imm as bv64) << 15)
    case NoOperand(_, unused) =>
      opcode | ((unused as bv64) << 8)
    case Unassigned(_, _, unused) =>
      opcode | ((unused as bv64) << 8)
  }

  /** Reads a word through the layout its format code selects (the union view). */
  function Unpack(w: bv64): (ins: Instruction)
    ensures WellFormed(ins) && Pack(ins) == w
  {
    var format := (w & 7) as bv3;
    var op := ((w >> 3) & 0x1f) as bv5;
    if format == THREE_ADDRESS then ThreeAddressView(w, op)
    else if format == BINOMIAL then BinomialView(w, op)
    else if format == UNARY then UnaryView(w, op)
    else if format == REGISTER_IMMEDIATE then RegisterImmediateView(w, op)
    else if format == NO_OPERAND then NoOperand(op, (w >> 8) as bv56)
    else Unassigned(format, op, (w >> 8) as bv56)
  }

  /** The three-address layout of a word. */
  function ThreeAddressView(w: bv64, op: bv5): Instruction {
    ThreeAddress(op, ((w >> 8) & 0x7) as bv3, ((w >> 11) & 0x7f) as bv7,
                 ((w >> 18) & 0x7f) as bv7, ((w >> 25) & 0x7f) as bv7,
                 ((w >> 32) & 0x3ff) as bv10, ((w >> 42) & 0x3ff) as bv10,
                 ((w >> 52) & 0x3ff) as bv10, (w >> 62) as bv2)
  }

  /** The binomial layout of a word. */
  function BinomialView(w: bv64, op: bv5): Instruction {
    Binomial(op, ((w >> 8) & 0x3) as bv2, ((w >> 10) & 0x7f) as bv7,
             ((w >> 17) & 0x7f) as bv7, ((w >> 24) & 0xf_ffff) as bv20, (w >> 44) as bv20)
  }

  /** The unary layout of a word. */
  function UnaryView(w: bv64, op: bv5): Instruction {
    Unary(op, ((w >> 8) & 0x3) as bv2, (w >> 10) as bv54)
  }

  /** The register-immediate layout of a word. */
  function RegisterImmediateView(w: bv64, op: bv5): Instruction {
    RegisterImmediate(op, ((w >> 8) & 0x7f) as bv7, (w >> 15) as bv49)
  }

  /** Packing keeps every field of a well-formed instruction: no bits of one
      field bleed into another. */
  lemma UnpackPack(ins: Instruction)
    requires WellFormed(ins)
    ensures Unpack(Pack(ins)) == ins
  {
    var w := Pack(ins);
    OpcodeFields(w, Format(ins), ins.op);
    match ins
    case ThreeAddress(_, _, _, _, _, _, _, _, _) => ThreeAddressFields(ins);
    case Binomial(_, _, _, _, _, _) => BinomialFields(ins);
    case Unary(_, _, _) => UnaryFields(ins);
    case RegisterImmediate(_, _, _) => RegisterImmediateFields(ins);
    case NoOperand(_, _) =>
    case Unassigned(_, _, _) =>
  }

  /** The leading byte gives back the format and the operation. */
  lemma OpcodeFields(w: bv64, format: bv3, op: bv5)
    requires LeadingByte(w) == OpcodeByte(format, op)
    ensures (w & 7) as bv3 == format && ((w >> 3) & 0x1f) as bv5 == op
  {
  }

  lemma ThreeAddressFields(ins: Instruction)
    requires ins.ThreeAddress?
    ensures ThreeAddressView(Pack(ins), ins.op) == ins
  {
  }

  lemma BinomialFields(ins: Instruction)
    requires ins.Binomial?
    ensures BinomialView(Pack(ins), ins.op) == ins
  {
  }

  lemma UnaryFields(ins: Instruction)
    requires ins.Unary?
    ensures UnaryView(Pack(ins), ins.op) == ins
  {
  }

  lemma RegisterImmediateFields(ins: Instruction)
    requires ins.RegisterImmediate?
    ensures RegisterImmediateView(Pack(ins), ins.op) == ins
  {
  }

  /** A zero word reads as operation 0 of the no-operand format (`hlt`). */
  lemma ZeroWordIsNoOperandZero()
    ensures Unpack(0) == NoOperand(0, 0)
  {
  }

  // The unary payload is a union of a register view (operand:7, option:47)
  // and an immediate view (immediate:54) over the same 54 bits.

  function RegisterPayload(operand: bv7, option: bv47): (p: bv54)
    ensures PayloadOperand(p) == operand && PayloadOption(p) == option
  {
    ((option as bv54) << 7) | (operand as bv54)
  }

  function PayloadOperand(p: bv54): bv7 {
    (p & 0x7f) as bv7
  }

  function PayloadOption(p: bv54): bv47 {
    (p >> 7) as bv47
  }

  /** The register view covers the whole payload. */
  lemma RegisterViewCoversPayload(p: bv54)
    ensures RegisterPayload(PayloadOperand(p), PayloadOption(p)) == p
  {
  }

  // Storing a 64-bit value into a narrower bit-field keeps its low bits.

  function Low10(v: bv64): (r: bv10)
    ensures r as bv64 == v & 0x3ff
  {
    (v & 0x3ff) as bv10
  }

  function Low20(v: bv64): (r: bv20)
    ensures r as bv64 == v & 0xf_ffff
  {
    (v & 0xf_ffff) as bv20
  }

  function Low47(v: bv64): (r: bv47)
    ensures r as bv64 == v & 0x7fff_ffff_ffff
  {
    (v & 0x7fff_ffff_ffff) as bv47
  }

  function Low49(v: bv64): (r: bv49)
    ensures r as bv64 == v & 0x1_ffff_ffff_ffff
  {
    (v & 0x1_ffff_ffff_ffff) as bv49
  }

  function Low54(v: bv64): (r: bv54)
    ensures r as bv64 == v & 0x3f_ffff_ffff_ffff
  {
    (v & 0x3f_ffff_ffff_ffff) as bv54
  }

  /** Read back as unsigned 64-bit numbers, the low bits a field keeps are the value
      modulo the field's range. */
  lemma FieldsKeepResidue(v: bv64)
    ensures Low10(v) as bv64 == v % 0x400
    ensures Low20(v) as bv64 == v % 0x10_0000
    ensures Low47(v) as bv64 == v % 0x8000_0000_0000
    ensures Low49(v) as bv64 == v % 0x2_0000_0000_0000
    ensures Low54(v) as bv64 == v % 0x40_0000_0000_0000
  {
  }

  // Register ids (namespace reg::id).

  const R0: bv7 := 0
  const IP: bv7 := 65
  const FLAGS: bv7 := 66
  const SP: bv7 := 67
  const BP: bv7 := 68

  /** Id of general register RS[n], n < 32. */
  function RS(n: bv5): bv7 {
    (n as bv7) + 1
  }

  /** Id of general register RT[n], n < 32. */
  function RT(n: bv5): bv7 {
    (n as bv7) + 33
  }

  /** The 69 named ids are pairwise distinct; being 7-bit values they all
      index the 128-slot register file. */
  lemma RegisterIdsDistinct()
    ensures forall n: bv5, m: bv5 :: RS(n) != RT(m)
    ensures forall n: bv5, m: bv5 :: n != m ==> RS(n) != RS(m) && RT(n) != RT(m)
    ensures forall n: bv5 :: R0 < RS(n) < RT(n) < IP
    ensures IP < FLAGS < SP < BP
  {
  }
}

/**
 * What one `cpu::next` does, as a function on the machine state. The class
 * `Cpu` of module Emulator is proved to update its fields exactly as `Step`
 * says. Register reads happen after the instruction pointer has been
 * advanced, as in the source.
 */
module Semantics {
  import opened Isa
  import opened FlagsRegister
  import opened ByteStack

  const REGISTER_COUNT: nat := 128

  /** The register file, the flags word and the stack bytes. */
  datatype Machine = Machine(registers: seq<bv64>, flags: bv64, stack: seq<bv8>)

  predicate Valid(m: Machine) {
    |m.registers| == REGISTER_COUNT
  }

  function Reg(m: Machine, r: bv7): bv64
    requires Valid(m)
  {
    m.registers[r]
  }

  /** Register `r` set to `v`; every other register, the flags and the stack
      are kept. */
  function Write(m: Machine, r: bv7, v: bv64): (n: Machine)
    requires Valid(m)
    ensures Valid(n)
  {
    m.(registers := m.registers[r := v])
  }

  predicate Halted(m: Machine) {
    GetBit(m.flags, HALT)
  }

  function Ip(m: Machine): bv64
    requires Valid(m)
  {
    Reg(m, IP)
  }

  /** `has_next`: the instruction pointer is inside the program. */
  predicate HasNext(program: seq<bv64>, m: Machine)
    requires Valid(m)
  {
    Ip(m) as int < |program|
  }

  /** Increment and decrement on an unsigned 64-bit value: they wrap around. */
  function Successor(v: bv64): bv64 {
    v + 1
  }

  function Predecessor(v: bv64): bv64 {
    v - 1
  }

  /** The post-increment of the instruction pointer. */
  function Advance(m: Machine): (n: Machine)
    requires Valid(m)
    ensures Valid(n)
  {
    Write(m, IP, Successor(Ip(m)))
  }

  /** `raise_exception`: the halt flag is cleared (the message and the dump go
      to standard error). */
  function RaiseException(m: Machine): (n: Machine)
    ensures n.registers == m.registers && n.stack == m.stack && !Halted(n)
  {
    m.(flags := SetBit(m.flags, HALT, false))
  }

  /** The operations each `case` of `next` implements; every other
      operation number reaches a `default: raise_exception` (formats 0-4) or
      no case at all (formats 5-7). */
  predicate DefinedOpcode(format: bv3, op: bv5) {
    || (format == NO_OPERAND && op <= 1)
    || (format == UNARY && op <= 12)
    || (format == BINOMIAL && op <= 2)
    || (format == THREE_ADDRESS && op <= 8)
    || (format == REGISTER_IMMEDIATE && op <= 2)
  }

  /** Division by zero and shifts by 64 or more are undefined in C++. */
  predicate AluFaults(op: bv5, a: bv64, b: bv64) {
    (op == 3 && b == 0) || (op == 4 && b >= 64) || (op == 5 && a >= 64)
  }

  /** The three-address operations on `src1` and `src2`, modulo 2^64. */
  function Alu(op: bv5, a: bv64, b: bv64): bv64
    requires op <= 8 && !AluFaults(op, a, b)
  {
    if op == 0 then a + b
    else if op == 1 then a - b
    else if op == 2 then a * b
    else if op == 3 then a / b
    else if op == 4 then a >> b
    else if op == 5 then a << a
    else if op == 6 then a & b
    else if op == 7 then a | b
    else a ^ b
  }

  /** The operations the source leaves undefined: division by zero, a shift
      by 64 or more, and popping 8 bytes off a stack that holds fewer. */
  predicate Faults(ins: Instruction, m: Machine)
    requires Valid(m)
  {
    match ins
    case ThreeAddress(op, _, _, s1, s2, _, _, _, _) => AluFaults(op, Reg(m, s1), Reg(m, s2))
    case Unary(op, _, _) => op == 12 && |m.stack| < 8
    case NoOperand(op, _) => op == 1 && |m.stack| < 8
    case _ => false
  }

  function ExecThreeAddress(op: bv5, d: bv7, s1: bv7, s2: bv7, m: Machine): Machine
    requires Valid(m) && !AluFaults(op, Reg(m, s1), Reg(m, s2))
  {
    if op <= 8 then Write(m, d, Alu(op, Reg(m, s1), Reg(m, s2)))
    else RaiseException(m)
  }

  /** Unsigned comparison of two register values. */
  predicate Exceeds(a: bv64, b: bv64) {
    a > b
  }

  /** The flags word after `cmp a, b`: the source sets `equal` to `a == b`
      and then sets `equal` again, to `a > b`; `above` is never written. */
  function Compare(flags: bv64, a: bv64, b: bv64): bv64 {
    SetBit(SetBit(flags, EQUAL, a == b), EQUAL, Exceeds(a, b))
  }

  /** `not o1, o2`: `o1` receives the complement of `o2`. */
  function Negated(m: Machine, o1: bv7, o2: bv7): Machine
    requires Valid(m)
  {
    Write(m, o1, !Reg(m, o2))
  }

  /** `xchg o1, o2`: the two registers swap values (nothing happens when they
      are the same register). */
  function Exchanged(m: Machine, o1: bv7, o2: bv7): Machine
    requires Valid(m)
  {
    if o1 != o2 then Write(Write(m, o1, Reg(m, o2)), o2, Reg(m, o1)) else m
  }

  /** `cmp o1, o2`. */
  function Compared(m: Machine, o1: bv7, o2: bv7): Machine
    requires Valid(m)
  {
    m.(flags := Compare(m.flags, Reg(m, o1), Reg(m, o2)))
  }

  function ExecBinomial(op: bv5, o1: bv7, o2: bv7, m: Machine): Machine
    requires Valid(m)
  {
    if op == 0 then Negated(m, o1, o2)
    else if op == 1 then Exchanged(m, o1, o2)
    else if op == 2 then Compared(m, o1, o2)
    else RaiseException(m)
  }

  /** The value of a unary operand: the register for type 0b00, the immediate
      for 0b11, and 0 otherwise (memory is not implemented). */
  function UnaryData(mode: bv2, payload: bv54, m: Machine): bv64
    requires Valid(m)
  {
    if mode == 0 then Reg(m, PayloadOperand(payload))
    else if mode == 3 then payload as bv64
    else 0
  }

  /** The write-back of `inc`, `dec` and `pop`: only to a register operand. */
  function Assign(m: Machine, mode: bv2, payload: bv54, v: bv64): Machine
    requires Valid(m)
  {
    if mode == 0 then Write(m, PayloadOperand(payload), v) else m
  }

  /** The machine with 8 bytes popped, and the word they hold. */
  function PopWord(m: Machine): (Machine, bv64)
    requires |m.stack| >= 8
  {
    (m.(stack := Below(m.stack, 8)), Word64(Top(m.stack, 8)))
  }

  /** Whether jump operation `op` (3..10: `jmp`, `jr`, `je`, `jne`, `ja`,
      `jae`, `jb`, `jbe`) is taken under the flags word. */
  predicate Taken(op: bv5, flags: bv64) {
    var equal := GetBit(flags, EQUAL);
    var above := GetBit(flags, ABOVE);
    if op == 3 || op == 4 then true
    else if op == 5 then equal
    else if op == 6 then !equal
    else if op == 7 then above
    else if op == 8 then equal || above
    else if op == 9 then !equal && !above
    else !above
  }

  /** `push`: the 8 bytes of the operand value go on top of the stack. */
  function Pushed(m: Machine, data: bv64): Machine {
    m.(stack := m.stack + Bytes64(data))
  }

  /** `pop`: 8 bytes come off the stack and are written back to a register
      operand. */
  function PoppedInto(m: Machine, mode: bv2, payload: bv54): Machine
    requires Valid(m) && |m.stack| >= 8
  {
    var (popped, v) := PopWord(m);
    Assign(popped, mode, payload, v)
  }

  /** `call`: the (already advanced) instruction pointer is pushed, then the
      jump is taken. */
  function Called(m: Machine, data: bv64): Machine
    requires Valid(m)
  {
    Write(m.(stack := m.stack + Bytes64(Ip(m))), IP, data)
  }

  /** A jump operation (3..10): the instruction pointer becomes the operand
      value when the condition holds. */
  function Jumped(op: bv5, m: Machine, data: bv64): Machine
    requires Valid(m)
  {
    if Taken(op, m.flags) then Write(m, IP, data) else m
  }

  function ExecUnary(op: bv5, mode: bv2, payload: bv54, m: Machine): Machine
    requires Valid(m) && !(op == 12 && |m.stack| < 8)
  {
    var data := UnaryData(mode, payload, m);
    if op == 0 then Assign(m, mode, payload, Successor(data))
    else if op == 1 then Assign(m, mode, payload, Predecessor(data))
    else if op == 11 then Pushed(m, data)
    else if op == 12 then PoppedInto(m, mode, payload)
    else if op == 2 then Called(m, data)
    else if op <= 10 then Jumped(op, m, data)
    else RaiseException(m)
  }

  function ExecNoOperand(op: bv5, m: Machine): Machine
    requires Valid(m) && !(op == 1 && |m.stack| < 8)
  {
    if op == 0 then m.(flags := SetBit(m.flags, HALT, true))
    else if op == 1 then
      var (popped, v) := PopWord(m);
      Write(popped, IP, v)
    else RaiseException(m)
  }

  /** The new register value of `asgn` (the immediate), `asgnh` (the low 32
      bits of the immediate as the high half, the low half kept) and `asgnl`
      (the low 32 bits of the immediate as the low half, the high half
      kept). */
  function Loaded(op: bv5, r: bv64, immediate: bv49): bv64
    requires op <= 2
  {
    var imm := immediate as bv64;
    if op == 0 then imm
    else if op == 1 then ((imm & 0xffff_ffff) << 32) | (r & 0xffff_ffff)
    else (imm & 0xffff_ffff) | (r & 0xffff_ffff_0000_0000)
  }

  function ExecRegisterImmediate(op: bv5, reg: bv7, immediate: bv49, m: Machine): Machine
    requires Valid(m)
  {
    if op <= 2 then Write(m, reg, Loaded(op, Reg(m, reg), immediate))
    else RaiseException(m)
  }

  /** The execution of a decoded instruction; format codes 5-7 match no case
      of the source's switch and do nothing. */
  function Exec(ins: Instruction, m: Machine): Machine
    requires Valid(m) && !Faults(ins, m)
  {
    match ins
    case ThreeAddress(op, _, d, s1, s2, _, _, _, _) => ExecThreeAddress(op, d, s1, s2, m)
    case Binomial(op, _, o1, o2, _, _) => ExecBinomial(op, o1, o2, m)
    case Unary(op, mode, payload) => ExecUnary(op, mode, payload, m)
    case NoOperand(op, _) => ExecNoOperand(op, m)
    case RegisterImmediate(op, reg, immediate) => ExecRegisterImmediate(op, reg, immediate, m)
    case Unassigned(_, _, _) => m
  }

  /** The instruction at the instruction pointer. */
  function Fetch(program: seq<bv64>, m: Machine): Instruction
    requires Valid(m) && HasNext(program, m)
  {
    Unpack(program[Ip(m)])
  }

  /** What `next` needs of its caller: a halted cpu, or an instruction pointer
      inside the program and an instruction whose effect is defined. */
  predicate CanStep(program: seq<bv64>, m: Machine)
    requires Valid(m)
  {
    Halted(m) || (HasNext(program, m) && !Faults(Fetch(program, m), Advance(m)))
  }

  /** `next`: nothing when halted; otherwise fetch, advance the instruction
      pointer, execute. */
  function Step(program: seq<bv64>, m: Machine): (n: Machine)
    requires Valid(m) && CanStep(program, m)
    ensures Valid(n)
  {
    if Halted(m) then m
    else Exec(Fetch(program, m), Advance(m))
  }

  /** The run loop's condition `has_next() && !halted()` fails, or the next
      step is undefined. */
  predicate Stopped(program: seq<bv64>, m: Machine)
    requires Valid(m)
  {
    !HasNext(program, m) || Halted(m) || !CanStep(program, m)
  }

  /** The emulator's run loop, `has_next() && !halted()`, for at most `fuel`
      steps, stopping early before an undefined operation. */
  function Trace(program: seq<bv64>, m: Machine, fuel: nat): (n: Machine)
    requires Valid(m)
    ensures Valid(n)
    decreases fuel
  {
    if fuel == 0 || Stopped(program, m) then m
    else Trace(program, Step(program, m), fuel - 1)
  }

  /** One turn of the run loop. */
  lemma TraceUnfold(program: seq<bv64>, m: Machine, fuel: nat)
    requires Valid(m) && fuel > 0 && !Stopped(program, m)
    ensures Trace(program, m, fuel) == Trace(program, Step(program, m), fuel - 1)
  {
  }

  /** With no fuel left, or once the run loop's condition fails, the run
      ends where it is. */
  lemma StoppedStays(program: seq<bv64>, m: Machine, fuel: nat)
    requires Valid(m) && (fuel == 0 || Stopped(program, m))
    ensures Trace(program, m, fuel) == m
  {
  }
}

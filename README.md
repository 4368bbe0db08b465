# n64: a Dafny model of the toy 64-bit ISA, its assembler and its emulator

n64 is a toy 64-bit instruction set with two tools that must agree on it
bit for bit: an assembler that turns source text into a file of 64-bit
words, and an emulator that loads such a file and runs it. This project
models the shared instruction layout, the binary file codec, the assembler
pipeline and the emulator's cpu, and proves properties of each and of how
they fit together.

- **Instruction words** (`Isa`, isa.dfy). Each word starts with an opcode
  byte: the format code sits in its low three bits and the operation in the
  high five. The format decides how the other 56 bits split into fields.
  `Instruction` has one variant per layout. A sixth variant, `Unassigned`,
  holds format codes 5–7, so every word decodes. `Pack` and `Unpack` place
  the fields least-significant bit first, in declaration order, and are
  proved inverse to each other. The register numbering (`r0`, `rs0..rs31`,
  `rt0..rt31`, `ip`, `flags`, `sp`, `bp`) is proved injective and to fit in
  7 bits.
- **Binary files** (`Codec`, codec.dfy). Words are written as 8 big-endian
  bytes each. The loader reads 8-byte records until end of file. It tests
  for end of file before each read, so a file of n whole words loads as
  n + 1 records, the last one zero. A trailing partial record is
  zero-filled.
- **Assembler** (`Text`, `Numbers`, `Tables`, `Reformat` and `Assembler`).
  - `reformat_data` is modelled on a string array, trimmed and compacted in
    place. It lower-cases the text, collapses whitespace around `,` and `:`,
    splits at `\n` and `;`, trims every piece, and moves the non-empty
    pieces to the front.
  - The literal pattern, `stoull` and `decode_immediate` are modelled
    exactly, including the pattern's refusal of `10` and the base-8 reading
    of `019`.
  - The mnemonic and register tables are constants with inverse functions.
  - `assemble_line` strips a label, rewrites the pseudo-instructions
    `nop`, `raise` and `mov`, checks operand counts, decodes operands, and
    resolves labels to line indices.
  - `assemble` collects the words line by line.
  - Every `exit(EXIT_FAILURE)`, and every exception or unchecked access the
    source leaves to chance, is a `Failure` carrying the line index and an
    error kind.
- **Emulator** (`FlagsRegister`, `ByteStack`, `Semantics`, `Emulator`).
  - Classes `Flags` and `Stack` mirror the source's `flags` and `stack`.
  - Class `Cpu` holds a 128-slot register array, a `Flags` object, a
    `Stack` object and the program. Its `Next` method is proved to change
    those fields exactly as the pure function `Semantics.Step` says.
  - `Run` is the emulator's run loop, bounded by a fuel argument.
  - The source's quirks are kept:
    - `shl` shifts `src1` by `src1`;
    - `cmp` writes the equal flag twice and never sets `above`;
    - an undefined operation clears the halt flag, which is already clear
      whenever `next` gets that far;
    - `r0` is writable;
    - the `flags` and `sp` register slots are not connected to the flags
      object or the stack.
- **Agreement** (agreement.dfy). The assembler's mnemonic table names
  exactly the operations the emulator defines. The all-zero word is `hlt`.
  The extra zero record the loader appends therefore halts a program that
  runs off its end.

The source is C++. The stack's byte order comes from a host-order
`reinterpret_cast`, and it is fixed here as little-endian. Bit-field
placement inside a word is fixed explicitly, least-significant bit first.

## Model

| member | source | states |
|---|---|---|
| Isa.OpcodeByte | instruction.hpp:78-81 | the format code occupies the low 3 bits of the opcode byte and the operation the high 5 bits |
| Isa.Pack | instruction.hpp:26-84 | every layout's leading 8-bit field is exactly the opcode byte built from the instruction's format and operation |
| Isa.Unpack | instruction.hpp:72-84 | every 64-bit word reads as a well-formed instruction that packs back to the same word (no word is lost or doubled) |
| Isa.UnpackPack | instruction.hpp:26-70 | for every layout, unpacking a packed well-formed instruction gives it back, so no field bleeds into another |
| Isa.OpcodeFields | instruction.hpp:78-81 | the format and operation read from a word's low byte are those its opcode byte was built from |
| Isa.ThreeAddressFields | instruction.hpp:26-36 | the 8+3+7+7+7+10+10+10+2-bit three-address fields read back unchanged from a packed word |
| Isa.BinomialFields | instruction.hpp:38-45 | the 8+2+7+7+20+20-bit binomial fields read back unchanged from a packed word |
| Isa.UnaryFields | instruction.hpp:47-59 | the 2-bit unary type and the 54-bit payload read back unchanged from a packed word |
| Isa.RegisterImmediateFields | instruction.hpp:61-65 | the 7-bit register and 49-bit immediate read back unchanged from a packed word |
| Isa.ZeroWordIsNoOperandZero | instruction.hpp:67-70 | the all-zero word is the no-operand operation 0 |
| Isa.RegisterPayload | instruction.hpp:50-58 | a register number and its 47-bit option stored through the union's register view read back unchanged |
| Isa.RegisterViewCoversPayload | instruction.hpp:50-58 | the register view and the 54-bit immediate view cover the same bits: every payload is the register view of its own parts |
| Isa.FieldsKeepResidue | instruction.hpp:26-65 | a 64-bit value stored in a 10-, 20-, 47-, 49- or 54-bit field reads back as the value modulo 2^10, 2^20, 2^47, 2^49 or 2^54 |
| Isa.RegisterIdsDistinct | instruction.hpp:89-92 | register ids are pairwise distinct and ordered R0 < RS[n] < RT[n] < IP < FLAGS < SP < BP, all below 128 |
| Codec.EncodeWord | binary.cpp:54 | a word becomes exactly 8 bytes, and `be64toh` of those bytes gives the word back |
| Codec.DecodeWord | binary.cpp:39 | reference definition of `be64toh` on an 8-byte record: the first byte is the most significant |
| Codec.EncodeDecodeWord | binary.cpp:39 | 8 bytes decoded and encoded again are the same 8 bytes |
| Codec.Encode | binary.cpp:53-56 | the output of n words is 8·n bytes long |
| Codec.EncodeAppend | binary.cpp:53-56 | words are written in list order: encoding a concatenation concatenates the encodings |
| Codec.EncodeAt | binary.cpp:53-55 | bytes 8k to 8k+8 of the output are the big-endian bytes of word k |
| Codec.Save | binary.cpp:50-57 | the write loop emits exactly the encoding of the word list |
| Codec.LoadSpec | binary.cpp:36-41 | a file of n bytes loads as n/8 + 1 records |
| Codec.Load | binary.cpp:31-43 | the read loop appends exactly the records `LoadSpec` describes |
| Codec.LoadFullRecords | binary.cpp:37-39 | each full 8-byte record is converted from big-endian |
| Codec.LoadSaved | binary.cpp:36-41 | a saved file loads as the saved words followed by one all-zero record |
| Codec.LoadPartialTail | binary.cpp:36-41 | a trailing partial record of k bytes loads with its first k bytes from the file and the rest zero |
| Text.Lower | assembler_main.cpp:60 | `tolower` maps an upper-case letter to its lower-case letter, 32 code points higher, and leaves every other character unchanged |
| Text.ToLower | assembler_main.cpp:60 | the lower-cased text has the same length, no upper-case letter, and the same non-upper characters |
| Text.Trim | assembler_main.cpp:71 | trimming gives the slice after the leading whitespace with no whitespace at either end, empty exactly when the text is all whitespace |
| Text.TrimKeepsText | assembler_main.cpp:71 | trimming removes only whitespace |
| Text.Collapse | assembler_main.cpp:63-64 | replacing `\s*c\s*` by `c` leaves no whitespace next to `c`, removes only whitespace and adds no new character |
| Text.CollapseKeepsSpaceRun | assembler_main.cpp:63-64 | a leading whitespace run followed by a character other than `c` is kept as it is |
| Text.CollapseKeepsChar | assembler_main.cpp:63-64 | a leading character that is neither whitespace nor `c` is kept |
| Text.CollapseKeepsPrefix | assembler_main.cpp:63-64 | text without `c` that does not end in whitespace passes through unchanged, inner whitespace included, whatever follows it |
| Text.CollapseWithoutSeparator | assembler_main.cpp:63-64 | text without `c` is left exactly as it is: whitespace that touches no `c` is kept |
| Text.CollapseKeepsTight | assembler_main.cpp:63-64 | collapsing around `:` keeps the text free of whitespace next to `,` |
| Text.Split | assembler_main.cpp:68 | reference definition of `boost::split` with `is_any_of`, without token compression: adjacent separators give an empty piece |
| Text.SplitShape | assembler_main.cpp:68 | splitting at any of the separators gives one more piece than there are separators, and no piece holds a separator |
| Text.SplitJoin | assembler_main.cpp:68 | joining the pieces gives back the text without its separators |
| Text.SplitWhole | assembler_main.cpp:220 | a text without separator splits into itself alone |
| Text.SplitFirst | assembler_main.cpp:252 | a split ends its first piece at the first separator |
| Text.SplitKeepsTight | assembler_main.cpp:68 | the pieces of a text with no whitespace next to a character keep that property |
| Text.StripOpen | assembler_main.cpp:99 | removing `[` and the whitespace after it leaves no `[` |
| Text.StripClose | assembler_main.cpp:99 | removing `]` and the whitespace before it leaves no `]` |
| Numbers.DigitValue | assembler_main.cpp:174 | `strtoull` gives a character a digit value below 10 exactly when it is a decimal digit |
| Numbers.DigitRun | assembler_main.cpp:174 | the conversion reads the longest run of digits of the base |
| Numbers.Convert | assembler_main.cpp:174 | a magnitude converts exactly when it is below 2^64; otherwise it is `out_of_range` |
| Numbers.ParseULL | assembler_main.cpp:174 | `stoull` throws `invalid_argument` exactly when no digit follows the leading whitespace and sign |
| Numbers.ParseDigits | assembler_main.cpp:174 | a string made only of digits converts to its value |
| Numbers.Value | assembler_main.cpp:174 | reference definition of the value of a numeral, most significant digit first |
| Numbers.IsLiteral | assembler_main.cpp:200 | reference definition of a full match of the literal pattern: `0x` and hex digits, `0` and octal digits, any digit followed by digits 1 to 9, or `0` alone |
| Numbers.LiteralDecodes | assembler_main.cpp:163-175 | every token the literal pattern accepts decodes to its value: the hex digits after `0x` in base 16, the digits after the `0` of an octal literal in base 8, `0` and a decimal without a leading 0 in base 10, and for a zero-led decimal only its leading octal digits (none at all is `invalid_argument`) |
| Numbers.DigitRunOfDigits | assembler_main.cpp:174 | the conversion reads the whole of a string made only of digits |
| Numbers.HexLiteralValue | assembler_main.cpp:163-175 | a hexadecimal literal decodes to the value of its digits after `0x` |
| Numbers.OctalLiteralValue | assembler_main.cpp:163-175 | an octal literal decodes to the base-8 value of its digits after the `0` |
| Numbers.DecimalLiteralValue | assembler_main.cpp:163-175 | `0` and a decimal literal not starting with 0 decode to their decimal value |
| Numbers.ZeroLedDecimalValue | assembler_main.cpp:165-174 | a decimal-looking literal with a leading 0 is read in base 8: only its leading octal digits count, and none at all is `invalid_argument` |
| Numbers.TensAreNotLiterals | assembler_main.cpp:200 | `10` and `100` do not match the literal pattern; `0`, `019` and `09` do |
| LiteralExamples.ZeroLedExample | assembler_main.cpp:165-174 | `019` decodes to 1 |
| LiteralExamples.ZeroNineExample | assembler_main.cpp:165-174 | `09` is refused as `invalid_argument` |
| LiteralExamples.HexLiteralExample | assembler_main.cpp:165-174 | `0x1f` decodes to 31 |
| LiteralExamples.OctalLiteralExample | assembler_main.cpp:165-174 | `017` decodes to 15 |
| Tables.MnemonicOf | assembler_main.cpp:359-394 | a mnemonic found for an opcode is in the instruction map and maps to that opcode |
| Tables.ThreeAddressMnemonic | assembler_main.cpp:360-371 | three-address operations 0 to 8 have a mnemonic, and the others do not |
| Tables.UnaryMnemonic | assembler_main.cpp:366-385 | unary operations 0 to 12 have a mnemonic, and the others do not |
| Tables.BinomialMnemonic | assembler_main.cpp:368-390 | binomial operations 0 to 2 have a mnemonic, and the others do not |
| Tables.NoOperandMnemonic | assembler_main.cpp:387-389 | no-operand operations 0 and 1 have a mnemonic, and the others do not |
| Tables.RegisterImmediateMnemonic | assembler_main.cpp:391-393 | register-immediate operations 0 to 2 have a mnemonic, and the others do not |
| Tables.MnemonicsDistinct | assembler_main.cpp:359-394 | no two mnemonics share an opcode byte, and reading the map backwards gives each mnemonic back |
| Tables.SmallNumeral | assembler_main.cpp:399-403 | a register-number suffix is read only from the numeral that names it |
| Tables.NumeralRead | assembler_main.cpp:399-403 | the numeral written for n in `rs` and `rt` names is read back as n |
| Tables.GeneralIndex | instruction.hpp:90-91 | RS[n] is n+1 and RT[n] is n+33, within 1..32 and 33..64 |
| Tables.GeneralId | instruction.hpp:90-91 | every id in 1..32 is some RS[n] and every id in 33..64 some RT[n] |
| Tables.RegisterName | assembler_main.cpp:397-409 | an id has a register name exactly when it is at most BP (68) |
| Tables.RegisterNameFound | assembler_main.cpp:397-409 | looking up the name of an id gives that id back |
| Tables.SourceNameFound | assembler_main.cpp:399-400 | looking up `rs<n>` gives RS[n] |
| Tables.TargetNameFound | assembler_main.cpp:402-403 | looking up `rt<n>` gives RT[n] |
| Tables.RegisterIdNamed | assembler_main.cpp:397-409 | every name in the register map is the name of its id, so the map is a bijection |
| Reformat.Compacted | assembler_main.cpp:75-77 | what `remove_if` leaves has the original length, and every non-empty entry comes from the original |
| Reformat.FindEmpty | assembler_main.cpp:75-77 | the first empty string, with no empty string before it |
| Reformat.RemoveEmpty | assembler_main.cpp:75-77 | in place, the array becomes its non-empty strings in order followed by empty ones; the returned end is their count |
| Reformat.MoveDown | assembler_main.cpp:75-77 | one step of `remove_if` keeps the partially compacted state |
| Reformat.TrimEach | assembler_main.cpp:69-72 | every line is trimmed in place and nothing else changes |
| Reformat.ReformatData | assembler_main.cpp:56-80 | the result is the lines `Lines` describes |
| Reformat.NormalisedClean | assembler_main.cpp:60-64 | after lower-casing and both replacements the text has no upper-case letter and no whitespace next to `,` or `:` |
| Reformat.PieceFacts | assembler_main.cpp:68 | each piece of the split keeps those properties and holds no `\n` or `;` |
| Reformat.TrimmedClean | assembler_main.cpp:69-72 | a trimmed piece keeps those properties and has no whitespace at either end |
| Reformat.PieceClean | assembler_main.cpp:60-72 | every trimmed piece of the normalised text is a clean line |
| Reformat.CompactedClean | assembler_main.cpp:75-77 | compacting clean lines leaves only clean lines |
| Reformat.Lines | assembler_main.cpp:56-80 | reference definition of `reformat_data`: lower-case, collapse whitespace around `,` and `:`, split at `\n` and `;`, trim each piece, move empty pieces to the end |
| Reformat.LinesClean | assembler_main.cpp:56-80 | every returned line has no upper-case letter, no whitespace next to `,` or `:`, no `\n` or `;`, and no whitespace at either end |
| Reformat.LinesCount | assembler_main.cpp:68-79 | the result has one entry per piece of the split, and the entries after the non-empty ones are empty |
| Assembler.Number | assembler_main.cpp:163-175 | a conversion succeeds with the same value, or fails with the exception it threw |
| Assembler.SizeOption | assembler_main.cpp:124-132 | `byte` gives option 1, `word` gives 2 and `dword` gives 3, each exactly for that keyword; every other word gives 0 |
| Assembler.LookupRegister | assembler_main.cpp:105-109 | a name not in the register map is an unknown operand; a known one gives its id |
| Assembler.DecodeOperand | assembler_main.cpp:89-142 | mode 1 for an operand starting with `[`, 0 otherwise. A register operand fails exactly when its last space-separated token is not a register name; otherwise the register is that token's and the option is the size keyword's when there are more than two tokens, else 0. A pointer fails with `UnknownOperand` when its first `+`-separated part is not a register name; otherwise it fails exactly when a second part does not convert, and the register is the first part's and the option the second part's decimal value (0 when there is none) |
| Assembler.DecodePointer | assembler_main.cpp:97-114 | an unknown register name in the first `+`-separated part is `UnknownOperand`; with a known one, the operand is built exactly when a second part converts (or there is none), with that register, mode 1 and the converted value as option (0 without a second part) |
| Assembler.DecodeRegister | assembler_main.cpp:116-138 | the operand is built exactly when the last space-separated token is a register name, with that register, mode 0 and the size keyword's option (at most 3) when there are more than two tokens, else 0 |
| Assembler.DecodeRegisterName | assembler_main.cpp:115-139 | every register name decodes to its id with option 0 and mode 0 |
| Assembler.DecodePointerName | assembler_main.cpp:97-114 | `[name]` decodes to the register's id with option 0 and mode 1 |
| Assembler.RegisterOptionZero | assembler_main.cpp:124-132 | an operand without a space always gets option 0, so the size keywords never take effect after `assemble_line` |
| Assembler.IndexOf | assembler_main.cpp:212 | the position of the first `:`, or the length when there is none |
| Assembler.Body | assembler_main.cpp:211-218 | the text after the first `:`, trimmed at both ends |
| Assembler.FindLabel | assembler_main.cpp:180-186 | the first line from a given index that starts with the target, or none when no line does |
| Assembler.ResolveLabel | assembler_main.cpp:176-194 | a label resolves to the index of the first line starting with `label:`, searching all lines; it is undefined exactly when no line does |
| Assembler.ExpandPseudo | assembler_main.cpp:222-237 | `nop` becomes `xchg` and `raise` becomes `cmp`, both keeping their other parts and gaining a last part `r0,r0`; `mov` without operands is `MissingOperand`, and `mov a,b` becomes `add a,b,r0` with the later parts kept, while any other operand count fails with that count; other mnemonics are kept as they are |
| Assembler.EncodeThreeAddress | assembler_main.cpp:256-274 | three operands are required, and the word is built exactly when all three decode. Destination, source1 and source2 take the decoded registers in that order, with each option kept modulo 2^10. Pointer operands set mode bits 2, 1 and 0 respectively |
| Assembler.PackThreeAddress | assembler_main.cpp:256-274 | each operand's mode lands in its own bit of the 3-bit type: destination highest |
| Assembler.EncodeBinomial | assembler_main.cpp:275-288 | two operands are required, and the word is built exactly when both decode. Operand 1 and operand 2 take the decoded registers in that order, with each option kept modulo 2^20. Pointer operands set type bits 1 and 0 respectively |
| Assembler.PackBinomial | assembler_main.cpp:275-288 | each operand's mode lands in its own bit of the 2-bit type: operand 1 higher |
| Assembler.EncodeUnary | assembler_main.cpp:289-308 | one operand is required; a literal gives type 0b11; a jump or call operand that is not a literal is a label resolved to its line index with type 0b11; otherwise the operand is decoded as a register |
| Assembler.EncodeRegisterImmediate | assembler_main.cpp:309-321 | two operands are required; it fails unless the second matches the literal pattern, and stores the decoded immediate modulo 2^49 |
| Assembler.EncodeOperands | assembler_main.cpp:250-322 | a word's format and operation are the mnemonic's, with exactly the operand count its format requires |
| Assembler.AssembleParts | assembler_main.cpp:239-324 | an unknown mnemonic fails; a word's format and operation come from the instruction map |
| Assembler.AssembleBody | assembler_main.cpp:220-324 | the word for a label-free line body carries the format and operation of its (rewritten) mnemonic |
| Assembler.AssembleLine | assembler_main.cpp:151-325 | a line gives no word exactly when its body after the label is empty; an error carries the line's index |
| Assembler.Collect | assembler_main.cpp:337-342 | reference definition of the loop of `assemble`: the words of the lines so far, or the first error |
| Assembler.CollectStep | assembler_main.cpp:337-342 | one turn of the loop appends the line's word, skips a label-only line, or stops at an error |
| Assembler.FailureStays | assembler_main.cpp:337-342 | once a line fails, assembly ends with that error |
| Assembler.CollectSucceeds | assembler_main.cpp:337-342 | the loop succeeds exactly when every line does, with the packed words of the emitted instructions |
| Assembler.CollectFailsAtFirst | assembler_main.cpp:337-342 | a failure is the error of the first failing line |
| Assembler.EmittedWellFormed | assembler_main.cpp:339-341 | every emitted instruction is well-formed |
| Assembler.EmittedCount | assembler_main.cpp:339-341 | one instruction is emitted per line with a non-empty body |
| Assembler.Assembled | assembler_main.cpp:333-344 | reference definition of `assemble` over the reformatted lines |
| Assembler.AssembledOutcome | assembler_main.cpp:333-344 | assembly succeeds exactly when every line does; otherwise it reports the first failing line's error |
| Assembler.AssembledWords | assembler_main.cpp:333-344 | one word per non-empty line body, in line order, each unpacking to the instruction of its line |
| Assembler.AssembleLines | assembler_main.cpp:336-343 | the loop over lines computes `Assembled` |
| Assembler.Assemble | assembler_main.cpp:333-344 | `assemble` is the loop over the reformatted lines |
| AssemblerExamples.ZeroRegister | assembler_main.cpp:398 | `r0` decodes to register 0 |
| AssemblerExamples.ZeroBinomial | assembler_main.cpp:275-288 | a binomial with operands `r0,r0` has both registers 0 and no mode bit |
| AssemblerExamples.ZeroPairParts | assembler_main.cpp:275-288 | a binomial mnemonic with operands `r0,r0` assembles to that word |
| AssemblerExamples.NopIsXchg | assembler_main.cpp:223-225 | `nop` assembles to `xchg r0,r0` |
| AssemblerExamples.RaiseIsCmp | assembler_main.cpp:226-228 | `raise` assembles to `cmp r0,r0` |
| AssemblerExamples.MovExpands | assembler_main.cpp:229-237 | the parts of `mov a,b` are rewritten to `add a,b,r0` |
| AssemblerExamples.MovIsAdd | assembler_main.cpp:229-237 | `mov a,b` assembles exactly as `add a,b,r0` |
| AssemblerExamples.MovNeedsTwo | assembler_main.cpp:229-237 | `mov` with one operand fails with an operand count of 1 where 2 are expected |
| AssemblerExamples.BodyNoColon | assembler_main.cpp:211-218 | a trimmed line without `:` is its own body |
| AssemblerExamples.OrdinaryUnchanged | assembler_main.cpp:222-237 | only `nop`, `raise` and `mov` are rewritten |
| AssemblerExamples.OrdinaryBody | assembler_main.cpp:220-237 | an ordinary `mnemonic operands` body is assembled from those two parts |
| AssemblerExamples.PartsWithOperands | assembler_main.cpp:245-253 | the operands of a mnemonic that takes some are its second part split at `,` |
| AssemblerExamples.RegisterImmediateNames | assembler_main.cpp:391-393 | the register-immediate mnemonics are `asgn`, `asgnh` and `asgnl` |
| AssemblerExamples.ImmediateRefused | assembler_main.cpp:309-318 | a register-immediate line whose second operand is not a literal fails with "operand 2 must be immediate" |
| AssemblerExamples.TenIsNotImmediate | assembler_main.cpp:315-318 | `asgn r0,10` fails because `10` does not match the literal pattern |
| AssemblerExamples.JumpBody | assembler_main.cpp:296-299 | a jump to a label assembles to a unary word of type 0b11 holding the label's line index |
| AssemblerExamples.JumpTypeUnary | assembler_main.cpp:373-382 | every jump-type mnemonic has the unary format |
| AssemblerExamples.EndLabel | assembler_main.cpp:176-194 | in `jmp end`, `add rs0,rs0,rs0`, `end:hlt` the label `end` resolves to 2 |
| AssemblerExamples.JumpToEnd | assembler_main.cpp:289-308 | `jmp end` assembles to a `jmp` word with immediate 2 |
| AssemblerExamples.JumpLine | assembler_main.cpp:151-325 | line 0 of that program assembles to the `jmp` word with immediate 2 |
| AssemblerExamples.LineOfBody | assembler_main.cpp:207-218 | a line with a non-empty body assembles as its body does |
| FlagsRegister.GetBit | emulator_main.cpp:51-53 | reference definition of `_get`: whether the bit is set in the word |
| FlagsRegister.SetBit | emulator_main.cpp:39-45 | reference definition of `_set`: the word with that bit set or cleared |
| FlagsRegister.SetThenGet | emulator_main.cpp:39-53 | after `_set(bit, w)`, `_get(bit)` returns w, and no other bit changes |
| FlagsRegister.SetKeepsOthers | emulator_main.cpp:39-53 | setting one of the equal, above and halt bits leaves the other two as they were |
| FlagsRegister.SetSame | emulator_main.cpp:39-53 | setting a bit to its current value changes nothing |
| FlagsRegister.Flags.constructor | emulator_main.cpp:56 | a new flags word is 0 |
| FlagsRegister.Flags.Set | emulator_main.cpp:39-45 | `_set` updates the word as `SetBit` says |
| FlagsRegister.Flags.SetEqual | emulator_main.cpp:62-64 | the equal flag is bit 0 |
| FlagsRegister.Flags.SetAbove | emulator_main.cpp:77-79 | the above flag is bit 1 |
| FlagsRegister.Flags.SetHalt | emulator_main.cpp:92-94 | the halt flag is bit 2 |
| ByteStack.Bytes64 | emulator_main.cpp:160-162 | a 64-bit value is pushed as 8 bytes that read back as the value |
| ByteStack.Bytes32 | emulator_main.cpp:167-169 | a 32-bit value is pushed as 4 bytes that read back as the value |
| ByteStack.Bytes16 | emulator_main.cpp:174-176 | a 16-bit value is pushed as 2 bytes that read back as the value |
| ByteStack.Word64Bytes | emulator_main.cpp:190-192 | 8 popped bytes read as a value push back as the same bytes |
| ByteStack.PushedOnTop | emulator_main.cpp:141-154 | pushed bytes are the top of the stack, and the stack below them is the old one |
| ByteStack.Stack.constructor | emulator_main.cpp:131-133 | a new stack is empty |
| ByteStack.Stack.PushImpl | emulator_main.cpp:141-143 | `_push_impl` appends the bytes at the end |
| ByteStack.Stack.PopImpl | emulator_main.cpp:149-154 | `_pop_impl` fills the buffer with the top bytes in their order and removes them |
| ByteStack.Stack.Push64 | emulator_main.cpp:160-162 | pushes the 8 bytes of a 64-bit value |
| ByteStack.Stack.Push32 | emulator_main.cpp:167-169 | pushes the 4 bytes of a 32-bit value |
| ByteStack.Stack.Push16 | emulator_main.cpp:174-176 | pushes the 2 bytes of a 16-bit value |
| ByteStack.Stack.Push8 | emulator_main.cpp:181-183 | pushes one byte |
| ByteStack.Stack.Pop64 | emulator_main.cpp:190-192 | with at least 8 bytes, pops the top 8 bytes as a 64-bit value |
| ByteStack.Stack.Pop32 | emulator_main.cpp:197-199 | with at least 4 bytes, pops the top 4 bytes as a 32-bit value |
| ByteStack.Stack.Pop16 | emulator_main.cpp:204-206 | with at least 2 bytes, pops the top 2 bytes as a 16-bit value |
| ByteStack.Stack.Pop8 | emulator_main.cpp:211-213 | with at least 1 byte, pops the top byte |
| ByteStack.PushPop64 | emulator_main.cpp:160-192 | popping 64 bits after pushing 64 bits returns the value and restores the stack exactly |
| ByteStack.MixedLifo | emulator_main.cpp:160-213 | pushes of 64, 16 and 8 bits undone in reverse order return each value and restore the stack |
| Semantics.Alu | emulator_main.cpp:305-336 | reference definition of the nine three-address operations modulo 2^64, with `shl` computing `src1 << src1` |
| Semantics.ExecThreeAddress | emulator_main.cpp:304-342 | reference definition: the destination receives the operation on the two sources; any other operation raises an exception |
| Semantics.Compare | emulator_main.cpp:354-357 | reference definition of `cmp`'s flags: `equal` is written with `op1 == op2` and then with `op1 > op2`; `above` is not written |
| Semantics.ExecBinomial | emulator_main.cpp:343-363 | reference definition of `not`, `xchg` and `cmp`; any other operation raises an exception |
| Semantics.Taken | emulator_main.cpp:397-420 | reference definition of the jump conditions of `jmp`, `jr`, `je`, `jne`, `ja`, `jae`, `jb` and `jbe` |
| Semantics.ExecUnary | emulator_main.cpp:364-440 | reference definition of `inc`, `dec`, `push`, `pop`, `call` and the jumps; any other operation raises an exception |
| Semantics.ExecNoOperand | emulator_main.cpp:441-453 | reference definition of `hlt` and `ret`; any other operation raises an exception |
| Semantics.Loaded | emulator_main.cpp:458-474 | reference definition of the value `asgn`, `asgnh` and `asgnl` leave in the register |
| Semantics.ExecRegisterImmediate | emulator_main.cpp:454-476 | reference definition: the register receives the loaded value; any other operation raises an exception |
| Semantics.Exec | emulator_main.cpp:303-477 | reference definition of the format switch; format codes 5 to 7 do nothing |
| Semantics.Step | emulator_main.cpp:298-478 | one step keeps the machine well-formed: a halted machine is unchanged, otherwise the fetched instruction runs after the instruction pointer advances |
| Semantics.Trace | emulator_main.cpp:494-497 | the run loop keeps the machine well-formed, stepping until it stops or the fuel runs out |
| Semantics.RaiseException | emulator_main.cpp:278-285 | raising an exception clears the halt flag and changes no register and no stack byte |
| Semantics.TraceUnfold | emulator_main.cpp:494-497 | a run that is not stopped takes one step and then continues |
| Semantics.StoppedStays | emulator_main.cpp:494-497 | a run without fuel, or past the end of the program, or halted, changes nothing |
| Emulator.Cpu.constructor | emulator_main.cpp:235 | a new cpu has every register 0, no flag set, an empty stack and the given program |
| Emulator.Cpu.RaiseException | emulator_main.cpp:278-285 | only the halt bit of the flags changes, to 0 |
| Emulator.Cpu.ExecuteThreeAddress | emulator_main.cpp:304-342 | the registers and flags change as `ExecThreeAddress` says |
| Emulator.Cpu.ExecuteBinomial | emulator_main.cpp:343-363 | the registers and flags change as `ExecBinomial` says |
| Emulator.Cpu.Negate | emulator_main.cpp:348-350 | operand 1 receives the complement of operand 2 |
| Emulator.Cpu.Exchange | emulator_main.cpp:351-353 | the two registers swap their values |
| Emulator.Cpu.CompareOperands | emulator_main.cpp:354-357 | the flags change as `cmp` writes them |
| Emulator.Cpu.ReadData | emulator_main.cpp:365-376 | the operand value is the register for type 0b00, the immediate for type 0b11, and 0 otherwise |
| Emulator.Cpu.JumpTaken | emulator_main.cpp:397-420 | a jump is taken as the flags table of `Taken` says |
| Emulator.Cpu.WriteBack | emulator_main.cpp:426-435 | a result is written back only to a register operand |
| Emulator.Cpu.CallTo | emulator_main.cpp:397-402 | `call` pushes the advanced instruction pointer and jumps |
| Emulator.Cpu.JumpTo | emulator_main.cpp:436-438 | a taken jump sets the instruction pointer to the operand value |
| Emulator.Cpu.ExecuteUnary | emulator_main.cpp:364-440 | the registers, flags and stack change as `ExecUnary` says |
| Emulator.Cpu.ExecuteNoOperand | emulator_main.cpp:441-453 | the registers, flags and stack change as `ExecNoOperand` says |
| Emulator.Cpu.ExecuteRegisterImmediate | emulator_main.cpp:454-476 | the register changes as `ExecRegisterImmediate` says |
| Emulator.Cpu.Next | emulator_main.cpp:298-478 | one fetch-decode-execute step changes the cpu exactly as `Step` says |
| Emulator.Cpu.Runnable | emulator_main.cpp:494 | the loop continues exactly when there is a next instruction, the cpu is not halted and the step is defined |
| Emulator.Cpu.RunOnce | emulator_main.cpp:494-497 | one turn of the run loop is one step of `Trace` |
| Emulator.Cpu.Run | emulator_main.cpp:494-497 | the run loop leaves the cpu in the state `Trace` gives, within the fuel bound |
| Emulator.LoadValue | emulator_main.cpp:458-474 | the step-by-step computation of `asgn`, `asgnh` and `asgnl` gives the value `Loaded` describes |
| Behaviour.HaltedIsIdle | emulator_main.cpp:298-299 | a halted cpu does not change, in one step or in any run |
| Behaviour.UndefinedIsSkipped | emulator_main.cpp:303-477 | an undefined operation, or format code 5 to 7, only advances the instruction pointer |
| Behaviour.HaltHalts | emulator_main.cpp:443-445 | `hlt` sets the halt flag and changes no register, no stack byte and no other flag |
| Behaviour.CompareFlags | emulator_main.cpp:354-357 | after `cmp` the equal flag is `op1 > op2`, and above, halt, the registers and the stack are unchanged |
| Behaviour.BranchAfterCompare | emulator_main.cpp:403-420 | after `cmp`, `je` is taken exactly when op1 > op2, `jne` when it is not, and `ja` and `jb` follow the old above flag |
| Behaviour.ReturnUndoesCall | emulator_main.cpp:397-448 | `ret` after `call` restores the machine exactly |
| Behaviour.PopUndoesPush | emulator_main.cpp:389-395 | `pop` after `push` writes the pushed value back and restores the stack |
| Behaviour.NoWriteBackWithoutRegister | emulator_main.cpp:426-435 | `inc`, `dec` and `pop` with a non-register operand write no register |
| Behaviour.HighHalfLoad | emulator_main.cpp:461-465 | `asgnh` puts the immediate's low 32 bits in the high half and keeps the low half |
| Behaviour.LowHalfLoad | emulator_main.cpp:466-469 | `asgnl` puts the immediate's low 32 bits in the low half and keeps the high half |
| Behaviour.LoadConstant | emulator_main.cpp:458-474 | `asgnh` then `asgnl` loads a full 64-bit constant whatever the register held |
| Behaviour.ShiftLeftIgnoresSecondSource | emulator_main.cpp:325-327 | `shl` ignores its second source and computes `src1 << src1` |
| Behaviour.TraceSplit | emulator_main.cpp:494-497 | running for a+b steps is running for a steps and then for b |
| Behaviour.TraceSplitStep | emulator_main.cpp:494-497 | the same split when the first step is taken |
| EmulatorExamples.JumpOverAdd | emulator_main.cpp:298-478 | `jmp 2`, `add`, `hlt` halts with the instruction pointer at 3, leaving `rs0` and the stack untouched |
| Agreement.TableMatchesEmulator | assembler_main.cpp:359-394 | an opcode has a mnemonic exactly when the emulator defines its operation |
| Agreement.EveryMnemonicExecutes | assembler_main.cpp:359-394 | every mnemonic's opcode is defined by the emulator |
| Agreement.EveryOperationNamed | emulator_main.cpp:303-477 | every operation the emulator defines has a mnemonic |
| Agreement.ZeroWordHalts | emulator_main.cpp:441-445 | the all-zero word executes as `hlt` |
| Agreement.ZeroAtIpHalts | emulator_main.cpp:298-301 | a step onto a zero word halts the cpu and advances the instruction pointer |
| Agreement.LoadedProgramHalts | binary.cpp:36-41 | a loaded program ends in the extra zero record, which halts a run that reaches it |

## Left out

- File and console I/O are not modelled:
  - `read_file`, the file streams of `load_binary` and `save_binary`, both `main` functions, command-line parsing, the per-step printing of the run loop, and the `dump` formatters.
  - The codec and the loader work on byte sequences in memory.
  - Assembly errors are values carrying the line index and an error kind, not the message text.
- `std::regex` and the Boost string algorithms are replaced by functions with the same effect: `Collapse`, `Split`, `Trim`, `StripOpen`/`StripClose` and `IsLiteral`.
- Memory operands are not modelled beyond what the source does. The source has no memory: pointer operands assemble with mode 1, and the emulator reads them as 0 and never writes them.
- Layout choices the C++ code leaves to the compiler or the host are fixed:
  - Bit-field placement is least-significant bit first, in declaration order. In particular, the unary payload starts right after the 2-bit type.
  - The stack's host byte order is little-endian.
- The tail `remove_if` leaves is unspecified in C++. It is modelled as empty strings, which is the libstdc++ outcome.
- A label resolves to the index of its line among the reformatted lines, as the code computes it: in `jmp end`, `add rs0,rs0,rs0`, `end:hlt` the label `end` is 2. This is not a count of emitted words.
- Assembler.RegisterOptionZero: the size keywords `byte`, `word` and `dword` need at least three space-separated tokens in one operand. `assemble_line` has already split the line at spaces, so through `assemble_line` the option is always 0. `DecodeOperand` still models the keywords.
- Assembler.AssembleLine: an access the source leaves unchecked is an error value.
  - A missing `parts[1]` is `MissingOperand`.
  - An exception from `stoull` is `BadNumber`.
- Emulator.Cpu.Next: behaviour that is undefined in C++ is excluded by the precondition `CanStep`, not modelled:
  - division by zero;
  - a shift by 64 or more;
  - `pop` or `ret` on fewer than 8 stack bytes;
  - an instruction pointer past the end of the program.
- Emulator.Cpu.Run: the loop `has_next() && !halted()` is bounded by a fuel argument. It also stops before a step whose effect is undefined in C++, where the source would continue.
- Characters are Unicode code points, and `Lower` changes only `A` to `Z`. The source works on bytes in the C locale; input outside ASCII is not modelled.
- Codec.EncodeAt states where each word's bytes sit in the output. The byte order within a word is stated by `EncodeWord` and `DecodeWord`.

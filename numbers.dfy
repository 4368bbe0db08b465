/**
 * Numeric literals of the assembler: the literal pattern of `assemble_line`,
 * the `stoull` conversion it relies on, and `decode_immediate`, which picks the
 * base from the literal's prefix.
 */
module Numbers {
  import opened Results
  import opened Text

  /** The two exceptions `std::stoull` can throw. */
  datatype ConversionError = InvalidArgument | OutOfRange

  const ULL_LIMIT: int := 0x1_0000_0000_0000_0000

  /** The value `strtoull` gives a character: 0-9 for digits, 10-35 for letters
      of either case, and 36 (a digit in no base) for anything else. */
  function DigitValue(c: char): (d: nat)
    ensures d <= 36
    ensures d < 10 <==> '0' <= c <= '9'
  {
    if '0' <= c <= '9' then c as int - '0' as int
    else if 'a' <= c <= 'z' then c as int - 'a' as int + 10
    else if 'A' <= c <= 'Z' then c as int - 'A' as int + 10
    else 36
  }

  predicate IsDigit(c: char, base: nat) {
    DigitValue(c) < base
  }

  predicate AllDigits(s: string, base: nat) {
    forall i :: 0 <= i < |s| ==> IsDigit(s[i], base)
  }

  /** The length of the longest run of digits of `base` at the front of `s`. */
  function DigitRun(s: string, base: nat): (n: nat)
    ensures n <= |s| && AllDigits(s[..n], base)
    ensures n < |s| ==> !IsDigit(s[n], base)
  {
    if s == [] || !IsDigit(s[0], base) then 0
    else
      var n := DigitRun(s[1..], base);
      assert s[..n + 1] == [s[0]] + s[1..][..n];
      n + 1
  }

  /** The value of a numeral written most significant digit first. */
  function Value(digits: string, base: nat): nat
    decreases |digits|
  {
    if digits == [] then 0
    else Value(digits[..|digits| - 1], base) * base + DigitValue(digits[|digits| - 1])
  }

  /** What `stoull` returns for a magnitude that `strtoull` accumulated. */
  function Convert(v: nat, negative: bool): (r: Result<bv64, ConversionError>)
    ensures r.Success? <==> v < ULL_LIMIT
    ensures r.Failure? ==> r.error == OutOfRange
  {
    if v >= ULL_LIMIT then Failure(OutOfRange)
    else if negative then Success(if v == 0 then 0 else (ULL_LIMIT - v) as bv64)
    else Success(v as bv64)
  }

  /**
   * `std::stoull(s, nullptr, base)` for the bases the assembler uses: leading
   * whitespace is skipped, one sign is accepted (a minus negates modulo 2^64),
   * base 16 accepts a `0x`/`0X` prefix, and the longest run of digits is
   * converted. No digit at all is `invalid_argument`; a magnitude of 2^64 or
   * more is `out_of_range`. Text after the digits is ignored.
   */
  function ParseULL(s: string, base: nat): (r: Result<bv64, ConversionError>)
    requires base == 8 || base == 10 || base == 16
    ensures r == Failure(InvalidArgument) <==>
              var u := Unsigned(s[LeadingSpaces(s)..]);
              u == [] || !IsDigit(u[0], base)
  {
    var t := s[LeadingSpaces(s)..];
    var negative := |t| > 0 && t[0] == '-';
    var w := DigitsStart(Unsigned(t), base);
    var n := DigitRun(w, base);
    if n == 0 then Failure(InvalidArgument)
    else Convert(Value(w[..n], base), negative)
  }

  /** The text after an optional sign. */
  function Unsigned(t: string): string {
    if |t| > 0 && (t[0] == '+' || t[0] == '-') then t[1..] else t
  }

  /** Where the digits start: after a `0x`/`0X` prefix in base 16 when a hex
      digit follows it, at the front otherwise. */
  function DigitsStart(u: string, base: nat): (w: string)
    ensures u != [] && IsDigit(u[0], base) ==> w != [] && IsDigit(w[0], base)
    ensures u == [] || !IsDigit(u[0], base) ==> w == u
  {
    if base == 16 && |u| >= 3 && u[0] == '0' && (u[1] == 'x' || u[1] == 'X') && IsDigit(u[2], 16)
    then u[2..] else u
  }

  /** The digit run of a string made only of digits is the whole string. */
  lemma {:induction false} DigitRunOfDigits(s: string, base: nat)
    requires AllDigits(s, base)
    ensures DigitRun(s, base) == |s|
    decreases |s|
  {
    if s != [] {
      assert AllDigits(s[1..], base) by {
        forall i | 0 <= i < |s[1..]| ensures IsDigit(s[1..][i], base) {
          assert s[1..][i] == s[i + 1];
        }
      }
      DigitRunOfDigits(s[1..], base);
    }
  }

  /** A string made only of digits of `base` converts to its own value. */
  lemma ParseDigits(s: string, base: nat)
    requires base == 8 || base == 10 || base == 16
    requires s != [] && AllDigits(s, base)
    ensures ParseULL(s, base) == Convert(Value(s, base), false)
  {
    assert IsDigit(s[0], base);
    assert !IsSpace(s[0]) && s[0] != '+' && s[0] != '-';
    if LeadingSpaces(s) > 0 {
      assert false;
    }
    var t := s[LeadingSpaces(s)..];
    assert t == s;
    assert |s| >= 3 ==> s[1] != 'x' && s[1] != 'X' by {
      if |s| >= 3 {
        assert IsDigit(s[1], base);
      }
    }
    assert Unsigned(s) == s;
    assert DigitsStart(s, base) == s;
    var k := DigitRun(s, base);
    assert k == |s|;
    assert s[..k] == s;
  }

  predicate IsHexLiteral(s: string) {
    |s| >= 3 && s[0] == '0' && s[1] == 'x' && AllDigits(s[2..], 16)
  }

  predicate IsOctalLiteral(s: string) {
    |s| >= 2 && s[0] == '0' && forall i :: 1 <= i < |s| ==> '0' <= s[i] <= '7'
  }

  predicate IsDecimalLiteral(s: string) {
    |s| >= 1 && '0' <= s[0] <= '9' && forall i :: 1 <= i < |s| ==> '1' <= s[i] <= '9'
  }

  /** Full match of the assembler's literal pattern
      `0x[0-9a-fA-F]+|0[0-7]+|[0-9][1-9]*|0`. */
  predicate IsLiteral(s: string) {
    IsHexLiteral(s) || IsOctalLiteral(s) || IsDecimalLiteral(s) || s == "0"
  }

  /** `decode_immediate`: base 16 after `0x`, base 8 after any other leading
      `0` of a token longer than one character, base 10 otherwise. */
  function DecodeImmediate(num: string): (r: Result<bv64, ConversionError>)
    ensures |num| >= 2 && num[0] == '0' && num[1] == 'x' ==> r == ParseULL(num[2..], 16)
    ensures |num| >= 2 && num[0] == '0' && num[1] != 'x' ==> r == ParseULL(num[1..], 8)
    ensures !(|num| >= 2 && num[0] == '0') ==> r == ParseULL(num, 10)
  {
    if |num| > 0 && num[0] == '0' && |num| != 1 then
      if num[1] == 'x' then ParseULL(num[2..], 16) else ParseULL(num[1..], 8)
    else ParseULL(num, 10)
  }

  /** A hexadecimal literal decodes to the value of its digits after `0x`. */
  lemma HexLiteralValue(s: string)
    requires IsHexLiteral(s)
    ensures DecodeImmediate(s) == Convert(Value(s[2..], 16), false)
  {
    ParseDigits(s[2..], 16);
  }

  /** An octal literal decodes to the base-8 value of its digits after the 0. */
  lemma OctalLiteralValue(s: string)
    requires IsOctalLiteral(s)
    ensures DecodeImmediate(s) == Convert(Value(s[1..], 8), false)
  {
    assert AllDigits(s[1..], 8) by {
      forall i | 0 <= i < |s[1..]| ensures IsDigit(s[1..][i], 8) {
        assert s[1..][i] == s[i + 1];
      }
    }
    assert s[1] != 'x';
    ParseDigits(s[1..], 8);
  }

  /** A decimal literal that does not start with 0, and the literal 0 itself,
      decode to their decimal value. */
  lemma DecimalLiteralValue(s: string)
    requires IsDecimalLiteral(s) && (s[0] != '0' || s == "0")
    ensures DecodeImmediate(s) == Convert(Value(s, 10), false)
  {
    assert AllDigits(s, 10) by {
      forall i | 0 <= i < |s| ensures IsDigit(s[i], 10) {
        if i > 0 {
          assert '1' <= s[i] <= '9';
        }
      }
    }
    ParseDigits(s, 10);
  }

  /** A decimal-looking literal that starts with 0 is read in base 8 after the
      0, so only its leading octal digits count, and none at all is an error. */
  lemma ZeroLedDecimalValue(s: string)
    requires IsDecimalLiteral(s) && |s| >= 2 && s[0] == '0'
    ensures var n := DigitRun(s[1..], 8);
            DecodeImmediate(s) == if n == 0 then Failure(InvalidArgument) else Convert(Value(s[1..][..n], 8), false)
  {
    var t := s[1..];
    assert t[0] == s[1];
    assert s[1] != 'x';
    assert !IsSpace(t[0]) && t[0] != '+' && t[0] != '-';
    assert LeadingSpaces(t) == 0;
    assert t[0..] == t;
  }

  /** Every token the literal pattern accepts decodes to the value its prefix
      promises: hexadecimal after `0x`, octal after a leading 0, decimal for 0
      and for decimals without a leading 0, and only the leading octal digits
      of a zero-led decimal. */
  lemma LiteralDecodes(s: string)
    requires IsLiteral(s)
    ensures IsHexLiteral(s) ==> DecodeImmediate(s) == Convert(Value(s[2..], 16), false)
    ensures IsOctalLiteral(s) ==> DecodeImmediate(s) == Convert(Value(s[1..], 8), false)
    ensures s == "0" || s[0] != '0' ==> DecodeImmediate(s) == Convert(Value(s, 10), false)
    ensures !IsHexLiteral(s) && |s| >= 2 && s[0] == '0' ==>
              var n := DigitRun(s[1..], 8);
              DecodeImmediate(s) == if n == 0 then Failure(InvalidArgument) else Convert(Value(s[1..][..n], 8), false)
  {
    if IsHexLiteral(s) {
      HexLiteralValue(s);
    } else if IsOctalLiteral(s) {
      OctalLiteralValue(s);
      assert DigitRun(s[1..], 8) == |s[1..]| by {
        assert AllDigits(s[1..], 8) by {
          forall i | 0 <= i < |s[1..]| ensures IsDigit(s[1..][i], 8) {
            assert s[1..][i] == s[i + 1];
          }
        }
        DigitRunOfDigits(s[1..], 8);
      }
      assert s[1..][..|s[1..]|] == s[1..];
    } else if s == "0" || s[0] != '0' {
      DecimalLiteralValue(s);
    } else {
      ZeroLedDecimalValue(s);
    }
  }

  /** The decimal alternative of the pattern admits no 0 after the first
      digit, so 10 and 100 are not literals, while 019 and 09 are. */
  lemma TensAreNotLiterals()
    ensures !IsLiteral("10") && !IsLiteral("100")
    ensures IsLiteral("0") && IsLiteral("019") && IsLiteral("09")
  {
    assert !IsDecimalLiteral("10") by {
      assert "10"[1] == '0';
    }
    assert !IsDecimalLiteral("100") by {
      assert "100"[1] == '0';
    }
  }
}

/** Worked examples of the literal rules. */
module LiteralExamples {
  import opened Results
  import opened Numbers

  /** 019 decodes to 1: the 9 is not an octal digit.
      (Example strings are parameters so that the verifier reasons about them
      through the lemmas above rather than by unfolding every definition.) */
  lemma ZeroLedExample(a: string)
    requires a == "019"
    ensures DecodeImmediate(a) == Success(1)
  {
    ZeroLedDecimalValue(a);
    var d := a[1..];
    assert d[0] == '1' && d[1] == '9';
    assert DigitRun(d, 8) == 1;
    assert d[..1][..0] == [];
    assert Value(d[..1], 8) == 1;
    SmallConverts(Value(d[..1], 8), 1);
  }

  /** 09 is refused by `stoull` in base 8. */
  lemma ZeroNineExample(b: string)
    requires b == "09"
    ensures DecodeImmediate(b) == Failure(InvalidArgument)
  {
    ZeroLedDecimalValue(b);
    assert b[1..] == "9";
  }

  /** A hexadecimal literal: 0x1f is 31. */
  lemma HexLiteralExample(h: string)
    requires h == "0x1f"
    ensures DecodeImmediate(h) == Success(31)
  {
    HexLiteralValue(h);
    var d := h[2..];
    assert d[0] == '1' && d[1] == 'f';
    TwoDigitValue(d, 16, 1, 15);
    SmallConverts(Value(d, 16), 31);
  }

  /** An octal literal: 017 is 15. */
  lemma OctalLiteralExample(o: string)
    requires o == "017"
    ensures DecodeImmediate(o) == Success(15)
  {
    OctalLiteralValue(o);
    var d := o[1..];
    assert d[0] == '1' && d[1] == '7';
    TwoDigitValue(d, 8, 1, 7);
    SmallConverts(Value(d, 8), 15);
  }

  /** The value of a two-digit numeral. */
  lemma TwoDigitValue(d: string, base: nat, high: nat, low: nat)
    requires |d| == 2 && DigitValue(d[0]) == high && DigitValue(d[1]) == low
    ensures Value(d, base) == high * base + low
  {
    var first := d[..1];
    assert first[..0] == [] && first[0] == d[0];
    assert Value(first, base) == 0 * base + high;
    assert Value(d, base) == Value(first, base) * base + low;
  }

  /** A magnitude below 2^64 converts to the word of that value. */
  lemma SmallConverts(v: nat, w: bv64)
    requires v == w as int
    ensures Convert(v, false) == Success(w)
  {
  }
}

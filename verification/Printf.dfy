/** The two formatted printers of the HAL: `alt_log_private_printf` and `alt_printf`. */
module Printf {
  import opened Words
  import opened Digits

  /** One variable argument: its word, and the string it points to when used with %s. */
  datatype Arg = Arg(word: Word32, text: string)

  type Word32 = x: int | 0 <= x < U32

  function Rep(c: char, n: int): (s: string)
    ensures |s| == Max(0, n)
    ensures forall k :: 0 <= k < |s| ==> s[k] == c
  {
    if n <= 0 then "" else seq(n, _ => c)
  }

  function DigitChar(d: nat, upper: bool): char
    requires d < 16
  {
    if d <= 9 then '0' + d as char else if upper then 'A' + (d - 10) as char else 'a' + (d - 10) as char
  }

  function Chars(digits: seq<nat>, upper: bool): (s: string)
    requires forall k :: 0 <= k < |digits| ==> digits[k] < 16
    ensures |s| == |digits|
  {
    seq(|digits|, k requires 0 <= k < |digits| => DigitChar(digits[k], upper))
  }

  function Magnitude(v: Word32, signed: bool): nat
  {
    if Negative(v, signed) then U32 - v else v
  }

  predicate Negative(v: Word32, signed: bool)
  {
    signed && v >= 0x8000_0000
  }

  /** The digits of a number, without leading zeros. */
  function Numeral(v: nat, base: int, upper: bool): string
    requires IsBase(base)
  {
    LowIsDigits(v, base, Count(v, base));
    Chars(Low(v, base, Count(v, base)), upper)
  }

  /** An integer field: spaces before the sign, or zeros after it. */
  function Field(v: Word32, base: int, signed: bool, upper: bool, zero: bool, width: int): string
    requires IsBase(base)
  {
    var sign := if Negative(v, signed) then "-" else "";
    var digits := Numeral(Magnitude(v, signed), base, upper);
    var pad := width - |digits| - |sign|;
    Lead(sign, zero, pad) + digits
  }

  /** What comes before the digits. */
  function Lead(sign: string, zero: bool, pad: int): string
  {
    if zero then sign + Rep('0', pad) else Rep(' ', pad) + sign
  }

  // Reading a field back.

  function DigitOf(c: char): nat
  {
    if '0' <= c <= '9' then c as nat - '0' as nat
    else if 'a' <= c <= 'f' then c as nat - 'a' as nat + 10
    else if 'A' <= c <= 'F' then c as nat - 'A' as nat + 10
    else 0
  }

  /** The number a string of digits stands for. */
  function Read(s: string, base: int): nat
    requires IsBase(base)
  {
    if s == "" then 0 else Mul(base, Read(s[..|s| - 1], base)) + DigitOf(s[|s| - 1])
  }

  /** A field as an integer: skip spaces, take a sign, read digits. */
  function ReadField(s: string, base: int): int
    requires IsBase(base)
  {
    if s != "" && s[0] == ' ' then ReadField(s[1..], base)
    else if s != "" && s[0] == '-' then 0 - Read(s[1..], base)
    else Read(s, base)
  }

  lemma DigitCharReads(d: nat, upper: bool)
    requires d < 16
    ensures DigitOf(DigitChar(d, upper)) == d
  {
  }

  lemma CharsPrefix(digits: seq<nat>, n: nat, upper: bool)
    requires n <= |digits| && forall k :: 0 <= k < |digits| ==> digits[k] < 16
    ensures Chars(digits, upper)[..n] == Chars(digits[..n], upper)
  {
  }

  lemma {:induction false} ReadChars(digits: seq<nat>, base: int, upper: bool)
    requires IsBase(base) && forall k :: 0 <= k < |digits| ==> digits[k] < base
    ensures Read(Chars(digits, upper), base) == Value(digits, base)
  {
    if digits != [] {
      var n := |digits| - 1;
      var s := Chars(digits, upper);
      CharsPrefix(digits, n, upper);
      DigitCharReads(digits[n], upper);
      ReadChars(digits[..n], base, upper);
      assert Read(s, base) == Mul(base, Read(s[..n], base)) + DigitOf(s[n]);
    }
  }

  lemma ReadNumeral(v: nat, base: int, upper: bool)
    requires IsBase(base)
    ensures Read(Numeral(v, base, upper), base) == v
  {
    LowIsDigits(v, base, Count(v, base));
    ReadChars(Low(v, base, Count(v, base)), base, upper);
    CountIsExact(v, base);
    ValueOfLow(v, base, Count(v, base));
  }

  lemma {:induction false} ReadZeros(n: int, s: string, base: int)
    requires IsBase(base)
    ensures Read(Rep('0', n) + s, base) == Read(s, base)
    decreases |s|, n
  {
    var t := Rep('0', n) + s;
    if s != "" {
      assert t[..|t| - 1] == Rep('0', n) + s[..|s| - 1];
      ReadZeros(n, s[..|s| - 1], base);
    } else if n > 0 {
      assert t[..|t| - 1] == Rep('0', n - 1) + s;
      ReadZeros(n - 1, s, base);
    }
  }

  lemma {:induction false} ReadSpaces(n: int, s: string, base: int)
    requires IsBase(base)
    ensures ReadField(Rep(' ', n) + s, base) == ReadField(s, base)
    decreases n
  {
    var t := Rep(' ', n) + s;
    if n > 0 {
      assert t[1..] == Rep(' ', n - 1) + s;
      ReadSpaces(n - 1, s, base);
    } else {
      assert t == s;
    }
  }

  lemma NumeralStart(v: nat, base: int, upper: bool)
    requires IsBase(base)
    ensures var s := Numeral(v, base, upper); s != "" && s[0] != ' ' && s[0] != '-'
  {
    LowIsDigits(v, base, Count(v, base));
  }

  lemma Associate(a: string, b: string, c: string)
    ensures a + b + c == a + (b + c)
  {
  }

  lemma ReadSigned(sign: string, digits: string, base: int)
    requires IsBase(base) && digits != "" && digits[0] != ' ' && digits[0] != '-' && (sign == "" || sign == "-")
    ensures ReadField(sign + digits, base) == if sign == "" then Read(digits, base) else 0 - Read(digits, base)
  {
    assert (sign + digits)[|sign|..] == digits;
    if sign == "" {
      assert sign + digits == digits;
    }
  }

  lemma ReadZeroPadded(sign: string, pad: int, digits: string, base: int)
    requires IsBase(base) && digits != "" && digits[0] != ' ' && digits[0] != '-' && (sign == "" || sign == "-")
    ensures ReadField(sign + Rep('0', pad) + digits, base) == ReadField(sign + digits, base)
  {
    var zeros := Rep('0', pad);
    assert (zeros + digits)[0] == if pad > 0 then zeros[0] else digits[0];
    ReadZeros(pad, digits, base);
    ReadSigned(sign, digits, base);
    ReadSigned(sign, zeros + digits, base);
    Associate(sign, zeros, digits);
  }

  lemma ReadSpacePadded(sign: string, pad: int, digits: string, base: int)
    requires IsBase(base)
    ensures ReadField(Rep(' ', pad) + sign + digits, base) == ReadField(sign + digits, base)
  {
    ReadSpaces(pad, sign + digits, base);
    Associate(Rep(' ', pad), sign, digits);
  }

  /** The field reads back as the signed or unsigned value of the word, for every base, width and padding. */
  lemma FieldReadsBack(v: Word32, base: int, signed: bool, upper: bool, zero: bool, width: int)
    requires IsBase(base)
    ensures ReadField(Field(v, base, signed, upper, zero, width), base) == if Negative(v, signed) then v - U32 else v
  {
    var sign := if Negative(v, signed) then "-" else "";
    var digits := Numeral(Magnitude(v, signed), base, upper);
    ReadNumeral(Magnitude(v, signed), base, upper);
    NumeralStart(Magnitude(v, signed), base, upper);
    ReadSigned(sign, digits, base);
    ReadZeroPadded(sign, width - |digits| - |sign|, digits, base);
    ReadSpacePadded(sign, width - |digits| - |sign|, digits, base);
  }

  /** The field is as wide as asked for, or as wide as the digits and the sign need. */
  lemma FieldLength(v: Word32, base: int, signed: bool, upper: bool, zero: bool, width: int)
    requires IsBase(base)
    ensures |Field(v, base, signed, upper, zero, width)|
         == Max(width, Count(Magnitude(v, signed), base) + if Negative(v, signed) then 1 else 0)
  {
  }

  /** No numeral starts with a zero but the one for zero. */
  lemma NoLeadingZero(v: nat, base: int, upper: bool)
    requires IsBase(base) && v > 0
    ensures Numeral(v, base, upper)[0] != '0'
  {
    var n := Count(v, base);
    LowIsDigits(v, base, n);
    CountIsExact(v, base);
    TopDigit(v, base, n);
    Quotient(v, Pow(base, n - 1));
  }

  lemma Quotient(v: nat, p: nat)
    requires 1 <= p <= v
    ensures v / p >= 1
  {
    assert v == p * (v / p) + v % p;
  }

  // The printers themselves.

  method RepChar(c: char, n: int) returns (out: string)
    ensures out == Rep(c, n)
  {
    out := "";
    var r := n;
    while r > 0
      invariant r <= Max(0, n) && out == Rep(c, Max(0, n) - Max(0, r))
    {
      out := out + [c];
      r := r - 1;
    }
  }

  /** Count the digits and find the largest place value, which fits the word. */
  method CountDigits(v: Word32, base: int) returns (digitCount: nat, p: Word32)
    requires IsBase(base)
    ensures digitCount == Count(v, base) && p == Pow(base, digitCount - 1)
  {
    p, digitCount := 1, 1;
    var vShrink := Div(v, base);
    CountIsExact(v, base);
    while vShrink > 0
      invariant digitCount >= 1 && p == Pow(base, digitCount - 1)
      invariant Count(v, base) == digitCount + if vShrink == 0 then 0 else Count(vShrink, base)
    {
      PowMono(base, digitCount, Count(v, base) - 1);
      digitCount := digitCount + 1;
      p := Mul(base, p);
      vShrink := Div(vShrink, base);
    }
  }

  /** With `out` printed, the digits `left` complete the target. */
  ghost predicate Printing(target: seq<nat>, out: string, left: seq<nat>, upper: bool)
  {
    && (forall k :: 0 <= k < |target| ==> target[k] < 16)
    && |out| + |left| == |target|
    && (forall k :: 0 <= k < |out| ==> out[k] == DigitChar(target[k], upper))
    && left == target[|out|..]
  }

  lemma PrintingStep(target: seq<nat>, out: string, d: nat, rest: seq<nat>, upper: bool)
    requires Printing(target, out, [d] + rest, upper)
    ensures d < 16 && Printing(target, out + [DigitChar(d, upper)], rest, upper)
  {
    assert target[|out|] == ([d] + rest)[0];
    assert target[|out| + 1..] == target[|out|..][1..];
    assert ([d] + rest)[1..] == rest;
  }

  lemma PrintingDone(target: seq<nat>, out: string, upper: bool)
    requires Printing(target, out, [], upper)
    ensures out == Chars(target, upper)
  {
  }

  /** Printing the top digit of what is left. */
  lemma PrintTop(target: seq<nat>, out: string, v: nat, base: int, left: nat, upper: bool)
    requires IsBase(base) && left >= 1 && v < Pow(base, left) && Printing(target, out, Low(v, base, left), upper)
    ensures var p := Pow(base, left - 1);
      && 0 <= v / p < 16 && 0 <= v % p < p && Div(p, base) == (if left == 1 then 0 else Pow(base, left - 2))
      && Printing(target, out + [DigitChar(v / p, upper)], Low(v % p, base, left - 1), upper)
  {
    TopDigit(v, base, left);
    DivOfPow(base, left - 1);
    PrintingStep(target, out, v / Pow(base, left - 1), Low(v % Pow(base, left - 1), base, left - 1), upper);
  }

  /** Printing a digit found by shifting. */
  lemma PrintNibble(target: seq<nat>, out: string, v: nat, k: nat)
    requires Printing(target, out, Low(v % Pow(16, k + 1), 16, k + 1), false)
    ensures Printing(target, out + [DigitChar(Nibble(v, k), false)], Low(v % Pow(16, k), 16, k), false)
  {
    NibbleSplits(v, k);
    PrintTop(target, out, v % Pow(16, k + 1), 16, k + 1, false);
  }

  lemma SmallerShift(v: nat, k: nat)
    requires v < Pow(16, k + 1) && Nibble(v, k) == 0
    ensures v < Pow(16, k)
  {
    NibbleSplits(v, k);
    SmallQuotient(v, Pow(16, k + 1));
    SmallQuotient(v, Pow(16, k));
  }

  /** Print the digits from the largest place value down. */
  method PrintDigits(v0: Word32, p0: Word32, base: int, upper: bool, ghost n: nat) returns (out: string)
    requires IsBase(base) && n >= 1 && p0 == Pow(base, n - 1) && v0 < Pow(base, n)
    ensures (forall k :: 0 <= k < n ==> Low(v0, base, n)[k] < 16) && out == Chars(Low(v0, base, n), upper)
  {
    var v: nat, p: nat := v0, p0;
    ghost var left := n;
    ghost var target := Low(v0, base, n);
    out := "";
    LowIsDigits(v0, base, n);
    assert target[0..] == target;
    while p > 0
      invariant p == if left == 0 then 0 else Pow(base, left - 1)
      invariant v < Pow(base, left) && Printing(target, out, Low(v, base, left), upper)
      decreases p
    {
      PrintTop(target, out, v, base, left, upper);
      out := out + [DigitChar(v / p, upper)];
      left := left - 1;
      v := v % p;
      p := Div(p, base);
    }
    PrintingDone(target, out, upper);
  }

  method PrintLead(sign: string, zero: bool, pad: int) returns (out: string)
    ensures out == Lead(sign, zero, pad)
  {
    if zero {
      var zeros := RepChar('0', pad);
      out := sign + zeros;
    } else {
      var spaces := RepChar(' ', pad);
      out := spaces + sign;
    }
  }

  /** The integer branch of the log printer. */
  method PrintInteger(word: Word32, base: int, signed: bool, upper: bool, zero: bool, width: int) returns (out: string)
    requires IsBase(base)
    ensures out == Field(word, base, signed, upper, zero, width)
  {
    var v: Word32, sign: string := word, "";
    if signed && v >= 0x8000_0000 {
      v := U32 - v;
      sign := "-";
    }
    var digitCount, p := CountDigits(v, base);
    CountIsExact(v, base);
    out := PrintLead(sign, zero, width - digitCount - |sign|);
    var digits := PrintDigits(v, p, base, upper, digitCount);
    out := out + digits;
  }

  /** The hexadecimal branch of the small printer: find the first digit that is not zero, then print by shifts. */
  method PrintHex(v: Word32) returns (out: string)
    ensures out == Numeral(v, 16, false)
  {
    if v == 0 {
      return "0";
    }
    var k := FirstShift(v);
    var bits: Word := Bits(v, WIDTH);
    ghost var target := Low(v, 16, k + 1);
    out := "";
    LowIsDigits(v, 16, k + 1);
    assert target[0..] == target;
    SmallQuotient(v, Pow(16, k + 1));
    while k >= 0
      invariant -1 <= k <= 7
      invariant Printing(target, out, Low(v % Pow(16, k + 1), 16, k + 1), false)
    {
      PrintNibble(target, out, v, k);
      MaskedIsNibble(v, k);
      var digit := Number(Shr(Masked(bits, k), 4 * k));
      out := out + [DigitChar(digit, false)];
      k := k - 1;
    }
    PrintingDone(target, out, false);
  }

  /** The place of the first digit that is not zero, from the eighth down. */
  method FirstShift(v: Word32) returns (k: int)
    requires v > 0
    ensures 0 <= k <= 7 && Count(v, 16) == k + 1 && v < Pow(16, k + 1)
  {
    k := 7;
    var bits: Word := Bits(v, WIDTH);
    EighthPower();
    while IsZero(Masked(bits, k))
      invariant 0 <= k <= 7 && v < Pow(16, k + 1)
      decreases k
    {
      MaskedIsNibble(v, k);
      SmallerShift(v, k);
      k := k - 1;
    }
    MaskedIsNibble(v, k);
    FirstDigit(v, k);
  }

  lemma EighthPower()
    ensures Pow(16, 8) == U32
  {
    assert Pow(16, 2) == 0x100 && Pow(16, 4) == 0x1_0000 && Pow(16, 6) == 0x100_0000;
  }

  lemma FirstDigit(v: Word32, k: nat)
    requires v > 0 && v < Pow(16, k + 1) && Nibble(v, k) != 0
    ensures Count(v, 16) == k + 1
  {
    var p := Pow(16, k);
    assert v == p * (v / p) + v % p;
    assert p * (v / p) >= p by { MulAtLeast(v / p, p); }
    CountUnique(v, 16, k + 1);
  }

  // Whole formats.

  /** The state of the log printer between two characters of the format: `before` and `after` are the numbers
      read so far on either side of a point, -1 for none. */
  datatype Mode = Plain | First | Conversion(zero: bool, before: int, after: int)

  function CharOf(w: Word32): char
  {
    (w % 256) as char
  }

  predicate Consumes(c: char)
  {
    c in {'d', 'i', 'u', 'o', 'x', 'X', 'c', 's'}
  }

  function Converted(zero: bool, before: int, c: char, arg: Arg): string
  {
    match c
    case 'd' => Field(arg.word, 10, true, false, zero, before)
    case 'i' => Field(arg.word, 10, true, false, zero, before)
    case 'u' => Field(arg.word, 10, false, false, zero, before)
    case 'o' => Field(arg.word, 8, false, false, zero, before)
    case 'x' => Field(arg.word, 16, false, false, zero, before)
    case 'X' => Field(arg.word, 16, false, true, zero, before)
    case 'c' => Rep(' ', before - 1) + [CharOf(arg.word)]
    case 's' => Rep(' ', before - |arg.text|) + arg.text
    case _ => ""
  }

  function Accumulate(n: int, c: char): int
    requires '0' <= c <= '9'
  {
    (if n < 0 then 0 else 10 * n) + (c as int - '0' as int)
  }

  /** One character of a conversion. */
  function InConversion(zero: bool, before: int, after: int, c: char, arg: Arg): (Mode, string)
  {
    if c == '.' then (Conversion(zero, before, 0), "")
    else if '0' <= c <= '9' then
      if after < 0 then (Conversion(zero, Accumulate(before, c), after), "")
      else (Conversion(zero, before, Accumulate(after, c)), "")
    else if c == 'l' then (Conversion(zero, before, after), "")
    else (Plain, Converted(zero, before, c, arg))
  }

  /** One character of the format: the new state and what is printed. */
  function LogStep(mode: Mode, c: char, arg: Arg): (Mode, string)
  {
    match mode
    case Plain => if c == '%' then (First, "") else (Plain, [c])
    case First =>
      if c == '0' then (Conversion(true, -1, -1), "")
      else if c == '%' then (Plain, "%")
      else InConversion(false, -1, -1, c, arg)
    case Conversion(zero, before, after) => InConversion(zero, before, after, c, arg)
  }

  function Used(mode: Mode, c: char): nat
  {
    if mode != Plain && Consumes(c) then 1 else 0
  }

  /** What the log printer prints for the rest of a format, from argument a on. */
  function LogRun(mode: Mode, fmt: string, args: nat -> Arg, a: nat): string
    decreases |fmt|
  {
    if fmt == "" then "" else
    LogStep(mode, fmt[0], args(a)).1 + LogRun(LogStep(mode, fmt[0], args(a)).0, fmt[1..], args, a + Used(mode, fmt[0]))
  }

  function AltConverted(c: char, arg: Arg): string
  {
    match c
    case '%' => "%"
    case 'c' => [CharOf(arg.word)]
    case 'x' => Numeral(arg.word, 16, false)
    case 's' => arg.text
    case _ => ""
  }

  /** What the small printer prints. */
  function AltRun(fmt: string, args: nat -> Arg, a: nat): string
    decreases |fmt|
  {
    if fmt == "" then ""
    else if fmt[0] != '%' then [fmt[0]] + AltRun(fmt[1..], args, a)
    else if |fmt| == 1 then ""
    else AltConverted(fmt[1], args(a)) + AltRun(fmt[2..], args, a + if fmt[1] in {'c', 'x', 's'} then 1 else 0)
  }

  /** No conversion uses what only the log printer understands. */
  predicate Common(fmt: string)
    decreases |fmt|
  {
    if fmt == "" || fmt == "%" then true
    else if fmt[0] != '%' then Common(fmt[1..])
    else !('0' <= fmt[1] <= '9') && fmt[1] !in {'.', 'l', 'd', 'i', 'u', 'o', 'X'} && Common(fmt[2..])
  }

  /** The two printers agree on hexadecimal numbers. */
  lemma HexAgrees(v: Word32)
    ensures Field(v, 16, false, false, false, -1) == Numeral(v, 16, false)
  {
  }

  /** On every format they both understand the two printers print the same characters. */
  lemma {:induction false} PrintersAgree(fmt: string, args: nat -> Arg, a: nat)
    requires Common(fmt)
    ensures LogRun(Plain, fmt, args, a) == AltRun(fmt, args, a)
    decreases |fmt|
  {
    if fmt == "" {
    } else if fmt == "%" {
      assert fmt[1..] == "";
    } else if fmt[0] != '%' {
      PrintersAgree(fmt[1..], args, a);
    } else {
      var c := fmt[1];
      var used := if c in {'c', 'x', 's'} then 1 else 0;
      ConversionAgrees(c, args(a));
      assert fmt[1..][0] == c && fmt[1..][1..] == fmt[2..];
      assert LogRun(Plain, fmt, args, a) == LogRun(First, fmt[1..], args, a);
      assert Used(First, c) == used;
      PrintersAgree(fmt[2..], args, a + used);
    }
  }

  lemma ConversionAgrees(c: char, arg: Arg)
    requires !('0' <= c <= '9') && c !in {'.', 'l', 'd', 'i', 'u', 'o', 'X'}
    ensures LogStep(First, c, arg) == (Plain, AltConverted(c, arg))
  {
    HexAgrees(arg.word);
    assert Rep(' ', -2) + [CharOf(arg.word)] == [CharOf(arg.word)];
    assert Rep(' ', -1 - |arg.text|) + arg.text == arg.text;
  }

  // What the conversions of the log printer print.

  /** A conversion: the flag for leading zeros, a width in decimal digits, a precision, and the letter. */
  function Spec(zero: bool, digits: string, precision: string, c: char): string
  {
    "%" + (if zero then "0" else "") + digits + precision + [c]
  }

  /** The width does not begin with a zero, which would be the flag; the precision, if any, begins with a point. */
  predicate IsSpec(zero: bool, digits: string, precision: string)
  {
    && (forall k :: 0 <= k < |digits| ==> '0' <= digits[k] <= '9')
    && (zero || digits == "" || digits[0] != '0')
    && (precision == "" || precision[0] == '.')
    && forall k :: 0 <= k < |precision| ==> precision[k] == '.' || precision[k] == 'l' || '0' <= precision[k] <= '9'
  }

  /** The width after some more digits. */
  function WidthFrom(before: int, digits: string): int
    requires forall k :: 0 <= k < |digits| ==> '0' <= digits[k] <= '9'
    decreases |digits|
  {
    if digits == "" then before else WidthFrom(Accumulate(before, digits[0]), digits[1..])
  }

  lemma {:induction false} WidthLast(before: int, digits: string, d: char)
    requires (forall k :: 0 <= k < |digits| ==> '0' <= digits[k] <= '9') && '0' <= d <= '9'
    ensures forall k :: 0 <= k < |digits + [d]| ==> '0' <= (digits + [d])[k] <= '9'
    ensures WidthFrom(before, digits + [d]) == Accumulate(WidthFrom(before, digits), d)
    decreases |digits|
  {
    if digits != "" {
      assert (digits + [d])[1..] == digits[1..] + [d];
      WidthLast(Accumulate(before, digits[0]), digits[1..], d);
    } else {
      assert digits + [d] == [d] && [d][1..] == "";
    }
  }

  /** The width is the number its digits stand for. */
  lemma {:induction false} WidthReads(digits: string)
    requires forall k :: 0 <= k < |digits| ==> '0' <= digits[k] <= '9'
    ensures WidthFrom(-1, digits) == if digits == "" then -1 else Read(digits, 10)
    decreases |digits|
  {
    if digits != "" {
      var n := |digits| - 1;
      WidthReads(digits[..n]);
      WidthLast(-1, digits[..n], digits[n]);
      assert digits == digits[..n] + [digits[n]];
    }
  }

  lemma {:induction false} RunDigits(zero: bool, before: int, digits: string, rest: string, args: nat -> Arg, a: nat)
    requires forall k :: 0 <= k < |digits| ==> '0' <= digits[k] <= '9'
    ensures LogRun(Conversion(zero, before, -1), digits + rest, args, a)
         == LogRun(Conversion(zero, WidthFrom(before, digits), -1), rest, args, a)
    decreases |digits|
  {
    if digits == "" {
      assert digits + rest == rest;
    } else {
      assert (digits + rest)[1..] == digits[1..] + rest;
      RunDigits(zero, Accumulate(before, digits[0]), digits[1..], rest, args, a);
    }
  }

  /** The precision is read and forgotten. */
  lemma {:induction false} RunPrecision(zero: bool, before: int, after: int, precision: string, rest: string,
                                        args: nat -> Arg, a: nat) returns (x: int)
    requires after >= 0 || precision == "" || precision[0] == '.'
    requires forall k :: 0 <= k < |precision| ==> precision[k] == '.' || precision[k] == 'l' || '0' <= precision[k] <= '9'
    ensures LogRun(Conversion(zero, before, after), precision + rest, args, a)
         == LogRun(Conversion(zero, before, x), rest, args, a)
    decreases |precision|
  {
    if precision == "" {
      assert precision + rest == rest;
      x := after;
    } else {
      var c := precision[0];
      assert (precision + rest)[1..] == precision[1..] + rest;
      x := RunPrecision(zero, before, if c == '.' then 0 else if c == 'l' then after else Accumulate(after, c),
                        precision[1..], rest, args, a);
    }
  }

  /** A letter that ends a conversion. */
  predicate Ends(c: char)
  {
    c != '.' && c != 'l' && c != '%' && !('0' <= c <= '9')
  }

  lemma RunLetter(zero: bool, before: int, after: int, c: char, rest: string, args: nat -> Arg, a: nat)
    requires Ends(c)
    ensures LogRun(Conversion(zero, before, after), [c] + rest, args, a)
         == Converted(zero, before, c, args(a)) + LogRun(Plain, rest, args, a + if Consumes(c) then 1 else 0)
  {
    assert ([c] + rest)[1..] == rest;
  }

  /** A conversion without the flag may be read as if it had begun. */
  lemma RunFirst(s: string, args: nat -> Arg, a: nat)
    requires s != "" && s[0] != '0' && s[0] != '%'
    ensures LogRun(First, s, args, a) == LogRun(Conversion(false, -1, -1), s, args, a)
  {
  }

  lemma RunFlag(zero: bool, s: string, args: nat -> Arg, a: nat)
    requires s != "" && (zero || (s[0] != '0' && s[0] != '%'))
    ensures LogRun(Plain, "%" + (if zero then "0" else "") + s, args, a) == LogRun(Conversion(zero, -1, -1), s, args, a)
  {
    var fmt := "%" + (if zero then "0" else "") + s;
    if zero {
      assert fmt[1..] == "0" + s && ("0" + s)[1..] == s;
    } else {
      assert fmt[1..] == s;
      RunFirst(s, args, a);
    }
  }

  lemma ConversionRun(zero: bool, digits: string, precision: string, c: char, rest: string, args: nat -> Arg, a: nat)
    requires IsSpec(zero, digits, precision) && Ends(c)
    ensures LogRun(Plain, Spec(zero, digits, precision, c) + rest, args, a)
         == Converted(zero, if digits == "" then -1 else Read(digits, 10), c, args(a))
            + LogRun(Plain, rest, args, a + if Consumes(c) then 1 else 0)
  {
    var tail := precision + ([c] + rest);
    var s := digits + tail;
    assert Spec(zero, digits, precision, c) + rest == "%" + (if zero then "0" else "") + s;
    RunFlag(zero, s, args, a);
    RunDigits(zero, -1, digits, tail, args, a);
    WidthReads(digits);
    var width := WidthFrom(-1, digits);
    var x := RunPrecision(zero, width, -1, precision, [c] + rest, args, a);
    RunLetter(zero, width, x, c, rest, args, a);
  }

  predicate DigitOfCase(c: char, upper: bool)
  {
    '0' <= c <= '9' || if upper then 'A' <= c <= 'F' else 'a' <= c <= 'f'
  }

  /** A field for a number with `need` digits: blanks before the sign, or zeros after it; then exactly the digits,
      none of them a leading zero, with letters of one case. */
  predicate Layout(out: string, negative: bool, need: nat, zero: bool, upper: bool, isZero: bool)
  {
    var sign := if negative then 1 else 0;
    && need >= 1 && |out| >= sign + need
    && var pad := |out| - need - sign;
    && (zero ==> (forall k :: sign <= k < sign + pad ==> out[k] == '0') && (negative ==> out[0] == '-'))
    && (!zero ==> (forall k :: 0 <= k < pad ==> out[k] == ' ') && (negative ==> out[pad] == '-'))
    && (forall k :: sign + pad <= k < |out| ==> DigitOfCase(out[k], upper))
    && (!isZero ==> out[sign + pad] != '0')
  }

  lemma NumeralCase(v: nat, base: int, upper: bool)
    requires IsBase(base)
    ensures |Numeral(v, base, upper)| == Count(v, base)
    ensures forall k :: 0 <= k < Count(v, base) ==> DigitOfCase(Numeral(v, base, upper)[k], upper)
  {
    var n := Count(v, base);
    LowIsDigits(v, base, n);
    forall k | 0 <= k < n
      ensures DigitOfCase(Numeral(v, base, upper)[k], upper)
    {
      CaseOfDigit(Low(v, base, n)[k], upper);
    }
  }

  lemma CaseOfDigit(d: nat, upper: bool)
    requires d < 16
    ensures DigitOfCase(DigitChar(d, upper), upper)
  {
  }

  lemma LeadLayout(negative: bool, sign: string, zero: bool, pad: int, digits: string, upper: bool, isZero: bool)
    requires digits != "" && sign == (if negative then "-" else "") && (isZero || digits[0] != '0')
    requires forall k :: 0 <= k < |digits| ==> DigitOfCase(digits[k], upper)
    ensures Layout(Lead(sign, zero, pad) + digits, negative, |digits|, zero, upper, isZero)
  {
    var lead := Lead(sign, zero, pad);
    var out := lead + digits;
    assert |lead| == |sign| + Max(0, pad);
    assert forall k :: 0 <= k < |lead| ==> out[k] == lead[k];
    assert forall k :: |lead| <= k < |out| ==> out[k] == digits[k - |lead|];
    if zero {
      assert forall k :: |sign| <= k < |lead| ==> lead[k] == Rep('0', pad)[k - |sign|];
    } else {
      assert forall k :: 0 <= k < |lead| - |sign| ==> lead[k] == Rep(' ', pad)[k];
    }
  }

  lemma FieldLayout(v: Word32, base: int, signed: bool, upper: bool, zero: bool, width: int)
    requires IsBase(base)
    ensures !IsBase(base) ||
      Layout(Field(v, base, signed, upper, zero, width), Negative(v, signed), Count(Magnitude(v, signed), base), zero, upper, v == 0)
  {
    var digits := Numeral(Magnitude(v, signed), base, upper);
    var sign := if Negative(v, signed) then "-" else "";
    NumeralCase(Magnitude(v, signed), base, upper);
    if v > 0 {
      NoLeadingZero(Magnitude(v, signed), base, upper);
    }
    LeadLayout(Negative(v, signed), sign, zero, width - |digits| - |sign|, digits, upper, v == 0);
  }

  /** The letters of integer conversions and what they mean. */
  function BaseOf(c: char): int
  {
    if c == 'o' then 8 else if c == 'x' || c == 'X' then 16 else 10
  }

  /** What an integer conversion has to print for a word: the value it stands for, in the right base, as long as the
      width or what the number needs, laid out with blanks or zeros, in lower case but for X. */
  predicate Prints(field: string, c: char, w: int, zero: bool, width: int)
  {
    var value := if (c == 'd' || c == 'i') && w >= 0x8000_0000 then w - 0x1_0000_0000 else w;
    var size: nat := if value < 0 then -value else value;
    && ReadField(field, BaseOf(c)) == value
    && |field| == Max(width, Count(size, BaseOf(c)) + if value < 0 then 1 else 0)
    && Layout(field, value < 0, Count(size, BaseOf(c)), zero, c == 'X', value == 0)
  }

  lemma FieldPrints(w: Word32, c: char, zero: bool, width: int)
    requires c in {'d', 'i', 'u', 'o', 'x', 'X'}
    ensures Prints(Field(w, BaseOf(c), c == 'd' || c == 'i', c == 'X', zero, width), c, w, zero, width)
  {
    var signed := c == 'd' || c == 'i';
    FieldReadsBack(w, BaseOf(c), signed, c == 'X', zero, width);
    FieldLength(w, BaseOf(c), signed, c == 'X', zero, width);
    FieldLayout(w, BaseOf(c), signed, c == 'X', zero, width);
  }

  lemma PrintsAnyWidth(field: string, c: char, w: int, zero: bool, width: int)
    requires width < 0 && (width >= 0 || Prints(field, c, w, zero, width))
    ensures width >= 0 || Prints(field, c, w, zero, 0)
  {
  }

  lemma ConvertedField(zero: bool, width: int, c: char, arg: Arg)
    requires c in {'d', 'i', 'u', 'o', 'x', 'X'}
    ensures Converted(zero, width, c, arg) == Field(arg.word, BaseOf(c), c == 'd' || c == 'i', c == 'X', zero, width)
    ensures Consumes(c) && Ends(c)
  {
  }

  /** An integer conversion, in any format: d and i print the signed value in base 10, u, o, x and X the unsigned one in
      base 10, 8, 16 and 16; the next conversion takes the next argument. */
  lemma IntegerConversion(zero: bool, digits: string, precision: string, c: char, rest: string, args: nat -> Arg, a: nat)
    returns (field: string)
    requires IsSpec(zero, digits, precision) && c in {'d', 'i', 'u', 'o', 'x', 'X'}
    ensures LogRun(Plain, Spec(zero, digits, precision, c) + rest, args, a) == field + LogRun(Plain, rest, args, a + 1)
    ensures !IsSpec(zero, digits, precision) || Prints(field, c, args(a).word, zero, Read(digits, 10))
  {
    var width := if digits == "" then -1 else Read(digits, 10);
    ConvertedField(zero, width, c, args(a));
    ConversionRun(zero, digits, precision, c, rest, args, a);
    field := Converted(zero, width, c, args(a));
    FieldPrints(args(a).word, c, zero, width);
    if digits == "" {
      PrintsAnyWidth(field, c, args(a).word, zero, width);
    }
  }

  /** A character or a string is printed after blanks up to the width; the flag for zeros means nothing. */
  lemma TextConversion(zero: bool, digits: string, precision: string, c: char, rest: string, args: nat -> Arg, a: nat)
    returns (field: string)
    requires IsSpec(zero, digits, precision) && (c == 'c' || c == 's')
    ensures LogRun(Plain, Spec(zero, digits, precision, c) + rest, args, a) == field + LogRun(Plain, rest, args, a + 1)
    ensures var text := if c == 'c' then [(args(a).word % 256) as char] else args(a).text;
      && |field| == Max(Read(digits, 10), |text|) && field[|field| - |text|..] == text
      && forall k :: 0 <= k < |field| - |text| ==> field[k] == ' '
  {
    var width := if digits == "" then -1 else Read(digits, 10);
    ConversionRun(zero, digits, precision, c, rest, args, a);
    field := Converted(zero, width, c, args(a));
  }

  /** Any other letter prints nothing and takes no argument. */
  lemma UnknownConversion(zero: bool, digits: string, precision: string, c: char, rest: string, args: nat -> Arg, a: nat)
    requires IsSpec(zero, digits, precision) && Ends(c) && c !in {'d', 'i', 'u', 'o', 'x', 'X', 'c', 's'}
    ensures LogRun(Plain, Spec(zero, digits, precision, c) + rest, args, a) == LogRun(Plain, rest, args, a)
  {
    ConversionRun(zero, digits, precision, c, rest, args, a);
  }

  /** Everything else in a format is printed as it stands, by both printers. */
  lemma {:induction false} Literal(text: string, rest: string, args: nat -> Arg, a: nat)
    requires forall k :: 0 <= k < |text| ==> text[k] != '%'
    ensures LogRun(Plain, text + rest, args, a) == text + LogRun(Plain, rest, args, a)
    ensures AltRun(text + rest, args, a) == text + AltRun(rest, args, a)
    decreases |text|
  {
    if text == "" {
      assert text + rest == rest;
    } else {
      var tail := text[1..] + rest;
      assert text + rest == [text[0]] + tail;
      LiteralChar(text[0], tail, args, a);
      Literal(text[1..], rest, args, a);
      Associate([text[0]], text[1..], LogRun(Plain, rest, args, a));
      Associate([text[0]], text[1..], AltRun(rest, args, a));
      assert [text[0]] + text[1..] == text;
    }
  }

  lemma LiteralChar(c: char, rest: string, args: nat -> Arg, a: nat)
    requires c != '%'
    ensures LogRun(Plain, [c] + rest, args, a) == [c] + LogRun(Plain, rest, args, a)
    ensures AltRun([c] + rest, args, a) == [c] + AltRun(rest, args, a)
  {
    assert ([c] + rest)[1..] == rest;
  }

  /** Two percent signs are printed as one. */
  lemma PercentSign(rest: string, args: nat -> Arg, a: nat)
    ensures LogRun(Plain, "%" + ("%" + rest), args, a) == "%" + LogRun(Plain, rest, args, a)
    ensures AltRun("%" + ("%" + rest), args, a) == "%" + AltRun(rest, args, a)
  {
    var tail := "%" + rest;
    assert ("%" + tail)[1..] == tail && tail[1..] == rest && ("%" + tail)[2..] == rest;
    assert LogRun(Plain, "%" + tail, args, a) == LogRun(First, tail, args, a);
  }

  /** A conversion that the small printer does not know prints nothing there and takes no argument. */
  lemma AltUnknown(c: char, rest: string, args: nat -> Arg, a: nat)
    requires c !in {'%', 'c', 'x', 's'}
    ensures AltRun("%" + [c] + rest, args, a) == AltRun(rest, args, a)
  {
    assert ("%" + [c] + rest)[2..] == rest;
  }

  /** Outside that fragment they need not: the small printer drops a decimal conversion. */
  lemma DecimalDisagrees(args: nat -> Arg)
    ensures LogRun(Plain, "%d", args, 0) != "" && AltRun("%d", args, 0) == ""
  {
    var fmt := "%d";
    assert fmt[1..] == "d" && "d"[1..] == "" && fmt[2..] == "";
    assert LogRun(Plain, fmt, args, 0) == LogRun(First, "d", args, 0);
    FieldLength(args(0).word, 10, true, false, false, -1);
  }

  /** Print one conversion of the log printer. */
  method Convert(zero: bool, before: int, c: char, arg: Arg) returns (out: string)
    ensures out == Converted(zero, before, c, arg)
  {
    match c
    case 'd' => out := PrintInteger(arg.word, 10, true, false, zero, before);
    case 'i' => out := PrintInteger(arg.word, 10, true, false, zero, before);
    case 'u' => out := PrintInteger(arg.word, 10, false, false, zero, before);
    case 'o' => out := PrintInteger(arg.word, 8, false, false, zero, before);
    case 'x' => out := PrintInteger(arg.word, 16, false, false, zero, before);
    case 'X' => out := PrintInteger(arg.word, 16, false, true, zero, before);
    case 'c' =>
      var spaces := RepChar(' ', before - 1);
      out := spaces + [CharOf(arg.word)];
    case 's' =>
      var spaces := RepChar(' ', before - |arg.text|);
      out := spaces + arg.text;
    case _ => out := "";
  }

  method ConversionChar(zero: bool, before: int, after: int, c: char, arg: Arg) returns (next: Mode, out: string)
    ensures (next, out) == InConversion(zero, before, after, c, arg)
  {
    next, out := Conversion(zero, before, after), "";
    if c == '.' {
      next := next.(after := 0);
    } else if '0' <= c <= '9' {
      if after < 0 {
        next := next.(before := Accumulate(before, c));
      } else {
        next := next.(after := Accumulate(after, c));
      }
    } else if c != 'l' {
      out := Convert(zero, before, c, arg);
      next := Plain;
    }
  }

  method LogChar(mode: Mode, c: char, arg: Arg) returns (next: Mode, out: string)
    ensures (next, out) == LogStep(mode, c, arg)
  {
    match mode
    case Plain =>
      if c == '%' {
        next, out := First, "";
      } else {
        next, out := Plain, [c];
      }
    case First =>
      if c == '0' {
        next, out := Conversion(true, -1, -1), "";
      } else if c == '%' {
        next, out := Plain, [c];
      } else {
        next, out := ConversionChar(false, -1, -1, c, arg);
      }
    case Conversion(zero, before, after) =>
      next, out := ConversionChar(zero, before, after, c, arg);
  }

  /** The log printer. */
  method LogPrintf(fmt: string, args: nat -> Arg) returns (out: string)
    ensures out == LogRun(Plain, fmt, args, 0)
  {
    var mode, w, a := Plain, 0, 0;
    out := "";
    while w < |fmt|
      invariant 0 <= w <= |fmt| && 0 <= a
      invariant out + LogRun(mode, fmt[w..], args, a) == LogRun(Plain, fmt, args, 0)
    {
      ghost var before, m, i := out, mode, a;
      var next, piece := LogChar(mode, fmt[w], args(a));
      LogSplit(m, fmt, w, args, i);
      Associate(before, piece, LogRun(next, fmt[w + 1..], args, i + Used(m, fmt[w])));
      out := out + piece;
      a := a + Used(mode, fmt[w]);
      mode, w := next, w + 1;
    }
  }

  lemma LogSplit(mode: Mode, fmt: string, w: nat, args: nat -> Arg, a: nat)
    requires w < |fmt|
    ensures LogRun(mode, fmt[w..], args, a)
         == LogStep(mode, fmt[w], args(a)).1
            + LogRun(LogStep(mode, fmt[w], args(a)).0, fmt[w + 1..], args, a + Used(mode, fmt[w]))
  {
    assert fmt[w..][1..] == fmt[w + 1..];
  }

  method AltConvert(c: char, arg: Arg) returns (out: string)
    ensures out == AltConverted(c, arg)
  {
    if c == '%' {
      out := [c];
    } else if c == 'c' {
      out := [CharOf(arg.word)];
    } else if c == 'x' {
      out := PrintHex(arg.word);
    } else if c == 's' {
      out := arg.text;
    } else {
      out := "";
    }
  }

  /** The small printer. */
  method AltPrintf(fmt: string, args: nat -> Arg) returns (out: string)
    ensures out == AltRun(fmt, args, 0)
  {
    var w, a := 0, 0;
    out := "";
    while w < |fmt|
      invariant 0 <= w <= |fmt| && 0 <= a
      invariant out + AltRun(fmt[w..], args, a) == AltRun(fmt, args, 0)
    {
      AltSplit(fmt, w, args, a);
      var c := fmt[w];
      w := w + 1;
      if c != '%' {
        Associate(out, [c], AltRun(fmt[w..], args, a));
        out := out + [c];
      } else if w == |fmt| {
        break;
      } else {
        c := fmt[w];
        w := w + 1;
        var piece := AltConvert(c, args(a));
        var used := if c in {'c', 'x', 's'} then 1 else 0;
        Associate(out, piece, AltRun(fmt[w..], args, a + used));
        out := out + piece;
        a := a + used;
      }
    }
  }

  lemma AltSplit(fmt: string, w: nat, args: nat -> Arg, a: nat)
    requires w < |fmt|
    ensures AltRun(fmt[w..], args, a)
         == if fmt[w] != '%' then [fmt[w]] + AltRun(fmt[w + 1..], args, a)
            else if w + 1 == |fmt| then ""
            else AltConverted(fmt[w + 1], args(a))
                 + AltRun(fmt[w + 2..], args, a + if fmt[w + 1] in {'c', 'x', 's'} then 1 else 0)
  {
    assert fmt[w..][1..] == fmt[w + 1..];
    if w + 1 < |fmt| {
      assert fmt[w..][2..] == fmt[w + 2..];
    }
  }
}

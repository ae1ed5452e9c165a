/**
 * Number parsing used by the decoder: `std::stoi` for the decimal fields of
 * the records, and `strtoll(line, 0, 16)` for the hexadecimal bitmap rows,
 * together with the formatters that they invert.
 */
module Numerals {
  import opened Wrappers
  import Tokenizer

  /** The range of a 32-bit `int`, the result type of `std::stoi`. */
  const IntMin: int := -0x8000_0000
  const IntMax: int := 0x7FFF_FFFF

  /** 2^64, and the largest `long long`. */
  const TwoTo64: nat := 0x1_0000_0000_0000_0000
  const LongLongMax: nat := 0x7FFF_FFFF_FFFF_FFFF

  /** The two bases the decoder reads: decimal fields and hexadecimal rows. */
  type Base = b: nat | b == 10 || b == 16 witness 10

  /** Division by the base, with the constants spelled out for the solver. */
  lemma DivMod(n: nat, base: Base)
    ensures n == (n / base) * base + n % base && n % base < base
    ensures n >= base ==> 0 < n / base < n
  {
    if base == 10 {
      assert n == (n / 10) * 10 + n % 10;
    } else {
      assert n == (n / 16) * 16 + n % 16;
    }
  }

  /** The value of a digit character in bases up to 16; 16 for any other character. */
  function DigitValue(c: char): (v: nat)
    ensures v <= 16
  {
    if '0' <= c <= '9' then c as int - '0' as int
    else if 'a' <= c <= 'f' then c as int - 'a' as int + 10
    else if 'A' <= c <= 'F' then c as int - 'A' as int + 10
    else 16
  }

  predicate IsDigit(c: char, base: nat) {
    DigitValue(c) < base
  }

  /** Length of the run of digits of `base` that starts `s`. */
  function DigitRun(s: string, base: nat): (n: nat)
    ensures n <= |s|
  {
    if s == [] || !IsDigit(s[0], base) then 0 else 1 + DigitRun(s[1..], base)
  }

  /** The run is made of digits and ends at the end or at a character that is not one. */
  lemma {:induction false} DigitRunIsRun(s: string, base: nat)
    ensures forall k :: 0 <= k < DigitRun(s, base) ==> IsDigit(s[k], base)
    ensures DigitRun(s, base) == |s| || !IsDigit(s[DigitRun(s, base)], base)
    decreases |s|
  {
    if s != [] && IsDigit(s[0], base) {
      DigitRunIsRun(s[1..], base);
      forall k | 0 <= k < DigitRun(s, base)
        ensures IsDigit(s[k], base)
      {
        if k > 0 {
          assert s[k] == s[1..][k - 1];
        }
      }
    }
  }

  /** The value of a string of digits, most significant first. */
  function Value(s: string, base: nat): nat {
    if s == [] then 0 else Value(s[..|s| - 1], base) * base + DigitValue(s[|s| - 1])
  }

  /** The upper-case digit character for `d`. */
  function DigitChar(d: nat): (c: char)
    requires d < 16
    ensures DigitValue(c) == d
  {
    if d < 10 then ('0' as int + d) as char else ('A' as int + d - 10) as char
  }

  /** `n` written in `base` without leading zeros (a single "0" for zero). */
  function Format(n: nat, base: Base): (s: string)
    ensures |s| > 0
    ensures forall k :: 0 <= k < |s| ==> IsDigit(s[k], base)
    decreases n
  {
    DivMod(n, base);
    if n < base then [DigitChar(n)] else Format(n / base, base) + [DigitChar(n % base)]
  }

  /** Reading back a formatted number gives the number. */
  lemma {:induction false} ValueOfFormat(n: nat, base: Base)
    ensures Value(Format(n, base), base) == n
    decreases n
  {
    var s := Format(n, base);
    DivMod(n, base);
    if n >= base {
      ValueOfFormat(n / base, base);
      assert s[..|s| - 1] == Format(n / base, base);
    }
  }

  /** A string made only of digits is one whole digit run. */
  lemma {:induction false} DigitRunOfDigits(s: string, base: nat)
    requires forall k :: 0 <= k < |s| ==> IsDigit(s[k], base)
    ensures DigitRun(s, base) == |s|
    decreases |s|
  {
    if s != [] {
      DigitRunOfDigits(s[1..], base);
    }
  }

  /** The string after its leading whitespace, as `strtol` skips it. */
  function SkipSpace(s: string): (r: string)
    ensures |r| <= |s|
  {
    if s != [] && Tokenizer.IsSpace(s[0]) then SkipSpace(s[1..]) else s
  }

  /** What is skipped is a prefix: the rest is a suffix that starts with no whitespace. */
  lemma {:induction false} SkipSpaceIsSuffix(s: string)
    ensures SkipSpace(s) == s[|s| - |SkipSpace(s)|..]
    ensures SkipSpace(s) == [] || !Tokenizer.IsSpace(SkipSpace(s)[0])
    decreases |s|
  {
    if s != [] && Tokenizer.IsSpace(s[0]) {
      SkipSpaceIsSuffix(s[1..]);
      assert s[1..][|s| - 1 - |SkipSpace(s)|..] == s[|s| - |SkipSpace(s)|..];
    }
  }

  /** Whether an optional sign is a minus, and the text after the optional sign. */
  function Sign(s: string): (bool, string) {
    if s != [] && (s[0] == '-' || s[0] == '+') then (s[0] == '-', s[1..]) else (false, s)
  }

  /**
   * `std::stoi(t)`: `strtol` in base 10 on the longest prefix of the form
   * whitespace, optional sign, digits; trailing text is ignored. It throws
   * (here: `None`) when there is no digit or the value is outside `int`.
   */
  function ParseInt(t: string): (r: Option<int>)
    ensures r.Some? ==> IntMin <= r.value <= IntMax
  {
    var s := SkipSpace(t);
    Signed(Sign(s).0, Sign(s).1)
  }

  /** `stoi` accepts only a text that holds a decimal digit. */
  lemma ParseIntNeedsDigit(t: string)
    ensures ParseInt(t).Some? ==> exists k :: 0 <= k < |t| && IsDigit(t[k], 10)
  {
    var body := Sign(SkipSpace(t)).1;
    if ParseInt(t).Some? {
      SkipSpaceIsSuffix(t);
      assert IsDigit(t[|t| - |body|], 10);
    }
  }

  /** The digits that follow the optional sign, read as an `int`. */
  function Signed(negative: bool, body: string): (r: Option<int>)
    ensures r.Some? ==> IntMin <= r.value <= IntMax && |body| > 0 && IsDigit(body[0], 10)
  {
    var n := DigitRun(body, 10);
    if n == 0 then None
    else
      var magnitude := Value(body[..n], 10);
      var v: int := if negative then -(magnitude as int) else magnitude;
      if IntMin <= v <= IntMax then Some(v) else None
  }

  /** The decimal text of an integer, with a leading minus when negative. */
  function FormatInt(n: int): string {
    if n < 0 then "-" + Format(-n, 10) else Format(n, 10)
  }

  /** `stoi` reads back every `int` the formatter writes. */
  lemma ParseFormatInt(n: int)
    requires IntMin <= n <= IntMax
    ensures ParseInt(FormatInt(n)) == Some(n)
  {
    var m: nat := if n < 0 then -n else n;
    var digits := Format(m, 10);
    var t := FormatInt(n);
    ValueOfFormat(m, 10);
    assert SkipSpace(t) == t by {
      assert !Tokenizer.IsSpace(t[0]);
    }
    if n < 0 {
      assert t[1..] == digits;
    }
    ParseIntOfDigits(t, n < 0, digits);
  }

  /** `stoi` on a sign followed by nothing but digits reads the whole number. */
  lemma ParseIntOfDigits(t: string, negative: bool, digits: string)
    requires Sign(SkipSpace(t)) == (negative, digits)
    requires |digits| > 0 && forall k :: 0 <= k < |digits| ==> IsDigit(digits[k], 10)
    requires IntMin <= (if negative then -(Value(digits, 10) as int) else Value(digits, 10)) <= IntMax
    ensures ParseInt(t) == Some(if negative then -(Value(digits, 10) as int) else Value(digits, 10))
  {
    assert ParseInt(t) == Signed(negative, digits);
    SignedOfDigits(negative, digits);
  }

  lemma SignedOfDigits(negative: bool, digits: string)
    requires |digits| > 0 && forall k :: 0 <= k < |digits| ==> IsDigit(digits[k], 10)
    requires IntMin <= (if negative then -(Value(digits, 10) as int) else Value(digits, 10)) <= IntMax
    ensures Signed(negative, digits) == Some(if negative then -(Value(digits, 10) as int) else Value(digits, 10))
  {
    DigitRunOfDigits(digits, 10);
    var n := DigitRun(digits, 10);
    assert n == |digits| && digits[..n] == digits;
    assert Value(digits[..n], 10) == Value(digits, 10);
  }

  /**
   * The text `strtoll`/`strtoull` read digits from in base 16: after
   * whitespace and an optional sign, an optional "0x" or "0X" is skipped.
   */
  function HexBody(line: string): string {
    var body := Sign(SkipSpace(line)).1;
    if |body| >= 2 && body[0] == '0' && (body[1] == 'x' || body[1] == 'X') then body[2..] else body
  }

  /**
   * The sign and the magnitude that `strtoll`/`strtoull` read from a line in
   * base 16: the value of the longest run of hexadecimal digits of the body
   * (none reads as 0).
   */
  function HexMagnitude(line: string): (bool, nat) {
    var digits := HexBody(line);
    (Sign(SkipSpace(line)).0, Value(digits[..DigitRun(digits, 16)], 16))
  }

  /**
   * `strtoll` on a sign and a magnitude, saturating at the `long long`
   * bounds, then converted to `unsigned long long` (modulo 2^64).
   */
  function SignedRead(negative: bool, magnitude: nat): (r: nat)
    ensures r < TwoTo64
  {
    var v: int := if negative then -(magnitude as int) else magnitude;
    var clamped := if v > LongLongMax then LongLongMax
                   else if v < -(LongLongMax + 1) then -(LongLongMax + 1)
                   else v;
    clamped % TwoTo64
  }

  /** `strtoull` on a sign and a magnitude: saturates at 2^64 - 1, and a minus sign negates modulo 2^64. */
  function UnsignedRead(negative: bool, magnitude: nat): (r: nat)
    ensures r < TwoTo64
  {
    if magnitude >= TwoTo64 then TwoTo64 - 1
    else if negative then (TwoTo64 - magnitude) % TwoTo64
    else magnitude
  }

  /** The bitmap row exactly as the source reads it: `strtoll(line, 0, 16)` stored in an `unsigned long long`. */
  function ParseHexRowAsWritten(line: string): (r: nat)
    ensures r < TwoTo64
  {
    SignedRead(HexMagnitude(line).0, HexMagnitude(line).1)
  }

  /** The bitmap row as an unsigned 64-bit parse, `strtoull(line, 0, 16)`. */
  function ParseHexRow(line: string): (r: nat)
    ensures r < TwoTo64
  {
    UnsignedRead(HexMagnitude(line).0, HexMagnitude(line).1)
  }

  /** A formatted number has no whitespace, no sign and no "0x" in front of its digits. */
  lemma HexBodyOfFormat(v: nat)
    ensures Sign(SkipSpace(Format(v, 16))) == (false, Format(v, 16))
    ensures HexBody(Format(v, 16)) == Format(v, 16)
  {
    var s := Format(v, 16);
    FormatNoLeadingZero(v, 16);
    assert SkipSpace(s) == s by {
      assert !Tokenizer.IsSpace(s[0]);
    }
    assert Sign(s) == (false, s);
  }

  /** A number written in hexadecimal is read back, unsigned, as itself. */
  lemma HexMagnitudeOfFormat(v: nat)
    ensures HexMagnitude(Format(v, 16)) == (false, v)
  {
    var s := Format(v, 16);
    HexBodyOfFormat(v);
    DigitRunOfDigits(s, 16);
    assert s[..|s|] == s;
    ValueOfFormat(v, 16);
  }

  /** A row written in hexadecimal is read back as itself. */
  lemma ParseHexRowOfFormat(v: nat)
    requires v < TwoTo64
    ensures ParseHexRow(Format(v, 16)) == v
  {
    HexMagnitudeOfFormat(v);
  }

  /** A formatted number of two or more digits does not start with '0'. */
  lemma {:induction false} FormatNoLeadingZero(n: nat, base: Base)
    ensures |Format(n, base)| >= 2 ==> Format(n, base)[0] != '0'
    decreases n
  {
    DivMod(n, base);
    if n >= base {
      var high := Format(n / base, base);
      assert Format(n, base)[0] == high[0];
      FormatNoLeadingZero(n / base, base);
      if |high| == 1 {
        assert high == [DigitChar(n / base)];
      }
    }
  }

  /** `strtoll` on an unsigned magnitude: the magnitude, saturated at the largest `long long`. */
  lemma AsWrittenOfUnsigned(magnitude: nat)
    ensures SignedRead(false, magnitude) == if magnitude > LongLongMax then LongLongMax else magnitude
  {
    if magnitude > LongLongMax {
      assert LongLongMax % TwoTo64 == LongLongMax;
    } else {
      assert magnitude % TwoTo64 == magnitude;
    }
  }

  /** The source's read and the unsigned read agree on every unsigned magnitude up to the largest `long long`. */
  lemma ParseHexRowAgrees(magnitude: nat)
    requires magnitude <= LongLongMax
    ensures SignedRead(false, magnitude) == UnsignedRead(false, magnitude)
  {
    AsWrittenOfUnsigned(magnitude);
  }

  /**
   * The two reads of a row differ only on a magnitude above the largest
   * `long long`: with either sign, a row whose digits are at most
   * `LLONG_MAX` is read alike.
   */
  lemma RowReadsAgree(line: string)
    requires HexMagnitude(line).1 <= LongLongMax
    ensures ParseHexRowAsWritten(line) == ParseHexRow(line)
  {
    var (negative, magnitude) := HexMagnitude(line);
    if !negative {
      ParseHexRowAgrees(magnitude);
    } else if magnitude == 0 {
      assert SignedRead(true, 0) == 0;
    } else {
      assert SignedRead(true, magnitude) == TwoTo64 - magnitude;
    }
  }
}

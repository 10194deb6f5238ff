/** The parts of Go's strconv and fmt that the decoder uses on names: parsing
    signed integers (strconv.ParseInt, strconv.Atoi) and writing zero-padded
    lower-case hexadecimal (the %0Nx verb). */
module Strconv {

  /** The value strconv gives a digit character in any base up to 36, or -1. */
  function DigitValue(c: char): int {
    if '0' <= c <= '9' then c as int - '0' as int
    else if 'a' <= c <= 'z' then c as int - 'a' as int + 10
    else if 'A' <= c <= 'Z' then c as int - 'A' as int + 10
    else -1
  }

  predicate IsDigitIn(c: char, base: nat) {
    0 <= DigitValue(c) < base
  }

  datatype NumError = NoError | SyntaxError | RangeError

  const MAX_UINT64: nat := 0xFFFF_FFFF_FFFF_FFFF

  predicate ValidBitSize(bitSize: nat) {
    bitSize == 32 || bitSize == 64
  }

  /** 1 << bitSize - 1, the largest unsigned value of that width. */
  function MaxUnsigned(bitSize: nat): nat
    requires ValidBitSize(bitSize)
  {
    if bitSize == 32 then 0xFFFF_FFFF else MAX_UINT64
  }

  /** 1 << (bitSize - 1), one past the largest signed value of that width. */
  function SignedCutoff(bitSize: nat): nat
    requires ValidBitSize(bitSize)
  {
    if bitSize == 32 then 0x8000_0000 else 0x8000_0000_0000_0000
  }

  /** The digit loop of strconv.ParseUint, left to right with its early exits:
      a non-digit is a syntax error (value 0), an overflow a range error (value
      maxVal), and nothing after the first exit is looked at. */
  function AccumulateDigits(s: string, base: nat, maxVal: nat, n: nat): (r: (nat, NumError))
    requires 2 <= base <= 36
    decreases |s|
  {
    if s == [] then (n, NoError)
    else
      var d := DigitValue(s[0]);
      if d < 0 || d >= base then (0, SyntaxError)
      else if n >= MAX_UINT64 / base + 1 then (maxVal, RangeError)
      else if n * base + d > maxVal then (maxVal, RangeError)
      else AccumulateDigits(s[1..], base, maxVal, n * base + d)
  }

  /** strconv.ParseUint(s, base, bitSize). */
  function ParseUint(s: string, base: nat, bitSize: nat): (nat, NumError)
    requires 2 <= base <= 36 && ValidBitSize(bitSize)
  {
    if s == [] then (0, SyntaxError) else AccumulateDigits(s, base, MaxUnsigned(bitSize), 0)
  }

  /** strconv.ParseInt(s, base, bitSize) as (value, err == nil).  An optional
      sign, then digits; out-of-range input is clamped and reported. */
  function ParseInt(s: string, base: nat, bitSize: nat): (r: (int, bool))
    requires 2 <= base <= 36 && ValidBitSize(bitSize)
    ensures -(SignedCutoff(bitSize) as int) <= r.0 < SignedCutoff(bitSize)
    ensures s == [] ==> r == (0, false)
  {
    if s == [] then (0, false)
    else
      var neg := s[0] == '-';
      var digits := if s[0] == '+' || s[0] == '-' then s[1..] else s;
      var (un, err) := ParseUint(digits, base, bitSize);
      if err == SyntaxError then (0, false)
      else
        var cutoff: int := SignedCutoff(bitSize);
        if !neg && un >= cutoff then (cutoff - 1, false)
        else if neg && un > cutoff then (-cutoff, false)
        else (if neg then 0 - un else un, err == NoError)
  }

  /** strconv.Atoi on a 64-bit platform: its fast path for short input accepts
      exactly what ParseInt(s, 10, 64) accepts, with the same value. */
  function Atoi(s: string): (r: (int, bool))
  {
    ParseInt(s, 10, 64)
  }

  /** The value of a string of digits, most significant first. */
  function DigitsValue(s: string, base: nat): nat
    requires 2 <= base <= 36
    requires forall i :: 0 <= i < |s| ==> IsDigitIn(s[i], base)
  {
    if s == [] then 0
    else
      var v := DigitsValue(s[..|s| - 1], base);
      assert v * base >= 0 && IsDigitIn(s[|s| - 1], base);
      v * base + DigitValue(s[|s| - 1])
  }

  function HexDigit(d: nat): (c: char)
    requires d < 16
    ensures DigitValue(c) == d
  {
    if d < 10 then ('0' as int + d) as char else ('a' as int + d - 10) as char
  }

  function Pow16(n: nat): (r: nat)
    ensures r >= 1
  {
    if n == 0 then 1 else 16 * Pow16(n - 1)
  }

  /** fmt's %0wx for a non-negative integer: lower-case hexadecimal, padded
      with zeros to at least w digits (%x is w = 1). */
  function HexPad(n: nat, w: nat): (s: string)
    ensures |s| >= w
    ensures forall i :: 0 <= i < |s| ==> IsDigitIn(s[i], 16)
    ensures forall i :: 0 <= i < |s| ==> s[i] in "0123456789abcdef"
    ensures n < Pow16(w) ==> |s| == w
    decreases n, w
  {
    if n == 0 && w == 0 then []
    else HexPad(n / 16, if w > 0 then w - 1 else 0) + [HexDigit(n % 16)]
  }

  /** Zero padded to w digits is w zeros. */
  lemma {:induction false} HexPadOfZero(w: nat)
    ensures |HexPad(0, w)| == w && forall i :: 0 <= i < w ==> HexPad(0, w)[i] == '0'
  {
    if w > 0 {
      HexPadOfZero(w - 1);
      assert HexPad(0, w) == HexPad(0, w - 1) + [HexDigit(0)];
    }
  }

  /** The hexadecimal text fmt writes reads back as the same number. */
  lemma {:induction false} HexPadValue(n: nat, w: nat)
    ensures DigitsValue(HexPad(n, w), 16) == n
    decreases n, w
  {
    if !(n == 0 && w == 0) {
      var p := HexPad(n / 16, if w > 0 then w - 1 else 0);
      var s := HexPad(n, w);
      assert s == p + [HexDigit(n % 16)];
      assert s[..|s| - 1] == p;
      HexPadValue(n / 16, if w > 0 then w - 1 else 0);
    }
  }

  /** The two bases the decoder parses in. */
  predicate NameBase(base: nat) {
    base == 10 || base == 16
  }

  lemma ScaleByBase(v: nat, base: nat)
    requires NameBase(base)
    ensures v * base == if base == 16 then v * 16 else v * 10
  {
  }

  lemma {:induction false} DigitsValuePrefix(s: string, base: nat, k: nat)
    requires NameBase(base)
    requires forall i :: 0 <= i < |s| ==> IsDigitIn(s[i], base)
    requires k <= |s|
    ensures DigitsValue(s[..k], base) <= DigitsValue(s, base)
    decreases |s| - k
  {
    if k < |s| {
      DigitsValuePrefix(s, base, k + 1);
      assert s[..k + 1][..k] == s[..k];
      var v := DigitsValue(s[..k], base);
      assert DigitsValue(s[..k + 1], base) == v * base + DigitValue(s[k]);
      ScaleByBase(v, base);
    } else {
      assert s[..k] == s;
    }
  }

  /** ParseUint's loop computes DigitsValue when the digits fit. */
  lemma {:induction false} AccumulateDigitsValue(s: string, base: nat, maxVal: nat, k: nat)
    requires NameBase(base) && maxVal <= MAX_UINT64
    requires forall i :: 0 <= i < |s| ==> IsDigitIn(s[i], base)
    requires k <= |s| && DigitsValue(s, base) <= maxVal
    ensures AccumulateDigits(s[k..], base, maxVal, DigitsValue(s[..k], base)) == (DigitsValue(s, base), NoError)
    decreases |s| - k
  {
    if k == |s| {
      assert s[..k] == s;
    } else {
      var acc := DigitsValue(s[..k], base);
      var d := DigitValue(s[k]);
      var next := acc * base + d;
      assert s[..k + 1][..k] == s[..k];
      assert DigitsValue(s[..k + 1], base) == next;
      DigitsValuePrefix(s, base, k + 1);
      assert IsDigitIn(s[k], base);
      NoOverflowStep(acc, base, d, maxVal);
      assert s[k..][1..] == s[k + 1..];
      assert s[k..][0] == s[k];
      assert AccumulateDigits(s[k..], base, maxVal, acc) == AccumulateDigits(s[k + 1..], base, maxVal, next);
      AccumulateDigitsValue(s, base, maxVal, k + 1);
    }
  }

  /** A step that lands within maxVal takes neither overflow exit. */
  lemma NoOverflowStep(acc: nat, base: nat, d: nat, maxVal: nat)
    requires NameBase(base) && maxVal <= MAX_UINT64 && d < base
    requires acc * base + d <= maxVal
    ensures !(acc >= MAX_UINT64 / base + 1) && !(acc * base + d > maxVal)
  {
    ScaleByBase(acc, base);
  }

  /** Appending a digit multiplies the value by the base and adds the
      digit. */
  lemma DigitsValueSnoc(s: string, c: char, base: nat)
    requires 2 <= base <= 36
    requires forall i :: 0 <= i < |s| ==> IsDigitIn(s[i], base)
    requires IsDigitIn(c, base)
    ensures DigitsValue(s + [c], base) == DigitsValue(s, base) * base + DigitValue(c)
  {
    var t := s + [c];
    assert t[..|t| - 1] == s;
  }

  /** The value of four digits, written out positionally. */
  lemma FourDigitsValue(s: string, base: nat)
    requires 2 <= base <= 36 && |s| == 4
    requires forall i :: 0 <= i < |s| ==> IsDigitIn(s[i], base)
    ensures DigitsValue(s, base)
            == ((DigitValue(s[0]) * base + DigitValue(s[1])) * base + DigitValue(s[2])) * base + DigitValue(s[3])
  {
    var d0, d1, d2, d3 := DigitValue(s[0]), DigitValue(s[1]), DigitValue(s[2]), DigitValue(s[3]);
    assert s[..0] + [s[0]] == s[..1];
    DigitsValueSnoc(s[..0], s[0], base);
    assert DigitsValue(s[..1], base) == d0;
    assert s[..1] + [s[1]] == s[..2];
    DigitsValueSnoc(s[..1], s[1], base);
    assert DigitsValue(s[..2], base) == d0 * base + d1;
    assert s[..2] + [s[2]] == s[..3];
    DigitsValueSnoc(s[..2], s[2], base);
    assert DigitsValue(s[..3], base) == (d0 * base + d1) * base + d2;
    assert s[..3] + [s[3]] == s;
    DigitsValueSnoc(s[..3], s[3], base);
  }

  /** A run of zeros is worth zero. */
  lemma {:induction false} ZeroRunValue(s: string, base: nat)
    requires 2 <= base <= 36
    requires forall i :: 0 <= i < |s| ==> s[i] == '0'
    ensures DigitsValue(s, base) == 0
  {
    if s != [] {
      ZeroRunValue(s[..|s| - 1], base);
    }
  }

  /** Digits in base 10 or 16 whose value fits the signed width parse to that
      value without error. */
  lemma ParseIntOfDigits(s: string, base: nat, bitSize: nat)
    requires NameBase(base) && ValidBitSize(bitSize)
    requires |s| >= 1 && forall i :: 0 <= i < |s| ==> IsDigitIn(s[i], base)
    requires DigitsValue(s, base) < SignedCutoff(bitSize)
    ensures ParseInt(s, base, bitSize) == (DigitsValue(s, base), true)
  {
    AccumulateDigitsValue(s, base, MaxUnsigned(bitSize), 0);
    assert s[..0] == [] && s[0..] == s;
    assert DigitValue(s[0]) >= 0;
  }

  /** ParseUint's loop reports no error only when every character it read is
      a digit of the base. */
  lemma {:induction false} AccumulatedAreDigits(s: string, base: nat, maxVal: nat, n: nat)
    requires 2 <= base <= 36
    requires AccumulateDigits(s, base, maxVal, n).1 == NoError
    ensures forall i :: 0 <= i < |s| ==> IsDigitIn(s[i], base)
    decreases |s|
  {
    if s != [] {
      var d := DigitValue(s[0]);
      assert 0 <= d < base;
      AccumulatedAreDigits(s[1..], base, maxVal, n * base + d);
      assert forall i :: 1 <= i < |s| ==> s[i] == s[1..][i - 1];
    }
  }

  /** ParseInt accepts only an optional sign followed by at least one digit
      of the base. */
  lemma ParseIntAccepted(s: string, base: nat, bitSize: nat)
    requires 2 <= base <= 36 && ValidBitSize(bitSize)
    requires ParseInt(s, base, bitSize).1
    ensures |s| >= 1
    ensures var start := if s[0] == '+' || s[0] == '-' then 1 else 0;
            start < |s| && forall i :: start <= i < |s| ==> IsDigitIn(s[i], base)
  {
    var start := if s[0] == '+' || s[0] == '-' then 1 else 0;
    var digits := s[start..];
    assert ParseUint(digits, base, bitSize).1 == NoError;
    AccumulatedAreDigits(digits, base, MaxUnsigned(bitSize), 0);
    assert forall i :: start <= i < |s| ==> s[i] == digits[i - start];
  }

  /** %0wx followed by ParseInt(.., 16, bitSize) is the identity on values that
      fit the signed width. */
  lemma ParseIntOfHexPad(n: nat, w: nat, bitSize: nat)
    requires ValidBitSize(bitSize) && w >= 1
    requires n < SignedCutoff(bitSize)
    ensures ParseInt(HexPad(n, w), 16, bitSize) == (n, true)
  {
    var s := HexPad(n, w);
    HexPadValue(n, w);
    AccumulateDigitsValue(s, 16, MaxUnsigned(bitSize), 0);
    assert s[..0] == [] && s[0..] == s;
    assert DigitValue(s[0]) >= 0;
  }

  /** A value at or above the signed cutoff (a uint32 tag of 0x80000000 or more
      read back with bitSize 32) is clamped to the largest signed value and
      reported as an error. */
  lemma ParseIntOfLargeHexPad(n: nat, w: nat)
    requires w >= 1 && 0x8000_0000 <= n <= 0xFFFF_FFFF
    ensures ParseInt(HexPad(n, w), 16, 32) == (0x7FFF_FFFF, false)
  {
    var s := HexPad(n, w);
    HexPadValue(n, w);
    AccumulateDigitsValue(s, 16, MaxUnsigned(32), 0);
    assert s[..0] == [] && s[0..] == s;
    assert DigitValue(s[0]) >= 0;
  }
}

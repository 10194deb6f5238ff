/** Go's string semantics as the message code relies on them.  A Go string is
    modelled by the sequence of runes it holds; Go's `len` (a byte count) is
    `Utf8Len`, and converting a byte slice to a string (`string(b)`) is
    `BytesToText`, the rune view Go's `range` gives of those bytes. */
module GoText {
  import opened ByteOrder

  const REPLACEMENT: char := '�'

  /** utf8.RuneLen: the number of bytes UTF-8 uses for c. */
  function RuneLen(c: char): (n: nat)
    ensures 1 <= n <= 4
  {
    var v := c as int;
    if v < 0x80 then 1 else if v < 0x800 then 2 else if v < 0x10000 then 3 else 4
  }

  /** Go's len(s). */
  function Utf8Len(s: string): (n: nat)
    ensures |s| <= n <= 4 * |s|
    ensures n == 0 <==> s == []
  {
    if s == [] then 0 else RuneLen(s[0]) + Utf8Len(s[1..])
  }

  lemma {:induction false} Utf8LenAppend(a: string, b: string)
    ensures Utf8Len(a + b) == Utf8Len(a) + Utf8Len(b)
  {
    if a == [] {
      assert a + b == b;
    } else {
      assert (a + b)[0] == a[0] && (a + b)[1..] == a[1..] + b;
      Utf8LenAppend(a[1..], b);
    }
  }

  /** utf8.EncodeRune. */
  function EncodeRune(c: char): (b: seq<Byte>)
    ensures |b| == RuneLen(c)
  {
    var v := c as int;
    if v < 0x80 then [v]
    else if v < 0x800 then [0xC0 + v / 64, 0x80 + v % 64]
    else if v < 0x10000 then [0xE0 + v / 4096, 0x80 + (v / 64) % 64, 0x80 + v % 64]
    else [0xF0 + v / 262144, 0x80 + (v / 4096) % 64, 0x80 + (v / 64) % 64, 0x80 + v % 64]
  }

  /** The bytes of a Go string holding the runes of s. */
  function Utf8Encode(s: string): (b: seq<Byte>)
    ensures |b| == Utf8Len(s)
  {
    if s == [] then [] else EncodeRune(s[0]) + Utf8Encode(s[1..])
  }

  predicate IsContinuation(b: Byte) {
    0x80 <= b < 0xC0
  }

  /** The second byte a three-byte sequence led by x accepts (no overlong forms,
      no surrogates). */
  predicate AcceptsSecondOfThree(x: Byte, y: Byte) {
    if x == 0xE0 then 0xA0 <= y < 0xC0
    else if x == 0xED then 0x80 <= y < 0xA0
    else IsContinuation(y)
  }

  /** The second byte a four-byte sequence led by x accepts (no overlong forms,
      nothing above U+10FFFF). */
  predicate AcceptsSecondOfFour(x: Byte, y: Byte) {
    if x == 0xF0 then 0x90 <= y < 0xC0
    else if x == 0xF4 then 0x80 <= y < 0x90
    else IsContinuation(y)
  }

  /** utf8.DecodeRune: the first rune of b and its width; an invalid or
      truncated sequence reads as U+FFFD of width 1. */
  function DecodeRune(b: seq<Byte>): (r: (char, nat))
    requires |b| > 0
    ensures 1 <= r.1 <= |b|
  {
    var x: int := b[0];
    if x < 0x80 then
      (x as char, 1)
    else if 0xC2 <= x < 0xE0 && |b| >= 2 && IsContinuation(b[1]) then
      (((x - 0xC0) * 64 + (b[1] as int - 0x80)) as char, 2)
    else if 0xE0 <= x < 0xF0 && |b| >= 3 && AcceptsSecondOfThree(b[0], b[1]) && IsContinuation(b[2]) then
      (((x - 0xE0) * 4096 + (b[1] as int - 0x80) * 64 + (b[2] as int - 0x80)) as char, 3)
    else if 0xF0 <= x < 0xF5 && |b| >= 4 && AcceptsSecondOfFour(b[0], b[1])
            && IsContinuation(b[2]) && IsContinuation(b[3]) then
      (((x - 0xF0) * 262144 + (b[1] as int - 0x80) * 4096 + (b[2] as int - 0x80) * 64 + (b[3] as int - 0x80)) as char, 4)
    else
      (REPLACEMENT, 1)
  }

  /** string(b) for a byte slice b, seen as the runes `range` yields. */
  function BytesToText(b: seq<Byte>): (s: string)
    ensures |s| <= |b|
    decreases |b|
  {
    if b == [] then [] else var r := DecodeRune(b); [r.0] + BytesToText(b[r.1..])
  }

  lemma DecodeEncodedRune2(c: char, rest: seq<Byte>)
    requires 0x80 <= c as int < 0x800
    ensures DecodeRune(EncodeRune(c) + rest) == (c, 2)
  {
    var v := c as int;
    var b := EncodeRune(c) + rest;
    assert b[0] == 0xC0 + v / 64 && b[1] == 0x80 + v % 64;
    assert (b[0] as int - 0xC0) * 64 + (b[1] as int - 0x80) == v;
  }

  lemma DecodeEncodedRune3(c: char, rest: seq<Byte>)
    requires 0x800 <= c as int < 0x10000
    ensures DecodeRune(EncodeRune(c) + rest) == (c, 3)
  {
    var v := c as int;
    var b := EncodeRune(c) + rest;
    var q, m := v / 64, v % 64;
    assert v == q * 64 + m;
    assert q / 64 == v / 4096 && q % 64 == (v / 64) % 64;
    assert q == (q / 64) * 64 + q % 64;
    assert b[0] == 0xE0 + v / 4096 && b[1] == 0x80 + q % 64 && b[2] == 0x80 + m;
    assert (b[0] as int - 0xE0) * 4096 + (b[1] as int - 0x80) * 64 + (b[2] as int - 0x80) == v;
  }

  lemma DecodeEncodedRune4(c: char, rest: seq<Byte>)
    requires 0x10000 <= c as int
    ensures DecodeRune(EncodeRune(c) + rest) == (c, 4)
  {
    var v := c as int;
    var b := EncodeRune(c) + rest;
    var q, m := v / 64, v % 64;
    var q2, m2 := q / 64, q % 64;
    assert v == q * 64 + m && q == q2 * 64 + m2;
    assert q2 == v / 4096 && q2 / 64 == v / 262144 && q2 % 64 == (v / 4096) % 64;
    assert q2 == (q2 / 64) * 64 + q2 % 64;
    assert b[0] == 0xF0 + v / 262144 && b[1] == 0x80 + q2 % 64 && b[2] == 0x80 + m2 && b[3] == 0x80 + m;
    assert (b[0] as int - 0xF0) * 262144 + (b[1] as int - 0x80) * 4096 + (b[2] as int - 0x80) * 64 + (b[3] as int - 0x80) == v;
  }

  lemma DecodeEncodedRune(c: char, rest: seq<Byte>)
    ensures DecodeRune(EncodeRune(c) + rest) == (c, RuneLen(c))
  {
    var v := c as int;
    if v < 0x80 {
      assert (EncodeRune(c) + rest)[0] == v;
    } else if v < 0x800 {
      DecodeEncodedRune2(c, rest);
    } else if v < 0x10000 {
      DecodeEncodedRune3(c, rest);
    } else {
      DecodeEncodedRune4(c, rest);
    }
  }

  /** Reading the UTF-8 bytes of a string back as runes gives the string again. */
  lemma {:induction false} BytesToTextOfUtf8Encode(s: string)
    ensures BytesToText(Utf8Encode(s)) == s
  {
    if s != [] {
      var b := Utf8Encode(s);
      assert b == EncodeRune(s[0]) + Utf8Encode(s[1..]);
      DecodeEncodedRune(s[0], Utf8Encode(s[1..]));
      assert b[RuneLen(s[0])..] == Utf8Encode(s[1..]);
      BytesToTextOfUtf8Encode(s[1..]);
    }
  }

  /** A byte that can never start a UTF-8 sequence is one byte of Go's
      `string(b)`, but the rune view reads it as U+FFFD, three bytes long:
      the rune view of invalid bytes is longer than the bytes themselves. */
  lemma InvalidLeadByteWidens(b: seq<Byte>)
    requires |b| > 0 && 0x80 <= b[0] && (b[0] < 0xC2 || 0xF5 <= b[0])
    ensures BytesToText(b) == [REPLACEMENT] + BytesToText(b[1..])
    ensures Utf8Len(BytesToText(b)) == 3 + Utf8Len(BytesToText(b[1..]))
  {
    var s := BytesToText(b);
    assert s[1..] == BytesToText(b[1..]);
  }

  /** A Go rune that is a Unicode scalar value. */
  predicate IsScalar(r: int) {
    0 <= r < 0xD800 || 0xE000 <= r < 0x110000
  }

  /** How string([]rune) writes one rune: anything that is not a scalar value
      (a lone surrogate, say) becomes U+FFFD. */
  function RuneToChar(r: int): char {
    if IsScalar(r) then r as char else REPLACEMENT
  }

  /** string(rs) for a rune slice rs. */
  function RunesToText(rs: seq<int>): (s: string)
    ensures |s| == |rs|
  {
    seq(|rs|, i requires 0 <= i < |rs| => RuneToChar(rs[i]))
  }

  /** unicode.IsSpace: the Latin-1 spaces and the White_Space property beyond. */
  predicate IsSpace(c: char) {
    var v := c as int;
    if v <= 0xFF then
      v == 0x09 || v == 0x0A || v == 0x0B || v == 0x0C || v == 0x0D || v == 0x20 || v == 0x85 || v == 0xA0
    else
      v == 0x1680 || 0x2000 <= v <= 0x200A || v == 0x2028 || v == 0x2029 || v == 0x202F
      || v == 0x205F || v == 0x3000
  }

  predicate AllSpace(s: string) {
    forall k :: 0 <= k < |s| ==> IsSpace(s[k])
  }

  function LeadingSpaces(s: string): (n: nat)
    ensures n <= |s| && AllSpace(s[..n])
    ensures n < |s| ==> !IsSpace(s[n])
  {
    if s != [] && IsSpace(s[0]) then 1 + LeadingSpaces(s[1..]) else 0
  }

  function TrailingSpaces(s: string): (n: nat)
    ensures n <= |s| && AllSpace(s[|s| - n..])
    ensures n < |s| ==> !IsSpace(s[|s| - n - 1])
  {
    if s != [] && IsSpace(s[|s| - 1]) then 1 + TrailingSpaces(s[..|s| - 1]) else 0
  }

  /** strings.TrimSpace: s without its leading and trailing white space. */
  function TrimSpace(s: string): (t: string)
    ensures |t| <= |s|
    ensures t == [] || (!IsSpace(t[0]) && !IsSpace(t[|t| - 1]))
    ensures var i := LeadingSpaces(s);
            i + |t| <= |s| && t == s[i..i + |t|] && AllSpace(s[..i]) && AllSpace(s[i + |t|..])
  {
    var i := LeadingSpaces(s);
    var r := s[i..];
    var n := TrailingSpaces(r);
    var t := r[..|r| - n];
    TrimSlices(s, i, n);
    t
  }

  /** Where the trimmed text and the trailing run sit inside s. */
  lemma TrimSlices(s: string, i: nat, n: nat)
    requires i <= |s| && n <= |s| - i
    ensures var r := s[i..];
            var t := r[..|r| - n];
            && |t| == |s| - i - n
            && t == s[i..i + |t|]
            && s[i + |t|..] == r[|r| - n..]
            && (t != [] ==> t[0] == s[i] && t[|t| - 1] == r[|r| - n - 1])
  {
  }

  lemma TrimSpaceIdempotent(s: string)
    ensures TrimSpace(TrimSpace(s)) == TrimSpace(s)
  {
    var t := TrimSpace(s);
    assert t != [] ==> LeadingSpaces(t) == 0 && TrailingSpaces(t) == 0;
  }

  predicate HasPrefix<T(==)>(s: seq<T>, p: seq<T>) {
    |p| <= |s| && s[..|p|] == p
  }

  /** strings.Contains. */
  predicate Contains<T(==)>(s: seq<T>, sub: seq<T>)
    decreases |s|
  {
    HasPrefix(s, sub) || (s != [] && Contains(s[1..], sub))
  }

  lemma {:induction false} ContainsWithin<T>(a: seq<T>, sub: seq<T>, b: seq<T>)
    ensures Contains(a + sub + b, sub)
  {
    if a != [] {
      assert (a + sub + b)[1..] == a[1..] + sub + b;
      ContainsWithin(a[1..], sub, b);
    } else {
      assert (a + sub + b)[..|sub|] == sub;
    }
  }

  lemma {:induction false} ContainsLength<T>(s: seq<T>, sub: seq<T>)
    requires Contains(s, sub)
    ensures |sub| <= |s|
  {
    if !HasPrefix(s, sub) {
      ContainsLength(s[1..], sub);
    }
  }

  /** A sequence in which the first element of sub never occurs does not
      contain sub. */
  lemma {:induction false} NotContainsWithoutHead<T>(s: seq<T>, sub: seq<T>)
    requires sub != [] && forall k :: 0 <= k < |s| ==> s[k] != sub[0]
    ensures !Contains(s, sub)
  {
    if s != [] {
      if |sub| <= |s| {
        assert s[..|sub|][0] != sub[0];
      }
      NotContainsWithoutHead(s[1..], sub);
    }
  }

  /** strings.Count for a one-rune pattern: occurrences of x in s. */
  function Count<T(==)>(s: seq<T>, x: T): (n: nat)
    ensures n <= |s|
  {
    if s == [] then 0 else (if s[0] == x then 1 else 0) + Count(s[1..], x)
  }

  /** strings.Join. */
  function Join<T>(parts: seq<seq<T>>, sep: seq<T>): seq<T>
  {
    if |parts| == 0 then []
    else if |parts| == 1 then parts[0]
    else parts[0] + sep + Join(parts[1..], sep)
  }

  /** strings.Split around a one-element separator: every piece of s between
      separators, so n separators give n + 1 pieces. */
  function Split<T(==)>(s: seq<T>, sep: T): (parts: seq<seq<T>>)
    ensures |parts| >= 1
  {
    if s == [] then [[]]
    else
      var rest := Split(s[1..], sep);
      if s[0] == sep then [[]] + rest else [[s[0]] + rest[0]] + rest[1..]
  }

  /** The pieces Split returns hold no separator and, joined around it, give
      the input back. */
  lemma {:induction false} SplitPieces<T>(s: seq<T>, sep: T)
    ensures var parts := Split(s, sep);
            (forall i :: 0 <= i < |parts| ==> sep !in parts[i]) && Join(parts, [sep]) == s
  {
    if s != [] {
      var rest := Split(s[1..], sep);
      SplitPieces(s[1..], sep);
      var parts := Split(s, sep);
      if s[0] == sep {
        assert parts == [[]] + rest;
        assert Join(parts, [sep]) == [] + [sep] + Join(rest, [sep]);
        assert s == [s[0]] + s[1..];
      } else {
        assert parts == [[s[0]] + rest[0]] + rest[1..];
        if |rest| == 1 {
          assert Join(parts, [sep]) == [s[0]] + rest[0];
        } else {
          assert Join(rest, [sep]) == rest[0] + [sep] + Join(rest[1..], [sep]);
          assert Join(parts, [sep]) == ([s[0]] + rest[0]) + [sep] + Join(rest[1..], [sep]);
        }
        assert s == [s[0]] + s[1..];
        forall i | 0 <= i < |parts|
          ensures sep !in parts[i]
        {
          if i > 0 { assert parts[i] == rest[i]; }
        }
      }
    }
  }

  /** Splitting what Join glued together gives the pieces back, provided no
      piece holds the separator. */
  lemma {:induction false} SplitJoin<T>(parts: seq<seq<T>>, sep: T)
    requires |parts| >= 1
    requires forall i :: 0 <= i < |parts| ==> sep !in parts[i]
    ensures Split(Join(parts, [sep]), sep) == parts
  {
    if |parts| == 1 {
      SplitOfSeparatorFree(parts[0], sep);
    } else {
      SplitJoin(parts[1..], sep);
      SplitPrefix(parts[0], sep, Join(parts[1..], [sep]));
    }
  }

  lemma {:induction false} SplitOfSeparatorFree<T>(s: seq<T>, sep: T)
    requires sep !in s
    ensures Split(s, sep) == [s]
  {
    if s != [] {
      SplitOfSeparatorFree(s[1..], sep);
      assert [s[0]] + s[1..] == s;
    }
  }

  /** Splitting `a + [sep] + b` when a holds no separator. */
  lemma {:induction false} SplitPrefix<T>(a: seq<T>, sep: T, b: seq<T>)
    requires sep !in a
    ensures Split(a + [sep] + b, sep) == [a] + Split(b, sep)
  {
    if a == [] {
      assert a + [sep] + b == [sep] + b;
      assert ([sep] + b)[1..] == b;
    } else {
      assert (a + [sep] + b)[1..] == a[1..] + [sep] + b;
      SplitPrefix(a[1..], sep, b);
      assert [a[0]] + a[1..] == a;
    }
  }
}

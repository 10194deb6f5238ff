/** PT_CLSID text: the 16 bytes of a GUID written as
    %08x-%04x-%04x-%04x-%012x (section 2.3.4 of [MS-DTYP]); the first three
    fields are little-endian, the fourth big-endian, the last six bytes are
    written in order. */
module Guid {
  import opened ByteOrder
  import opened Strconv

  /** %x on a byte slice: two lower-case hexadecimal digits per byte. */
  function HexBytes(b: seq<Byte>): (s: string)
    ensures |s| == 2 * |b|
    ensures forall k :: 0 <= k < |s| ==> IsLowerHex(s[k]) && IsDigitIn(s[k], 16)
  {
    if b == [] then []
    else
      assert Pow16(2) == 256;
      HexPad(b[0], 2) + HexBytes(b[1..])
  }

  /** The text fmt.Sprintf gives a 16-byte GUID. */
  function FormatGuid(b: seq<Byte>): (s: string)
    requires |b| == 16
    ensures |s| == 36
  {
    assert Pow16(8) == 0x1_0000_0000 && Pow16(4) == 0x1_0000;
    assert Pow256(4) == 0x1_0000_0000 && Pow256(2) == 0x1_0000;
    HexPad(LeUint(b[0..4]), 8) + "-" + HexPad(LeUint(b[4..6]), 4) + "-" + HexPad(LeUint(b[6..8]), 4)
    + "-" + HexPad(BeUint(b[8..10]), 4) + "-" + HexBytes(b[10..16])
  }

  /** Positions of the four dashes. */
  predicate IsDashPosition(k: int) {
    k == 8 || k == 13 || k == 18 || k == 23
  }

  predicate IsLowerHex(c: char) {
    c in "0123456789abcdef"
  }

  /** The text is 36 characters: lower-case hexadecimal digits with dashes
      at positions 8, 13, 18 and 23. */
  lemma GuidShape(b: seq<Byte>)
    requires |b| == 16
    ensures var s := FormatGuid(b);
            forall k :: 0 <= k < 36 ==> if IsDashPosition(k) then s[k] == '-' else IsLowerHex(s[k])
  {
    var s := FormatGuid(b);
    assert Pow16(8) == 0x1_0000_0000 && Pow16(4) == 0x1_0000;
    assert Pow256(4) == 0x1_0000_0000 && Pow256(2) == 0x1_0000;
    var f0, f1, f2 := HexPad(LeUint(b[0..4]), 8), HexPad(LeUint(b[4..6]), 4), HexPad(LeUint(b[6..8]), 4);
    var f3, f4 := HexPad(BeUint(b[8..10]), 4), HexBytes(b[10..16]);
    assert s == f0 + "-" + f1 + "-" + f2 + "-" + f3 + "-" + f4;
    forall k | 0 <= k < 36
      ensures if IsDashPosition(k) then s[k] == '-' else IsLowerHex(s[k])
    {
      if k < 8 { assert s[k] == f0[k]; }
      else if 8 < k < 13 { assert s[k] == f1[k - 9]; }
      else if 13 < k < 18 { assert s[k] == f2[k - 14]; }
      else if 18 < k < 23 { assert s[k] == f3[k - 19]; }
      else if 23 < k { assert s[k] == f4[k - 24]; }
    }
  }

  /** Sixteen zero bytes give 00000000-0000-0000-0000-000000000000. */
  lemma NilGuid(b: seq<Byte>)
    requires |b| == 16 && forall k :: 0 <= k < 16 ==> b[k] == 0
    ensures var s := FormatGuid(b);
            forall k :: 0 <= k < 36 ==> s[k] == if IsDashPosition(k) then '-' else '0'
  {
    var s := FormatGuid(b);
    LeUintOfZeros(b[0..4]);
    LeUintOfZeros(b[4..6]);
    LeUintOfZeros(b[6..8]);
    BeUintOfZeros(b[8..10]);
    HexPadOfZero(8);
    HexPadOfZero(4);
    HexBytesOfZeros(b[10..16]);
    GuidShape(b);
    GuidFields(b);
    forall k | 0 <= k < 36 && !IsDashPosition(k)
      ensures s[k] == '0'
    {
      if k < 8 { assert s[k] == s[0..8][k]; }
      else if k < 13 { assert s[k] == s[9..13][k - 9]; }
      else if k < 18 { assert s[k] == s[14..18][k - 14]; }
      else if k < 23 { assert s[k] == s[19..23][k - 19]; }
      else { assert s[k] == s[24..36][k - 24]; }
    }
  }

  lemma {:induction false} HexBytesOfZeros(b: seq<Byte>)
    requires forall k :: 0 <= k < |b| ==> b[k] == 0
    ensures forall i :: 0 <= i < |HexBytes(b)| ==> HexBytes(b)[i] == '0'
  {
    if b != [] {
      HexPadOfZero(2);
      HexBytesOfZeros(b[1..]);
      assert HexBytes(b) == HexPad(0, 2) + HexBytes(b[1..]);
    }
  }

  /** Well-formed GUID text: the shape FormatGuid produces. */
  predicate IsGuidText(s: string) {
    |s| == 36 && forall k :: 0 <= k < 36 ==> if IsDashPosition(k) then s[k] == '-' else IsDigitIn(s[k], 16)
  }

  /** Two hexadecimal digits read as one byte. */
  function HexByteValue(hi: char, lo: char): Byte
    requires IsDigitIn(hi, 16) && IsDigitIn(lo, 16)
  {
    DigitValue(hi) * 16 + DigitValue(lo)
  }

  /** The bytes %x wrote: every pair of digits read as one byte. */
  function UnHex(s: string): (b: seq<Byte>)
    requires |s| % 2 == 0
    requires forall k :: 0 <= k < |s| ==> IsDigitIn(s[k], 16)
    ensures |b| == |s| / 2
  {
    if s == [] then [] else [HexByteValue(s[0], s[1])] + UnHex(s[2..])
  }

  /** The n bytes of u, most significant first. */
  function BeBytes(u: nat, n: nat): (b: seq<Byte>)
    ensures |b| == n
  {
    if n == 0 then [] else BeBytes(u / 256, n - 1) + [u % 256]
  }

  /** Reads GUID text back into the 16 bytes it was written from. */
  function ParseGuid(s: string): (b: seq<Byte>)
    requires IsGuidText(s)
    ensures |b| == 16
  {
    LeBytes(DigitsValue(s[0..8], 16), 4) + LeBytes(DigitsValue(s[9..13], 16), 2)
    + LeBytes(DigitsValue(s[14..18], 16), 2) + BeBytes(DigitsValue(s[19..23], 16), 2) + UnHex(s[24..36])
  }

  lemma HexByteOfHexPad(v: Byte)
    ensures var h := HexPad(v, 2);
            |h| == 2 && HexByteValue(h[0], h[1]) == v
  {
    assert Pow16(2) == 256;
    var h := HexPad(v, 2);
    HexPadValue(v, 2);
    assert h[..1][..0] == [] && h[..2] == h;
    assert DigitsValue(h[..1], 16) == DigitValue(h[0]);
  }

  lemma {:induction false} UnHexOfHexBytes(b: seq<Byte>)
    ensures UnHex(HexBytes(b)) == b
  {
    if b != [] {
      var h := HexPad(b[0], 2);
      HexByteOfHexPad(b[0]);
      var s := HexBytes(b);
      assert s == h + HexBytes(b[1..]);
      assert s[0] == h[0] && s[1] == h[1] && s[2..] == HexBytes(b[1..]);
      UnHexOfHexBytes(b[1..]);
    }
  }

  lemma BeBytesOfBeUint2(b: seq<Byte>)
    requires |b| == 2
    ensures BeBytes(BeUint(b), 2) == b
  {
    assert b[..1][..0] == [];
    assert BeUint(b) == b[0] as int * 256 + b[1] as int;
  }

  /** A little-endian field written with w = 2 * |x| digits reads back. */
  lemma LeFieldRoundTrip(x: seq<Byte>)
    requires |x| == 2 || |x| == 4
    ensures DigitsValue(HexPad(LeUint(x), 2 * |x|), 16) == LeUint(x)
    ensures LeBytes(DigitsValue(HexPad(LeUint(x), 2 * |x|), 16), |x|) == x
  {
    HexPadValue(LeUint(x), 2 * |x|);
    LeBytesOfLeUint(x);
  }

  lemma GuidFields(b: seq<Byte>)
    requires |b| == 16
    ensures var s := FormatGuid(b);
            s[0..8] == HexPad(LeUint(b[0..4]), 8) && s[9..13] == HexPad(LeUint(b[4..6]), 4)
            && s[14..18] == HexPad(LeUint(b[6..8]), 4) && s[19..23] == HexPad(BeUint(b[8..10]), 4)
            && s[24..36] == HexBytes(b[10..16])
  {
    assert Pow16(8) == 0x1_0000_0000 && Pow16(4) == 0x1_0000;
    assert Pow256(4) == 0x1_0000_0000 && Pow256(2) == 0x1_0000;
    var f0, f1, f2 := HexPad(LeUint(b[0..4]), 8), HexPad(LeUint(b[4..6]), 4), HexPad(LeUint(b[6..8]), 4);
    var f3, f4 := HexPad(BeUint(b[8..10]), 4), HexBytes(b[10..16]);
    assert FormatGuid(b) == f0 + "-" + f1 + "-" + f2 + "-" + f3 + "-" + f4;
    GuidLayout(f0, f1, f2, f3, f4);
  }

  /** Where the five fields sit in the dashed text. */
  lemma GuidLayout(f0: string, f1: string, f2: string, f3: string, f4: string)
    requires |f0| == 8 && |f1| == 4 && |f2| == 4 && |f3| == 4 && |f4| == 12
    ensures var s := f0 + "-" + f1 + "-" + f2 + "-" + f3 + "-" + f4;
            s[0..8] == f0 && s[9..13] == f1 && s[14..18] == f2 && s[19..23] == f3 && s[24..36] == f4
  {
  }

  /** FormatGuid writes well-formed GUID text. */
  lemma FormatGuidIsGuidText(b: seq<Byte>)
    requires |b| == 16
    ensures IsGuidText(FormatGuid(b))
  {
    GuidShape(b);
    var s := FormatGuid(b);
    forall k | 0 <= k < 36 && !IsDashPosition(k)
      ensures IsDigitIn(s[k], 16)
    {
      assert IsLowerHex(s[k]);
    }
  }

  /** Reading the text back gives the bytes: no two GUIDs share a text. */
  lemma ParseFormatGuid(b: seq<Byte>)
    requires |b| == 16
    ensures IsGuidText(FormatGuid(b))
    ensures ParseGuid(FormatGuid(b)) == b
  {
    FormatGuidIsGuidText(b);
    GuidFields(b);
    LeFieldsBack(b);
    BeFieldBack(b);
    UnHexOfHexBytes(b[10..16]);
    GuidPieces(b);
  }

  /** The three little-endian fields read back to their bytes. */
  lemma LeFieldsBack(b: seq<Byte>)
    requires |b| == 16
    ensures LeBytes(DigitsValue(HexPad(LeUint(b[0..4]), 8), 16), 4) == b[0..4]
    ensures LeBytes(DigitsValue(HexPad(LeUint(b[4..6]), 4), 16), 2) == b[4..6]
    ensures LeBytes(DigitsValue(HexPad(LeUint(b[6..8]), 4), 16), 2) == b[6..8]
  {
    LeFieldRoundTrip(b[0..4]);
    LeFieldRoundTrip(b[4..6]);
    LeFieldRoundTrip(b[6..8]);
  }

  /** The big-endian field reads back to its bytes. */
  lemma BeFieldBack(b: seq<Byte>)
    requires |b| == 16
    ensures BeBytes(DigitsValue(HexPad(BeUint(b[8..10]), 4), 16), 2) == b[8..10]
  {
    assert Pow256(2) == 0x1_0000 && Pow16(4) == 0x1_0000;
    HexPadValue(BeUint(b[8..10]), 4);
    BeBytesOfBeUint2(b[8..10]);
  }

  lemma GuidPieces(b: seq<Byte>)
    requires |b| == 16
    ensures b == b[0..4] + b[4..6] + b[6..8] + b[8..10] + b[10..16]
  {
    assert b[0..4] + b[4..6] == b[0..6];
    assert b[0..6] + b[6..8] == b[0..8];
    assert b[0..8] + b[8..10] == b[0..10];
    assert b[0..10] + b[10..16] == b[0..16];
  }
}

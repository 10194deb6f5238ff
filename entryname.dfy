/** The names the decoder reads: a property stream is called "__substg1.0_"
    followed by four hexadecimal digits of property id and four of property
    type (parseEntryName), and a stream inside a recipient storage has a
    first path element "__recip_version1.0_#" followed by the recipient's
    ordinal (processRecipientStream). */
module EntryName {
  import opened Wrappers
  import opened GoText
  import opened Strconv

  const PROPERTY_STREAM_PREFIX: string := "__substg1.0_"

  /** The Class and Mapi parseEntryName fills in. */
  datatype NameInfo = NameInfo(cls: string, mapi: int)

  /** The empty MessageEntryProperty parseEntryName returns for a name it
      does not understand. */
  const UNNAMED: NameInfo := NameInfo("", 0)

  /** parseEntryName: the four characters after the prefix as the class,
      unchecked, and the next four parsed as a 64-bit hexadecimal integer. */
  function ParseEntryName(name: string): (r: NameInfo)
    ensures r.cls == [] || |r.cls| == 4
  {
    if !HasPrefix(name, PROPERTY_STREAM_PREFIX) then UNNAMED
    else
      var val := name[|PROPERTY_STREAM_PREFIX|..];
      if |val| < 8 then UNNAMED
      else
        var (mapi, ok) := ParseInt(val[4..8], 16, 64);
        if !ok then UNNAMED else NameInfo(val[0..4], mapi)
  }

  /** A name written as the prefix, a 4-character class and the type as four
      hexadecimal digits (and anything after) parses back to that class and
      type. */
  lemma EntryNameRoundTrip(cls: string, propType: nat, rest: string)
    requires |cls| == 4 && propType < 0x1_0000
    ensures ParseEntryName(PROPERTY_STREAM_PREFIX + cls + HexPad(propType, 4) + rest) == NameInfo(cls, propType)
  {
    var h := HexPad(propType, 4);
    assert Pow16(4) == 0x1_0000;
    var name := PROPERTY_STREAM_PREFIX + cls + h + rest;
    assert name[..|PROPERTY_STREAM_PREFIX|] == PROPERTY_STREAM_PREFIX;
    var val := name[|PROPERTY_STREAM_PREFIX|..];
    assert val == cls + h + rest;
    assert val[0..4] == cls && val[4..8] == h;
    ParseIntOfHexPad(propType, 4, 64);
  }

  /** Whatever parseEntryName accepts is the prefix, the class at characters
      12 to 15, and at 16 to 19 hexadecimal digits, the first of which may be
      a sign instead. */
  lemma NamedEntryShape(name: string)
    requires ParseEntryName(name) != UNNAMED
    ensures HasPrefix(name, PROPERTY_STREAM_PREFIX) && |name| >= 20
    ensures ParseEntryName(name).cls == name[12..16]
    ensures forall k :: 17 <= k < 20 ==> IsDigitIn(name[k], 16)
    ensures IsDigitIn(name[16], 16) || name[16] == '+' || name[16] == '-'
  {
    var val := name[12..];
    var t := val[4..8];
    ParseIntAccepted(t, 16, 64);
    assert forall k :: 16 <= k < 20 ==> name[k] == t[k - 16];
  }

  /** The type may carry a sign: "-001" is accepted as type -1. */
  lemma SignedTypeAccepted()
    ensures ParseEntryName("__substg1.0_0037-001") == NameInfo("0037", -1)
  {
    var name := "__substg1.0_0037-001";
    assert HasPrefix(name, PROPERTY_STREAM_PREFIX);
    var val := name[12..];
    assert val == "0037-001";
    assert val[4..8] == "-001" && val[0..4] == "0037";
    var digits := "001";
    assert "-001"[1..] == digits;
    assert digits == "00" + ['1'];
    ZeroRunValue("00", 16);
    DigitsValueSnoc("00", '1', 16);
    ParseIntOfDigits(digits, 16, 64);
  }

  const RECIPIENT_MARKER: string := "__recip_version1.0_"

  /** The length of "__recip_version1.0_#", where the ordinal starts. */
  const ORDINAL_START: nat := 20

  /** processRecipientStream: the text after "__recip_version1.0_#" parsed
      with strconv.Atoi; a non-zero ordinal becomes LastRecipient, zero or an
      unparsable one leaves it, and a path element too short to slice
      panics. */
  function RecipientOrdinal(path0: string, last: int): (r: Outcome<int>)
  {
    if |path0| < ORDINAL_START then Panic
    else
      var (v, ok) := Atoi(path0[ORDINAL_START..]);
      if ok && v != 0 then Ok(v) else Ok(last)
  }

  /** A decimal ordinal that fits an int64 becomes LastRecipient unless it is
      zero. */
  lemma DecimalOrdinal(path0: string, last: int)
    requires |path0| > ORDINAL_START
    requires forall k :: ORDINAL_START <= k < |path0| ==> IsDigitIn(path0[k], 10)
    requires DigitsValue(path0[ORDINAL_START..], 10) < SignedCutoff(64)
    ensures var v := DigitsValue(path0[ORDINAL_START..], 10);
            RecipientOrdinal(path0, last) == Ok(if v != 0 then v else last)
  {
    var s := path0[ORDINAL_START..];
    assert forall i :: 0 <= i < |s| ==> s[i] == path0[ORDINAL_START + i];
    ParseIntOfDigits(s, 10, 64);
  }

  /** Outlook writes the ordinal as eight hexadecimal digits, but it is read
      as decimal: an ordinal holding a letter digit, or any other non-decimal
      character after the sign position, leaves LastRecipient as it was. */
  lemma NonDecimalOrdinalIgnored(path0: string, last: int, k: nat)
    requires ORDINAL_START <= k < |path0|
    requires !IsDigitIn(path0[k], 10) && path0[k] != '+' && path0[k] != '-'
    ensures RecipientOrdinal(path0, last) == Ok(last)
  {
    var s := path0[ORDINAL_START..];
    assert s[k - ORDINAL_START] == path0[k];
    if Atoi(s).1 {
      ParseIntAccepted(s, 10, 64);
    }
  }

  /** The seventeenth recipient, "__recip_version1.0_#00000010", is taken for
      recipient 10. */
  lemma HexOrdinalReadAsDecimal(last: int)
    ensures RecipientOrdinal("__recip_version1.0_#00000010", last) == Ok(10)
  {
    var path0 := "__recip_version1.0_#00000010";
    var s := path0[ORDINAL_START..];
    assert s == "000000" + ['1'] + ['0'];
    ZeroRunValue("000000", 10);
    DigitsValueSnoc("000000", '1', 10);
    DigitsValueSnoc("0000001", '0', 10);
    DecimalOrdinal(path0, last);
  }
}

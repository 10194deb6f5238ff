/** processPropertiesStream (parsemsg.go): the scan over the bytes of a
    "__properties_version1.0" stream.  Each record is a 4-byte tag and a
    4-byte type, both little-endian, then either a value of the type's fixed
    width or a 4-byte length and that many bytes; each value is decoded by
    extractDataFromBytes and, unless its tag is zero, handed to
    SetProperties under the class "%04x" of the tag. */
module PropertiesStream {
  import opened Wrappers
  import opened ByteOrder
  import opened Strconv
  import opened Body
  import opened Values
  import opened Message

  /** The widths the scan gives the fixed-width types. */
  function FixedWidth(propType: nat): Option<nat> {
    match propType
    case 0x0002 => Some(2)
    case 0x0003 => Some(4)
    case 0x000B => Some(2)
    case 0x0014 => Some(8)
    case 0x0048 => Some(16)
    case _ => None
  }

  /** One record: tag, type and value bytes. */
  datatype Item = Item(tag: nat, propType: nat, value: seq<Byte>)

  /** One turn of the loop at offset: Ok(None) where the loop breaks (a
      header or a value running past the end), Panic where the 4-byte
      length itself does not fit, and otherwise the record and the offset
      after it. */
  function NextItem(data: seq<Byte>, offset: nat): Outcome<Option<(Item, nat)>> {
    if offset + 8 > |data| then Ok(None)
    else
      var tag := LeUint(data[offset..offset + 4]);
      var propType := LeUint(data[offset + 4..offset + 8]);
      var at := offset + 8;
      match FixedWidth(propType)
      case Some(w) =>
        if at + w > |data| then Ok(None)
        else Ok(Some((Item(tag, propType, data[at..at + w]), at + w)))
      case None =>
        if at + 4 > |data| then Panic
        else
          var len := LeUint(data[at..at + 4]);
          if at + 4 + len > |data| then Ok(None)
          else Ok(Some((Item(tag, propType, data[at + 4..at + 4 + len]), at + 4 + len)))
  }

  /** The records the loop reads from offset on. */
  function ScanItems(data: seq<Byte>, offset: nat): Outcome<seq<Item>>
    decreases |data| - offset
  {
    if offset >= |data| then Ok([])
    else
      match NextItem(data, offset)
      case Panic => Panic
      case Ok(None) => Ok([])
      case Ok(Some((it, next))) =>
        NextItemAdvances(data, offset);
        (match ScanItems(data, next)
         case Panic => Panic
         case Ok(rest) => Ok([it] + rest))
  }

  /** The MessageEntryProperty built from a record. */
  function ItemProperty(it: Item): Outcome<EntryProperty> {
    match FromBytesSpec(it.value, it.propType)
    case Panic => Panic
    case Ok(v) => Ok(EntryProperty(HexPad(it.tag, 4), it.propType, v))
  }

  /** What the loop does with one record: the property built and, unless
      its class is "0000", handed to SetProperties. */
  function StepItem(cats: Categories, m: Record, it: Item): Outcome<Record> {
    match ItemProperty(it)
    case Panic => Panic
    case Ok(p) => if p.cls == "0000" then Ok(m) else Dispatch(cats, m, p)
  }

  /** The records handled in turn. */
  function ApplyItems(cats: Categories, m: Record, items: seq<Item>): Outcome<Record>
    decreases |items|
  {
    if items == [] then Ok(m)
    else
      match StepItem(cats, m, items[0])
      case Panic => Panic
      case Ok(m1) => ApplyItems(cats, m1, items[1..])
  }

  /** The loop from offset on, one record at a time as the code runs it. */
  function ScanFrom(cats: Categories, m: Record, data: seq<Byte>, offset: nat): Outcome<Record>
    decreases |data| - offset
  {
    if offset >= |data| then Ok(m)
    else
      match NextItem(data, offset)
      case Panic => Panic
      case Ok(None) => Ok(m)
      case Ok(Some((it, next))) =>
        NextItemAdvances(data, offset);
        (match StepItem(cats, m, it)
         case Panic => Panic
         case Ok(m1) => ScanFrom(cats, m1, data, next))
  }

  /** The body of the loop after the record is read. */
  method HandleItem(cats: Categories, msg: Message, it: Item) returns (ok: bool)
    modifies msg
    ensures StepItem(cats, old(msg.Snapshot()), it) == if ok then Ok(msg.Snapshot()) else Panic
  {
    var value := ExtractDataFromBytes(it.value, it.propType);
    if value.Panic? {
      return false;
    }
    var property := EntryProperty(HexPad(it.tag, 4), it.propType, value.value);
    ok := true;
    if property.cls != "0000" {
      ok := msg.SetProperties(cats, property);
    }
  }

  /** processPropertiesStream on the bytes read from the stream. */
  method ProcessPropertiesStream(cats: Categories, msg: Message, data: seq<Byte>) returns (ok: bool)
    modifies msg
    ensures ScanFrom(cats, old(msg.Snapshot()), data, 0) == if ok then Ok(msg.Snapshot()) else Panic
  {
    if |data| == 0 {
      return true;
    }
    ghost var m0 := msg.Snapshot();
    var offset := 0;
    while offset < |data|
      invariant offset <= |data|
      invariant ScanFrom(cats, m0, data, 0) == ScanFrom(cats, msg.Snapshot(), data, offset)
      decreases |data| - offset
    {
      var record := ReadRecord(data, offset);
      if record.Panic? {
        return false;
      }
      if record.value.None? {
        break;
      }
      var (it, next) := record.value.value;
      ScanFromStep(cats, msg.Snapshot(), data, offset, it, next);
      ok := HandleItem(cats, msg, it);
      if !ok {
        return false;
      }
      offset := next;
    }
    return true;
  }

  /** The head of the loop: the tag and type, the width or the length, and
      the value. */
  method ReadRecord(data: seq<Byte>, offset: nat) returns (r: Outcome<Option<(Item, nat)>>)
    ensures r == NextItem(data, offset)
  {
    if offset + 8 > |data| {
      return Ok(None);
    }
    var propTag := LeUint(data[offset..offset + 4]);
    var propType := LeUint(data[offset + 4..offset + 8]);
    var at := offset + 8;
    var fixed := FixedWidth(propType);
    var valueLen: nat;
    if fixed.Some? {
      valueLen := fixed.value;
    } else {
      if at + 4 > |data| {
        return Panic;
      }
      valueLen := LeUint(data[at..at + 4]);
      at := at + 4;
    }
    if at + valueLen > |data| {
      return Ok(None);
    }
    var propValue := data[at..at + valueLen];
    return Ok(Some((Item(propTag, propType, propValue), at + valueLen)));
  }

  // Properties of the scan.

  /** A record starts past the header and ends within the data, and a
      fixed-width record has exactly its width. */
  lemma NextItemAdvances(data: seq<Byte>, offset: nat)
    requires NextItem(data, offset).Ok? && NextItem(data, offset).value.Some?
    ensures var (it, next) := NextItem(data, offset).value.value;
            && offset + 8 <= next - |it.value| && next <= |data|
            && it.value == data[next - |it.value|..next]
            && it.tag == LeUint(data[offset..offset + 4])
            && it.propType == LeUint(data[offset + 4..offset + 8])
            && (FixedWidth(it.propType).Some? ==> |it.value| == FixedWidth(it.propType).value)
  {
  }

  /** Doing the scan first and the dispatching after is the same as
      interleaving them: a panic anywhere aborts either way. */
  lemma {:induction false} ScanIsItemsThenApply(cats: Categories, m: Record, data: seq<Byte>, offset: nat)
    ensures ScanFrom(cats, m, data, offset) ==
              match ScanItems(data, offset)
              case Panic => Panic
              case Ok(items) => ApplyItems(cats, m, items)
    decreases |data| - offset
  {
    if offset < |data| && NextItem(data, offset).Ok? && NextItem(data, offset).value.Some? {
      var (it, next) := NextItem(data, offset).value.value;
      ScanFromStep(cats, m, data, offset, it, next);
      ScanItemsStep(data, offset, it, next);
      if ScanItems(data, next).Ok? {
        var rest := ScanItems(data, next).value;
        assert ([it] + rest)[0] == it && ([it] + rest)[1..] == rest;
      }
      match StepItem(cats, m, it)
      case Panic =>
      case Ok(m1) => ScanIsItemsThenApply(cats, m1, data, next);
    }
  }

  /** One turn of ScanFrom. */
  lemma ScanFromStep(cats: Categories, m: Record, data: seq<Byte>, offset: nat, it: Item, next: nat)
    requires offset < |data| && NextItem(data, offset) == Ok(Some((it, next)))
    ensures next > offset
    ensures ScanFrom(cats, m, data, offset) ==
              match StepItem(cats, m, it)
              case Panic => Panic
              case Ok(m1) => ScanFrom(cats, m1, data, next)
  {
    NextItemAdvances(data, offset);
  }

  /** Every record the scan reads decodes: the fixed-width types, the only
      ones extractDataFromBytes can panic on, always get their full width. */
  lemma {:induction false} ScannedItemsDecode(data: seq<Byte>, offset: nat)
    requires ScanItems(data, offset).Ok?
    ensures var items := ScanItems(data, offset).value;
            forall i :: 0 <= i < |items| ==> ItemProperty(items[i]).Ok?
    decreases |data| - offset
  {
    if offset < |data| && NextItem(data, offset).value.Some? {
      var (it, next) := NextItem(data, offset).value.value;
      NextItemAdvances(data, offset);
      ScannedItemsDecode(data, next);
      FullWidthDecodes(it);
      var items := ScanItems(data, offset).value;
      assert items == [it] + ScanItems(data, next).value;
    }
  }

  /** extractDataFromBytes does not panic on a value of its full width. */
  lemma FullWidthDecodes(it: Item)
    requires FixedWidth(it.propType).Some? ==> |it.value| == FixedWidth(it.propType).value
    ensures ItemProperty(it).Ok?
  {
  }

  /** The class "%04x" of a tag is "0000" exactly when the tag is zero, so
      only the zero tag is skipped. */
  lemma ZeroClassIsZeroTag(tag: nat)
    ensures HexPad(tag, 4) == "0000" <==> tag == 0
  {
    if HexPad(tag, 4) == "0000" {
      HexPadValue(tag, 4);
      ZeroDigitsValue();
    }
    if tag == 0 {
      ZeroTagClass();
    }
  }

  lemma ZeroDigitsValue()
    ensures DigitsValue("0000", 16) == 0
  {
    ZeroRunValue("0000", 16);
  }

  lemma ZeroTagClass()
    ensures HexPad(0, 4) == "0000"
  {
  }

  /** A tag from 0x80000000 up, the usual shape id << 16 | type for the
      named properties, gives a class ParseInt clamps to 0x7FFFFFFF: all of
      them land in the Properties map under that one key. */
  lemma HighTagsShareOneKey(tag: nat)
    requires 0x8000_0000 <= tag <= 0xFFFF_FFFF
    ensures ParseInt(HexPad(tag, 4), 16, 32).0 == 0x7FFF_FFFF
  {
    ParseIntOfLargeHexPad(tag, 4);
  }

  // Writing records: the format the scan reads.

  /** A record the format can hold: 32-bit tag, type and length, and a
      fixed-width value of its width. */
  predicate Writable(it: Item) {
    && it.tag < 0x1_0000_0000 && it.propType < 0x1_0000_0000
    && |it.value| < 0x1_0000_0000
    && (FixedWidth(it.propType).Some? ==> |it.value| == FixedWidth(it.propType).value)
  }

  /** The bytes of one record. */
  function EncodeItem(it: Item): (b: seq<Byte>)
    ensures |b| >= 8
  {
    LeBytes(it.tag, 4) + LeBytes(it.propType, 4)
    + (if FixedWidth(it.propType).Some? then it.value else LeBytes(|it.value|, 4) + it.value)
  }

  function EncodeItems(items: seq<Item>): seq<Byte> {
    if items == [] then [] else EncodeItem(items[0]) + EncodeItems(items[1..])
  }

  /** The loop reads a written record back, whatever precedes or follows
      it. */
  lemma NextItemOfEncoded(pre: seq<Byte>, it: Item, rest: seq<Byte>)
    requires Writable(it)
    ensures NextItem(pre + EncodeItem(it) + rest, |pre|) == Ok(Some((it, |pre| + |EncodeItem(it)|)))
  {
    var data := pre + EncodeItem(it) + rest;
    var o := |pre|;
    HeaderOfEncoded(pre, it, rest);
    if FixedWidth(it.propType).None? {
      CountedValueOfEncoded(pre, it, rest);
    } else {
      FixedValueOfEncoded(pre, it, rest);
    }
  }

  lemma HeaderOfEncoded(pre: seq<Byte>, it: Item, rest: seq<Byte>)
    requires Writable(it)
    ensures var data := pre + EncodeItem(it) + rest;
            |pre| + 8 <= |data|
            && LeUint(data[|pre|..|pre| + 4]) == it.tag
            && LeUint(data[|pre| + 4..|pre| + 8]) == it.propType
  {
    var enc := EncodeItem(it);
    assert Pow256(4) == 0x1_0000_0000;
    LeUintOfLeBytes(it.tag, 4);
    LeUintOfLeBytes(it.propType, 4);
    SliceOfMiddle(pre, enc, rest, 0, 4);
    SliceOfMiddle(pre, enc, rest, 4, 8);
    assert enc[0..4] == LeBytes(it.tag, 4) && enc[4..8] == LeBytes(it.propType, 4);
  }

  lemma CountedValueOfEncoded(pre: seq<Byte>, it: Item, rest: seq<Byte>)
    requires Writable(it) && FixedWidth(it.propType).None?
    ensures var data := pre + EncodeItem(it) + rest;
            var o := |pre|;
            |EncodeItem(it)| == 12 + |it.value| && o + 12 <= |data|
            && LeUint(data[o + 8..o + 12]) == |it.value|
            && data[o + 12..o + 12 + |it.value|] == it.value
  {
    var enc := EncodeItem(it);
    assert Pow256(4) == 0x1_0000_0000;
    LeUintOfLeBytes(|it.value|, 4);
    SliceOfMiddle(pre, enc, rest, 8, 12);
    SliceOfMiddle(pre, enc, rest, 12, |enc|);
    assert enc[8..12] == LeBytes(|it.value|, 4) && enc[12..] == it.value;
  }

  lemma FixedValueOfEncoded(pre: seq<Byte>, it: Item, rest: seq<Byte>)
    requires Writable(it) && FixedWidth(it.propType).Some?
    ensures var data := pre + EncodeItem(it) + rest;
            var o := |pre|;
            |EncodeItem(it)| == 8 + |it.value|
            && data[o + 8..o + 8 + |it.value|] == it.value
  {
    var enc := EncodeItem(it);
    SliceOfMiddle(pre, enc, rest, 8, |enc|);
    assert enc[8..] == it.value;
  }

  lemma SliceOfMiddle(pre: seq<Byte>, x: seq<Byte>, rest: seq<Byte>, i: nat, j: nat)
    requires i <= j <= |x|
    ensures (pre + x + rest)[|pre| + i..|pre| + j] == x[i..j]
  {
  }

  /** Written records are read back in order, and nothing more. */
  lemma {:induction false} ScanItemsOfEncoded(pre: seq<Byte>, items: seq<Item>)
    requires forall i :: 0 <= i < |items| ==> Writable(items[i])
    ensures ScanItems(pre + EncodeItems(items), |pre|) == Ok(items)
    decreases |items|
  {
    var data := pre + EncodeItems(items);
    if items == [] {
      assert data == pre;
    } else {
      var it := items[0];
      var tail := EncodeItems(items[1..]);
      var pre1 := pre + EncodeItem(it);
      assert data == pre + EncodeItem(it) + tail;
      assert pre1 + tail == data;
      NextItemOfEncoded(pre, it, tail);
      ScanItemsOfEncoded(pre1, items[1..]);
      ScanItemsStep(data, |pre|, it, |pre1|);
      assert [it] + items[1..] == items;
    }
  }

  /** One turn of ScanItems. */
  lemma ScanItemsStep(data: seq<Byte>, offset: nat, it: Item, next: nat)
    requires offset < |data| && NextItem(data, offset) == Ok(Some((it, next)))
    ensures ScanItems(data, offset) ==
              match ScanItems(data, next)
              case Panic => Panic
              case Ok(rest) => Ok([it] + rest)
  {
  }
}

/** The values a property stream decodes to (the interface{} the decoder
    hands to SetProperties) and the decoders by property type code
    (section 2.11.1 of [MS-OXCDATA]): extractData, which reads a stream's
    payload, and extractDataFromBytes, which decodes a slice of a
    fixed-layout buffer. */
module Values {
  import opened Wrappers
  import opened ByteOrder
  import opened GoText
  import opened Strconv
  import opened FileTime
  import opened Guid

  /** A decoded property value, one constructor per Go dynamic type. */
  datatype Value =
    | Str(s: string)                // string
    | Bytes(b: seq<Byte>)           // []byte
    | I16(n: int)                   // int16
    | I32(n: int)                   // int32
    | I64(n: int)                   // int64
    | F32(bits: nat)                // float32, as its IEEE bits
    | F64(bits: nat)                // float64, as its IEEE bits
    | Bool(flag: bool)              // bool
    | Time(nanos: int)              // time.Time, nanoseconds since the Unix epoch
    | Strs(ss: seq<string>)         // []string
    | I16s(ns: seq<int>)            // []int16
    | I32s(ns: seq<int>)            // []int32
    | I64s(ns: seq<int>)            // []int64
    | F32s(bitss: seq<nat>)         // []float32
    | F64s(bitss: seq<nat>)         // []float64
    | Times(times: seq<int>)        // []time.Time

  /** Library code the decoder calls and this model does not reproduce: the
      charset detection and transcoding of PT_STRING8 payloads, and
      time.Time's String method. */
  datatype Decoders = Decoders(decode8: seq<Byte> -> string, formatTime: int -> string)

  // Property type codes.
  const PT_I2: int := 0x0002
  const PT_LONG: int := 0x0003
  const PT_R4: int := 0x0004
  const PT_DOUBLE: int := 0x0005
  const PT_CURRENCY: int := 0x0006
  const PT_APPTIME: int := 0x0007
  const PT_BOOLEAN: int := 0x000B
  const PT_I8: int := 0x0014
  const PT_STRING8: int := 0x001E
  const PT_UNICODE: int := 0x001F
  const PT_SYSTIME: int := 0x0040
  const PT_CLSID: int := 0x0048
  const PT_SVREID: int := 0x00FB
  const PT_BINARY: int := 0x0102

  function Zeros(n: nat): (z: seq<Byte>)
    ensures |z| == n && forall k :: 0 <= k < n ==> z[k] == 0
  {
    seq(n, _ => 0)
  }

  /** A w-byte buffer after entry.Read: the payload's first bytes, and zeros
      where the payload is shorter. */
  function ReadInto(p: seq<Byte>, w: nat): (buf: seq<Byte>)
    ensures |buf| == w
    ensures forall k :: 0 <= k < w ==> buf[k] == if k < |p| then p[k] else 0
  {
    if |p| >= w then p[..w] else p + Zeros(w - |p|)
  }

  // Element decoders.
  function Int16Of(b: seq<Byte>): int { ToSigned(LeUint(b), 2) }
  function Int32Of(b: seq<Byte>): int { ToSigned(LeUint(b), 4) }
  function Int64Of8(b: seq<Byte>): int { ToSigned(LeUint(b), 8) }
  function BitsOf(b: seq<Byte>): nat { LeUint(b) }

  function TimeOf(b: seq<Byte>): int {
    if |b| == 8 then FileTimeNanos(b) else 0
  }

  function GuidOf(b: seq<Byte>): string {
    if |b| == 16 then FormatGuid(b) else ""
  }

  lemma ChunkBound(i: nat, w: nat, n: nat)
    requires w > 0 && i < n / w
    ensures (i + 1) * w <= n
  {
    var q := n / w;
    assert q * w <= n;
    assert (i + 1) * w <= q * w by {
      MulMonotone(i + 1, q, w);
    }
  }

  lemma {:induction false} MulMonotone(a: nat, b: nat, w: nat)
    requires a <= b
    ensures a * w <= b * w
    decreases b - a
  {
    if a < b {
      MulMonotone(a, b - 1, w);
      assert (b - 1) * w + w == b * w;
    }
  }

  /** The i-th w-byte element of a multi-value payload. */
  function Chunk(p: seq<Byte>, w: nat, i: nat): (c: seq<Byte>)
    requires w > 0 && i < |p| / w
    ensures |c| == w
  {
    ChunkBound(i, w, |p|);
    assert i * w + w == (i + 1) * w;
    p[i * w..(i + 1) * w]
  }

  /** A fixed-width multi-value array: |p| / w elements, element i decoded
      from bytes [i*w, (i+1)*w). */
  function DecodeEach<T>(p: seq<Byte>, w: nat, f: seq<Byte> -> T): (vs: seq<T>)
    requires w > 0
    ensures |vs| == |p| / w
  {
    seq(|p| / w, i requires 0 <= i < |p| / w => f(Chunk(p, w, i)))
  }

  /** The counted loop of a multi-value branch: one read of w bytes per
      element into a fresh array. */
  method DecodeArray<T(0)>(p: seq<Byte>, w: nat, f: seq<Byte> -> T) returns (vs: seq<T>)
    requires w > 0
    ensures vs == DecodeEach(p, w, f)
  {
    var count := |p| / w;
    var values := new T[count];
    for i := 0 to count
      invariant forall k :: 0 <= k < i ==> values[k] == f(Chunk(p, w, k))
    {
      values[i] := f(Chunk(p, w, i));
    }
    vs := values[..];
  }

  /** The UTF-16 code units of a payload: unit k is p[2k] + 256 * p[2k+1]; an
      odd trailing byte is ignored. */
  function Utf16Units(p: seq<Byte>): (us: seq<int>)
    ensures |us| == |p| / 2
    ensures forall k :: 0 <= k < |us| ==> 0 <= us[k] < 0x10000
  {
    seq(|p| / 2, k requires 0 <= k < |p| / 2 => p[2 * k] as int + 256 * p[2 * k + 1] as int)
  }

  /** The string the PT_UNICODE decoders build: every code unit taken as a
      rune on its own, with no surrogate pairing, so each half of a pair
      becomes U+FFFD. */
  function Utf16Text(p: seq<Byte>): (s: string)
    ensures |s| == |p| / 2
  {
    RunesToText(Utf16Units(p))
  }

  /** The loop of the PT_UNICODE decoders: a rune array of len/2 entries
      filled two bytes at a time. */
  method DecodeUtf16(p: seq<Byte>) returns (s: string)
    ensures s == Utf16Text(p)
  {
    var runes := new int[|p| / 2];
    var i := 0;
    while i < |p| - 1
      invariant 0 <= i && i % 2 == 0 && i <= 2 * (|p| / 2)
      invariant forall k :: 0 <= k < i / 2 ==> runes[k] == Utf16Units(p)[k]
    {
      var ch := p[i + 1] as int;
      var cl := p[i] as int;
      runes[i / 2] := ch * 256 + cl;
      i := i + 2;
    }
    assert i / 2 == |p| / 2;
    s := RunesToText(runes[..]);
    assert runes[..] == Utf16Units(p);
  }

  /** strings.Split(text, "\x00") without its last element. */
  function MvStrings(text: string): (ss: seq<string>)
  {
    var parts := Split(text, '\0');
    parts[..|parts| - 1]
  }

  /** Strings each followed by a NUL, as the multi-value string types store
      them. */
  function Terminated(ss: seq<string>): string {
    if ss == [] then [] else ss[0] + ['\0'] + Terminated(ss[1..])
  }

  lemma {:induction false} TerminatedJoin(ss: seq<string>, tail: string)
    ensures Terminated(ss) + tail == Join(ss + [tail], ['\0'])
  {
    if ss != [] {
      TerminatedJoin(ss[1..], tail);
      assert (ss + [tail])[1..] == ss[1..] + [tail];
    } else {
      assert ss + [tail] == [tail];
    }
  }

  /** k NUL-terminated strings give exactly those k strings; whatever
      follows the last NUL is dropped. */
  lemma MvStringsOfTerminated(ss: seq<string>, tail: string)
    requires forall i :: 0 <= i < |ss| ==> '\0' !in ss[i]
    requires '\0' !in tail
    ensures MvStrings(Terminated(ss) + tail) == ss
  {
    TerminatedJoin(ss, tail);
    var all := ss + [tail];
    assert forall i :: 0 <= i < |all| ==> '\0' !in all[i] by {
      forall i | 0 <= i < |all|
        ensures '\0' !in all[i]
      {
        if i < |ss| { assert all[i] == ss[i]; }
      }
    }
    SplitJoin(all, '\0');
    assert all[..|all| - 1] == ss;
  }

  /** The PT_SYSTIME branch: nothing for an empty payload (extractData then
      returns ""), a panic when fewer than 8 bytes are there to slice, and
      otherwise the formatted time of the first 8 bytes. */
  function SysTimeValue(dec: Decoders, p: seq<Byte>): Outcome<Value> {
    if |p| == 0 then Ok(Str(""))
    else if |p| < 8 then Panic
    else Ok(Str(dec.formatTime(FileTimeNanos(p[..8]))))
  }

  /** fmt's %x on an int64: a minus sign, then the magnitude in hexadecimal. */
  function HexSigned(v: int): string {
    if v < 0 then "-" + HexPad(-v, 1) else HexPad(v, 1)
  }

  /** extractData(entry, {class, mapi}) on a payload p. */
  function ExtractDataSpec(dec: Decoders, cls: string, mapi: int, p: seq<Byte>): Outcome<Value> {
    if cls == "" then Ok(Str("class null"))
    else if mapi == -1 then Ok(Str("-1"))
    else match mapi
      case 0x001E => Ok(Str(dec.decode8(p)))
      case 0x001F => Ok(Str(Utf16Text(p)))
      case 0x0102 => Ok(Bytes(p))
      case 0x0040 => SysTimeValue(dec, p)
      case 0x0002 => Ok(I16(Int16Of(ReadInto(p, 2))))
      case 0x0003 => Ok(I32(Int32Of(ReadInto(p, 4))))
      case 0x0004 => Ok(F32(BitsOf(ReadInto(p, 4))))
      case 0x0005 => Ok(F64(BitsOf(ReadInto(p, 8))))
      case 0x0006 => Ok(I64(Int64Of8(ReadInto(p, 8))))
      case 0x0007 => Ok(F64(BitsOf(ReadInto(p, 8))))
      case 0x000B => Ok(Bool(LeUint(ReadInto(p, 2)) != 0))
      case 0x0014 => Ok(I64(Int64Of8(ReadInto(p, 8))))
      case 0x0048 => Ok(Str(FormatGuid(ReadInto(p, 16))))
      case 0x00FB => Ok(Bytes(p))
      case 0x1002 => Ok(I16s(DecodeEach(p, 2, Int16Of)))
      case 0x1003 => Ok(I32s(DecodeEach(p, 4, Int32Of)))
      case 0x1004 => Ok(F32s(DecodeEach(p, 4, BitsOf)))
      case 0x1005 => Ok(F64s(DecodeEach(p, 8, BitsOf)))
      case 0x1006 => Ok(I64s(DecodeEach(p, 8, Int64Of8)))
      case 0x1007 => Ok(F64s(DecodeEach(p, 8, BitsOf)))
      case 0x1040 => Ok(Times(DecodeEach(p, 8, TimeOf)))
      case 0x101E => Ok(Strs(MvStrings(BytesToText(p))))
      case 0x101F => Ok(Strs(MvStrings(Utf16Text(p))))
      case 0x1102 => Ok(Bytes(p))
      case 0x1048 => Ok(Strs(DecodeEach(p, 16, GuidOf)))
      case 0x10FB => Ok(Bytes(p))
      case _ => Ok(Str("default mapi: " + HexSigned(mapi)))
  }

  /** extractData: the branches with loops run them. */
  method ExtractData(dec: Decoders, cls: string, mapi: int, p: seq<Byte>) returns (r: Outcome<Value>)
    ensures r == ExtractDataSpec(dec, cls, mapi, p)
  {
    if cls == "" {
      return Ok(Str("class null"));
    }
    if mapi == -1 {
      return Ok(Str("-1"));
    }
    match mapi
    case 0x001F =>
      var s := DecodeUtf16(p);
      r := Ok(Str(s));
    case 0x1002 =>
      var vs := DecodeArray(p, 2, Int16Of);
      r := Ok(I16s(vs));
    case 0x1003 =>
      var vs := DecodeArray(p, 4, Int32Of);
      r := Ok(I32s(vs));
    case 0x1004 =>
      var vs := DecodeArray(p, 4, BitsOf);
      r := Ok(F32s(vs));
    case 0x1005 =>
      var vs := DecodeArray(p, 8, BitsOf);
      r := Ok(F64s(vs));
    case 0x1006 =>
      var vs := DecodeArray(p, 8, Int64Of8);
      r := Ok(I64s(vs));
    case 0x1007 =>
      var vs := DecodeArray(p, 8, BitsOf);
      r := Ok(F64s(vs));
    case 0x1040 =>
      var vs := DecodeArray(p, 8, TimeOf);
      r := Ok(Times(vs));
    case 0x101F =>
      var s := DecodeUtf16(p);
      r := Ok(Strs(MvStrings(s)));
    case 0x1048 =>
      var vs := DecodeArray(p, 16, GuidOf);
      r := Ok(Strs(vs));
    case _ =>
      r := ExtractDataSpec(dec, cls, mapi, p);
  }

  /** extractDataFromBytes(data, propType): the fixed-width readers take
      their first bytes (and panic when there are too few), strings and
      UTF-16 text are decoded, and every other type is the data itself. */
  function FromBytesSpec(data: seq<Byte>, propType: int): Outcome<Value> {
    match propType
    case 0x0002 => if |data| < 2 then Panic else Ok(I16(Int16Of(data[..2])))
    case 0x0003 => if |data| < 4 then Panic else Ok(I32(Int32Of(data[..4])))
    case 0x000B => if |data| < 2 then Panic else Ok(Bool(LeUint(data[..2]) != 0))
    case 0x0014 => if |data| < 8 then Panic else Ok(I64(Int64Of8(data[..8])))
    case 0x0048 => if |data| < 16 then Panic else Ok(Str(FormatGuid(data[..16])))
    case 0x001E => Ok(Str(BytesToText(data)))
    case 0x001F => Ok(Str(Utf16Text(data)))
    case _ => Ok(Bytes(data))
  }

  /** extractDataFromBytes, with its UTF-16 loop. */
  method ExtractDataFromBytes(data: seq<Byte>, propType: int) returns (r: Outcome<Value>)
    ensures r == FromBytesSpec(data, propType)
  {
    if propType == 0x001F {
      var s := DecodeUtf16(data);
      return Ok(Str(s));
    }
    return FromBytesSpec(data, propType);
  }

  // Properties of the decoders.

  /** A fixed-width integer written little-endian reads back unchanged,
      from either decoder. */
  lemma FixedIntegersRoundTrip(v: int, w: nat)
    requires w == 2 || w == 4 || w == 8
    requires -(Pow256(w) / 2) <= v < Pow256(w) / 2
    ensures var b := LeBytes(ToUnsigned(v, w), w);
            && ExtractDataSpec(Decoders(_ => "", _ => ""), "0000", if w == 2 then PT_I2 else if w == 4 then PT_LONG else PT_I8, b)
               == Ok(if w == 2 then I16(v) else if w == 4 then I32(v) else I64(v))
            && FromBytesSpec(b, if w == 2 then PT_I2 else if w == 4 then PT_LONG else PT_I8)
               == Ok(if w == 2 then I16(v) else if w == 4 then I32(v) else I64(v))
  {
    var b := LeBytes(ToUnsigned(v, w), w);
    SignedRoundTrip(v, w);
    assert ReadInto(b, w) == b && b[..w] == b;
  }

  /** PT_BOOLEAN is true exactly when one of its two bytes is non-zero. */
  lemma BooleanDecoding(data: seq<Byte>)
    requires |data| >= 2
    ensures FromBytesSpec(data, PT_BOOLEAN) == Ok(Bool(data[0] != 0 || data[1] != 0))
  {
    assert data[..2][1..] == [data[1]];
    assert LeUint(data[..2]) == data[0] as int + 256 * data[1] as int;
  }

  /** Every type without a reader of its own gives the payload back. */
  lemma UnlistedTypesKeepBytes(data: seq<Byte>, propType: int)
    requires propType !in {PT_I2, PT_LONG, PT_BOOLEAN, PT_I8, PT_CLSID, PT_STRING8, PT_UNICODE}
    ensures FromBytesSpec(data, propType) == Ok(Bytes(data))
  {
  }

  /** The fixed readers use the first bytes only and read missing bytes as
      zero: a short PT_LONG payload is zero-extended. */
  lemma ShortPayloadZeroExtended(p: seq<Byte>)
    requires |p| < 4
    ensures ReadInto(p, 4) == p + Zeros(4 - |p|)
    ensures LeUint(ReadInto(p, 4)) == LeUint(p)
  {
    LeUintPadded(p, 4 - |p|);
  }

  lemma {:induction false} LeUintPadded(p: seq<Byte>, n: nat)
    ensures LeUint(p + Zeros(n)) == LeUint(p)
  {
    if p == [] {
      assert p + Zeros(n) == Zeros(n);
      ZerosValue(n);
    } else {
      assert (p + Zeros(n))[1..] == p[1..] + Zeros(n);
      LeUintPadded(p[1..], n);
    }
  }

  lemma {:induction false} ZerosValue(n: nat)
    ensures LeUint(Zeros(n)) == 0
  {
    if n > 0 {
      assert Zeros(n)[1..] == Zeros(n - 1);
      ZerosValue(n - 1);
    }
  }

  /** A PT_SYSTIME payload gives the Unix time of its first eight bytes, an
      empty one the empty string, anything in between a panic. */
  lemma SysTimeDecoding(dec: Decoders, p: seq<Byte>)
    ensures |p| >= 8 ==>
              ExtractDataSpec(dec, "0000", PT_SYSTIME, p)
              == Ok(Str(dec.formatTime(UnixNanos(LeUint(p[..8]) / TICKS_PER_MS - EPOCH_DELTA_MS))))
    ensures |p| == 0 ==> ExtractDataSpec(dec, "0000", PT_SYSTIME, p) == Ok(Str(""))
    ensures 0 < |p| < 8 ==> ExtractDataSpec(dec, "0000", PT_SYSTIME, p) == Panic
  {
    if |p| >= 8 {
      assert Pow256(8) == TWO_64;
      UnixMillisExact(LeUint(p[..8]));
    }
  }

  /** The UTF-16 decoders give one rune per code unit: code units outside the
      surrogate range come through unchanged. */
  lemma Utf16Decoding(p: seq<Byte>, k: nat)
    requires k < |p| / 2
    ensures var u := p[2 * k] as int + 256 * p[2 * k + 1] as int;
            Utf16Text(p)[k] == if 0xD800 <= u < 0xE000 then REPLACEMENT else u as char
  {
  }

  /** Each element of a fixed-width array comes from its own w bytes. */
  lemma MultiValueElement(dec: Decoders, p: seq<Byte>, i: nat)
    requires i < |p| / 4
    ensures ExtractDataSpec(dec, "0000", 0x1003, p).value.ns[i]
            == ToSigned(LeUint(p[4 * i..4 * i + 4]), 4)
  {
    assert i * 4 == 4 * i && (i + 1) * 4 == 4 * i + 4;
    assert Chunk(p, 4, i) == p[4 * i..4 * i + 4];
    var vs := DecodeEach(p, 4, Int32Of);
    assert ExtractDataSpec(dec, "0000", 0x1003, p) == Ok(I32s(vs));
    assert vs[i] == Int32Of(Chunk(p, 4, i));
  }

  /** A multi-value string payload of k NUL-terminated strings decodes to
      those k strings; an unterminated tail is dropped. */
  lemma MultiValueStrings(dec: Decoders, ss: seq<string>, tail: string, p: seq<Byte>)
    requires forall i :: 0 <= i < |ss| ==> '\0' !in ss[i]
    requires '\0' !in tail
    ensures Utf16Text(p) == Terminated(ss) + tail ==> ExtractDataSpec(dec, "0000", 0x101F, p) == Ok(Strs(ss))
    ensures ExtractDataSpec(dec, "0000", 0x101E, Utf8Encode(Terminated(ss) + tail)) == Ok(Strs(ss))
  {
    MvStringsOfTerminated(ss, tail);
    BytesToTextOfUtf8Encode(Terminated(ss) + tail);
  }

  /** Two little-endian bytes per character, for characters of the Basic
      Multilingual Plane (others are cut to their low 16 bits). */
  function ToUtf16(s: string): (p: seq<Byte>)
    ensures |p| == 2 * |s|
  {
    if s == [] then [] else [(s[0] as int) % 256, ((s[0] as int) / 256) % 256] + ToUtf16(s[1..])
  }

  lemma {:induction false} Utf16TextOfToUtf16(s: string)
    requires forall k :: 0 <= k < |s| ==> (s[k] as int) < 0x10000
    ensures Utf16Text(ToUtf16(s)) == s
  {
    var p := ToUtf16(s);
    forall k | 0 <= k < |s|
      ensures Utf16Text(p)[k] == s[k]
    {
      ToUtf16At(s, k);
    }
  }

  lemma {:induction false} ToUtf16At(s: string, k: nat)
    requires k < |s|
    ensures var p := ToUtf16(s);
            p[2 * k] == (s[k] as int) % 256 && p[2 * k + 1] == ((s[k] as int) / 256) % 256
  {
    if k > 0 {
      ToUtf16At(s[1..], k - 1);
      assert ToUtf16(s)[2..] == ToUtf16(s[1..]);
    }
  }
}

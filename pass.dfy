/** The pass over the compound file (parsemsg.go): every entry whose name
    starts "__substg1.0_" is a property stream, decoded by its name and
    handed to SetProperties, after a stream inside a recipient storage has
    set LastRecipient; every other entry is read and dropped; at the end
    CalculateFinalBody picks the bodies. */
module Pass {
  import opened Wrappers
  import opened ByteOrder
  import opened GoText
  import opened Strconv
  import opened Email
  import opened Body
  import opened Values
  import opened EntryName
  import opened Message

  /** An entry mscfb.Reader.Next yields: its name, the names of the storages
      above it (Path) and the bytes of its stream. */
  datatype Entry = Entry(name: string, path: seq<string>, payload: seq<Byte>)

  /** The foreign pieces the pass calls: the charset decoder and time
      formatting of extractData, and the Unicode classes of the body
      validator. */
  datatype Env = Env(dec: Decoders, cats: Categories)

  /** The test processPropertyStream makes before processRecipientStream. */
  predicate InRecipient(e: Entry) {
    |e.path| > 0 && Contains(e.path[0], RECIPIENT_MARKER)
  }

  /** processRecipientStream: LastRecipient from the ordinal in the first
      path element. */
  function RecipientStep(m: Record, e: Entry): Outcome<Record> {
    if !InRecipient(e) then Ok(m)
    else
      match RecipientOrdinal(e.path[0], m.lastRecipient)
      case Panic => Panic
      case Ok(n) => Ok(m.(lastRecipient := n))
  }

  /** extractMessageProperty: the name parsed and the payload decoded. */
  function ExtractProperty(dec: Decoders, e: Entry): Outcome<EntryProperty> {
    var info := ParseEntryName(e.name);
    match ExtractDataSpec(dec, info.cls, info.mapi, e.payload)
    case Panic => Panic
    case Ok(data) => Ok(EntryProperty(info.cls, info.mapi, data))
  }

  /** processPropertyStream: decode, then the recipient ordinal, then
      SetProperties on the updated message. */
  function PropertyStep(env: Env, m: Record, e: Entry): Outcome<Record> {
    match ExtractProperty(env.dec, e)
    case Panic => Panic
    case Ok(p) =>
      (match RecipientStep(m, e)
       case Panic => Panic
       case Ok(m1) => Dispatch(env.cats, m1, p))
  }

  /** One turn of processEntries' loop. */
  function StepEntry(env: Env, m: Record, e: Entry): Outcome<Record> {
    if HasPrefix(e.name, PROPERTY_STREAM_PREFIX) then PropertyStep(env, m, e) else Ok(m)
  }

  /** processEntries over the entries in the order the reader yields them; a
      panic ends the pass. */
  function RunEntries(env: Env, m: Record, es: seq<Entry>): Outcome<Record>
    decreases |es|
  {
    if es == [] then Ok(m)
    else
      match StepEntry(env, m, es[0])
      case Panic => Panic
      case Ok(m1) => RunEntries(env, m1, es[1..])
  }

  /** parseMsgFile once the compound file is open: a new Message, the pass,
      then CalculateFinalBody. */
  function ParseMsgSpec(env: Env, es: seq<Entry>): Outcome<Record> {
    match RunEntries(env, EMPTY, es)
    case Panic => Panic
    case Ok(m) => Ok(Finalize(m))
  }

  /** The entries that are property streams. */
  function PropertyEntries(es: seq<Entry>): (ps: seq<Entry>)
    ensures |ps| <= |es|
    ensures forall i :: 0 <= i < |ps| ==> HasPrefix(ps[i].name, PROPERTY_STREAM_PREFIX)
  {
    if es == [] then []
    else if HasPrefix(es[0].name, PROPERTY_STREAM_PREFIX) then [es[0]] + PropertyEntries(es[1..])
    else PropertyEntries(es[1..])
  }

  /** processPropertyStream. */
  method ProcessPropertyStream(env: Env, msg: Message, e: Entry) returns (ok: bool)
    modifies msg
    ensures PropertyStep(env, old(msg.Snapshot()), e) == if ok then Ok(msg.Snapshot()) else Panic
  {
    var info := ParseEntryName(e.name);
    var data := ExtractData(env.dec, info.cls, info.mapi, e.payload);
    if data.Panic? {
      return false;
    }
    var p := EntryProperty(info.cls, info.mapi, data.value);
    if |e.path| > 0 && Contains(e.path[0], RECIPIENT_MARKER) {
      var ordinal := RecipientOrdinal(e.path[0], msg.lastRecipient);
      if ordinal.Panic? {
        return false;
      }
      msg.SetLastRecipient(ordinal.value);
    }
    ok := msg.SetProperties(env.cats, p);
  }

  /** processEntries. */
  method ProcessEntries(env: Env, msg: Message, es: seq<Entry>) returns (ok: bool)
    modifies msg
    ensures RunEntries(env, old(msg.Snapshot()), es) == if ok then Ok(msg.Snapshot()) else Panic
  {
    ghost var m0 := msg.Snapshot();
    var k := 0;
    while k < |es|
      invariant 0 <= k <= |es|
      invariant RunEntries(env, m0, es) == RunEntries(env, msg.Snapshot(), es[k..])
    {
      assert es[k..][1..] == es[k + 1..];
      var e := es[k];
      if HasPrefix(e.name, PROPERTY_STREAM_PREFIX) {
        ok := ProcessPropertyStream(env, msg, e);
        if !ok {
          return false;
        }
      }
      k := k + 1;
    }
    return true;
  }

  /** parseMsgFile, from the entries of an opened compound file. */
  method ParseMsgFile(env: Env, es: seq<Entry>) returns (ok: bool, res: Message)
    ensures fresh(res)
    ensures ParseMsgSpec(env, es) == if ok then Ok(res.Snapshot()) else Panic
  {
    res := new Message();
    ok := ProcessEntries(env, res, es);
    if ok {
      res.CalculateFinalBody();
    }
  }

  // Properties of the pass.

  /** Entries that are not property streams have no effect: the pass is the
      pass over the property streams alone. */
  lemma {:induction false} OnlyPropertyStreamsCount(env: Env, m: Record, es: seq<Entry>)
    ensures RunEntries(env, m, es) == RunEntries(env, m, PropertyEntries(es))
    decreases |es|
  {
    if es != [] {
      OnlyPropertyStreamsCount(env, m, es[1..]);
      if HasPrefix(es[0].name, PROPERTY_STREAM_PREFIX) {
        var ps := PropertyEntries(es);
        assert ps[0] == es[0] && ps[1..] == PropertyEntries(es[1..]);
        match StepEntry(env, m, es[0])
        case Panic =>
        case Ok(m1) => OnlyPropertyStreamsCount(env, m1, es[1..]);
      }
    }
  }

  /** Two passes in a row are one pass over both lists. */
  lemma {:induction false} RunEntriesAppend(env: Env, m: Record, a: seq<Entry>, b: seq<Entry>)
    ensures RunEntries(env, m, a + b) ==
              match RunEntries(env, m, a)
              case Panic => Panic
              case Ok(m1) => RunEntries(env, m1, b)
    decreases |a|
  {
    if a == [] {
      assert a + b == b;
    } else {
      assert (a + b)[0] == a[0] && (a + b)[1..] == a[1..] + b;
      match StepEntry(env, m, a[0])
      case Panic =>
      case Ok(m1) => RunEntriesAppend(env, m1, a[1..], b);
    }
  }

  /** Setting LastRecipient touches nothing SetProperties validates. */
  lemma RecipientStepKeeps(cats: Categories, m: Record, e: Entry)
    requires RecipientStep(m, e).Ok?
    ensures var r := RecipientStep(m, e).value;
            r == m.(lastRecipient := r.lastRecipient)
            && (Wellformed(cats, m) ==> Wellformed(cats, r))
            && (forall f :: GetText(r, f) == GetText(m, f))
            && (forall f :: GetTime(r, f) == GetTime(m, f))
  {
    var r := RecipientStep(m, e).value;
    forall f: TextField
      ensures GetText(r, f) == GetText(m, f)
    {
      match f
      case MessageClassField =>
      case MessageIdField =>
      case SubjectField =>
      case FromNameField =>
      case ToDisplayField =>
      case CcDisplayField =>
      case BccDisplayField =>
      case TransportHeadersField =>
    }
  }

  /** Every address collected is a valid one and every body candidate a
      clean one, whatever the entries. */
  lemma {:induction false} RunEntriesWellformed(env: Env, m: Record, es: seq<Entry>)
    requires Wellformed(env.cats, m)
    requires RunEntries(env, m, es).Ok?
    ensures Wellformed(env.cats, RunEntries(env, m, es).value)
    decreases |es|
  {
    if es != [] {
      var e := es[0];
      var m1 := StepEntry(env, m, e).value;
      if HasPrefix(e.name, PROPERTY_STREAM_PREFIX) {
        var p := ExtractProperty(env.dec, e).value;
        RecipientStepKeeps(env.cats, m, e);
        DispatchPreservesWellformed(env.cats, RecipientStep(m, e).value, p);
      }
      RunEntriesWellformed(env, m1, es[1..]);
    }
  }

  /** A field written only while empty (or zero), once set, stays as it is
      for the rest of the pass. */
  lemma {:induction false} RunEntriesFirstWins(env: Env, m: Record, es: seq<Entry>)
    requires RunEntries(env, m, es).Ok?
    ensures var r := RunEntries(env, m, es).value;
            && (forall f :: GetText(m, f) != "" ==> GetText(r, f) == GetText(m, f))
            && (forall f :: GetTime(m, f) != ZERO_TIME ==> GetTime(r, f) == GetTime(m, f))
    decreases |es|
  {
    if es != [] {
      var e := es[0];
      var m1 := StepEntry(env, m, e).value;
      if HasPrefix(e.name, PROPERTY_STREAM_PREFIX) {
        var p := ExtractProperty(env.dec, e).value;
        RecipientStepKeeps(env.cats, m, e);
        FirstWinsStable(env.cats, RecipientStep(m, e).value, p);
      }
      RunEntriesFirstWins(env, m1, es[1..]);
    }
  }

  /** What parseMsgFile returns: every address valid, both bodies set, each
      the first longest of its accepted candidates when there are any, and
      the placeholder text when no candidate was accepted at all. */
  lemma ParsedMessage(env: Env, es: seq<Entry>)
    requires ParseMsgSpec(env, es).Ok?
    ensures var r := ParseMsgSpec(env, es).value;
            && r.bodyPlainText != "" && r.bodyHtml != ""
            && (forall i :: 0 <= i < |r.address| ==> IsValidEmail(r.address[i]))
            && (|r.htmlCandidates| > 0 ==> exists i :: IsFirstLongest(r.htmlCandidates, i) && r.bodyHtml == r.htmlCandidates[i])
            && (|r.bodyCandidates| > 0 ==> exists i :: IsFirstLongest(r.bodyCandidates, i) && r.bodyPlainText == r.bodyCandidates[i])
            && (|r.htmlCandidates| == 0 && |r.bodyCandidates| == 0 ==> r.bodyHtml == NO_CONTENT && r.bodyPlainText == NO_CONTENT)
  {
    EmptyWellformed(env.cats);
    RunEntriesWellformed(env, EMPTY, es);
    var m := RunEntries(env, EMPTY, es).value;
    assert m.bodyPlainText == "" && m.bodyHtml == "" by {
      NoBodyWrittenByPass(env, EMPTY, es);
    }
    FinalizeFillsBodies(m);
    FinalizeChoosesLongest(m);
  }

  /** The pass never writes BodyPlainText or BodyHTML themselves; only the
      candidate lists grow. */
  lemma {:induction false} NoBodyWrittenByPass(env: Env, m: Record, es: seq<Entry>)
    requires RunEntries(env, m, es).Ok?
    ensures var r := RunEntries(env, m, es).value;
            r.bodyPlainText == m.bodyPlainText && r.bodyHtml == m.bodyHtml
    decreases |es|
  {
    if es != [] {
      var e := es[0];
      var m1 := StepEntry(env, m, e).value;
      if HasPrefix(e.name, PROPERTY_STREAM_PREFIX) {
        var p := ExtractProperty(env.dec, e).value;
        RecipientStepKeeps(env.cats, m, e);
        DispatchKeepsBodies(env.cats, RecipientStep(m, e).value, p);
      }
      NoBodyWrittenByPass(env, m1, es[1..]);
    }
  }

  /** An address stream inside a recipient storage is routed by the ordinal
      of that storage: LastRecipient is updated before SetProperties sees
      the address. */
  lemma RecipientAddressUsesOwnOrdinal(env: Env, m: Record, e: Entry, n: int)
    requires HasPrefix(e.name, PROPERTY_STREAM_PREFIX) && InRecipient(e)
    requires ParseEntryName(e.name).mapi == PT_BINARY
    requires var cls := ParseEntryName(e.name).cls;
             !HasPrefix(cls, ATTACHMENT_PREFIX) && RouteOf(ParseInt(cls, 16, 32).0).RecipientAddress?
    requires RecipientOrdinal(e.path[0], m.lastRecipient) == Ok(n)
    ensures StepEntry(env, m, e) == Ok(ApplyAddress(m.(lastRecipient := n), Bytes(e.payload)))
  {
    assert ParseEntryName(e.name).cls != "";
  }

  /** An address stream of recipient "#00000001" lands in CC, whatever
      LastRecipient was before. */
  lemma SecondRecipientInCc(env: Env, m: Record, payload: seq<Byte>)
    requires IsValidEmail(BytesToText(payload))
    ensures var e := Entry("__substg1.0_39FE0102", ["__recip_version1.0_#00000001"], payload);
            var a := BytesToText(payload);
            && StepEntry(env, m, e).Ok?
            && StepEntry(env, m, e).value.cc == m.cc + a + "; "
            && StepEntry(env, m, e).value.to == m.to
            && StepEntry(env, m, e).value.address == m.address + [a]
  {
    var e := Entry("__substg1.0_39FE0102", ["__recip_version1.0_#00000001"], payload);
    SmtpAddressName();
    SmtpAddressRouted();
    FirstOrdinal(m.lastRecipient);
    assert HasPrefix(e.path[0], RECIPIENT_MARKER);
    RecipientAddressUsesOwnOrdinal(env, m, e, 1);
  }

  /** "__substg1.0_39FE0102" names PR_SMTP_ADDRESS as binary. */
  lemma SmtpAddressName()
    ensures HasPrefix("__substg1.0_39FE0102", PROPERTY_STREAM_PREFIX)
    ensures ParseEntryName("__substg1.0_39FE0102") == NameInfo("39FE", PT_BINARY)
  {
    var name := "__substg1.0_39FE0102";
    assert name[..|PROPERTY_STREAM_PREFIX|] == PROPERTY_STREAM_PREFIX;
    var val := name[|PROPERTY_STREAM_PREFIX|..];
    assert val == "39FE0102";
    assert val[0..4] == "39FE" && val[4..8] == "0102";
    BinaryTypeDigits();
  }

  /** Class "39FE" is routed as a recipient address. */
  lemma SmtpAddressRouted()
    ensures !HasPrefix("39FE", ATTACHMENT_PREFIX)
    ensures RouteOf(ParseInt("39FE", 16, 32).0).RecipientAddress?
  {
    SmtpAddressClass();
  }

  lemma BinaryTypeDigits()
    ensures ParseInt("0102", 16, 64) == (PT_BINARY, true)
  {
    FourDigitsValue("0102", 16);
    ParseIntOfDigits("0102", 16, 64);
  }

  lemma SmtpAddressClass()
    ensures ParseInt("39FE", 16, 32) == (0x39FE, true)
  {
    FourDigitsValue("39FE", 16);
    ParseIntOfDigits("39FE", 16, 32);
  }

  /** The ordinal "00000001" is recipient 1. */
  lemma FirstOrdinal(last: int)
    ensures RecipientOrdinal("__recip_version1.0_#00000001", last) == Ok(1)
  {
    var path0 := "__recip_version1.0_#00000001";
    var s := path0[ORDINAL_START..];
    assert s == "0000000" + ['1'];
    ZeroRunValue("0000000", 10);
    DigitsValueSnoc("0000000", '1', 10);
    DecimalOrdinal(path0, last);
  }

  /** Ordinal zero does not reset LastRecipient: a stream of recipient
      "#00000000" read after one of recipient 2 is routed to BCC. */
  lemma ZeroOrdinalKeepsLast(m: Record, e: Entry)
    requires InRecipient(e) && e.path[0] == "__recip_version1.0_#00000000"
    requires m.lastRecipient == 2
    ensures RecipientStep(m, e) == Ok(m)
  {
    var s := e.path[0][ORDINAL_START..];
    assert s == "00000000";
    ZeroRunValue(s, 10);
    DecimalOrdinal(e.path[0], m.lastRecipient);
  }

  /** A PT_SYSTIME stream for PR_CREATION_TIME ends the parse while the
      creation date is still zero: extractData yields a string (or panics on
      a short payload) and the case for 0x3007 asserts a time.Time. */
  lemma CreationTimeStreamPanics(env: Env, m: Record, path: seq<string>, payload: seq<Byte>)
    requires m.creationDate == ZERO_TIME
    ensures StepEntry(env, m, Entry("__substg1.0_30070040", path, payload)) == Panic
  {
    var e := Entry("__substg1.0_30070040", path, payload);
    CreationTimeName();
    CreationTimeExtracted(env.dec, e);
    match ExtractProperty(env.dec, e)
    case Panic =>
    case Ok(p) =>
      match RecipientStep(m, e)
      case Panic =>
      case Ok(m1) =>
        CreationTimeAsserted(env.cats, m1, p);
  }

  /** The stream decodes to a string under class "3007", or panics. */
  lemma CreationTimeExtracted(dec: Decoders, e: Entry)
    requires ParseEntryName(e.name) == NameInfo("3007", PT_SYSTIME)
    ensures var x := ExtractProperty(dec, e);
            x.Ok? ==> x.value.cls == "3007" && x.value.data.Str?
  {
  }

  /** The 0x3007 case fails its type assertion on a string while the
      creation date is zero. */
  lemma CreationTimeAsserted(cats: Categories, m: Record, p: EntryProperty)
    requires m.creationDate == ZERO_TIME && p.cls == "3007" && p.data.Str?
    ensures Dispatch(cats, m, p) == Panic
  {
    CreationTimeClass();
    assert !HasPrefix("3007", ATTACHMENT_PREFIX);
    assert RouteOf(0x3007) == FirstTime(CreationField);
  }

  /** "__substg1.0_30070040" names PR_CREATION_TIME as PT_SYSTIME. */
  lemma CreationTimeName()
    ensures HasPrefix("__substg1.0_30070040", PROPERTY_STREAM_PREFIX)
    ensures ParseEntryName("__substg1.0_30070040") == NameInfo("3007", PT_SYSTIME)
  {
    var name := "__substg1.0_30070040";
    assert name[..|PROPERTY_STREAM_PREFIX|] == PROPERTY_STREAM_PREFIX;
    var val := name[|PROPERTY_STREAM_PREFIX|..];
    assert val == "30070040";
    assert val[0..4] == "3007" && val[4..8] == "0040";
    FourDigitsValue("0040", 16);
    ParseIntOfDigits("0040", 16, 64);
  }

  lemma CreationTimeClass()
    ensures ParseInt("3007", 16, 32) == (0x3007, true)
  {
    FourDigitsValue("3007", 16);
    ParseIntOfDigits("3007", 16, 32);
  }
}

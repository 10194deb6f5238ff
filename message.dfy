/** The message being built (models/message.go): its fields, the property
    dispatcher SetProperties that routes each decoded property into them,
    and CalculateFinalBody, which picks the bodies once every property is
    in. */
module Message {
  import opened Wrappers
  import opened ByteOrder
  import opened GoText
  import opened Strconv
  import opened Email
  import opened Body
  import opened Values

  /** time.Time{} (0001-01-01 00:00:00 UTC) in nanoseconds since the Unix
      epoch: the value IsZero recognises. */
  const ZERO_TIME: int := -62135596800 * 1000000000

  const ATTACHMENT_PREFIX: string := "__attach_"

  /** The minimum length in bytes SetProperties asks of a body candidate. */
  const MIN_BODY_BYTES: int := 10

  const NO_CONTENT: string := "No content available"

  /** MessageEntryProperty: a property's class text, its type code and its
      decoded value. */
  datatype EntryProperty = EntryProperty(cls: string, mapi: int, data: Value)

  /** The text fields that are written only while empty. */
  datatype TextField =
    | MessageClassField | MessageIdField | SubjectField | FromNameField
    | ToDisplayField | CcDisplayField | BccDisplayField | TransportHeadersField

  /** The time fields, written only while zero. */
  datatype TimeField = CreationField | ModificationField | SubmitField | DeliveryField

  /** The state of a Message the core reads and writes. */
  datatype Record = Record(
    messageClass: string, messageId: string, subject: string, fromEmail: string, fromName: string,
    toDisplay: string, to: string, ccDisplay: string, bccDisplay: string, cc: string, bcc: string,
    bodyPlainText: string, bodyHtml: string,
    date: int, clientSubmitTime: int, creationDate: int, lastModificationDate: int,
    properties: map<int, Value>, transportMessageHeaders: string, address: seq<string>,
    lastRecipient: int, bodyCandidates: seq<string>, htmlCandidates: seq<string>)

  /** &models.Message{}. */
  const EMPTY: Record := Record("", "", "", "", "", "", "", "", "", "", "", "", "",
    ZERO_TIME, ZERO_TIME, ZERO_TIME, ZERO_TIME, map[], "", [], 0, [], [])

  function GetText(m: Record, f: TextField): string {
    match f
    case MessageClassField => m.messageClass
    case MessageIdField => m.messageId
    case SubjectField => m.subject
    case FromNameField => m.fromName
    case ToDisplayField => m.toDisplay
    case CcDisplayField => m.ccDisplay
    case BccDisplayField => m.bccDisplay
    case TransportHeadersField => m.transportMessageHeaders
  }

  function SetText(m: Record, f: TextField, v: string): Record {
    match f
    case MessageClassField => m.(messageClass := v)
    case MessageIdField => m.(messageId := v)
    case SubjectField => m.(subject := v)
    case FromNameField => m.(fromName := v)
    case ToDisplayField => m.(toDisplay := v)
    case CcDisplayField => m.(ccDisplay := v)
    case BccDisplayField => m.(bccDisplay := v)
    case TransportHeadersField => m.(transportMessageHeaders := v)
  }

  function GetTime(m: Record, f: TimeField): int {
    match f
    case CreationField => m.creationDate
    case ModificationField => m.lastModificationDate
    case SubmitField => m.clientSubmitTime
    case DeliveryField => m.date
  }

  function SetTime(m: Record, f: TimeField, t: int): Record {
    match f
    case CreationField => m.(creationDate := t)
    case ModificationField => m.(lastModificationDate := t)
    case SubmitField => m.(clientSubmitTime := t)
    case DeliveryField => m.(date := t)
  }

  /** What SetProperties does with a property, by property id. */
  datatype Route =
    | FirstString(field: TextField)   // data.(string) into an empty field
    | FirstText(field: TextField)     // []uint8 or string into an empty field
    | FirstTime(timeField: TimeField) // data.(time.Time) into a zero field
    | SenderEmail                     // PR_SENDER_EMAIL_ADDRESS
    | RepresentingEmail               // PR_SENT_REPRESENTING_EMAIL_ADDRESS
    | BodyText                        // a plain-text body candidate
    | BodyHtml                        // an HTML body candidate
    | RecipientAddress                // a recipient's address
    | KeepBytes                       // Properties[id] = []byte, every time
    | FirstBytesAsText                // Properties[id] = string([]uint8), once
    | FirstFlag                       // Properties[id] = byteData[0] != 0, once
    | FirstInt32                      // Properties[id] = int32(Uint32(byteData)), once
    | KeepStrings                     // Properties[id] = []string or string, every time
    | KeepInt32                       // Properties[id] = int32, every time
    | KeepText                        // Properties[id] = string([]uint8) or string, every time
    | KeepJoined                      // Properties[id] = strings.Join([]string, ", ") or string
    | Ignore                          // documented but not implemented
    | Other                           // the default case

  /** The case lists of SetProperties' switch. */
  function RouteOf(cls: int): Route {
    match cls
    case 0x1a => FirstString(MessageClassField)
    case 0x1035 => FirstString(MessageIdField)
    case 0x37 | 0xe1d => FirstString(SubjectField)
    case 0xc1f => SenderEmail
    case 0x65 => RepresentingEmail
    case 0x3ffa => FirstString(FromNameField)
    case 0x1000 | 0x3ff9 | 0x65e0 | 0x65e2 | 0xff9 | 0x120b => BodyText
    case 0x1001 | 0x1013 | 0x3ffb | 0x65e1 | 0x65e3 | 0x5ff7 | 0xc25 | 0xf03 => BodyHtml
    case 0x3007 => FirstTime(CreationField)
    case 0x3008 => FirstTime(ModificationField)
    case 0xe06 => FirstTime(SubmitField)
    case 0xe0f => FirstTime(DeliveryField)
    case 0x0002 | 0x0003 | 0x0004 => KeepBytes
    case 0x1002 => FirstBytesAsText
    case 0x1008 | 0x1009 => FirstFlag
    case 0x1014 | 0x1015 => FirstInt32
    case 0x003b => KeepBytes
    case 0x003f => FirstInt32
    case 0x0041 => KeepBytes
    case 0x0051 | 0x0071 => FirstInt32
    case 0x0c19 | 0x0c1d => KeepBytes
    case 0x300b => FirstFlag
    case 0xe04 | 0x800d => FirstText(ToDisplayField)
    case 0xe03 | 0x800e => FirstText(CcDisplayField)
    case 0xe02 | 0x800f => FirstText(BccDisplayField)
    case 0x8002 => KeepStrings
    case 0x0ff6 => FirstBytesAsText
    case 0x0fff => KeepBytes
    case 0x1005 | 0x1006 | 0x1007 | 0x100b | 0x100c | 0x100d | 0x100f | 0x1011 | 0x1016 | 0x1017
      | 0x1018 | 0x1019 | 0x101a | 0x101b | 0x101c | 0x101e | 0x43 | 0x52 | 0xe0b | 0xe4b | 0xe4c
      | 0xe58 | 0xe59 | 0x3013 | 0x3014 | 0x8000 | 0x8007 | 0x8008 | 0x800b | 0x802c | 0x802e => Ignore
    case 0x4099 => KeepInt32
    case 0x1003 | 0x1004 => KeepBytes
    case 0x007D => FirstText(TransportHeadersField)
    case 0x3003 | 0xC025 | 0x39FE => RecipientAddress
    case 0x0C24 => Ignore
    case 0x3701 | 0x3702 | 0x371d => KeepText
    case 0x8004 => KeepJoined
    case 0x1010 | 0x1012 | 0x101d | 0x3019 | 0x301b | 0x8021 => KeepText
    case 0x100a => KeepText
    case 0x8005 => KeepJoined
    case 0x8011 | 0x8025 | 0x802d => KeepText
    case _ => Other
  }

  /** The routes that write only into the Properties map. */
  predicate IsPropertyRoute(route: Route) {
    route.KeepBytes? || route.FirstBytesAsText? || route.FirstFlag? || route.FirstInt32?
    || route.KeepStrings? || route.KeepInt32? || route.KeepText? || route.KeepJoined? || route.Other?
  }

  /** A value as text: string([]uint8) for bytes, the string itself, or
      nothing for any other dynamic type. */
  function AsText(data: Value): Option<string> {
    match data
    case Bytes(b) => Some(BytesToText(b))
    case Str(s) => Some(s)
    case _ => None
  }

  function Store(m: Record, cls: int, v: Value): Record {
    m.(properties := m.properties[cls := v])
  }

  /** The Properties-map routes. */
  function ApplyProperty(m: Record, route: Route, cls: int, data: Value): Outcome<Record>
    requires IsPropertyRoute(route)
  {
    match route
    case KeepBytes => if data.Bytes? then Ok(Store(m, cls, data)) else Ok(m)
    case FirstBytesAsText =>
      if cls in m.properties || !data.Bytes? then Ok(m) else Ok(Store(m, cls, Str(BytesToText(data.b))))
    case FirstFlag =>
      if cls in m.properties || !data.Bytes? then Ok(m)
      else if |data.b| == 0 then Panic
      else Ok(Store(m, cls, Bool(data.b[0] != 0)))
    case FirstInt32 =>
      if cls in m.properties || !data.Bytes? then Ok(m)
      else if |data.b| < 4 then Panic
      else Ok(Store(m, cls, I32(Int32Of(data.b[..4]))))
    case KeepStrings => if data.Strs? || data.Str? then Ok(Store(m, cls, data)) else Ok(m)
    case KeepInt32 => if data.I32? then Ok(Store(m, cls, data)) else Ok(m)
    case KeepText =>
      (match AsText(data)
       case Some(t) => Ok(Store(m, cls, Str(t)))
       case None => Ok(m))
    case KeepJoined =>
      if data.Strs? then Ok(Store(m, cls, Str(Join(data.ss, ", "))))
      else if data.Str? then Ok(Store(m, cls, data))
      else Ok(m)
    case Other =>
      if cls == 0 || cls in m.properties || !data.Str? then Ok(m) else Ok(Store(m, cls, data))
  }

  /** A recipient address: a valid one joins Address, and To, CC or BCC by
      LastRecipient when it came as bytes, To (once) when it came as a
      string. */
  function ApplyAddress(m: Record, data: Value): Record {
    match data
    case Bytes(b) =>
      var a := BytesToText(b);
      if !IsValidEmail(a) then m
      else
        var m1 := m.(address := m.address + [a]);
        if m.lastRecipient == 0 then m1.(to := m.to + a + "; ")
        else if m.lastRecipient == 1 then m1.(cc := m.cc + a + "; ")
        else if m.lastRecipient == 2 then m1.(bcc := m.bcc + a + "; ")
        else m1
    case Str(s) =>
      if !IsValidEmail(s) then m
      else
        var m1 := m.(address := m.address + [s]);
        if !Contains(m.to, s) then m1.(to := m.to + s + "; ") else m1
    case _ => m
  }

  /** A body or HTML candidate, kept when the validator accepts it. */
  function ApplyCandidate(cats: Categories, m: Record, html: bool, data: Value): Record {
    match AsText(data)
    case None => m
    case Some(t) =>
      match BodyCandidate(cats, t, MIN_BODY_BYTES)
      case None => m
      case Some(c) =>
        if html then m.(htmlCandidates := m.htmlCandidates + [c])
        else m.(bodyCandidates := m.bodyCandidates + [c])
  }

  /** ApplyCandidate once the validator's answer is known. */
  lemma CandidateOutcome(cats: Categories, m: Record, html: bool, data: Value, accepted: Option<string>)
    requires AsText(data).Some? && BodyCandidate(cats, AsText(data).value, MIN_BODY_BYTES) == accepted
    ensures ApplyCandidate(cats, m, html, data) ==
              match accepted
              case None => m
              case Some(c) =>
                if html then m.(htmlCandidates := m.htmlCandidates + [c])
                else m.(bodyCandidates := m.bodyCandidates + [c])
  {
  }

  /** One case of the switch; Panic where a type assertion or an index
      fails. */
  /** The routes that write one named field of the message. */
  predicate IsFieldRoute(route: Route) {
    route.FirstString? || route.FirstText? || route.FirstTime? || route.SenderEmail? || route.RepresentingEmail?
  }

  function Apply(cats: Categories, m: Record, route: Route, cls: int, data: Value): Outcome<Record> {
    match route
    case FirstString(f) =>
      if GetText(m, f) != "" then Ok(m)
      else if data.Str? then Ok(SetText(m, f, data.s))
      else Panic
    case FirstText(f) =>
      if GetText(m, f) != "" then Ok(m)
      else
        (match AsText(data)
         case Some(t) => Ok(SetText(m, f, t))
         case None => Ok(m))
    case FirstTime(f) =>
      if GetTime(m, f) != ZERO_TIME then Ok(m)
      else if data.Time? then Ok(SetTime(m, f, data.nanos))
      else Panic
    case SenderEmail =>
      if !data.Str? then Panic
      else if !IsValidEmail(data.s) then Ok(m)
      else if m.fromEmail == "" then Ok(m.(fromEmail := data.s))
      else if !Contains(m.fromEmail, data.s) then Ok(m.(fromEmail := data.s + ", " + m.fromEmail))
      else Ok(m)
    case RepresentingEmail =>
      if !data.Str? then Panic
      else if m.fromEmail == "" && IsValidEmail(data.s) then Ok(m.(fromEmail := data.s))
      else if !Contains(m.fromEmail, data.s) then Ok(m.(fromEmail := data.s + ", " + m.fromEmail))
      else Ok(m)
    case BodyText => Ok(ApplyCandidate(cats, m, false, data))
    case BodyHtml => Ok(ApplyCandidate(cats, m, true, data))
    case RecipientAddress => Ok(ApplyAddress(m, data))
    case Ignore => Ok(m)
    case _ => ApplyProperty(m, route, cls, data)
  }

  /** SetProperties: the class text is parsed as a 32-bit hexadecimal id (a
      parse error only logs, leaving 0 or the clamped value), an
      attachment-prefixed name is skipped, and the id's route applied. */
  function Dispatch(cats: Categories, m: Record, p: EntryProperty): Outcome<Record> {
    var cls := ParseInt(p.cls, 16, 32).0;
    if HasPrefix(p.cls, ATTACHMENT_PREFIX) then Ok(m)
    else Apply(cats, m, RouteOf(cls), cls, p.data)
  }

  /** The Properties key a property is filed under. */
  function ClassOf(p: EntryProperty): int {
    ParseInt(p.cls, 16, 32).0
  }

  // CalculateFinalBody.

  /** cs[i] is the first of the longest texts of cs, by length in bytes. */
  predicate IsFirstLongest(cs: seq<string>, i: int) {
    && 0 <= i < |cs|
    && (forall j :: 0 <= j < |cs| ==> Utf8Len(cs[j]) <= Utf8Len(cs[i]))
    && (forall j :: 0 <= j < i ==> Utf8Len(cs[j]) < Utf8Len(cs[i]))
  }

  /** Where the scan that replaces best only by a strictly longer text
      ends. */
  function FirstLongestIndex(cs: seq<string>): (i: nat)
    requires |cs| > 0
    ensures IsFirstLongest(cs, i)
  {
    if |cs| == 1 then 0
    else
      var init := cs[..|cs| - 1];
      var i := FirstLongestIndex(init);
      assert forall j :: 0 <= j < |cs| - 1 ==> cs[j] == init[j];
      if Utf8Len(cs[|cs| - 1]) > Utf8Len(cs[i]) then |cs| - 1 else i
  }

  /** What CalculateFinalBody leaves: the longest candidates, a missing body
      copied from the other, and a placeholder when both are empty. */
  function Finalize(m: Record): Record {
    var html := if |m.htmlCandidates| > 0 then m.htmlCandidates[FirstLongestIndex(m.htmlCandidates)] else m.bodyHtml;
    var plain := if |m.bodyCandidates| > 0 then m.bodyCandidates[FirstLongestIndex(m.bodyCandidates)] else m.bodyPlainText;
    var html1 := if Utf8Len(plain) > 0 && Utf8Len(html) == 0 then plain else html;
    var plain1 := if Utf8Len(html1) > 0 && Utf8Len(plain) == 0 then html1 else plain;
    if Utf8Len(plain1) == 0 && Utf8Len(html1) == 0 then m.(bodyPlainText := NO_CONTENT, bodyHtml := NO_CONTENT)
    else m.(bodyPlainText := plain1, bodyHtml := html1)
  }

  /** The loop of CalculateFinalBody over one candidate list. */
  method PickLongest(cs: seq<string>) returns (best: string)
    requires |cs| > 0
    ensures exists i :: IsFirstLongest(cs, i) && best == cs[i]
  {
    best := cs[0];
    ghost var bi := 0;
    assert cs[..1] == [cs[0]];
    for k := 1 to |cs|
      invariant bi == FirstLongestIndex(cs[..k]) && bi < k && best == cs[bi]
    {
      FirstLongestStep(cs, k);
      if Utf8Len(cs[k]) > Utf8Len(best) {
        best := cs[k];
        bi := k;
      }
    }
    assert cs[..|cs|] == cs;
    assert IsFirstLongest(cs, bi);
  }

  lemma FirstLongestStep(cs: seq<string>, k: nat)
    requires 1 <= k < |cs|
    ensures var i := FirstLongestIndex(cs[..k]);
            FirstLongestIndex(cs[..k + 1]) == if Utf8Len(cs[k]) > Utf8Len(cs[i]) then k else i
  {
    var c := cs[..k + 1];
    assert c[..|c| - 1] == cs[..k];
    assert c[|c| - 1] == cs[k];
  }

  /** A message under construction. */
  class Message {
    var messageClass: string
    var messageId: string
    var subject: string
    var fromEmail: string
    var fromName: string
    var toDisplay: string
    var to: string
    var ccDisplay: string
    var bccDisplay: string
    var cc: string
    var bcc: string
    var bodyPlainText: string
    var bodyHtml: string
    var date: int
    var clientSubmitTime: int
    var creationDate: int
    var lastModificationDate: int
    var properties: map<int, Value>
    var transportMessageHeaders: string
    var address: seq<string>
    var lastRecipient: int
    var bodyCandidates: seq<string>
    var htmlCandidates: seq<string>

    function Snapshot(): Record
      reads this
    {
      Record(messageClass, messageId, subject, fromEmail, fromName, toDisplay, to, ccDisplay, bccDisplay,
        cc, bcc, bodyPlainText, bodyHtml, date, clientSubmitTime, creationDate, lastModificationDate,
        properties, transportMessageHeaders, address, lastRecipient, bodyCandidates, htmlCandidates)
    }

    constructor ()
      ensures Snapshot() == EMPTY
    {
      messageClass, messageId, subject, fromEmail, fromName := "", "", "", "", "";
      toDisplay, to, ccDisplay, bccDisplay, cc, bcc := "", "", "", "", "", "";
      bodyPlainText, bodyHtml := "", "";
      date, clientSubmitTime, creationDate, lastModificationDate := ZERO_TIME, ZERO_TIME, ZERO_TIME, ZERO_TIME;
      properties, transportMessageHeaders, address, lastRecipient := map[], "", [], 0;
      bodyCandidates, htmlCandidates := [], [];
    }

    function FieldText(f: TextField): string
      reads this
    {
      GetText(Snapshot(), f)
    }

    method SetTextField(f: TextField, v: string)
      modifies this
      ensures Snapshot() == SetText(old(Snapshot()), f, v)
    {
      match f
      case MessageClassField => SetMessageClass(v);
      case MessageIdField => SetMessageId(v);
      case SubjectField => SetSubject(v);
      case FromNameField => SetFromName(v);
      case ToDisplayField => SetToDisplay(v);
      case CcDisplayField => SetCcDisplay(v);
      case BccDisplayField => SetBccDisplay(v);
      case TransportHeadersField => SetTransportHeaders(v);
    }

    method SetMessageClass(v: string)
      modifies this
      ensures Snapshot() == old(Snapshot()).(messageClass := v)
    {
      messageClass := v;
    }

    method SetMessageId(v: string)
      modifies this
      ensures Snapshot() == old(Snapshot()).(messageId := v)
    {
      messageId := v;
    }

    method SetSubject(v: string)
      modifies this
      ensures Snapshot() == old(Snapshot()).(subject := v)
    {
      subject := v;
    }

    method SetFromName(v: string)
      modifies this
      ensures Snapshot() == old(Snapshot()).(fromName := v)
    {
      fromName := v;
    }

    method SetToDisplay(v: string)
      modifies this
      ensures Snapshot() == old(Snapshot()).(toDisplay := v)
    {
      toDisplay := v;
    }

    method SetCcDisplay(v: string)
      modifies this
      ensures Snapshot() == old(Snapshot()).(ccDisplay := v)
    {
      ccDisplay := v;
    }

    method SetBccDisplay(v: string)
      modifies this
      ensures Snapshot() == old(Snapshot()).(bccDisplay := v)
    {
      bccDisplay := v;
    }

    method SetTransportHeaders(v: string)
      modifies this
      ensures Snapshot() == old(Snapshot()).(transportMessageHeaders := v)
    {
      transportMessageHeaders := v;
    }

    method SetTimeField(f: TimeField, t: int)
      modifies this
      ensures Snapshot() == SetTime(old(Snapshot()), f, t)
    {
      match f
      case CreationField => SetCreationDate(t);
      case ModificationField => SetLastModificationDate(t);
      case SubmitField => SetClientSubmitTime(t);
      case DeliveryField => SetDate(t);
    }

    method SetCreationDate(v: int)
      modifies this
      ensures Snapshot() == old(Snapshot()).(creationDate := v)
    {
      creationDate := v;
    }

    method SetLastModificationDate(v: int)
      modifies this
      ensures Snapshot() == old(Snapshot()).(lastModificationDate := v)
    {
      lastModificationDate := v;
    }

    method SetClientSubmitTime(v: int)
      modifies this
      ensures Snapshot() == old(Snapshot()).(clientSubmitTime := v)
    {
      clientSubmitTime := v;
    }

    method SetDate(v: int)
      modifies this
      ensures Snapshot() == old(Snapshot()).(date := v)
    {
      date := v;
    }

    method SetFromEmail(v: string)
      modifies this
      ensures Snapshot() == old(Snapshot()).(fromEmail := v)
    {
      fromEmail := v;
    }

    method SetBodyPlainText(v: string)
      modifies this
      ensures Snapshot() == old(Snapshot()).(bodyPlainText := v)
    {
      bodyPlainText := v;
    }

    method SetBodyHtml(v: string)
      modifies this
      ensures Snapshot() == old(Snapshot()).(bodyHtml := v)
    {
      bodyHtml := v;
    }

    method SetLastRecipient(v: int)
      modifies this
      ensures Snapshot() == old(Snapshot()).(lastRecipient := v)
    {
      lastRecipient := v;
    }

    method PutProperty(cls: int, v: Value)
      modifies this
      ensures Snapshot() == Store(old(Snapshot()), cls, v)
    {
      properties := properties[cls := v];
    }

    /** The Properties-map cases of the switch. */
    method StoreProperty(route: Route, cls: int, data: Value) returns (ok: bool)
      requires IsPropertyRoute(route)
      modifies this
      ensures ApplyProperty(old(Snapshot()), route, cls, data) == if ok then Ok(Snapshot()) else Panic
      ensures !ok ==> Snapshot() == old(Snapshot())
    {
      ok := true;
      match route
      case KeepBytes =>
        if data.Bytes? {
          PutProperty(cls, data);
        }
      case FirstBytesAsText =>
        if cls !in properties && data.Bytes? {
          PutProperty(cls, Str(BytesToText(data.b)));
        }
      case FirstFlag =>
        if cls !in properties && data.Bytes? {
          if |data.b| == 0 {
            return false;
          }
          PutProperty(cls, Bool(data.b[0] != 0));
        }
      case FirstInt32 =>
        if cls !in properties && data.Bytes? {
          if |data.b| < 4 {
            return false;
          }
          PutProperty(cls, I32(Int32Of(data.b[..4])));
        }
      case KeepStrings =>
        if data.Strs? || data.Str? {
          PutProperty(cls, data);
        }
      case KeepInt32 =>
        if data.I32? {
          PutProperty(cls, data);
        }
      case KeepText =>
        if data.Bytes? {
          PutProperty(cls, Str(BytesToText(data.b)));
        } else if data.Str? {
          PutProperty(cls, data);
        }
      case KeepJoined =>
        if data.Strs? {
          PutProperty(cls, Str(Join(data.ss, ", ")));
        } else if data.Str? {
          PutProperty(cls, data);
        }
      case Other =>
        if cls != 0 && cls !in properties && data.Str? {
          PutProperty(cls, data);
        }
    }

    /** The recipient-address case. */
    method AddRecipientAddress(data: Value)
      modifies this
      ensures Snapshot() == ApplyAddress(old(Snapshot()), data)
    {
      if data.Bytes? {
        var a := BytesToText(data.b);
        if IsValidEmail(a) {
          var to1, cc1, bcc1 := to, cc, bcc;
          if lastRecipient == 0 {
            to1 := to + a + "; ";
          } else if lastRecipient == 1 {
            cc1 := cc + a + "; ";
          } else if lastRecipient == 2 {
            bcc1 := bcc + a + "; ";
          }
          SetRecipients(address + [a], to1, cc1, bcc1);
        }
      } else if data.Str? {
        var a := data.s;
        if IsValidEmail(a) {
          var to1 := to;
          if !Contains(to, a) {
            to1 := to + a + "; ";
          }
          SetRecipients(address + [a], to1, cc, bcc);
        }
      }
    }

    /** Address, To, CC and BCC replaced; nothing else changes. */
    method SetRecipients(address': seq<string>, to': string, cc': string, bcc': string)
      modifies this
      ensures Snapshot() == old(Snapshot()).(address := address', to := to', cc := cc', bcc := bcc')
    {
      SetAddress(address');
      SetTo(to');
      SetCc(cc');
      SetBcc(bcc');
    }

    method SetAddress(v: seq<string>)
      modifies this
      ensures Snapshot() == old(Snapshot()).(address := v)
    {
      address := v;
    }

    method SetTo(v: string)
      modifies this
      ensures Snapshot() == old(Snapshot()).(to := v)
    {
      to := v;
    }

    method SetCc(v: string)
      modifies this
      ensures Snapshot() == old(Snapshot()).(cc := v)
    {
      cc := v;
    }

    method SetBcc(v: string)
      modifies this
      ensures Snapshot() == old(Snapshot()).(bcc := v)
    {
      bcc := v;
    }

    /** The body and HTML cases: the candidate is validated with a minimum of
      10 bytes and kept when accepted. */
    method CollectCandidate(cats: Categories, html: bool, data: Value)
      modifies this
      ensures Snapshot() == ApplyCandidate(cats, old(Snapshot()), html, data)
    {
      var text := AsText(data);
      if text.Some? {
        var cleaned, ok := CleanAndAcceptBodyCandidate(cats, text.value, MIN_BODY_BYTES);
        CandidateOutcome(cats, Snapshot(), html, data, if ok then Some(cleaned) else None);
        if ok {
          AppendCandidate(html, cleaned);
        }
      }
    }

    method AppendCandidate(html: bool, c: string)
      modifies this
      ensures Snapshot() == if html then old(Snapshot()).(htmlCandidates := old(htmlCandidates) + [c])
                            else old(Snapshot()).(bodyCandidates := old(bodyCandidates) + [c])
    {
      if html {
        htmlCandidates := htmlCandidates + [c];
      } else {
        bodyCandidates := bodyCandidates + [c];
      }
    }

    /** SetProperties; false where Go panics, with nothing changed. */
    method SetProperties(cats: Categories, msgProps: EntryProperty) returns (ok: bool)
      modifies this
      ensures Dispatch(cats, old(Snapshot()), msgProps) == if ok then Ok(Snapshot()) else Panic
      ensures !ok ==> Snapshot() == old(Snapshot())
    {
      var name, data := msgProps.cls, msgProps.data;
      var cls := ParseInt(name, 16, 32).0;
      if HasPrefix(name, ATTACHMENT_PREFIX) {
        return true;
      }
      ok := ApplyRoute(cats, RouteOf(cls), cls, data);
    }

    /** The switch of SetProperties, on the route of the id. */
    method ApplyRoute(cats: Categories, route: Route, cls: int, data: Value) returns (ok: bool)
      modifies this
      ensures Apply(cats, old(Snapshot()), route, cls, data) == if ok then Ok(Snapshot()) else Panic
      ensures !ok ==> Snapshot() == old(Snapshot())
    {
      if IsFieldRoute(route) {
        ok := ApplyFieldRoute(cats, route, cls, data);
      } else {
        ok := ApplyOtherRoute(cats, route, cls, data);
      }
    }

    /** The cases that write one field of the message. */
    method ApplyFieldRoute(cats: Categories, route: Route, cls: int, data: Value) returns (ok: bool)
      requires IsFieldRoute(route)
      modifies this
      ensures Apply(cats, old(Snapshot()), route, cls, data) == if ok then Ok(Snapshot()) else Panic
      ensures !ok ==> Snapshot() == old(Snapshot())
    {
      ok := true;
      match route
      case FirstString(f) =>
        ok := SetFirstString(cats, f, cls, data);
      case FirstText(f) =>
        SetFirstText(cats, f, cls, data);
      case FirstTime(f) =>
        ok := SetFirstTime(cats, f, cls, data);
      case SenderEmail =>
        ok := AddFromEmail(cats, route, cls, data);
      case RepresentingEmail =>
        ok := AddFromEmail(cats, route, cls, data);
    }

    /** The cases that collect bodies and addresses or fill Properties. */
    method ApplyOtherRoute(cats: Categories, route: Route, cls: int, data: Value) returns (ok: bool)
      requires !IsFieldRoute(route)
      modifies this
      ensures Apply(cats, old(Snapshot()), route, cls, data) == if ok then Ok(Snapshot()) else Panic
      ensures !ok ==> Snapshot() == old(Snapshot())
    {
      ok := true;
      if route.BodyText? || route.BodyHtml? {
        CollectCandidate(cats, route.BodyHtml?, data);
      } else if route.RecipientAddress? {
        AddRecipientAddress(data);
      } else if !route.Ignore? {
        ok := StoreProperty(route, cls, data);
      }
    }

    /** A text field written from a string while empty; any other value
      fails the type assertion. */
    method SetFirstString(cats: Categories, f: TextField, cls: int, data: Value) returns (ok: bool)
      modifies this
      ensures Apply(cats, old(Snapshot()), FirstString(f), cls, data) == if ok then Ok(Snapshot()) else Panic
      ensures !ok ==> Snapshot() == old(Snapshot())
    {
      ok := true;
      if FieldText(f) == "" {
        if !data.Str? {
          return false;
        }
        SetTextField(f, data.s);
      }
    }

    /** A text field written while empty from a string or from bytes. */
    method SetFirstText(cats: Categories, f: TextField, cls: int, data: Value)
      modifies this
      ensures Apply(cats, old(Snapshot()), FirstText(f), cls, data) == Ok(Snapshot())
    {
      ghost var m := Snapshot();
      if FieldText(f) == "" {
        var text := AsText(data);
        if text.Some? {
          SetTextField(f, text.value);
          assert Apply(cats, m, FirstText(f), cls, data) == Ok(SetText(m, f, text.value));
        }
      }
    }

    /** A time field written while zero; any value but a time fails the
      type assertion. */
    method SetFirstTime(cats: Categories, f: TimeField, cls: int, data: Value) returns (ok: bool)
      modifies this
      ensures Apply(cats, old(Snapshot()), FirstTime(f), cls, data) == if ok then Ok(Snapshot()) else Panic
      ensures !ok ==> Snapshot() == old(Snapshot())
    {
      ok := true;
      if GetTime(Snapshot(), f) == ZERO_TIME {
        if !data.Time? {
          return false;
        }
        SetTimeField(f, data.nanos);
      }
    }

    /** The sender and sent-representing address cases. */
    method AddFromEmail(cats: Categories, route: Route, cls: int, data: Value) returns (ok: bool)
      requires route.SenderEmail? || route.RepresentingEmail?
      modifies this
      ensures Apply(cats, old(Snapshot()), route, cls, data) == if ok then Ok(Snapshot()) else Panic
      ensures !ok ==> Snapshot() == old(Snapshot())
    {
      if !data.Str? {
        return false;
      }
      ok := true;
      if route.SenderEmail? {
        if IsValidEmail(data.s) {
          if fromEmail == "" {
            SetFromEmail(data.s);
          } else if !Contains(fromEmail, data.s) {
            SetFromEmail(data.s + ", " + fromEmail);
          }
        }
      } else {
        if fromEmail == "" && IsValidEmail(data.s) {
          SetFromEmail(data.s);
        } else if !Contains(fromEmail, data.s) {
          SetFromEmail(data.s + ", " + fromEmail);
        }
      }
    }

    /** CalculateFinalBody. */
    method CalculateFinalBody()
      modifies this
      ensures Snapshot() == Finalize(old(Snapshot()))
    {
      if |htmlCandidates| > 0 {
        var best := PickLongest(htmlCandidates);
        FirstLongestUnique(htmlCandidates);
        SetBodyHtml(best);
      }
      if |bodyCandidates| > 0 {
        var best := PickLongest(bodyCandidates);
        FirstLongestUnique(bodyCandidates);
        SetBodyPlainText(best);
      }
      if Utf8Len(bodyPlainText) > 0 && Utf8Len(bodyHtml) == 0 {
        SetBodyHtml(bodyPlainText);
      }
      if Utf8Len(bodyHtml) > 0 && Utf8Len(bodyPlainText) == 0 {
        SetBodyPlainText(bodyHtml);
      }
      if Utf8Len(bodyPlainText) == 0 && Utf8Len(bodyHtml) == 0 {
        SetBodyPlainText(NO_CONTENT);
        SetBodyHtml(NO_CONTENT);
      }
    }
  }

  /** Only one index is the first longest. */
  lemma FirstLongestUnique(cs: seq<string>)
    requires |cs| > 0
    ensures forall i :: IsFirstLongest(cs, i) ==> i == FirstLongestIndex(cs)
  {
    var k := FirstLongestIndex(cs);
    forall i | IsFirstLongest(cs, i)
      ensures i == k
    {
    }
  }

  // Properties of the dispatcher.

  /** r with the fields a route may write put back as they were in m. */
  function Restore(m: Record, r: Record, route: Route): Record {
    match route
    case FirstString(f) => SetText(r, f, GetText(m, f))
    case FirstText(f) => SetText(r, f, GetText(m, f))
    case FirstTime(f) => SetTime(r, f, GetTime(m, f))
    case SenderEmail => r.(fromEmail := m.fromEmail)
    case RepresentingEmail => r.(fromEmail := m.fromEmail)
    case BodyText => r.(bodyCandidates := m.bodyCandidates)
    case BodyHtml => r.(htmlCandidates := m.htmlCandidates)
    case RecipientAddress => r.(address := m.address, to := m.to, cc := m.cc, bcc := m.bcc)
    case Ignore => r
    case _ => r.(properties := m.properties)
  }

  /** Each route writes only its own fields. */
  lemma ApplyFrame(cats: Categories, m: Record, route: Route, cls: int, data: Value)
    requires Apply(cats, m, route, cls, data).Ok?
    ensures Restore(m, Apply(cats, m, route, cls, data).value, route) == m
  {
    match route
    case FirstString(_) => FieldFrame(cats, m, route, cls, data);
    case FirstText(_) => FieldFrame(cats, m, route, cls, data);
    case FirstTime(_) => FieldFrame(cats, m, route, cls, data);
    case SenderEmail => EmailFrame(cats, m, route, cls, data);
    case RepresentingEmail => EmailFrame(cats, m, route, cls, data);
    case BodyText => CandidateFrame(cats, m, route, cls, data);
    case BodyHtml => CandidateFrame(cats, m, route, cls, data);
    case RecipientAddress => AddressFrame(cats, m, route, cls, data);
    case Ignore =>
    case KeepBytes => PropertyFrame(cats, m, route, cls, data);
    case FirstBytesAsText => PropertyFrame(cats, m, route, cls, data);
    case FirstFlag => PropertyFrame(cats, m, route, cls, data);
    case FirstInt32 => PropertyFrame(cats, m, route, cls, data);
    case KeepStrings => PropertyFrame(cats, m, route, cls, data);
    case KeepInt32 => PropertyFrame(cats, m, route, cls, data);
    case KeepText => PropertyFrame(cats, m, route, cls, data);
    case KeepJoined => PropertyFrame(cats, m, route, cls, data);
    case Other => PropertyFrame(cats, m, route, cls, data);
  }

  lemma FieldFrame(cats: Categories, m: Record, route: Route, cls: int, data: Value)
    requires route.FirstString? || route.FirstText? || route.FirstTime?
    requires Apply(cats, m, route, cls, data).Ok?
    ensures Restore(m, Apply(cats, m, route, cls, data).value, route) == m
  {
    match route
    case FirstString(f) =>
      TextRestore(m, f, if data.Str? then data.s else "");
    case FirstText(f) =>
      TextRestore(m, f, if AsText(data).Some? then AsText(data).value else "");
    case FirstTime(f) =>
      TimeRestore(m, f, if data.Time? then data.nanos else 0);
  }

  /** Writing a field and then its old value back gives the record back. */
  lemma TextRestore(m: Record, f: TextField, v: string)
    ensures SetText(SetText(m, f, v), f, GetText(m, f)) == m
    ensures SetText(m, f, GetText(m, f)) == m
  {
    match f
    case MessageClassField =>
    case MessageIdField =>
    case SubjectField =>
    case FromNameField =>
    case ToDisplayField =>
    case CcDisplayField =>
    case BccDisplayField =>
    case TransportHeadersField =>
  }

  lemma TimeRestore(m: Record, f: TimeField, t: int)
    ensures SetTime(SetTime(m, f, t), f, GetTime(m, f)) == m
    ensures SetTime(m, f, GetTime(m, f)) == m
  {
    match f
    case CreationField =>
    case ModificationField =>
    case SubmitField =>
    case DeliveryField =>
  }

  lemma EmailFrame(cats: Categories, m: Record, route: Route, cls: int, data: Value)
    requires route.SenderEmail? || route.RepresentingEmail?
    requires Apply(cats, m, route, cls, data).Ok?
    ensures Restore(m, Apply(cats, m, route, cls, data).value, route) == m
  {
  }

  lemma CandidateFrame(cats: Categories, m: Record, route: Route, cls: int, data: Value)
    requires route.BodyText? || route.BodyHtml?
    ensures Apply(cats, m, route, cls, data).Ok?
    ensures Restore(m, Apply(cats, m, route, cls, data).value, route) == m
  {
    CandidateTouchesOnlyLists(cats, m, route.BodyHtml?, data);
  }

  lemma AddressFrame(cats: Categories, m: Record, route: Route, cls: int, data: Value)
    requires route.RecipientAddress?
    ensures Apply(cats, m, route, cls, data).Ok?
    ensures Restore(m, Apply(cats, m, route, cls, data).value, route) == m
  {
    AddressTouchesOnlyRecipients(m, data);
  }

  lemma PropertyFrame(cats: Categories, m: Record, route: Route, cls: int, data: Value)
    requires IsPropertyRoute(route)
    requires Apply(cats, m, route, cls, data).Ok?
    ensures Restore(m, Apply(cats, m, route, cls, data).value, route) == m
  {
    assert Apply(cats, m, route, cls, data) == ApplyProperty(m, route, cls, data);
  }

  /** Once set, MessageClass, MessageID, Subject, FromName, the three
      display lists, TransportMessageHeaders and the four timestamps keep
      their value whatever property follows. */
  lemma FirstWinsStable(cats: Categories, m: Record, p: EntryProperty)
    requires Dispatch(cats, m, p).Ok?
    ensures var r := Dispatch(cats, m, p).value;
            && (forall f :: GetText(m, f) != "" ==> GetText(r, f) == GetText(m, f))
            && (forall f :: GetTime(m, f) != ZERO_TIME ==> GetTime(r, f) == GetTime(m, f))
  {
    var cls := ClassOf(p);
    if !HasPrefix(p.cls, ATTACHMENT_PREFIX) {
      var route := RouteOf(cls);
      if route.FirstString? || route.FirstText? || route.FirstTime? {
        FieldRouteKeepsSetFields(cats, m, route, cls, p.data);
      } else {
        OtherRoutesKeepFields(cats, m, route, cls, p.data);
      }
    }
  }

  lemma FieldRouteKeepsSetFields(cats: Categories, m: Record, route: Route, cls: int, data: Value)
    requires route.FirstString? || route.FirstText? || route.FirstTime?
    requires Apply(cats, m, route, cls, data).Ok?
    ensures var r := Apply(cats, m, route, cls, data).value;
            && (forall f :: GetText(m, f) != "" ==> GetText(r, f) == GetText(m, f))
            && (forall f :: GetTime(m, f) != ZERO_TIME ==> GetTime(r, f) == GetTime(m, f))
  {
    var r := Apply(cats, m, route, cls, data).value;
    match route
    case FirstString(g) =>
      if GetText(m, g) == "" {
        assert r == SetText(m, g, data.s);
        SetTextOthers(m, g, data.s);
      }
    case FirstText(g) =>
      if GetText(m, g) == "" && AsText(data).Some? {
        assert r == SetText(m, g, AsText(data).value);
        SetTextOthers(m, g, AsText(data).value);
      }
    case FirstTime(g) =>
      if GetTime(m, g) == ZERO_TIME {
        assert r == SetTime(m, g, data.nanos);
        SetTimeOthers(m, g, data.nanos);
      }
  }

  /** Writing one field leaves every other one as it was. */
  lemma SetTextOthers(m: Record, g: TextField, v: string)
    ensures forall f :: f != g ==> GetText(SetText(m, g, v), f) == GetText(m, f)
    ensures forall f :: GetTime(SetText(m, g, v), f) == GetTime(m, f)
  {
  }

  lemma SetTimeOthers(m: Record, g: TimeField, t: int)
    ensures forall f :: GetText(SetTime(m, g, t), f) == GetText(m, f)
    ensures forall f :: f != g ==> GetTime(SetTime(m, g, t), f) == GetTime(m, f)
  {
  }

  lemma SetTextKeepsLists(m: Record, g: TextField, v: string)
    ensures var r := SetText(m, g, v);
            && r.address == m.address && r.bodyCandidates == m.bodyCandidates && r.htmlCandidates == m.htmlCandidates
            && r.bodyPlainText == m.bodyPlainText && r.bodyHtml == m.bodyHtml
  {
  }

  lemma SetTimeKeepsLists(m: Record, g: TimeField, t: int)
    ensures var r := SetTime(m, g, t);
            && r.address == m.address && r.bodyCandidates == m.bodyCandidates && r.htmlCandidates == m.htmlCandidates
            && r.bodyPlainText == m.bodyPlainText && r.bodyHtml == m.bodyHtml
  {
  }

  lemma OtherRoutesKeepFields(cats: Categories, m: Record, route: Route, cls: int, data: Value)
    requires !(route.FirstString? || route.FirstText? || route.FirstTime?)
    requires Apply(cats, m, route, cls, data).Ok?
    ensures var r := Apply(cats, m, route, cls, data).value;
            && (forall f :: GetText(r, f) == GetText(m, f))
            && (forall f :: GetTime(r, f) == GetTime(m, f))
  {
    var r := Apply(cats, m, route, cls, data).value;
    ApplyFrame(cats, m, route, cls, data);
    RestoreKeepsFields(m, r, route);
  }

  /** A Record that the non-field Restore takes back to m agrees with m on
      every text and time field. */
  lemma RestoreKeepsFields(m: Record, r: Record, route: Route)
    requires !(route.FirstString? || route.FirstText? || route.FirstTime?)
    requires Restore(m, r, route) == m
    ensures forall f :: GetText(r, f) == GetText(m, f)
    ensures forall f :: GetTime(r, f) == GetTime(m, f)
  {
    assert r.messageClass == m.messageClass && r.messageId == m.messageId && r.subject == m.subject;
    assert r.fromName == m.fromName && r.toDisplay == m.toDisplay && r.ccDisplay == m.ccDisplay;
    assert r.bccDisplay == m.bccDisplay && r.transportMessageHeaders == m.transportMessageHeaders;
    assert r.date == m.date && r.clientSubmitTime == m.clientSubmitTime;
    assert r.creationDate == m.creationDate && r.lastModificationDate == m.lastModificationDate;
  }

  lemma AddressTouchesOnlyRecipients(m: Record, data: Value)
    ensures var r := ApplyAddress(m, data);
            r == m.(address := r.address, to := r.to, cc := r.cc, bcc := r.bcc)
  {
  }

  lemma CandidateTouchesOnlyLists(cats: Categories, m: Record, html: bool, data: Value)
    ensures var r := ApplyCandidate(cats, m, html, data);
            r == m.(bodyCandidates := r.bodyCandidates, htmlCandidates := r.htmlCandidates)
  {
  }

  /** The data.(string) assertion of a first-wins field is reached only while
      the field is empty: a value of another type panics then, and is
      harmless once the field is set. */
  lemma FirstStringAssertion(cats: Categories, m: Record, p: EntryProperty, f: TextField)
    requires !HasPrefix(p.cls, ATTACHMENT_PREFIX) && RouteOf(ClassOf(p)) == FirstString(f)
    ensures GetText(m, f) != "" ==> Dispatch(cats, m, p) == Ok(m)
    ensures GetText(m, f) == "" ==> (Dispatch(cats, m, p).Panic? <==> !p.data.Str?)
    ensures GetText(m, f) == "" && p.data.Str? ==> GetText(Dispatch(cats, m, p).value, f) == p.data.s
  {
  }

  /** An address that is not valid, or a value that is neither bytes nor a
      string, changes nothing. */
  lemma InvalidAddressIgnored(cats: Categories, m: Record, p: EntryProperty)
    requires !HasPrefix(p.cls, ATTACHMENT_PREFIX) && RouteOf(ClassOf(p)).RecipientAddress?
    requires AsText(p.data).Some? ==> !IsValidEmail(AsText(p.data).value)
    ensures Dispatch(cats, m, p) == Ok(m)
  {
  }

  /** A valid address read as bytes joins Address and, by LastRecipient 0, 1
      or 2, To, CC or BCC followed by "; "; nothing else changes. */
  lemma ByteAddressRouted(cats: Categories, m: Record, p: EntryProperty)
    requires !HasPrefix(p.cls, ATTACHMENT_PREFIX) && RouteOf(ClassOf(p)).RecipientAddress?
    requires p.data.Bytes? && IsValidEmail(BytesToText(p.data.b))
    ensures Dispatch(cats, m, p).Ok?
    ensures var a := BytesToText(p.data.b);
            var r := Dispatch(cats, m, p).value;
            && r.address == m.address + [a]
            && r.to == (if m.lastRecipient == 0 then m.to + a + "; " else m.to)
            && r.cc == (if m.lastRecipient == 1 then m.cc + a + "; " else m.cc)
            && r.bcc == (if m.lastRecipient == 2 then m.bcc + a + "; " else m.bcc)
            && r.(address := m.address, to := m.to, cc := m.cc, bcc := m.bcc) == m
  {
    AddressTouchesOnlyRecipients(m, p.data);
  }

  /** A valid address read as a string joins Address and is in To afterwards,
      appended only when To did not already hold it; CC and BCC are left
      alone whatever LastRecipient says. */
  lemma StringAddressInTo(cats: Categories, m: Record, p: EntryProperty)
    requires !HasPrefix(p.cls, ATTACHMENT_PREFIX) && RouteOf(ClassOf(p)).RecipientAddress?
    requires p.data.Str? && IsValidEmail(p.data.s)
    ensures Dispatch(cats, m, p).Ok?
    ensures var a := p.data.s;
            var r := Dispatch(cats, m, p).value;
            && r.address == m.address + [a]
            && Contains(r.to, a) && HasPrefix(r.to, m.to)
            && (Contains(m.to, a) ==> r.to == m.to)
            && r.cc == m.cc && r.bcc == m.bcc
  {
    var a := p.data.s;
    var r := Dispatch(cats, m, p).value;
    if !Contains(m.to, a) {
      assert r.to == m.to + a + "; ";
      ContainsWithin(m.to, a, "; ");
      assert r.to[..|m.to|] == m.to;
    } else {
      assert r.to[..|m.to|] == m.to;
    }
  }

  /** A body or HTML candidate is appended to its list exactly when the
      validator accepts its text, as the validator returns it; nothing else
      changes. */
  lemma CandidateCollected(cats: Categories, m: Record, p: EntryProperty)
    requires !HasPrefix(p.cls, ATTACHMENT_PREFIX)
    requires RouteOf(ClassOf(p)).BodyText? || RouteOf(ClassOf(p)).BodyHtml?
    ensures Dispatch(cats, m, p).Ok?
    ensures var r := Dispatch(cats, m, p).value;
            var html := RouteOf(ClassOf(p)).BodyHtml?;
            var accepted := if AsText(p.data).Some? then BodyCandidate(cats, AsText(p.data).value, MIN_BODY_BYTES) else None;
            && r.(bodyCandidates := m.bodyCandidates, htmlCandidates := m.htmlCandidates) == m
            && (html ==> r.bodyCandidates == m.bodyCandidates)
            && (!html ==> r.htmlCandidates == m.htmlCandidates)
            && (accepted.None? ==> r == m)
            && (accepted.Some? && html ==> r.htmlCandidates == m.htmlCandidates + [accepted.value])
            && (accepted.Some? && !html ==> r.bodyCandidates == m.bodyCandidates + [accepted.value])
  {
    CandidateTouchesOnlyLists(cats, m, RouteOf(ClassOf(p)).BodyHtml?, p.data);
  }

  /** Attachment-prefixed names, id 0 (also what an unparsable class gives)
      and the documented but unimplemented ids change nothing. */
  lemma IgnoredProperties(cats: Categories, m: Record, p: EntryProperty)
    requires HasPrefix(p.cls, ATTACHMENT_PREFIX) || ClassOf(p) == 0 || RouteOf(ClassOf(p)) == Ignore
    ensures Dispatch(cats, m, p) == Ok(m)
  {
    if !HasPrefix(p.cls, ATTACHMENT_PREFIX) {
      var cls := ClassOf(p);
      var route := RouteOf(cls);
      if route == Ignore {
        assert Apply(cats, m, Ignore, cls, p.data) == Ok(m);
      } else {
        assert cls == 0 && route == Other;
        assert ApplyProperty(m, Other, 0, p.data) == Ok(m);
      }
    }
  }

  /** A property whose class text is empty (a stream name parseEntryName did
      not understand) changes nothing. */
  lemma UnnamedPropertyIgnored(cats: Categories, m: Record, mapi: int, data: Value)
    ensures Dispatch(cats, m, EntryProperty("", mapi, data)) == Ok(m)
  {
    IgnoredProperties(cats, m, EntryProperty("", mapi, data));
  }

  /** Keys are never removed from Properties, and only the property's own id
      may change. */
  lemma PropertyKeysGrow(cats: Categories, m: Record, p: EntryProperty)
    requires Dispatch(cats, m, p).Ok?
    ensures var r := Dispatch(cats, m, p).value;
            && m.properties.Keys <= r.properties.Keys
            && r.properties.Keys <= m.properties.Keys + {ClassOf(p)}
            && forall k :: k in m.properties && k != ClassOf(p) ==> r.properties[k] == m.properties[k]
  {
    var cls := ClassOf(p);
    if !HasPrefix(p.cls, ATTACHMENT_PREFIX) {
      var route := RouteOf(cls);
      ApplyFrame(cats, m, route, cls, p.data);
      if IsPropertyRoute(route) {
        StoresOnlyOwnKey(m, route, cls, p.data);
      }
    }
  }

  lemma StoresOnlyOwnKey(m: Record, route: Route, cls: int, data: Value)
    requires IsPropertyRoute(route) && ApplyProperty(m, route, cls, data).Ok?
    ensures var r := ApplyProperty(m, route, cls, data).value;
            r == m || exists v :: r == Store(m, cls, v)
  {
  }

  /** The first-wins entries of Properties (ids 0x1002, 0x1008, 0x1009,
      0x1014, 0x1015, 0x3f, 0x51, 0x71, 0x300b, 0xff6 and every id of the
      default case) are written only while absent. */
  lemma FirstStoredKept(cats: Categories, m: Record, p: EntryProperty)
    requires !HasPrefix(p.cls, ATTACHMENT_PREFIX)
    requires var route := RouteOf(ClassOf(p));
             route.FirstBytesAsText? || route.FirstFlag? || route.FirstInt32? || route.Other?
    requires ClassOf(p) in m.properties
    ensures Dispatch(cats, m, p) == Ok(m)
  {
  }

  /** The default case files a string under an id not seen before, and
      nothing else. */
  lemma OtherStoresNewStrings(cats: Categories, m: Record, p: EntryProperty)
    requires !HasPrefix(p.cls, ATTACHMENT_PREFIX) && RouteOf(ClassOf(p)).Other?
    ensures var r := Dispatch(cats, m, p).value;
            && Dispatch(cats, m, p).Ok?
            && (r != m ==>
                  ClassOf(p) != 0 && ClassOf(p) !in m.properties && p.data.Str?
                  && r == m.(properties := m.properties[ClassOf(p) := p.data]))
  {
  }

  /** The sender text only grows: whatever it held is still in it. */
  lemma FromEmailKeepsEarlier(cats: Categories, m: Record, p: EntryProperty)
    requires Dispatch(cats, m, p).Ok?
    ensures Contains(Dispatch(cats, m, p).value.fromEmail, m.fromEmail)
  {
    var r := Dispatch(cats, m, p).value;
    if r.fromEmail == m.fromEmail {
      ContainsWithin([], m.fromEmail, []);
      assert [] + m.fromEmail + [] == m.fromEmail;
    } else if m.fromEmail != "" {
      var route := RouteOf(ClassOf(p));
      ApplyFrame(cats, m, route, ClassOf(p), p.data);
      assert route.SenderEmail? || route.RepresentingEmail?;
      assert r.fromEmail == p.data.s + ", " + m.fromEmail;
      ContainsWithin(p.data.s + ", ", m.fromEmail, []);
      assert p.data.s + ", " + m.fromEmail + [] == r.fromEmail;
    } else {
      assert HasPrefix(r.fromEmail, m.fromEmail);
    }
  }

  /** A valid sender address is in FromEmail afterwards. */
  lemma SenderEmailRecorded(cats: Categories, m: Record, p: EntryProperty)
    requires !HasPrefix(p.cls, ATTACHMENT_PREFIX) && RouteOf(ClassOf(p)).SenderEmail?
    requires p.data.Str? && IsValidEmail(p.data.s)
    ensures Dispatch(cats, m, p).Ok?
    ensures Contains(Dispatch(cats, m, p).value.fromEmail, p.data.s)
  {
    var a := p.data.s;
    var r := Dispatch(cats, m, p).value;
    if m.fromEmail == "" {
      ContainsWithin([], a, []);
      assert [] + a + [] == a;
    } else if !Contains(m.fromEmail, a) {
      ContainsWithin([], a, ", " + m.fromEmail);
      assert [] + a + (", " + m.fromEmail) == r.fromEmail;
    }
  }

  /** PR_SENT_REPRESENTING_EMAIL_ADDRESS is prepended even when it is not an
      address: into an empty FromEmail, any non-empty text that is not an
      address leaves that text followed by ", ". */
  lemma RepresentingPrependsInvalid(cats: Categories, m: Record, p: EntryProperty)
    requires !HasPrefix(p.cls, ATTACHMENT_PREFIX) && RouteOf(ClassOf(p)).RepresentingEmail?
    requires p.data.Str? && p.data.s != "" && !IsValidEmail(p.data.s) && m.fromEmail == ""
    ensures Dispatch(cats, m, p) == Ok(m.(fromEmail := p.data.s + ", "))
  {
    if Contains(m.fromEmail, p.data.s) {
      ContainsLength(m.fromEmail, p.data.s);
    }
    assert p.data.s + ", " + m.fromEmail == p.data.s + ", ";
  }

  /** What the dispatcher keeps true of a message: every Address entry is
      valid, and every candidate is one the validator returned. */
  predicate Wellformed(cats: Categories, m: Record) {
    && (forall i :: 0 <= i < |m.address| ==> IsValidEmail(m.address[i]))
    && (forall i :: 0 <= i < |m.bodyCandidates| ==> IsCleanBody(cats, m.bodyCandidates[i]))
    && (forall i :: 0 <= i < |m.htmlCandidates| ==> IsCleanBody(cats, m.htmlCandidates[i]))
  }

  /** What every accepted body is: non-empty, only kept runes, not garbled. */
  predicate IsCleanBody(cats: Categories, c: string) {
    c != [] && (forall k :: 0 <= k < |c| ==> Kept(cats, c[k])) && !TooGarbled(c)
  }

  lemma EmptyWellformed(cats: Categories)
    ensures Wellformed(cats, EMPTY)
  {
  }

  lemma DispatchPreservesWellformed(cats: Categories, m: Record, p: EntryProperty)
    requires Wellformed(cats, m) && Dispatch(cats, m, p).Ok?
    ensures Wellformed(cats, Dispatch(cats, m, p).value)
  {
    if !HasPrefix(p.cls, ATTACHMENT_PREFIX) {
      var cls := ClassOf(p);
      ApplyPreservesWellformed(cats, m, RouteOf(cls), cls, p.data);
    }
  }

  lemma ApplyPreservesWellformed(cats: Categories, m: Record, route: Route, cls: int, data: Value)
    requires Wellformed(cats, m) && Apply(cats, m, route, cls, data).Ok?
    ensures Wellformed(cats, Apply(cats, m, route, cls, data).value)
  {
    if route.BodyText? || route.BodyHtml? {
      assert Apply(cats, m, route, cls, data) == Ok(ApplyCandidate(cats, m, route.BodyHtml?, data));
      CandidateWellformed(cats, m, route.BodyHtml?, data);
    } else if route.RecipientAddress? {
      assert Apply(cats, m, route, cls, data) == Ok(ApplyAddress(m, data));
      AddressWellformed(m, data);
      AddressTouchesOnlyRecipients(m, data);
    } else {
      ListsUntouched(cats, m, route, cls, data);
    }
  }

  /** Routes other than the recipient and body ones leave the address and
      candidate lists as they were. */
  lemma ListsUntouched(cats: Categories, m: Record, route: Route, cls: int, data: Value)
    requires !route.BodyText? && !route.BodyHtml? && !route.RecipientAddress?
    requires Apply(cats, m, route, cls, data).Ok?
    ensures var r := Apply(cats, m, route, cls, data).value;
            r.address == m.address && r.bodyCandidates == m.bodyCandidates && r.htmlCandidates == m.htmlCandidates
  {
    var r := Apply(cats, m, route, cls, data).value;
    ApplyFrame(cats, m, route, cls, data);
    assert Restore(m, r, route) == m;
    match route {
      case FirstString(f) => SetTextKeepsLists(r, f, GetText(m, f));
      case FirstText(f) => SetTextKeepsLists(r, f, GetText(m, f));
      case FirstTime(f) => SetTimeKeepsLists(r, f, GetTime(m, f));
      case _ =>
    }
  }

  /** SetProperties never writes BodyPlainText or BodyHTML: bodies reach
      them only through CalculateFinalBody. */
  lemma DispatchKeepsBodies(cats: Categories, m: Record, p: EntryProperty)
    requires Dispatch(cats, m, p).Ok?
    ensures var r := Dispatch(cats, m, p).value;
            r.bodyPlainText == m.bodyPlainText && r.bodyHtml == m.bodyHtml
  {
    var cls := ClassOf(p);
    if !HasPrefix(p.cls, ATTACHMENT_PREFIX) {
      var route := RouteOf(cls);
      var r := Apply(cats, m, route, cls, p.data).value;
      ApplyFrame(cats, m, route, cls, p.data);
      assert Restore(m, r, route) == m;
      match route {
        case FirstString(f) => SetTextKeepsLists(r, f, GetText(m, f));
        case FirstText(f) => SetTextKeepsLists(r, f, GetText(m, f));
        case FirstTime(f) => SetTimeKeepsLists(r, f, GetTime(m, f));
        case _ =>
      }
    }
  }

  lemma CandidateWellformed(cats: Categories, m: Record, html: bool, data: Value)
    requires Wellformed(cats, m)
    ensures Wellformed(cats, ApplyCandidate(cats, m, html, data))
  {
    var text := AsText(data);
    if text.Some? {
      var accepted := BodyCandidate(cats, text.value, MIN_BODY_BYTES);
      CandidateOutcome(cats, m, html, data, accepted);
      if accepted.Some? {
        AcceptedIsClean(cats, text.value);
        if html {
          AppendClean(cats, m.htmlCandidates, accepted.value);
        } else {
          AppendClean(cats, m.bodyCandidates, accepted.value);
        }
      }
    }
  }

  lemma AcceptedIsClean(cats: Categories, input: string)
    requires BodyCandidate(cats, input, MIN_BODY_BYTES).Some?
    ensures IsCleanBody(cats, BodyCandidate(cats, input, MIN_BODY_BYTES).value)
  {
    AcceptedBody(cats, input, MIN_BODY_BYTES);
  }

  lemma AppendClean(cats: Categories, cs: seq<string>, c: string)
    requires forall i :: 0 <= i < |cs| ==> IsCleanBody(cats, cs[i])
    requires IsCleanBody(cats, c)
    ensures forall i :: 0 <= i < |cs + [c]| ==> IsCleanBody(cats, (cs + [c])[i])
  {
  }

  lemma AddressWellformed(m: Record, data: Value)
    requires forall i :: 0 <= i < |m.address| ==> IsValidEmail(m.address[i])
    ensures var r := ApplyAddress(m, data);
            forall i :: 0 <= i < |r.address| ==> IsValidEmail(r.address[i])
  {
    AddressTouchesOnlyRecipients(m, data);
  }

  // Properties of CalculateFinalBody.

  /** Afterwards both bodies are non-empty, and nothing but the two bodies
      has changed (in particular the candidate lists). */
  lemma FinalizeFillsBodies(m: Record)
    ensures var r := Finalize(m);
            && r.bodyHtml != "" && r.bodyPlainText != ""
            && r == m.(bodyHtml := r.bodyHtml, bodyPlainText := r.bodyPlainText)
  {
  }

  /** With every candidate non-empty: a body with candidates is the first
      longest of them, a body without is copied from the other when it was
      empty, and with neither both read "No content available". */
  lemma FinalizeChoosesLongest(m: Record)
    requires forall i :: 0 <= i < |m.htmlCandidates| ==> m.htmlCandidates[i] != ""
    requires forall i :: 0 <= i < |m.bodyCandidates| ==> m.bodyCandidates[i] != ""
    ensures var r := Finalize(m);
            && (|m.htmlCandidates| > 0 ==> exists i :: IsFirstLongest(m.htmlCandidates, i) && r.bodyHtml == m.htmlCandidates[i])
            && (|m.bodyCandidates| > 0 ==> exists i :: IsFirstLongest(m.bodyCandidates, i) && r.bodyPlainText == m.bodyCandidates[i])
            && (|m.htmlCandidates| == 0 && m.bodyHtml == "" && |m.bodyCandidates| > 0 ==> r.bodyHtml == r.bodyPlainText)
            && (|m.bodyCandidates| == 0 && m.bodyPlainText == "" && |m.htmlCandidates| > 0 ==> r.bodyPlainText == r.bodyHtml)
            && (|m.htmlCandidates| == 0 && |m.bodyCandidates| == 0 && m.bodyHtml == "" && m.bodyPlainText == ""
                ==> r.bodyHtml == NO_CONTENT && r.bodyPlainText == NO_CONTENT)
  {
    if |m.htmlCandidates| > 0 {
      var i := FirstLongestIndex(m.htmlCandidates);
      assert m.htmlCandidates[i] != "";
    }
    if |m.bodyCandidates| > 0 {
      var i := FirstLongestIndex(m.bodyCandidates);
      assert m.bodyCandidates[i] != "";
    }
  }

  /** A second CalculateFinalBody changes nothing. */
  lemma FinalizeIdempotent(m: Record)
    ensures Finalize(Finalize(m)) == Finalize(m)
  {
    var r := Finalize(m);
    FinalizeFillsBodies(m);
    if |m.htmlCandidates| > 0 && |m.bodyCandidates| > 0 {
      assert Finalize(r) == r;
    } else if |m.htmlCandidates| > 0 {
      assert Finalize(r) == r;
    } else if |m.bodyCandidates| > 0 {
      assert Finalize(r) == r;
    } else {
      assert Finalize(r) == r;
    }
  }
}

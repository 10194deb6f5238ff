# outlook-msg-parser, modelled in Dafny

This project models the decoding core of the Go library outlook-msg-parser and proves properties of the model. The library reads an Outlook `.msg` compound file. It walks the file's entries in order. Every entry whose name starts with `__substg1.0_` is a property stream: the name gives a four-character property class and a MAPI type code, and the stream's bytes are decoded by that type. When the stream lies inside a recipient storage, the storage's ordinal first updates `LastRecipient`. `Message.SetProperties` then routes the decoded value by its class. Some classes fill first-wins fields, some accumulate sender addresses, some route recipient addresses to To/CC/BCC, some collect body candidates, and some fill the `Properties` map. At the end, `CalculateFinalBody` picks the bodies.

The model has these modules:

- `Wrappers` holds `Option` and `Outcome`. `Panic` stands for a Go run-time panic. The library never recovers from a panic, so a panic ends the whole parse.
- `ByteOrder`, `FileTime`, `Guid`, `GoText` and `Strconv` give exact definitions of the Go library behaviour the core relies on:
  - little- and big-endian integers and two's complement;
  - FILETIME ticks to Unix time, with Go's int64 wrap-around;
  - the `%08x-%04x-%04x-%04x-%012x` GUID text of section 2.3.4 of [MS-DTYP];
  - the rune view of `string([]byte)` that `range` gives (`BytesToText`), `len` as a UTF-8 byte count, `strings.TrimSpace`, `Contains`, `Split`, `Join` and `Count`;
  - `strconv.ParseInt` and `Atoi`, including the clamped value they return on a range error.
- `Values` models `extractData` and `extractDataFromBytes`. The decoded `interface{}` is a `Value` datatype. Each method that loops over the payload is proved equal to a specification function.
- `EntryName` models `parseEntryName` and the ordinal parse of `processRecipientStream`.
- `Email` models `isValidEmail` as a hand-written recognizer, proved equivalent to the regular expression read as a grammar. It also models `ValidateEmailList`.
- `Body` models `CleanAndAcceptBodyCandidate`, as a method with its loop and a specification function.
- `Message` models the `Message` class and its state:
  - its fields, the `Properties` map, the address list and the two candidate lists;
  - `SetProperties` as a method on the class, proved against the pure `Dispatch` over a `Record` snapshot of the fields;
  - `CalculateFinalBody` and its first-longest loop.
- `Pass` models `processEntries`, `processPropertyStream` and `parseMsgFile` over a sequence of abstract entries (name, path, payload). They mutate one `Message` object.
- `PropertiesStream` models the record scanner `processPropertiesStream`. The library never calls it.

The model keeps these behaviours of the code as written:

- Class 0x65 prepends `data + ", "` even when the address is invalid.
- A string-typed recipient address always goes to To and ignores `LastRecipient`.
- A recipient ordinal of 0, or one that does not parse, keeps `LastRecipient`.
- Ordinals are read by `Atoi` as decimal.
- A type code with a leading sign (`-001`) is accepted by `ParseInt`.
- `ParseInt`'s value is used even when it reports an error. A class that does not parse gives 0. A class of 0x80000000 or more gives 0x7FFFFFFF.
- The body length test looks at the trimmed input, not at the filtered output.
- The time classes assert `time.Time`, but no decoder produces one: PT_SYSTIME yields a formatted string. So a time stream read while its field is still zero ends the parse in a panic (`Pass.CreationTimeStreamPanics`).
- Where the package documentation and the code disagree, the model follows the code:
  - the comment above `CalculateFinalBody` says both bodies stay empty, but the code writes "No content available";
  - bodies are compared by byte length, not by character count;
  - a PT_SYSTIME payload of 1 to 7 bytes panics rather than reading as absent;
  - a type assertion on a mismatched value panics rather than being logged and dropped.

## Model

| member | source | states |
|---|---|---|
| Message.Message.constructor | parsemsg.go:46 | A new Message has every field empty, the zero time in the four dates, LastRecipient 0, and no properties, addresses or candidates. |
| Message.Message.SetProperties | models/message.go:55-654 | The new state is `Dispatch` of the old one: the class parsed as 32-bit hex, attachment-prefixed classes skipped, the route of the class applied. A failed type assertion is a panic that leaves the state unchanged. |
| Message.Message.ApplyRoute | models/message.go:73-654 | Each case of the switch changes the fields exactly as `Apply` says, or panics with the state unchanged. |
| Message.Message.SetFirstString | models/message.go:75-98 | Class, id, subject and last-modifier name are written from a string only while empty. A non-string value in an empty field panics. Also covers lines 115-119. |
| Message.Message.SetFirstText | models/message.go:314-357 | Display names and transport headers are written from bytes or a string only while empty. Any other value changes nothing. Also covers lines 534-545. |
| Message.Message.SetFirstTime | models/message.go:144-166 | The four dates are written only while zero. A value that is not a time panics while its field is still zero. |
| Message.Message.AddFromEmail | models/message.go:99-114 | The sender and sent-representing cases, including the prepend of an address not yet contained. A non-string value panics. |
| Message.Message.CollectCandidate | models/message.go:121-142 | Bytes or a string accepted by the validator are appended to the plain or HTML candidate list. Nothing else changes. |
| Message.Message.AddRecipientAddress | models/message.go:546-590 | The address cases, as `ApplyAddress` of the old state. |
| Message.Message.StoreProperty | models/message.go:168-313 | The `Properties` map cases: always-overwrite, first-wins and the default. Indexing an empty slice or reading a short one panics. Also covers lines 358-533 and 591-653. |
| Message.Message.CalculateFinalBody | models/message.go:742-778 | The new state is `Finalize` of the old one. |
| Message.PickLongest | models/message.go:743-763 | The loop returns the first element of greatest byte length. |
| Message.FirstLongestUnique | models/message.go:743-763 | There is exactly one first-longest index. |
| Message.ApplyFrame | models/message.go:73-654 | Every route changes only the fields it names. Restoring those fields gives back the old state. |
| Message.FirstWinsStable | models/message.go:75-166 | Once a first-wins text or time field is set, no property changes it. Also covers lines 314-357 and 534-545. |
| Message.FirstStringAssertion | models/message.go:75-98 | For a first-wins string field: a set field is left alone. An empty field panics exactly when the value is not a string, and otherwise takes the value. |
| Message.InvalidAddressIgnored | models/message.go:546-590 | An address that is not valid, or a value that is neither bytes nor string, changes nothing. |
| Message.ByteAddressRouted | models/message.go:548-563 | A valid byte address is appended to Address and, with "; ", to To, CC or BCC for LastRecipient 0, 1 or 2. Nothing else changes. |
| Message.StringAddressInTo | models/message.go:564-572 | A valid string address is appended to Address, and to To unless To already contains it. CC and BCC are untouched. |
| Message.CandidateCollected | models/message.go:121-142 | A body id appends the validator's output to its own list exactly when the validator accepts. Nothing else changes. |
| Message.IgnoredProperties | models/message.go:387-510 | Attachment-prefixed names, class 0 and the documented not-implemented ids leave the message unchanged. Also covers lines 67-70, 591-593 and 641-645. |
| Message.UnnamedPropertyIgnored | models/message.go:61-64 | A property whose name did not parse leaves the message unchanged. Also covers lines 641-645. |
| Message.PropertyKeysGrow | models/message.go:168-313 | The `Properties` keys only grow, only by the property's own class, and no other key's value changes. Also covers lines 358-533 and 591-653. |
| Message.StoresOnlyOwnKey | models/message.go:168-313 | A map route either changes nothing or stores one value under its own class. Also covers lines 358-533 and 591-653. |
| Message.FirstStoredKept | models/message.go:192-313 | The first-wins map entries and the default case keep a value already stored. Also covers lines 641-653. |
| Message.OtherStoresNewStrings | models/message.go:641-653 | The default case stores only a string, only under a new non-zero class. |
| Message.FromEmailKeepsEarlier | models/message.go:99-114 | FromEmail only grows: the earlier value stays contained in the new one. |
| Message.SenderEmailRecorded | models/message.go:99-107 | A valid sender address ends up contained in FromEmail. |
| Message.RepresentingPrependsInvalid | models/message.go:108-114 | Class 0x65 on an empty FromEmail stores even an invalid address, followed by ", ". |
| Message.DispatchPreservesWellformed | models/message.go:121-142 | Every dispatched property keeps every address valid and every candidate non-empty and clean. Also covers lines 546-590. |
| Message.DispatchKeepsBodies | models/message.go:55-654 | SetProperties never writes BodyPlainText or BodyHTML. |
| Message.FinalizeFillsBodies | models/message.go:742-778 | Afterwards both bodies are non-empty, and only the two body fields changed. |
| Message.FinalizeChoosesLongest | models/message.go:742-778 | Each body is the first longest candidate of its list. A missing body is copied from the other. With no candidates and no bodies, both are "No content available". |
| Message.FinalizeIdempotent | models/message.go:742-778 | A second call changes nothing. |
| Body.CleanAndAcceptBodyCandidate | models/message.go:657-702 | The loop's output and verdict are those of `BodyCandidate`. A rejection returns "". |
| Body.AcceptedBody | models/message.go:658-701 | An accepted body is the kept runes of the trimmed input, non-empty. The trimmed input was at least minLen bytes and is not an X.500 address. At most two fifths of the kept runes are unusual, and the text is not garbled. |
| Body.BodyDecision | models/message.go:658-701 | The converse: an input is refused exactly when one of the four checks fails, and an input that passes them all is accepted with the kept runes of its trimmed text. |
| Body.UnusualWithinPrintable | models/message.go:670-678 | The unusual count never exceeds the number of kept runes. |
| Body.PrintableIdempotent | models/message.go:670-678 | Filtering already filtered text changes nothing. |
| Body.FewReplacementsTolerated | models/message.go:684-699 | At most two U+FFFD never cause a rejection. |
| Body.GarbledLongText | models/message.go:690-697 | From 500 bytes on, a text is garbled exactly when it holds more than a twentieth of its length in U+FFFD. |
| Body.AcceptedShorterThanMinimum | models/message.go:658-661 | For any character tables in which 'a' and 'b' are ordinary printable letters and BEL is not printable, as in Unicode's, the four-byte input "ab" BEL BEL passes a minimum of 4 bytes and is accepted as the two-byte "ab". Also covers lines 679-701. |
| Email.RecognizerMatchesPattern | models/message.go:704-710 | The recognizer accepts exactly the strings the regular expression describes. |
| Email.RecognizerSound | models/message.go:705 | Every accepted string decomposes as local part, '@', labels and a top-level name. |
| Email.RecognizerComplete | models/message.go:705 | Every string built that way is accepted. |
| Email.ValidEmailChars | models/message.go:705-709 | A valid address holds only ASCII letters, digits and `._%+-@`. |
| Email.ValidateEmailList | models/message.go:713-722 | The loop answers true exactly when every comma-separated piece, trimmed, is a valid address. |
| Email.EmptyListRejected | models/message.go:713-722 | The empty list is rejected. |
| Email.ValidEmailIsPiece | models/message.go:714-716 | A valid address has no comma and is unchanged by trimming. |
| Email.JoinedAddressesAccepted | models/message.go:713-722 | Valid addresses joined with commas are accepted. |
| EntryName.ParseEntryName | parsemsg.go:210-232 | The class is empty or four characters. |
| EntryName.EntryNameRoundTrip | parsemsg.go:210-232 | The prefix, a 4-character class, a 4-digit hexadecimal type and any tail parse back to that class and type. |
| EntryName.NamedEntryShape | parsemsg.go:210-232 | A name that parses has the prefix and at least 20 characters. Its class is characters 12 to 15, and the type is a sign or digit followed by three hexadecimal digits. |
| EntryName.SignedTypeAccepted | parsemsg.go:219-224 | A type written "-001" is accepted and gives -1. |
| EntryName.DecimalOrdinal | parsemsg.go:261-291 | A decimal ordinal replaces LastRecipient unless it is 0. |
| EntryName.NonDecimalOrdinalIgnored | parsemsg.go:285-288 | An ordinal with a non-digit keeps LastRecipient. |
| EntryName.HexOrdinalReadAsDecimal | parsemsg.go:285 | "#00000010" is recipient ten. |
| Values.ExtractData | parsemsg.go:320-580 | The method, with its loops, returns `ExtractDataSpec`. |
| Values.ExtractDataFromBytes | parsemsg.go:582-607 | The method, with its UTF-16 loop, returns `FromBytesSpec`. |
| Values.DecodeArray | parsemsg.go:463-535 | The counted loop decodes `size / width` elements, element i from bytes [i·w, (i+1)·w). Also covers lines 561-570. |
| Values.DecodeUtf16 | parsemsg.go:372-396 | The loop yields `Utf16Text`: one rune per little-endian code unit, with a trailing odd byte ignored. |
| Values.FixedIntegersRoundTrip | parsemsg.go:413-451 | Encoding a 16-, 32- or 64-bit integer and decoding it with either decoder gives it back. Also covers lines 584-591. |
| Values.BooleanDecoding | parsemsg.go:588-589 | PT_BOOLEAN is true exactly when one of the first two bytes is non-zero. |
| Values.UnlistedTypesKeepBytes | parsemsg.go:604-606 | Every type `extractDataFromBytes` does not list keeps the payload unchanged. |
| Values.ShortPayloadZeroExtended | parsemsg.go:418-422 | A short payload is read into a zeroed buffer and keeps its value. |
| Values.SysTimeDecoding | parsemsg.go:402-412 | Eight or more bytes give the Unix time of the first eight. An empty payload gives "". One to seven bytes panic. |
| Values.Utf16Decoding | parsemsg.go:376-395 | Rune k is p[2k] + 256·p[2k+1], with surrogates replaced by U+FFFD. |
| Values.Utf16TextOfToUtf16 | parsemsg.go:376-395 | Writing BMP text as UTF-16LE and decoding it gives it back. |
| Values.MultiValueElement | parsemsg.go:473-482 | For every decoder environment, element i of a PT_MV_LONG array is the signed value of bytes [4i, 4i+4). |
| Values.MultiValueStrings | parsemsg.go:536-555 | k NUL-terminated strings and an unterminated tail decode to exactly those k strings. |
| Values.MvStringsOfTerminated | parsemsg.go:539-540 | Splitting on NUL and dropping the last piece inverts writing NUL-terminated strings. |
| FileTime.UnixMillisExact | parsemsg.go:405-409 | The int64 arithmetic on ticks equals ticks / 10000 − 11644473600000, with no wrap-around. |
| FileTime.EpochIsZero | parsemsg.go:405-411 | Tick 116444736000000000 is the Unix epoch. |
| FileTime.UnixMillisMonotone | parsemsg.go:405-409 | Later ticks never give an earlier time. |
| FileTime.UnixNanosExact | parsemsg.go:411 | `time.Unix(0, ms·10^6)` does not wrap within ±9223372036854 ms. |
| FileTime.LatestFileTimeWraps | parsemsg.go:405-411 | The largest FILETIME wraps when scaled to nanoseconds. |
| Guid.ParseFormatGuid | parsemsg.go:453-457 | The GUID text is well formed and reads back to the 16 bytes. Also covers lines 592-593. |
| Guid.FormatGuidIsGuidText | parsemsg.go:453-457 | The text is 36 hexadecimal characters with dashes at 8, 13, 18 and 23. |
| Guid.GuidShape | parsemsg.go:453-457 | The digits are lower-case. |
| Guid.GuidFields | parsemsg.go:453-457 | Fields one to three are little-endian, field four big-endian, and the last six bytes appear in order. |
| Guid.NilGuid | parsemsg.go:453-457 | Sixteen zero bytes give 00000000-0000-0000-0000-000000000000. |
| ByteOrder.SignedRoundTrip | parsemsg.go:413-451 | Two's complement encoding then decoding is the identity. Also covers lines 584-591. |
| ByteOrder.SignedDecodeEncode | parsemsg.go:413-451 | Decoding then encoding gives the bytes back. Also covers lines 584-591. |
| ByteOrder.LeUintOfLeBytes | parsemsg.go:413-451 | Little-endian encoding then decoding is the identity. |
| GoText.TrimSpaceIdempotent | models/message.go:658 | Trimming twice is trimming once. |
| GoText.BytesToTextOfUtf8Encode | models/message.go:122-123 | `string([]byte)` of UTF-8 text gives the text back. |
| GoText.InvalidLeadByteWidens | models/message.go:658-660 | A byte that cannot start a UTF-8 sequence, one byte in Go's `string(b)`, is U+FFFD in the rune view and counts three bytes toward the body length gate (see Left out). |
| GoText.SplitJoin | parsemsg.go:539-540 | Splitting separator-free pieces joined by the separator gives the pieces back. |
| Strconv.ParseIntOfDigits | parsemsg.go:219 | A digit string whose value is in range parses to that value without error. Also covers models/message.go line 61. |
| Strconv.ParseIntAccepted | parsemsg.go:219-223 | A string ParseInt accepts is an optional sign followed by one or more digits. |
| Strconv.ParseIntOfHexPad | models/message.go:61 | Hexadecimal text written by `%0wx` parses back to its number. |
| Strconv.ParseIntOfLargeHexPad | models/message.go:61-64 | Tags of 0x80000000 or more parse with an error to 0x7FFFFFFF. |
| Pass.ProcessPropertyStream | parsemsg.go:234-253 | The name and payload are decoded, then the recipient ordinal applied, then SetProperties, as `PropertyStep`. |
| Pass.ProcessEntries | parsemsg.go:67-104 | The loop over the entries gives `RunEntries`, and a panic ends it. |
| Pass.ParseMsgFile | parsemsg.go:45-64 | A new Message, the pass, then CalculateFinalBody, as `ParseMsgSpec`. |
| Pass.OnlyPropertyStreamsCount | parsemsg.go:83-100 | Entries without the property-stream prefix do not affect the result. |
| Pass.RunEntriesAppend | parsemsg.go:67-104 | The pass over a + b is the pass over b after the pass over a. |
| Pass.RecipientStepKeeps | parsemsg.go:255-292 | The ordinal step changes only LastRecipient. |
| Pass.RunEntriesWellformed | parsemsg.go:67-104 | After the pass every address is valid and every candidate is non-empty and clean. Also covers models/message.go lines 121-142 and 546-590. |
| Pass.RunEntriesFirstWins | parsemsg.go:67-104 | A first-wins field set before the pass keeps its value through it. Also covers models/message.go lines 75-166 and 314-357. |
| Pass.NoBodyWrittenByPass | parsemsg.go:67-104 | The pass never writes the two body fields. |
| Pass.ParsedMessage | parsemsg.go:45-64 | A parsed message has both bodies non-empty and only valid addresses. Each body is the first longest candidate, or "No content available" when there were none. Also covers models/message.go lines 742-778. |
| Pass.RecipientAddressUsesOwnOrdinal | parsemsg.go:234-292 | A binary address stream inside a recipient storage is routed by that storage's ordinal. Also covers models/message.go lines 546-563. |
| Pass.SecondRecipientInCc | parsemsg.go:234-292 | `__substg1.0_39FE0102` under `__recip_version1.0_#00000001` appends a valid address to CC, not To. Also covers models/message.go lines 546-563. |
| Pass.ZeroOrdinalKeepsLast | parsemsg.go:285-291 | A stream of recipient 0 after recipient 2 leaves LastRecipient at 2. |
| Pass.CreationTimeStreamPanics | parsemsg.go:402-412 | A PT_SYSTIME stream for class 0x3007 panics while the creation date is zero. Also covers models/message.go lines 144-148. |
| PropertiesStream.ProcessPropertiesStream | parsemsg.go:106-174 | The scan loop's new state is `ScanFrom` of the old one. |
| PropertiesStream.ReadRecord | parsemsg.go:119-160 | One turn reads a header and a fixed or length-prefixed value, stops on an overrun, and panics on an unreadable length. |
| PropertiesStream.HandleItem | parsemsg.go:162-172 | A record is decoded, and handed to SetProperties unless its class is "0000". |
| PropertiesStream.NextItemAdvances | parsemsg.go:119-160 | The offset strictly increases, and the value is the slice just before the new offset. |
| PropertiesStream.ScanIsItemsThenApply | parsemsg.go:119-173 | The scan is reading all records, then handling them in order. |
| PropertiesStream.ScannedItemsDecode | parsemsg.go:162-164 | Every record the scan reads decodes without a panic. Also covers lines 582-607. |
| PropertiesStream.ScanItemsOfEncoded | parsemsg.go:119-160 | Records written in the stream's layout are read back in order, and nothing more. |
| PropertiesStream.NextItemOfEncoded | parsemsg.go:119-160 | One written record is read back whatever precedes or follows it. |
| PropertiesStream.ZeroClassIsZeroTag | parsemsg.go:164 | The class is "0000" exactly for tag 0. Also covers line 170. |
| PropertiesStream.HighTagsShareOneKey | parsemsg.go:164 | Every tag of 0x80000000 or more becomes class 0x7FFFFFFF in SetProperties. Also covers models/message.go line 61. |

## Left out

- File and container I/O are not modelled: `os.Open`, `mscfb.New`, `doc.Next` and their errors. The entries are an input sequence. `entry.Read` is the payload bytes, zero-filled where the buffer is longer.
- PT_STRING8 charset detection and transcoding (chardet, charmap, transform) are a parameter `decode8`. `time.Time.String` is a parameter `formatTime`. Both are foreign libraries.
- `unicode.IsPrint`, `unicode.IsLetter` and `unicode.IsDigit` are parameters, because their Unicode tables are foreign. `unicode.IsSpace` is defined exactly.
- The regular-expression engine is not modelled. The one pattern is a hand-written recognizer.
- Float types PT_R4, PT_DOUBLE and PT_APPTIME, and their arrays, keep their raw IEEE bits. Floating-point values are out of scope.
- The float64 ratio test `nonLetter/total > 0.4` is the integer test `nonLetter·5 > total·2`. The two agree for every count a string can hold.
- Logging, the debug flag and `ParseMsgFileWithDebug` are left out. They are side effects only.
- `HandleAttachment`, `processAttachmentStream` and `processSubStorageStream` are left out: they are not called, or are empty. The `Attachments` field is not modelled.
- The `ConvertedBodyHTML` and `Headers` fields are left out, because the core never writes them.
- The model does not distinguish a nil `Properties` map from an empty one.
- Entry names and paths are sliced by character, where Go slices bytes. The two agree on the ASCII names the format uses.
- GoText.BytesToText: Go's `string([]byte)` copies the bytes unchanged; only `range` and `[]rune` read an invalid byte as U+FFFD. Model strings are sequences of Unicode scalar values, so `BytesToText` is the rune view, and an invalid byte becomes U+FFFD, three bytes in `Utf8Len` (`GoText.InvalidLeadByteWidens`). Consequences:
  - The length gate of `Body.BodyCandidate`, reached through `Message.ApplyCandidate`, can accept a byte payload that Go rejects. For example, "abcdefg" followed by two 0xFF bytes is 9 bytes in Go, below the minimum of 10, but 13 bytes in the model. The gate never rejects a payload that Go accepts. The candidate text itself is the same, because Go's loop also ranges over runes.
  - Where Go stores the raw invalid bytes, the model stores U+FFFD. This covers the text that `Message.AsText` gives to `SetFirstText` and `StoreProperty` (the KeepText and FirstBytesAsText routes), the PT_STRING8 value of `Values.FromBytesSpec`, and the PT_MV_STRING8 value of `Values.ExtractDataSpec`.
  - Address validity is unaffected, because the address pattern matches no U+FFFD.
- `processPropertiesStream` is modelled, although the library never calls it.

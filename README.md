# ZwiftMetrics telemetry decoder, modelled in Dafny

ZwiftMetrics captures the UDP datagrams the Zwift game client sends and turns
each payload into a `ZwiftOutgoingUdpDataPacket`. The payload arrives as hex text.
The decoder is hand-written. It reads a narrowed form of the Protocol Buffers
binary wire format, from the Protocol Buffers encoding guide, sections
"Base 128 Varints" and "Message Structure":

- a tag is one byte, `(field << 3) | wiretype`, whose high bit is clear, so
  field numbers run 0 to 15;
- values are base-128 varints, least significant group first;
- at the top level only, wire type 2 is followed by a one-byte length and a
  nested message of varint fields.

This project models that decoder in four layers:

- `Hex` (hex.dfy): the hex text becomes 4-bit groups, and the groups are cut
  into whole bytes. `SplitIntoBytes` keeps the source's loop.
- `Varint` (varint.dfy): `CalculateFieldValue` rebuilds a value from its 7-bit
  groups. It is a loop proved equal to `FieldValue`. `FieldValue` states the
  .NET base-2 `Convert.ToInt64` exactly: the bits are read as an unsigned
  64-bit number, reinterpreted as a long, and 65 bits or more throw.
- `Scanner` (scanner.dfy): the scanners `GetFieldValues` and
  `DecodeNestedObject`. Each is a method with the source's loop and flags,
  proved equal to a tail-recursive run of its state machine (`TopRun`,
  `NestedRun`). `ScannerProperties` (scanner_properties.dfy) proves what those
  runs promise:
  - keys lie in 0..15;
  - the first occurrence of a field wins and the map only grows;
  - a partial trailing field is dropped silently;
  - the length byte is handled as the code handles it;
  - a high-bit byte where a tag is expected leaks into the next value.
- `Packet` (packet.dfy): `DecodeHexString` projects the decoded maps onto
  the packet record. The lookups and checked conversions run in the order the
  C# statement and object initializer evaluate them, and every .NET
  exception becomes a `Result` error.

`WireEncoding` (wire_encoding.dfy) is a reference encoder for the same
narrowed format. The round-trip lemmas tie the decoder to it at every level:
the nested object, the whole message, the hex text and the packet.

Exceptions are values of `Common.Error`, one constructor per exception type
the code can raise:

| constructor | .NET exception |
|---|---|
| `FormatError` | `FormatException` |
| `ArgumentError` | `ArgumentException` |
| `OverflowError` | `OverflowException` |
| `KeyNotFound(key)` | `KeyNotFoundException` |
| `NullReference` | `NullReferenceException` |
| `InvalidCast` | `InvalidCastException` |

The decoder departs from the standard Protocol Buffers wire format. The model
follows the code:

- No wire type is treated specially except 2 at the top level. The fixed
  64-bit and 32-bit wire types (1 and 5) are read as varints, and inside a
  nested object wire type 2 is read as a varint too.
- A tag is one byte, so field numbers above 15 are not supported. A byte with
  the high bit set where a tag is expected is kept as a varint group.
- A payload that ends in the middle of a field does not fail. The partial
  field is dropped. A nested body shorter than its declared length is read
  as the bytes that remain.
- A varint overflows only when its value needs 65 bits or more, not after ten
  bytes. A value in [2^63, 2^64) becomes a negative long.

Other facts about the code that the model keeps:

- Hex text of odd length does not fail. Its last character is still checked,
  but its nibble is dropped.
- The world timestamp (top-level field 3) is not optional. Without it the
  dictionary lookup throws `KeyNotFoundException`.
- Narrowing to a 32-bit property is checked and throws `OverflowException`.

## Model

| member | source | states |
|---|---|---|
| Hex.HexDigitValue | ZwiftMetrics/ZwiftMetricsUI/ZwiftUdpPacketUtils.cs:91 | a character converts iff it is a hex digit of either case; `-` raises ArgumentException, any other bad character FormatException |
| Hex.HexNibbles | ZwiftMetrics/ZwiftMetricsUI/ZwiftUdpPacketUtils.cs:90-92 | succeeds iff every character is a hex digit, then yields one value per character in order; otherwise raises the exception of the first bad character |
| Hex.PackBytes | ZwiftMetrics/ZwiftMetricsUI/ZwiftUdpPacketUtils.cs:94-102 | yields floor(n/2) bytes, byte k made of nibbles 2k (high) and 2k+1 (low) |
| Hex.SplitIntoBytes | ZwiftMetrics/ZwiftMetricsUI/ZwiftUdpPacketUtils.cs:94-102 | the splitting loop returns exactly PackBytes of its input |
| Hex.HexToBytes | ZwiftMetrics/ZwiftMetricsUI/ZwiftUdpPacketUtils.cs:90-102 | the conversion of a hex text succeeds iff every character is a hex digit, then yields floor(n/2) bytes; otherwise it raises FormatException or ArgumentException. HexRoundTrip inverts it |
| Hex.HexDigitRoundTrip | ZwiftMetrics/ZwiftMetricsUI/ZwiftUdpPacketUtils.cs:91 | a hex digit written in either case converts back to its value |
| Hex.HexNibblesOfToHex | ZwiftMetrics/ZwiftMetricsUI/ZwiftUdpPacketUtils.cs:90-92 | converting the hex text of a byte sequence gives its high and low nibbles in order |
| Hex.PackNibbles | ZwiftMetrics/ZwiftMetricsUI/ZwiftUdpPacketUtils.cs:94-102 | packing the nibbles of a byte sequence gives the sequence back |
| Hex.HexRoundTrip | ZwiftMetrics/ZwiftMetricsUI/ZwiftUdpPacketUtils.cs:90-102 | the hex text of any byte sequence, upper or lower case, converts back to that sequence |
| Hex.HexCaseInsensitive | ZwiftMetrics/ZwiftMetricsUI/ZwiftUdpPacketUtils.cs:90-102 | upper-casing the text changes neither the bytes nor the exception raised |
| Hex.HexNibblesCaseInsensitive | ZwiftMetrics/ZwiftMetricsUI/ZwiftUdpPacketUtils.cs:90-92 | upper-casing the text changes neither the per-character values nor the exception of the first bad character |
| Hex.OddLengthDropsLastNibble | ZwiftMetrics/ZwiftMetricsUI/ZwiftUdpPacketUtils.cs:98 | a valid extra trailing character after an even-length text does not change the result |
| Hex.TrailingBadCharacterThrows | ZwiftMetrics/ZwiftMetricsUI/ZwiftUdpPacketUtils.cs:90-92 | a bad trailing character throws even though its nibble would be dropped |
| Varint.AsSigned | ZwiftMetrics/ZwiftMetricsUI/ZwiftUdpPacketUtils.cs:257 | the long is congruent to the 64-bit pattern modulo 2^64 and is negative iff the top bit is set |
| Varint.GroupsValue | ZwiftMetrics/ZwiftMetricsUI/ZwiftUdpPacketUtils.cs:253-257 | the number the reversed, concatenated groups spell in base 2: the first group read is the least significant seven bits. GroupsValueBound and DigitsValue bound and invert it |
| Varint.FieldValue | ZwiftMetrics/ZwiftMetricsUI/ZwiftUdpPacketUtils.cs:257 | succeeds iff the sum of group_k * 128^k is below 2^64, and then equals that sum modulo 2^64; otherwise OverflowException |
| Varint.Reversed | ZwiftMetrics/ZwiftMetricsUI/ZwiftUdpPacketUtils.cs:249 | same length, element k is element n-1-k of the input |
| Varint.CalculateFieldValue | ZwiftMetrics/ZwiftMetricsUI/ZwiftUdpPacketUtils.cs:247-258 | reversing, concatenating and parsing the groups gives exactly FieldValue of the groups |
| Varint.GroupsValueBound | ZwiftMetrics/ZwiftMetricsUI/ZwiftUdpPacketUtils.cs:253-257 | k groups stand for a number below 128^k |
| Varint.AtMostNineGroups | ZwiftMetrics/ZwiftMetricsUI/ZwiftUdpPacketUtils.cs:257 | up to nine groups never overflow and never turn negative |
| Varint.GroupsValueAtLeastTop | ZwiftMetrics/ZwiftMetricsUI/ZwiftUdpPacketUtils.cs:253-257 | the value is at least the last group times its weight |
| Varint.TenthGroupOverflows | ZwiftMetrics/ZwiftMetricsUI/ZwiftUdpPacketUtils.cs:257 | any ten groups whose last is 2 or more raise OverflowException |
| Varint.EncodeVarint | ZwiftMetrics/ZwiftMetricsUI/ZwiftUdpPacketUtils.cs:155-182 | the reference encoding sets the continuation bit on every byte but the last and carries the digits in its low seven bits |
| Varint.DigitsValue | ZwiftMetrics/ZwiftMetricsUI/ZwiftUdpPacketUtils.cs:247-258 | the base-128 digits of a number reassemble to it |
| Varint.VarintRoundTrip | ZwiftMetrics/ZwiftMetricsUI/ZwiftUdpPacketUtils.cs:247-258 | the digits of any 64-bit pattern decode to the long with that pattern |
| Varint.EncodeVarintLength | ZwiftMetrics/ZwiftMetricsUI/ZwiftUdpPacketUtils.cs:155-182 | a number below 128^k is written in at most k bytes |
| Scanner.FieldNumber | ZwiftMetrics/ZwiftMetricsUI/ZwiftUdpPacketUtils.cs:120-121 | the field number of a tag is bits 6..3, so lies in 0..15 |
| Scanner.WireType | ZwiftMetrics/ZwiftMetricsUI/ZwiftUdpPacketUtils.cs:124-125 | the wire type of a tag is bits 2..0, so lies in 0..7 |
| Scanner.AddFirst | ZwiftMetrics/ZwiftMetricsUI/ZwiftUdpPacketUtils.cs:165-167 | insertion guarded by ContainsKey: the key is present afterwards, an existing entry is never replaced, a new key gets the value |
| Scanner.AddFirstKeeps | ZwiftMetrics/ZwiftMetricsUI/ZwiftUdpPacketUtils.cs:224-226 | the guarded insertion leaves every existing entry as it was |
| Scanner.NestedRun | ZwiftMetrics/ZwiftMetricsUI/ZwiftUdpPacketUtils.cs:197-244 | the nested loop as a state machine over the bytes left: it can fail only with OverflowException. The step lemmas below state each branch, and NestedRunGrows and NestedRoundTrip state what it collects |
| Scanner.NestedObject | ZwiftMetrics/ZwiftMetricsUI/ZwiftUdpPacketUtils.cs:188-245 | DecodeNestedObject's result for a byte sequence: the nested machine from the empty map, failing only with OverflowException. NestedRoundTrip inverts it |
| Scanner.DecodeNestedObject | ZwiftMetrics/ZwiftMetricsUI/ZwiftUdpPacketUtils.cs:188-245 | the nested loop returns exactly the run of the nested state machine from the empty map, including its OverflowException |
| Scanner.NestedRunValueEnd | ZwiftMetrics/ZwiftMetricsUI/ZwiftUdpPacketUtils.cs:214-234 | inside a nested object a clear-high-bit byte after a tag ends the varint; its value is stored first-wins and the state resets, or the overflow propagates |
| Scanner.NestedRunContinuation | ZwiftMetrics/ZwiftMetricsUI/ZwiftUdpPacketUtils.cs:235-241 | inside a nested object a set-high-bit byte adds its seven bits to the pending groups and changes nothing else |
| Scanner.TopRun | ZwiftMetrics/ZwiftMetricsUI/ZwiftUdpPacketUtils.cs:113-185 | the top-level loop as a state machine over the bytes left: it can fail only with OverflowException, its own or a nested object's. The step lemmas below state each branch, and TopRunGrows and MessageRoundTrip state what it collects |
| Scanner.TopRunTag | ZwiftMetrics/ZwiftMetricsUI/ZwiftUdpPacketUtils.cs:116-131 | a clear-high-bit byte with no pending tag sets field number, nested flag (wire type 2) and the metadata flag |
| Scanner.TopRunLength | ZwiftMetrics/ZwiftMetricsUI/ZwiftUdpPacketUtils.cs:132-154 | after a wire-type-2 tag the next byte N, whatever its high bit, is a length; min(N, remaining) bytes are decoded as a nested object, stored first-wins, and skipped |
| Scanner.TopRunValueEnd | ZwiftMetrics/ZwiftMetricsUI/ZwiftUdpPacketUtils.cs:155-175 | a clear-high-bit byte after a tag ends the varint; its value is stored first-wins and the state resets, or the overflow propagates |
| Scanner.TopRunContinuation | ZwiftMetrics/ZwiftMetricsUI/ZwiftUdpPacketUtils.cs:176-182 | a set-high-bit byte adds its seven bits to the pending groups and changes nothing else |
| Scanner.FieldValues | ZwiftMetrics/ZwiftMetricsUI/ZwiftUdpPacketUtils.cs:86-186 | GetFieldValues' result for a hex text: it fails only with FormatException, ArgumentException or OverflowException, and a text of hex digits fails only with OverflowException. HexMessageRoundTrip inverts it |
| Scanner.GetFieldValues | ZwiftMetrics/ZwiftMetricsUI/ZwiftUdpPacketUtils.cs:86-186 | returns exactly the run of the top-level machine over the bytes of the hex text, or the hex conversion's exception |
| Scanner.GetFieldValuesFromBytes | ZwiftMetrics/ZwiftMetricsUI/ZwiftUdpPacketUtils.cs:104-186 | the top-level loop, with its skip of i by N, returns exactly the run of the top-level machine |
| ScannerProperties.NestedRunKeys | ZwiftMetrics/ZwiftMetricsUI/ZwiftUdpPacketUtils.cs:200-209 | every key a nested scan adds lies in 0..15 |
| ScannerProperties.TopRunKeys | ZwiftMetrics/ZwiftMetricsUI/ZwiftUdpPacketUtils.cs:116-125 | every key of a top-level scan, and of each nested map it holds, lies in 0..15 |
| ScannerProperties.DecodedKeysInRange | ZwiftMetrics/ZwiftMetricsUI/ZwiftUdpPacketUtils.cs:86-186 | every key GetFieldValues returns, at either level, lies in 0..15 |
| ScannerProperties.NestedRunGrows | ZwiftMetrics/ZwiftMetricsUI/ZwiftUdpPacketUtils.cs:224-226 | a nested scan keeps every entry it starts with, unchanged |
| ScannerProperties.TopRunGrows | ZwiftMetrics/ZwiftMetricsUI/ZwiftUdpPacketUtils.cs:140-142 | a top-level scan keeps every entry it starts with, unchanged |
| ScannerProperties.NestedPartialFieldDropped | ZwiftMetrics/ZwiftMetricsUI/ZwiftUdpPacketUtils.cs:197-244 | a tag followed only by continuation bytes up to the end adds nothing and raises nothing |
| ScannerProperties.TopPartialFieldDropped | ZwiftMetrics/ZwiftMetricsUI/ZwiftUdpPacketUtils.cs:113-185 | the same at the top level, for a tag of any wire type but 2 |
| ScannerProperties.TopLengthDelimited | ZwiftMetrics/ZwiftMetricsUI/ZwiftUdpPacketUtils.cs:132-154 | tag, length and body decode the body as a nested object, store it first-wins and resume right after the body; a nested error propagates |
| ScannerProperties.TopRunAfterTag | ZwiftMetrics/ZwiftMetricsUI/ZwiftUdpPacketUtils.cs:116-131 | a tag byte read from the start state records its field number and whether its wire type is 2, then scanning goes on with the next byte |
| ScannerProperties.TopRunBody | ZwiftMetrics/ZwiftMetricsUI/ZwiftUdpPacketUtils.cs:132-154 | after a wire-type-2 tag, a length byte followed by a body of exactly that length, or a longer length cut off by the end, decodes the body as a nested object, stores it first-wins and resumes after it |
| ScannerProperties.TopTruncatedBody | ZwiftMetrics/ZwiftMetricsUI/ZwiftUdpPacketUtils.cs:137 | a length beyond the end hands the nested scanner only the bytes left and still stores the result |
| ScannerProperties.SingleByteValue | ZwiftMetrics/ZwiftMetricsUI/ZwiftUdpPacketUtils.cs:155-162 | a tag and one value byte below 128 decode to that byte under the tag's field number |
| ScannerProperties.WireTypeTwoOnlyAtTopLevel | ZwiftMetrics/ZwiftMetricsUI/ZwiftUdpPacketUtils.cs:127 | the same two bytes after a wire-type-2 tag are a varint inside a nested object but an empty nested object at the top level |
| ScannerProperties.HighBitBeforeTagLeaks | ZwiftMetrics/ZwiftMetricsUI/ZwiftUdpPacketUtils.cs:176-182 | a high-bit byte where a tag is expected is kept as a group and raises the next value by its seven bits, at both levels |
| WireEncoding.EncodeTag | ZwiftMetrics/ZwiftMetricsUI/ZwiftUdpPacketUtils.cs:116-125 | the tag byte of a field number and wire type has a clear high bit and decodes back to both |
| WireEncoding.NestedVarintScan | ZwiftMetrics/ZwiftMetricsUI/ZwiftUdpPacketUtils.cs:214-241 | scanning an encoded varint after a tag appends its digits to the pending groups and ends the field with their value |
| WireEncoding.TopVarintScan | ZwiftMetrics/ZwiftMetricsUI/ZwiftUdpPacketUtils.cs:155-182 | the same at the top level |
| WireEncoding.NestedFieldScan | ZwiftMetrics/ZwiftMetricsUI/ZwiftUdpPacketUtils.cs:200-234 | one encoded field inside a nested object is stored first-wins as the long with its bit pattern |
| WireEncoding.NestedFieldsScan | ZwiftMetrics/ZwiftMetricsUI/ZwiftUdpPacketUtils.cs:197-242 | a run of encoded fields is collected first-wins, whatever follows |
| WireEncoding.NestedRoundTrip | ZwiftMetrics/ZwiftMetricsUI/ZwiftUdpPacketUtils.cs:188-245 | DecodeNestedObject of an encoded field list is the first value of each field number |
| WireEncoding.TopScalarScan | ZwiftMetrics/ZwiftMetricsUI/ZwiftUdpPacketUtils.cs:116-175 | one encoded varint field at the top level is stored first-wins |
| WireEncoding.TopMessageScan | ZwiftMetrics/ZwiftMetricsUI/ZwiftUdpPacketUtils.cs:132-154 | one encoded sub-message at the top level is stored first-wins as its collected nested map |
| WireEncoding.TopFieldScan | ZwiftMetrics/ZwiftMetricsUI/ZwiftUdpPacketUtils.cs:113-183 | any encoded top-level field is stored first-wins and scanning resumes after it |
| WireEncoding.TopFieldsScan | ZwiftMetrics/ZwiftMetricsUI/ZwiftUdpPacketUtils.cs:113-183 | a run of encoded top-level fields is collected first-wins, whatever follows |
| WireEncoding.MessageRoundTrip | ZwiftMetrics/ZwiftMetricsUI/ZwiftUdpPacketUtils.cs:104-186 | the byte scan of an encoded message is the first value of each field, nested objects included |
| WireEncoding.HexMessageRoundTrip | ZwiftMetrics/ZwiftMetricsUI/ZwiftUdpPacketUtils.cs:86-186 | GetFieldValues of the hex text of an encoded message, in either case, is the same collected map |
| WireEncoding.CollectMessageAppend | ZwiftMetrics/ZwiftMetricsUI/ZwiftUdpPacketUtils.cs:140-142 | collecting a concatenation is collecting the second part into the result of the first |
| WireEncoding.DuplicateFieldIgnored | ZwiftMetrics/ZwiftMetricsUI/ZwiftUdpPacketUtils.cs:165-167 | a field whose number was seen before is consumed and dropped: the result equals that of the message without it |
| WireEncoding.TagAtEndDropped | ZwiftMetrics/ZwiftMetricsUI/ZwiftUdpPacketUtils.cs:113-185 | a tag followed only by continuation bytes up to the end adds nothing to the map and raises nothing |
| WireEncoding.TruncatedTailDropped | ZwiftMetrics/ZwiftMetricsUI/ZwiftUdpPacketUtils.cs:113-185 | a well-formed message followed by a tag and continuation bytes cut off by the end decodes as the message alone |
| Packet.Lookup | ZwiftMetrics/ZwiftMetricsUI/ZwiftUdpPacketUtils.cs:69 | the dictionary indexer succeeds iff the key is present, else KeyNotFoundException for that key |
| Packet.NarrowToInt32 | ZwiftMetrics/ZwiftMetricsUI/ZwiftUdpPacketUtils.cs:76-79 | checked Convert.ToInt32 of a long keeps values in the int range and throws OverflowException outside it |
| Packet.ValueToInt32 | ZwiftMetrics/ZwiftMetricsUI/ZwiftUdpPacketUtils.cs:72-73 | a top-level long in the int range converts to itself; out of range OverflowException; a nested map InvalidCastException |
| Packet.ValueToInt64 | ZwiftMetrics/ZwiftMetricsUI/ZwiftUdpPacketUtils.cs:74 | a top-level long converts to itself; a nested map InvalidCastException |
| Packet.PlayerField | ZwiftMetrics/ZwiftMetricsUI/ZwiftUdpPacketUtils.cs:75-80 | a player-state lookup on a null player state throws NullReferenceException, on a missing key KeyNotFoundException |
| Packet.ToPacket | ZwiftMetrics/ZwiftMetricsUI/ZwiftUdpPacketUtils.cs:68-83 | succeeds iff 1 and 2 hold ints, 3 a long and 7 a nested map whose 3 and 15 are present and 6, 9, 11, 12 fit an int; the packet carries those values; for every way the map can fail (a missing key, a nested map where a long is read, an out-of-range int, a null player state) the exception is the one the statement and initializer order raise first |
| Packet.Decode | ZwiftMetrics/ZwiftMetricsUI/ZwiftUdpPacketUtils.cs:63-84 | DecodeHexString's result for a hex text: a packet iff the decoded map fits the schema; an exception of GetFieldValues propagates unchanged. PacketRoundTrip inverts it |
| Packet.DecodeHexString | ZwiftMetrics/ZwiftMetricsUI/ZwiftUdpPacketUtils.cs:63-84 | returns exactly the projection of GetFieldValues' map, or the first exception raised |
| Packet.PacketProjected | ZwiftMetrics/ZwiftMetricsUI/ZwiftUdpPacketUtils.cs:68-83 | the map a receiver builds for a packet with all of its fields projects back to that packet |
| Packet.TimestampMissingProjected | ZwiftMetrics/ZwiftMetricsUI/ZwiftUdpPacketUtils.cs:69-74 | the map of a packet without field 3 fails at the lookup of key 3, after fields 7, 1 and 2 were read |
| Packet.PacketRoundTrip | ZwiftMetrics/ZwiftMetricsUI/ZwiftUdpPacketUtils.cs:63-84 | every packet, written as fields 1, 2, 3 and 7 with its six player-state fields, decodes from its hex text to itself |
| Packet.MissingTimestampThrows | ZwiftMetrics/ZwiftMetricsUI/ZwiftUdpPacketUtils.cs:74 | every such payload without field 3 throws KeyNotFoundException for key 3 |
| Packet.SamplePayloadWithoutTimestamp | ZwiftMetrics/ZwiftMetricsUI/ZwiftUdpPacketUtils.cs:74 | the payload 1=2, 2=12345, 7={3:1000, 6:30, 9:90, 11:145, 12:220, 15:50} throws KeyNotFoundException for key 3 rather than yielding a packet without a timestamp |

## Left out

- Capture and device discovery, `GetZwiftNetworkAdapter` and `IsNetworkDeviceUsedByZwift` (ZwiftUdpPacketUtils.cs:18-61): pcap I/O, not decoding.
- MainWindow.xaml.cs: the UI, the capture thread and the statistics. This is I/O and concurrency, and it is not part of this model.
- Bit strings: the source holds each byte as a string of '0'/'1' characters and parses substrings of it. The model holds bytes as integers in 0..255 and groups as integers in 0..127. The behaviour is the same, and `int.Parse` of a single '0' or '1' cannot fail.
- `wireType` and `fieldValue` locals are not part of the loop state. `fieldValue` is used only in the pass that computes it (lines 165-166 and 224-225), so the model keeps it as a local of that pass. Its resets at lines 152, 174 and 233 are never read. `wireType` is read only by the wire-type-2 test at line 127, so the model keeps only that test's outcome. Its resets at lines 150, 172 and 231 are never read.
- The in-place `Reverse()` in `CalculateFieldValue`: its list is discarded right after the call, so the model reverses a copy.
- Scanner.GetFieldValues: its byte loop is the separate method `GetFieldValuesFromBytes`. The statements are the same. Only the split into two methods is new.
- Varint.CalculateFieldValue: requires a non-empty group list. Both callers add a group just before calling, so the base-2 parse of an empty string cannot happen.
- Exception messages, stack unwinding and `Convert.ToInt32(c.ToString(), 16)` on surrogate pairs are not modelled: a character is one `char`, and an exception is its type (and key, for KeyNotFoundException).
- WireEncoding: the reference encoder writes only what the decoder reads. Tags are single bytes, sub-messages have bodies under 256 bytes, and there is one level of nesting. Packet.PacketRoundTrip writes every field with wire type 0.

# OPC UA binary encoding, PubSub messages and intrusive queues

A Dafny model of three parts of the PubSub sources, with proofs of what they promise:

* the binary codec of the built-in and structured types (`ua_types_encoding_binary.c`; OPC UA Part 6, section 5.2): encoder
  with buffer exchange, decoder, size oracle, and the software packing of floating-point numbers;
* the UADP NetworkMessage and DataSetMessage codec (`ua_pubsub_networkmessage.c`; OPC UA Part 14, section 7.2.2): encoder,
  decoder, size oracle with offset table, and the two fast paths for buffered messages;
* the tail queues, lists and circular queues of `open62541_queue.h`.

## How it is built

* **Values.** `Types` has an abstract type table and values as trees. A string or array is absent, empty or not empty: three
  different things in memory and on the wire. `HasType` says which trees are images of a type's memory.
* **Specification.** `Wire` says what the encoding of a value is (`Enc`), which values the encoder accepts (`Encodable`) and
  what the size oracle answers (`Size`). `Parse` says what decoding an octet string at a position means (`Dec`). Messages have
  the same in `NetworkMessage` and `NetworkParse`.
* **Programs.** `Encoder.Context`, `Decoder.Reader`, `CalcSize`, `NetworkEncoder`, `NetworkDecoder`, `NetworkCalc`, `FastPath`,
  `Subscriber`, `Ieee754` and the queue modules are imperative: they update a context, a reader, a buffer, a table or links in
  place, loop where the sources loop, and are proved against the specification.
* **Numbers.** `WireFormat` and `NetworkFormat` say the same without the specification's names: kinds, widths, masks, message
  types and limits as numbers, for all values and all sources, written and read. Nothing that encoder and decoder share can
  change on both sides alike without contradicting them. `Returned` and `NetworkReturned` say which decoded values have their
  type and can be encoded again, and `Places` what the offset table records.
* **Results.** The other modules prove what the specification promises, on all inputs.
* **Samples.** `Samples` holds checks of the model, not results: see the section of that name.

## What `Survives` means

The round trip is false for some values the encoder accepts, so it is stated exactly. `Survival.Survives` is evaluated on the
value, the type table, the number of octets that follow and the nesting depth; `RoundTrip` says that decoding gives the value
back if and only if it holds. It excludes: a scalar Variant directly inside a Variant; picoseconds above 9999; inner parts of a
DiagnosticInfo; pre-encoded ExtensionObject bodies, or bodies of another encoding, that the decoder would take for a known type;
nesting above the limit; and arrays that the guard against short messages rejects (line 491: valid arrays of several elements
that encode to under a 32nd of their size in memory, near the end of a message). What comes back is normalised (`Norm`): enumerations
in a Variant are Int32 numbers, and structures in a Variant array are ExtensionObjects.

`NmSurvives` adds: the version has four bits, the publisher id type three, the field encoding two, and the promoted fields
must end where their 16-bit size says.

## Where the sources disagree with themselves

The model follows the code.

* The comments at the two assertions in lines 862 and 1031 of the codec promise more than holds there. What is proved is the
  claim of the comment in lines 102 to 105, as the contract of every entry of the jump table (`Encoder.Context.Jump`).
* The DiagnosticInfo encoder marks inner diagnostic info with bit 5 and does not mark an inner status; the decoder reads an
  inner status at bit 5 and inner info at bit 6. `Survival.DiagAt` says that such values never come back.
* The size oracle uses a type's own id where the encoder writes its binary encoding id. `SizeOracle.SizeExact` and
  `NetworkSizes.NmSizeExact` give the difference, the slack. It depends only on the ExtensionObjects that are written, so the
  message results ask for it of the message (`NetworkSizes.Measured`) and of nothing else in the type table.
* The encoder of a NetworkMessage overwrites the results of some writes (lines 302, 317, 321, 329, 332), so that it can report
  success for a message it did not write completely; see `NetworkEncoder.EncodeNm`, and `NetworkEncoder.LossExact` for the
  messages this can happen to. `NetworkEncoder.TimestampDropped` is one of them: twelve octets, reported as sent in four.
* Loops with an 8-bit counter over 16-bit footer sizes (lines 416 and 729) do not end for sizes above 255 until the buffer or
  the source is exhausted, and then fail.
* The offset table's DataValue entries all refer to the first field (line 1462), and its Variant entries capture arrays as scalars
  (line 1444); `PublisherRefines.FastPathCondition` says exactly which messages this leaves correct.
* Booleans are normalised one by one (line 191) but copied in arrays (line 506), so that a decoded array can hold an octet above 1,
  which no Boolean of `HasType` has. `Returned.BooleanCopied` is an example, and `Returned.DecTyped` says that nothing else
  that is decoded lacks its type.
* An ExtensionObject's length is skipped without a check (line 902). Decoding can therefore end beyond its source, and a message
  cut short can decode, when the content behind the length has nothing to read; FilterOperand is a type like that. Which tables
  allow it is `Framing.OverrunExact`; which prefixes decode is `Prefixes.PrefixExact` and `NetworkPrefixes.NmPrefixExact`.

## Assumptions

* A type table starts with the built-in types, its members' types are in it, and overlayable types have a fixed width that is their
  size in memory (`Types.TableOk`).
* One table serves encoder and decoder. It stands for the program's own table: the generated forwards pass no custom types to
  the decoder (types_generated_encoding_binary.h, line 27). Content of a type that only the encoder knows comes back as a byte
  string; see `Forms.SkipUnknown`.
* A buffer callback answers with a fresh buffer of at least nineteen octets or with a failure other than "buffer full"; all
  other failure codes are one status.
* Sizes in memory are parameters of the type table. Timestamps, ids and status codes are numbers of their width.

## Samples

These pin the wire format down octet by octet for chosen values, and show that the hypotheses of the theorems can be met together.

* `NodeOctets`, `ExpandedOctets`, `NoArrayOctets`, `ArrayOctets`, `StampOctets`: NodeIds of each form, an ExpandedNodeId, arrays
  and the stamps of a DataValue.
* `FullDsmOctets`, `FullFlags`, `FullHeadOctets`, `FullMiddleOctets`: the order of all optional parts of messages and headers.
* `ReadingOctets`, `ReadingSurvives`: all octets of a message with one Int32 field; it survives, whatever follows it.
* `ReadingShapes`, `ReadingMeasured`: such messages meet the hypotheses of both fast paths and of the prefix theorems, over every
  type table.
* `BuiltinsFit`: over the built-in types alone no value has slack and no decode leaves its source.
* `Framing.FilterIsHollow`: a table with one structure without members has a found hollow type.

## Model

| member | source | states |
|---|---|---|
| `Bytes.FromLEInvertsLE` | openPubSub/ua_pubsub/ua_types_encoding_binary.c:214-286 | Reading the little-endian octets of a number gives the number, for every width it fits. |
| `Bytes.LEInvertsFromLE` | openPubSub/ua_pubsub/ua_types_encoding_binary.c:214-286 | Every octet string is the little-endian form of the number it reads as. |
| `Bytes.MarkHas` | openPubSub/ua_pubsub/ua_types_encoding_binary.c:686-733 | Setting one flag bit of a byte sets that bit and changes no other. |
| `Types.Find` | openPubSub/ua_pubsub/ua_types_encoding_binary.c:791-823 | Returns the first table entry whose namespace and binary encoding id both match, and None exactly when there is none. |
| `Faithful.RoundTrip` | openPubSub/ua_pubsub/ua_types_encoding_binary.c:1473-1505 | Main theorem for all types: decoding an encodable value, at any position and with anything following, gives its normalised form and stops at its end exactly when the value survives; otherwise that form is never returned. |
| `Faithful.VariantRoundTrip` | openPubSub/ua_pubsub/ua_types_encoding_binary.c:994-1139 | The same for Variants: scalars, arrays with and without dimensions, and structures wrapped in ExtensionObjects. |
| `Faithful.DataRoundTrip` | openPubSub/ua_pubsub/ua_types_encoding_binary.c:1141-1223 | The same for DataValues; picoseconds above 9999 are the case that is changed. |
| `Faithful.ExtRoundTrip` | openPubSub/ua_pubsub/ua_types_encoding_binary.c:826-951 | The same for ExtensionObjects in all four encodings. |
| `Faithful.ContentRoundTrip` | openPubSub/ua_pubsub/ua_types_encoding_binary.c:954-1081 | A structure wrapped in an ExtensionObject is recovered both by the ExtensionObject decoder and by the Variant decoder that unwraps it. |
| `Faithful.ArrRoundTrip` | openPubSub/ua_pubsub/ua_types_encoding_binary.c:442-524 | Arrays survive exactly when the guard against short messages passes and every element survives; null, empty and non-empty arrays stay distinct. |
| `Faithful.RawAt` | openPubSub/ua_pubsub/ua_types_encoding_binary.c:499-507 | Copying the octets of an overlayable array is the same as decoding its elements one by one. |
| `Faithful.FieldsRoundTrip` | openPubSub/ua_pubsub/ua_types_encoding_binary.c:1321-1573 | Structures survive exactly when all their members do, each with the octets of the later members following it. |
| `Faithful.UnionRoundTrip` | openPubSub/ua_pubsub/ua_types_encoding_binary.c:1438-1659 | Unions survive exactly when the nesting limit allows them and their selected member survives. |
| `Survival.NodeAt` | openPubSub/ua_pubsub/ua_types_encoding_binary.c:572-684 | Every NodeId form is decoded to the same NodeId, whatever the two flag bits of the first byte. |
| `Survival.DiagAt` | openPubSub/ua_pubsub/ua_types_encoding_binary.c:1226-1316 | A DiagnosticInfo without inner status and inner info comes back; with either of them it never does, since encoder and decoder use different mask bits. |
| `Survival.StampsAt` | openPubSub/ua_pubsub/ua_types_encoding_binary.c:1156-1220 | Status, timestamps and picoseconds come back exactly when no picoseconds exceed 9999. |
| `Nesting.DepthExact` | openPubSub/ua_pubsub/ua_types_encoding_binary.c:1084-1108 | Whether a value survives at one nesting depth is decided by whether it survives at another and by its number of counted levels, and by nothing else. |
| `Nesting.LimitExact` | openPubSub/ua_pubsub/ua_types_encoding_binary.c:1540-1573 | A value that survives at depth zero survives at depth d exactly when its counted levels still fit under the limit. |
| `Nesting.TooDeepNeverReturned` | openPubSub/ua_pubsub/ua_types_encoding_binary.c:41 | A value with more than 101 counted levels is never returned by the decoder. |
| `Forms.NodeRoundTrip` | openPubSub/ua_pubsub/ua_types_encoding_binary.c:572-684 | All NodeId forms round-trip, followed by anything, with either flag bit. |
| `Forms.ExpandedRoundTrip` | openPubSub/ua_pubsub/ua_types_encoding_binary.c:686-733 | An ExpandedNodeId comes back with its uri and server index; a uri sets the namespace index to zero. |
| `Forms.ShortestForm` | openPubSub/ua_pubsub/ua_types_encoding_binary.c:572-624 | Whatever octets decode to a NodeId are at least as long as the ones the encoder writes for it. |
| `Forms.SkipUnknown` | openPubSub/ua_pubsub/ua_types_encoding_binary.c:870-908 | A decoder that does not know the type takes the content as a byte string and ends at the same position exactly when the size oracle was exact for the content. |
| `SizeOracle.SizeExact` | openPubSub/ua_pubsub/ua_types_encoding_binary.c:1726-1978 | The oracle's answer is the encoded length plus the slack: one width gap per ExtensionObject written, the difference between the type's own id and the id that is written. |
| `SizeOracle.GapIsClass` | openPubSub/ua_pubsub/ua_types_encoding_binary.c:855-866 | The gap is zero exactly when both ids have the same NodeId width class. |
| `SizeOracle.OracleExact` | openPubSub/ua_pubsub/ua_types_encoding_binary.c:2018-2022 | The oracle is exact precisely for the encodable values whose slack is zero, whatever else the type table holds. |
| `CalcSize.Calc` | openPubSub/ua_pubsub/ua_types_encoding_binary.c:1985-2022 | The jump table of size functions computes the specification of the size oracle. |
| `CalcSize.CalcVariant` | openPubSub/ua_pubsub/ua_types_encoding_binary.c:1830-1855 | The accumulated size of a Variant is the specified one, wrapped arrays and ids of every kind included. |
| `CalcSize.CalcArray` | openPubSub/ua_pubsub/ua_types_encoding_binary.c:1726-1739 | The loop over the elements sums their sizes; overlayable arrays use the memory size. |
| `CalcSize.CalcStruct` | openPubSub/ua_pubsub/ua_types_encoding_binary.c:1893-1921 | The loop over the members sums their sizes. |
| `Framing.DecKept` | openPubSub/ua_pubsub/ua_types_encoding_binary.c:1661-1693 | What a decoder gives for a source it gives for every extension of the source, value and end, also when it ends beyond the source. |
| `Framing.DecReads` | openPubSub/ua_pubsub/ua_types_encoding_binary.c:1539-1573 | A hollow type, a structure whose members are all hollow, is decoded at every position without reading anything; any other type reads at least one octet of the source or fails. |
| `Framing.DecInside` | openPubSub/ua_pubsub/ua_types_encoding_binary.c:1661-1693 | A decode that reads anything ends at most four octets beyond the source, and inside it when no type that the lookup finds is hollow at this depth. |
| `Framing.PastTheEnd` | openPubSub/ua_pubsub/ua_types_encoding_binary.c:901-907 | For every hollow type that the lookup finds, an ExtensionObject that ends after its encoding byte, at the end of any source, decodes to four octets beyond the source. |
| `Framing.OverrunExact` | openPubSub/ua_pubsub/ua_types_encoding_binary.c:898-908 | Some decode that starts inside its source ends beyond it exactly when some type that the lookup finds is hollow, at every nesting depth. |
| `Framing.Extend` | openPubSub/ua_pubsub/ua_types_encoding_binary.c:1695-1718 | Appending octets to the source of any successful decode changes neither value nor end. |
| `Prefixes.CutAt` | openPubSub/ua_pubsub/ua_types_encoding_binary.c:1661-1693 | For all types: octets that hold the encoding of a surviving value as far as they go decode, to its normalised form and to the end of the whole encoding, exactly when the length guards of arrays hold for what there is and nothing is missing but a skipped length field at the end; otherwise decoding fails. |
| `Prefixes.PrefixExact` | openPubSub/ua_pubsub/ua_types_encoding_binary.c:1695-1718 | A strict prefix of a surviving encoding decodes exactly when the encoding ends in a skipped length field, only octets of that field are cut, and the guards still hold. |
| `Prefixes.NoStrictPrefix` | openPubSub/ua_pubsub/ua_types_encoding_binary.c:1695-1718 | No strict prefix of a surviving encoding decodes when the value does not end in such a field, and none at all over a table without found hollow types. |
| `Prefixes.HollowEnd` | openPubSub/ua_pubsub/ua_types_encoding_binary.c:898-908 | Content leaves no octet behind its length field exactly when its type is hollow. |
| `WireFormat.Digits` | openPubSub/ua_pubsub/ua_types_encoding_binary.c:214-286 | Octet i of a number is its i-th digit to the base 256, from the least significant on. |
| `WireFormat.FlagRead` | openPubSub/ua_pubsub/ua_types_encoding_binary.c:720-728 | Testing bit k of a flag byte is testing whether its quotient by 1, 2, 4, up to 128 is odd. |
| `WireFormat.TableExact` | openPubSub/ua_pubsub/ua_types_encoding_binary.c:442-466 | Which type tables there are, with all kinds and widths as numbers. |
| `WireFormat.TypedKinds` | openPubSub/ua_pubsub/ua_types_encoding_binary.c:1473-1505 | Which trees are values of which kind, as an equivalence for every kind of the jump table by number, with the bound of every numeric kind written out: below 2, 2^8, 2^16, 2^32 or 2^64. |
| `WireFormat.TypedParts` | openPubSub/ua_pubsub/ua_types_encoding_binary.c:1321-1354 | Arrays hold values of one type, and structures one value or array for each member, of its type. |
| `WireFormat.FixedFormat` | openPubSub/ua_pubsub/ua_types_encoding_binary.c:180-300 | Kinds 0 to 2 are written, counted and read in one octet, 3 and 4 in two, 5, 6, 9, 18 and 26 in four, 7, 8, 10 and 12 in eight; reading fails with fewer octets left. |
| `WireFormat.NodeFormat` | openPubSub/ua_pubsub/ua_types_encoding_binary.c:572-624 | The octets of every NodeId with either flag: form 0, 1 or 2 by the ranges of identifier and namespace, 3 to 5 for the others. |
| `WireFormat.ExpandedFormat` | openPubSub/ua_pubsub/ua_types_encoding_binary.c:686-712 | A uri that is missing or empty is not sent and a server index of zero neither. |
| `WireFormat.LocalizedFormat` | openPubSub/ua_pubsub/ua_types_encoding_binary.c:751-774 | Locale has the weight 1 and text 2. |
| `WireFormat.DiagFormat` | openPubSub/ua_pubsub/ua_types_encoding_binary.c:1226-1268 | The mask is the sum of the weights of what is present, in the order of the fields up to 32 for the inner info; an inner status has none. |
| `WireFormat.DataFormat` | openPubSub/ua_pubsub/ua_types_encoding_binary.c:1141-1174 | The same for the six parts of a DataValue, whose source picoseconds come before the server time. |
| `WireFormat.NameFormat` | openPubSub/ua_pubsub/ua_types_encoding_binary.c:539-549 | Guids part by part; namespaces of two octets and selectors of four. |
| `WireFormat.ExtFormat` | openPubSub/ua_pubsub/ua_types_encoding_binary.c:826-882 | Encoding byte 0 without body, 1 for octets and for content, 2 for XML; content has the binary encoding id and the oracle's length in front. |
| `WireFormat.VariantFormat` | openPubSub/ua_pubsub/ua_types_encoding_binary.c:994-1039 | The encoding byte is the kind plus one, 6 for enumerations, 22 for all other types that are not built in, 128 more for arrays and 64 for dimensions. |
| `WireFormat.PlainFormat` | openPubSub/ua_pubsub/ua_types_encoding_binary.c:442-466 | A missing array has the length 0xFFFFFFFF, any other the number of its elements. |
| `WireFormat.WrappedFormat` | openPubSub/ua_pubsub/ua_types_encoding_binary.c:954-991 | A Variant array of structures is its length, zero when it is missing, and each element in its place in an ExtensionObject. |
| `WireFormat.ElemsFormat` | openPubSub/ua_pubsub/ua_types_encoding_binary.c:428-440 | Every element stands behind exactly the elements before it. |
| `WireFormat.FieldsFormat` | openPubSub/ua_pubsub/ua_types_encoding_binary.c:1321-1354 | Every member stands behind exactly the members before it. |
| `WireFormat.StrRead` | openPubSub/ua_pubsub/ua_types_encoding_binary.c:468-537 | Lengths from 2^31 on read as an absent string; all others need that many octets. |
| `WireFormat.NodeRead` | openPubSub/ua_pubsub/ua_types_encoding_binary.c:630-684 | All six forms are read whether or not the encoder would have chosen them, and no other. |
| `WireFormat.LocalizedRead` | openPubSub/ua_pubsub/ua_types_encoding_binary.c:776-789 | The two flags that are read, whatever the other bits are. |
| `WireFormat.DiagRead` | openPubSub/ua_pubsub/ua_types_encoding_binary.c:1270-1316 | The weights that are read: inner status at 32 and inner info at 64, the latter above the limit of 100 refused. |
| `WireFormat.StampsRead` | openPubSub/ua_pubsub/ua_types_encoding_binary.c:1191-1220 | The weights that are read, and picoseconds above 9999 as 9999. |
| `WireFormat.VariantRead` | openPubSub/ua_pubsub/ua_types_encoding_binary.c:1084-1139 | Which first octets are refused, and what is read after each of the others, at every depth. |
| `WireFormat.ArrRead` | openPubSub/ua_pubsub/ua_types_encoding_binary.c:468-524 | Lengths from 2^31 on, zero, and the guard: more than 32 octets of memory for each octet left are refused. |
| `WireFormat.DimsRead` | openPubSub/ua_pubsub/ua_types_encoding_binary.c:1131-1135 | Dimensions are a length and that many 32-bit numbers; a length from 2^31 on reads as none. |
| `WireFormat.ExtRead` | openPubSub/ua_pubsub/ua_types_encoding_binary.c:884-951 | What follows each encoding byte, with known and unknown ids; four octets of length are skipped in front of known content. |
| `WireFormat.NestedRead` | openPubSub/ua_pubsub/ua_types_encoding_binary.c:1539-1659 | DataValues, structures and unions above depth 100 are refused; selectors as numbers; kinds 25, 28 and 30 are not decoded. |
| `WireFormat.RefusedSizes` | openPubSub/ua_pubsub/ua_types_encoding_binary.c:1750-1828 | For an identifier type outside the enumeration, missing content, a type without numeric id and Decimal the oracle answers zero. |
| `WireFormat.LeafEncodable` | openPubSub/ua_pubsub/ua_types_encoding_binary.c:530-789 | Leaf values are refused exactly for strings of 2^31 octets or more, or for an identifier type outside the enumeration; Decimal always. |
| `WireFormat.ExtEncodable` | openPubSub/ua_pubsub/ua_types_encoding_binary.c:826-882 | ExtensionObjects are refused exactly for their id, body or content, or when the content is missing. |
| `WireFormat.VariantEncodable` | openPubSub/ua_pubsub/ua_types_encoding_binary.c:994-1039 | Variants are refused exactly for their content or for 2^31 dimensions. |
| `WireFormat.ArraysEncodable` | openPubSub/ua_pubsub/ua_types_encoding_binary.c:428-466 | Arrays are refused exactly for an element or for 2^31 of them. |
| `WireFormat.NestedEncodable` | openPubSub/ua_pubsub/ua_types_encoding_binary.c:1321-1461 | Structures and unions are refused exactly above depth 100 or for a member. |
| `Returned.DecTyped` | openPubSub/ua_pubsub/ua_types_encoding_binary.c:1661-1693 | What any source decodes to has the type that was asked for, exactly when no copied Boolean in it is above 1. |
| `Returned.BooleanCopied` | openPubSub/ua_pubsub/ua_types_encoding_binary.c:499-507 | Copying an array of Booleans does not normalise them: the octet 2 is returned as such. |
| `Returned.NodeSendable` | openPubSub/ua_pubsub/ua_types_encoding_binary.c:572-684 | Every NodeId that is decoded can be encoded. |
| `Returned.DecSendable` | openPubSub/ua_pubsub/ua_types_encoding_binary.c:1473-1693 | Every typed value that is decoded can be encoded, at that depth or above, exactly when all content of ExtensionObjects has a numeric type id and a size below 2^31. |
| `Encoder.Context.Exchange` | openPubSub/ua_pubsub/ua_types_encoding_binary.c:89-95 | Hands the filled part of the buffer over as a chunk and continues in the replacement, or leaves everything as it was. |
| `Encoder.Context.WithExchange` | openPubSub/ua_pubsub/ua_types_encoding_binary.c:97-119 | One retry suffices: the step never reports a full buffer, produces exactly the value's octets on success, and fails only for values that cannot be encoded or when an exchange fails. |
| `Encoder.Context.PutOverlayable` | openPubSub/ua_pubsub/ua_types_encoding_binary.c:408-426 | The copy loop over several buffers hands over exactly the given octets, whatever the buffers' sizes. |
| `Encoder.Context.EncodeArr` | openPubSub/ua_pubsub/ua_types_encoding_binary.c:442-466 | Arrays and strings never report a full buffer; what is produced is the array's encoding. |
| `Encoder.Context.EncodeElems` | openPubSub/ua_pubsub/ua_types_encoding_binary.c:428-440 | The element loop produces the concatenation of the elements' encodings, and fails when one of them cannot be encoded. |
| `Encoder.Context.EncodeNode` | openPubSub/ua_pubsub/ua_types_encoding_binary.c:572-628 | A full buffer is reported only when at most nineteen octets did not fit and before any exchange; numeric and Guid ids are written into the current buffer or not at all. |
| `Encoder.NineteenNeeded` | openPubSub/ua_pubsub/ua_types_encoding_binary.c:572-628 | No buffer with room for fewer than nineteen octets ever takes a Guid NodeId. |
| `Encoder.Context.EncodeExpanded` | openPubSub/ua_pubsub/ua_types_encoding_binary.c:686-712 | NodeId with flag bits, then uri and server index; a full buffer is reported only for the NodeId. |
| `Encoder.Context.EncodeLocalized` | openPubSub/ua_pubsub/ua_types_encoding_binary.c:754-774 | Mask and present strings; succeeds only when both strings can be encoded. |
| `Encoder.Context.EncodeExt` | openPubSub/ua_pubsub/ua_types_encoding_binary.c:826-882 | All four ExtensionObject encodings; retry is asked for only before an exchange. |
| `Encoder.Context.EncodeDecoded` | openPubSub/ua_pubsub/ua_types_encoding_binary.c:826-880 | Binary encoding id, encoding byte and the oracle's length, then the content with exchange; an id that does not fit ends the attempt, and types with a non-numeric id are refused. |
| `Encoder.Context.EncodeVariant` | openPubSub/ua_pubsub/ua_types_encoding_binary.c:994-1039 | Encoding byte, content and dimensions; enumerations and structures as the wire requires. |
| `Encoder.Context.EncodeWrapped` | openPubSub/ua_pubsub/ua_types_encoding_binary.c:954-991 | Each element of a structure array is written in its own ExtensionObject. |
| `Encoder.Context.EncodeData` | openPubSub/ua_pubsub/ua_types_encoding_binary.c:1141-1174 | Mask, value if any, then status, timestamps and picoseconds; a full buffer is reported only for the mask and the Variant's first octets. |
| `Encoder.Context.EncodeDiag` | openPubSub/ua_pubsub/ua_types_encoding_binary.c:1226-1268 | Mask and numbers, then the parts that may be split; a full buffer is reported only for the former. |
| `Encoder.Context.EncodeStruct` | openPubSub/ua_pubsub/ua_types_encoding_binary.c:1321-1354 | Members in order at one more nesting level; the nesting limit is checked first; the depth is restored. |
| `Encoder.Context.EncodeUnion` | openPubSub/ua_pubsub/ua_types_encoding_binary.c:1438-1461 | Selector and selected member at one more nesting level. |
| `Encoder.Context.Jump` | openPubSub/ua_pubsub/ua_types_encoding_binary.c:1473-1505 | Retry safety for every entry of the jump table: a full buffer is reported only before any exchange, and only when the first nineteen octets did not fit. |
| `Encoder.Context.EncodeBinary` | openPubSub/ua_pubsub/ua_types_encoding_binary.c:1507-1531 | The entry point never reports a full buffer to its caller. |
| `Encoder.EncodeInChunks` | openPubSub/ua_pubsub/ua_types_encoding_binary.c:84-119 | Chunk transparency: with replacement buffers of at least nineteen octets, the chunks handed over and the last buffer together are the one-shot encoding; encodable values succeed whenever every exchange does, and only they succeed. |
| `Decoder.Reader.DecodeVariant` | openPubSub/ua_pubsub/ua_types_encoding_binary.c:1084-1139 | Succeeds exactly when decoding is defined, with its value and end; reads stay inside the source and the nesting depth is restored. |
| `Decoder.Reader.DecodeUnwrap` | openPubSub/ua_pubsub/ua_types_encoding_binary.c:1041-1081 | Reads a known content directly and falls back to the ExtensionObject, from the start, otherwise. |
| `Decoder.Reader.DecodeData` | openPubSub/ua_pubsub/ua_types_encoding_binary.c:1178-1223 | Succeeds exactly when all parts can be decoded; picoseconds are clipped. |
| `Decoder.Reader.DecodeArr` | openPubSub/ua_pubsub/ua_types_encoding_binary.c:468-524 | The guard, then the copy or the element loop; agrees with the specification of arrays. |
| `Decoder.Reader.DecodeStruct` | openPubSub/ua_pubsub/ua_types_encoding_binary.c:1539-1573 | The member loop decodes exactly the specified members, one level deeper, and restores the depth. |
| `Decoder.Reader.DecodeUnion` | openPubSub/ua_pubsub/ua_types_encoding_binary.c:1634-1659 | Selector zero is an empty union, an unknown selector fails. |
| `Decoder.Reader.DecodeDiag` | openPubSub/ua_pubsub/ua_types_encoding_binary.c:1270-1316 | Terminates on every input: the recursion is bounded by the nesting limit. |
| `Decoder.Reader.Decode` | openPubSub/ua_pubsub/ua_types_encoding_binary.c:1661-1693 | Total and bounded for every type and every octet string. |
| `Decoder.DecodeBinary` | openPubSub/ua_pubsub/ua_types_encoding_binary.c:1695-1718 | The offset moves to the end of the value on success and stays otherwise. |
| `NetworkFaithful.NmRoundTrip` | openPubSub/ua_pubsub/ua_pubsub_networkmessage.c:434-745 | Decoding an encodable NetworkMessage, at any position and with anything following, gives the canonical message and stops at its end exactly when the message survives; otherwise that message is never returned. |
| `NetworkFaithful.DsmRoundTrip` | openPubSub/ua_pubsub/ua_pubsub_networkmessage.c:1242-1387 | The same for DataSetMessages: key frames, delta frames and keep-alives. |
| `NetworkFaithful.FrameRoundTrip` | openPubSub/ua_pubsub/ua_pubsub_networkmessage.c:1309-1387 | The same for their fields, as Variants (reduced to a value) and as DataValues. |
| `NetworkFaithful.HeadAt` | openPubSub/ua_pubsub/ua_pubsub_networkmessage.c:491-590 | Flags, publisher id, class id, group header and payload header come back for versions below sixteen and publisher id types below eight. |
| `NetworkFaithful.PromotedRoundTrip` | openPubSub/ua_pubsub/ua_pubsub_networkmessage.c:607-640 | Promoted fields survive exactly when every field but the last ends before the announced size and the last reaches it. |
| `NetworkParse.PromotedCount` | openPubSub/ua_pubsub/ua_pubsub_networkmessage.c:619-638 | At most as many promoted fields are read as octets were announced, so that the 16-bit count does not wrap around. |
| `NetworkSizes.NmSizeExact` | openPubSub/ua_pubsub/ua_pubsub_networkmessage.c:768-940 | The size oracle gives the length of every encodable message plus its slack, so it is exact precisely when the slack is zero. |
| `NetworkSizes.DsmSizeExact` | openPubSub/ua_pubsub/ua_pubsub_networkmessage.c:1389-1488 | The same for DataSetMessages. |
| `NetworkSizes.LayoutTight` | openPubSub/ua_pubsub/ua_pubsub_networkmessage.c:768-940 | The oracle is exact for every part of the message by itself exactly when the message is measured: the slack is zero for each key-frame field, each other frame and the promoted fields. |
| `NetworkSizes.PlainSlack` | openPubSub/ua_pubsub/ua_types_encoding_binary.c:1830-1855 | Variants in which no ExtensionObject is written have no slack, over any type table. |
| `NetworkSizes.AgreeMeasured` | openPubSub/ua_pubsub/ua_types_encoding_binary.c:855-866 | Over a table in which every type's two ids have the same width class, every message is measured. |
| `NetworkSizes.PromotedExact` | openPubSub/ua_pubsub/ua_pubsub_networkmessage.c:323-333 | Promoted fields come back exactly when each of them does and the 16-bit size, slack included, still reaches into the last one and not beyond it. |
| `NetworkSizes.PromotedBelowLimit` | openPubSub/ua_pubsub/ua_pubsub_networkmessage.c:323-333 | Promoted fields without slack and below 65536 octets in all survive whenever each of them does. |
| `NetworkSizes.SentSizeRight` | openPubSub/ua_pubsub/ua_pubsub_networkmessage.c:388-403 | The size sent is the message's length exactly when the caller supplies it, or when the message is below 65536 octets and its slack is a multiple of 65536. |
| `NetworkSizes.SentAreLengths` | openPubSub/ua_pubsub/ua_pubsub_networkmessage.c:384-404 | The sizes array holds the lengths of the messages exactly when that is so for each of them. |
| `NetworkSizes.Partition` | openPubSub/ua_pubsub/ua_pubsub_networkmessage.c:384-411 | Then the sizes sum to the payload's length, and the sum of the first i is where message i starts. |
| `NetworkSizes.SeekMessage` | openPubSub/ua_pubsub/ua_pubsub_networkmessage.c:698-717 | A reader of the sizes can decode any message alone, at the position and up to the end that the sizes give. |
| `Layout.LayoutOctets` | openPubSub/ua_pubsub/ua_pubsub_networkmessage.c:768-940 | The parts recorded in the offset table and the parts between them make up the encoding, and their sizes the oracle's answer. |
| `NetworkCalc.CalcNm` | openPubSub/ua_pubsub/ua_pubsub_networkmessage.c:768-940 | Computes the size, records exactly the entries of the message's layout at their positions, and computes the same size with or without a table. |
| `NetworkCalc.CalcDsm` | openPubSub/ua_pubsub/ua_pubsub_networkmessage.c:1389-1488 | The size added to the current offset, and the entries of one DataSetMessage. |
| `NetworkCalc.CalcFields` | openPubSub/ua_pubsub/ua_pubsub_networkmessage.c:1433-1465 | One entry per key-frame field, at the field's position. |
| `NetworkCalc.CalcGroup` | openPubSub/ua_pubsub/ua_pubsub_networkmessage.c:814-851 | Entries for the writer group id (subscribers only) and the sequence number. |
| `NetworkCalc.OffsetBuffer.Record` | openPubSub/ua_pubsub/ua_pubsub_networkmessage.c:757-766 | Appends one entry to the table. |
| `NetworkEncoder.EncodeNm` | openPubSub/ua_pubsub/ua_pubsub_networkmessage.c:151-432 | A message whose promoted fields can be encoded is written as a whole exactly when all of it can be encoded and fits; without promoted fields success is characterised exactly, by what is written when timestamps or an empty id count do not fit. |
| `NetworkEncoder.LossExact` | openPubSub/ua_pubsub/ua_pubsub_networkmessage.c:301-333 | Without promoted fields, success implies in every room that the whole message was written, exactly when no timestamp, picoseconds or empty id count is followed by fewer octets than it has itself. |
| `NetworkEncoder.LossPossible` | openPubSub/ua_pubsub/ua_pubsub_networkmessage.c:301-333 | For every other message there is a room in which the encoder reports success and has left something out. |
| `NetworkEncoder.TimestampDropped` | openPubSub/ua_pubsub/ua_pubsub_networkmessage.c:315-321 | Success does not mean that the message fits: a message of twelve octets is reported as sent in four, without its timestamp. |
| `NetworkEncoder.EncodeDsm` | openPubSub/ua_pubsub/ua_pubsub_networkmessage.c:1242-1307 | Succeeds exactly when the DataSetMessage can be encoded and fits, and then wrote its encoding. |
| `NetworkEncoder.EncodeFrame` | openPubSub/ua_pubsub/ua_pubsub_networkmessage.c:1249-1306 | Raw data and unknown message types are refused. |
| `NetworkEncoder.EncodeDsmHeader` | openPubSub/ua_pubsub/ua_pubsub_networkmessage.c:1026-1115 | The header's flags and optional fields, in order. |
| `NetworkEncoder.EncodePayloadHeader` | openPubSub/ua_pubsub/ua_pubsub_networkmessage.c:297-313 | The overwritten result of writing the count matters only for an empty id list. |
| `NetworkEncoder.EncodePromoted` | openPubSub/ua_pubsub/ua_pubsub_networkmessage.c:323-333 | Promoted fields are written when they can be and fit; the result is not looked at. |
| `NetworkEncoder.PutOctets` | openPubSub/ua_pubsub/ua_pubsub_networkmessage.c:415-421 | The loop with an 8-bit counter ends, and succeeds exactly for at most 255 octets that fit. |
| `NetworkEncoder.EncodeSizes` | openPubSub/ua_pubsub/ua_pubsub_networkmessage.c:388-404 | The given sizes where they are not zero, and computed ones elsewhere. |
| `NetworkEncoder.EncodePayload` | openPubSub/ua_pubsub/ua_pubsub_networkmessage.c:380-429 | Sizes, messages, footer and signature. |
| `NetworkDecoder.DecodeNm` | openPubSub/ua_pubsub/ua_pubsub_networkmessage.c:434-745 | Total on every octet string: succeeds exactly when decoding is defined, with its message and end. |
| `NetworkDecoder.DecodeDsm` | openPubSub/ua_pubsub/ua_pubsub_networkmessage.c:1309-1387 | The same for DataSetMessages. |
| `NetworkDecoder.DecodeDsmHeader` | openPubSub/ua_pubsub/ua_pubsub_networkmessage.c:1117-1212 | The same for their headers. |
| `NetworkDecoder.DecodePromotedFields` | openPubSub/ua_pubsub/ua_pubsub_networkmessage.c:614-639 | The loop ends, reads at least one field, and its 16-bit count is the number of fields. |
| `NetworkDecoder.DecodeOctets` | openPubSub/ua_pubsub/ua_pubsub_networkmessage.c:722-734 | The loop with an 8-bit counter ends for every 16-bit size and succeeds only for sizes up to 255. |
| `NetworkFraming.NmExtend` | openPubSub/ua_pubsub/ua_pubsub_networkmessage.c:434-745 | Appending octets to the source of any decodable message changes neither the message nor its end. |
| `NetworkPrefixes.NmCut` | openPubSub/ua_pubsub/ua_pubsub_networkmessage.c:434-745 | Octets that hold the encoding of a surviving message as far as they go decode, to the canonical message, exactly when the length guards hold for what there is and nothing is missing but a skipped length field at the end. |
| `NetworkPrefixes.NmPrefixExact` | openPubSub/ua_pubsub/ua_pubsub_networkmessage.c:434-745 | A strict prefix of a surviving message's encoding decodes exactly when the message ends in a skipped length field, only octets of that field are cut, and the guards still hold. |
| `NetworkPrefixes.NmNoStrictPrefix` | openPubSub/ua_pubsub/ua_pubsub_networkmessage.c:434-745 | No strict prefix decodes when the message does not end in such a field, and none at all over a table without found hollow types. |
| `NetworkPrefixes.TrailerEnds` | openPubSub/ua_pubsub/ua_pubsub_networkmessage.c:413-429 | A message with a signature or footer octets does not end in such a field. |
| `NetworkFraming.NmInside` | openPubSub/ua_pubsub/ua_pubsub_networkmessage.c:434-745 | Decoding a message ends at most four octets beyond the source, and inside it when no type that the lookup finds is hollow one level deep. |
| `NetworkFraming.NmOverrunExact` | openPubSub/ua_pubsub/ua_pubsub_networkmessage.c:434-745 | Some message decode that starts inside its source ends beyond it exactly when such a type exists. |
| `NetworkFormat.DsmTypedExact` | openPubSub/ua_pubsub/ua_pubsub_networkmessage.h:27-88 | Which trees are DataSetMessages: by message type and field encoding as numbers. |
| `NetworkFormat.NmTypedExact` | openPubSub/ua_pubsub/ua_pubsub_networkmessage.h:95-184 | Which trees are NetworkMessages, with the bounds of publisher ids of type 0 to 3. |
| `NetworkFormat.DsmFirstFlags` | openPubSub/ua_pubsub/ua_pubsub_networkmessage.c:1029-1054 | The first flag octet is twice the field encoding plus the weights 1, 8, 16, 32, 64 and 128. |
| `NetworkFormat.DsmSecondFlags` | openPubSub/ua_pubsub/ua_pubsub_networkmessage.c:1056-1069 | The second is the message type plus 16 and 32. |
| `NetworkFormat.DsmHeaderFormat` | openPubSub/ua_pubsub/ua_pubsub_networkmessage.c:1026-1115 | The second octet is written for all but plain key frames; the optional fields follow in order. |
| `NetworkFormat.DsmHeaderRead` | openPubSub/ua_pubsub/ua_pubsub_networkmessage.c:1117-1212 | The weights that are read, in both octets. |
| `NetworkFormat.DsmSendable` | openPubSub/ua_pubsub/ua_pubsub_networkmessage.c:1242-1307 | Types 0 and 1 with field encoding 0 or 2 are sent exactly when all fields are, with 1 never; type 3 always, and no other type. |
| `NetworkFormat.FrameFormat` | openPubSub/ua_pubsub/ua_pubsub_networkmessage.c:1249-1306 | Types 0 and 1 have a 16-bit count and fields, type 3 has no frame. |
| `NetworkFormat.KeyFieldsFormat` | openPubSub/ua_pubsub/ua_pubsub_networkmessage.c:1253-1269 | Every field of a key frame stands behind exactly the fields before it. |
| `NetworkFormat.DeltaFieldsFormat` | openPubSub/ua_pubsub/ua_pubsub_networkmessage.c:1271-1301 | Every field of a delta frame stands behind exactly the fields before it. |
| `NetworkFormat.FieldFormat` | openPubSub/ua_pubsub/ua_pubsub_networkmessage.c:1280-1297 | A delta field is an index of two octets and then the Variant or DataValue. |
| `NetworkFormat.FrameRead` | openPubSub/ua_pubsub/ua_pubsub_networkmessage.c:1309-1387 | For every source: types 0 and 1 with field encoding 0 or 2 are a 16-bit count and that many fields, type 3 nothing, raw data is left unread, and any other type fails. |
| `NetworkFormat.KeyFieldsRead` | openPubSub/ua_pubsub/ua_pubsub_networkmessage.c:1314-1341 | n fields are read exactly as a chain in which each starts where the one before it ends. |
| `NetworkFormat.DeltaFieldsRead` | openPubSub/ua_pubsub/ua_pubsub_networkmessage.c:1344-1383 | The same for n pairs of index and field. |
| `NetworkFormat.NmFirstFlags` | openPubSub/ua_pubsub/ua_pubsub_networkmessage.c:152-169 | The first flag octet is the version plus 16, 32, 64 and 128. |
| `NetworkFormat.NmSecondFlags` | openPubSub/ua_pubsub/ua_pubsub_networkmessage.c:171-192 | The second is the publisher id type plus 8, 16, 32, 64 and 128. |
| `NetworkFormat.NmThirdFlags` | openPubSub/ua_pubsub/ua_pubsub_networkmessage.c:194-207 | The third is four times the message type plus 1 and 2; which of the three are written. |
| `NetworkFormat.PublisherIdFormat` | openPubSub/ua_pubsub/ua_pubsub_networkmessage.c:213-243 | Publisher ids of type 0 to 3 take one, two, four and eight octets, type 4 is a string, and no other is sent. |
| `NetworkFormat.PublisherIdRead` | openPubSub/ua_pubsub/ua_pubsub_networkmessage.c:491-520 | The same when reading, for every source. |
| `NetworkFormat.GroupFormat` | openPubSub/ua_pubsub/ua_pubsub_networkmessage.c:252-295 | Flags 1, 2, 4 and 8 and fields of two, four, two and two octets. |
| `NetworkFormat.GroupRead` | openPubSub/ua_pubsub/ua_pubsub_networkmessage.c:528-570 | The same when reading. |
| `NetworkFormat.SecurityFormat` | openPubSub/ua_pubsub/ua_pubsub_networkmessage.c:335-378 | Flags 1, 2, 4 and 8, token, nonce length, nonce and footer size. |
| `NetworkFormat.SecurityRead` | openPubSub/ua_pubsub/ua_pubsub_networkmessage.c:642-690 | The same when reading. |
| `NetworkFormat.FlagsRead` | openPubSub/ua_pubsub/ua_pubsub_networkmessage.c:434-489 | How many flag octets are read; one that is not there reads as zero. |
| `NetworkFormat.HeadRead` | openPubSub/ua_pubsub/ua_pubsub_networkmessage.c:434-590 | Which flags announce which parts of the head, and the publisher id type in the low three bits. |
| `NetworkFormat.MiddleRead` | openPubSub/ua_pubsub/ua_pubsub_networkmessage.c:592-684 | Which flags announce timestamp, picoseconds, promoted fields and security header. |
| `NetworkFormat.NmRead` | openPubSub/ua_pubsub/ua_pubsub_networkmessage.c:434-745 | Only messages of type 0 have a payload; version, types and chunk flag as bits of the flag octets. |
| `NetworkFormat.SizesFormat` | openPubSub/ua_pubsub/ua_pubsub_networkmessage.c:384-404 | Sizes are sent for two messages or more: the given one unless it is zero, else the computed one modulo 65536. |
| `NetworkFormat.PromotedFieldsRead` | openPubSub/ua_pubsub/ua_pubsub_networkmessage.c:606-640 | Promoted fields are read exactly as a chain that ends with the first field to reach the announced end. |
| `NetworkFormat.FrameSizes` | openPubSub/ua_pubsub/ua_pubsub_networkmessage.c:1426-1488 | The oracle counts the frames of types 0 and 1 whether or not they can be sent, unless they are raw data. |
| `NetworkFormat.RefusedSize` | openPubSub/ua_pubsub/ua_pubsub_networkmessage.c:853-940 | The oracle answers zero for a payload header without writers, and counts no payload for other message types than 0. |
| `NetworkFormat.NmSendable` | openPubSub/ua_pubsub/ua_pubsub_networkmessage.c:151-432 | Exactly which messages are sent, part by part. |
| `NetworkReturned.NmReturned` | openPubSub/ua_pubsub/ua_pubsub_networkmessage.c:434-745 | Every message that is decoded is typed exactly when its Variants are, and can then be sent again exactly when no DataSetMessage is raw data and all fields and promoted fields fit. |
| `Publisher.PatchRight` | openPubSub/ua_pubsub/ua_pubsub_networkmessage.c:58-82 | If each entry writes the new octets of its place, patching gives the new message. |
| `Publisher.PatchNecessary` | openPubSub/ua_pubsub/ua_pubsub_networkmessage.c:58-82 | If patching gives the new message, each entry's octets agree with the new octets of its place. |
| `Publisher.LayoutAligned` | openPubSub/ua_pubsub/ua_pubsub_networkmessage.c:768-940 | Measured messages that differ only in sequence numbers and field data of the same sizes have the same places and the same octets between them. |
| `PublisherRefines.FastPathRight` | openPubSub/ua_pubsub/ua_pubsub_networkmessage.c:58-82 | The publisher's fast path refines the full encoder: for measured messages, patching the old encoding gives the encoding of the new message when every entry writes its own place. |
| `PublisherRefines.FastPathExact` | openPubSub/ua_pubsub/ua_pubsub_networkmessage.c:58-82 | And only then, for messages whose DataValue fields survive decoding. |
| `PublisherRefines.FastPathCondition` | openPubSub/ua_pubsub/ua_pubsub_networkmessage.c:1433-1465 | In terms of the message: exactly without network timestamp and picoseconds, with Variant fields that are no arrays with elements or dimensions, and with DataValue fields all encoded like the first of their frame. |
| `PublisherRefines.ScalarsPatchable` | openPubSub/ua_pubsub/ua_pubsub_networkmessage.c:1433-1465 | Scalar Variant fields and DataValue frames with at most one field meet that condition. |
| `PublisherRefines.PinnedDiffers` | openPubSub/ua_pubsub/ua_pubsub_networkmessage.c:1443-1447 | An array captured as a scalar is encoded differently from the first octet on. |
| `PublisherRefines.DataPrefixFree` | openPubSub/ua_pubsub/ua_types_encoding_binary.c:1141-1223 | Two surviving DataValues whose encodings agree as far as both go have the same encoding. |
| `Places.EntriesExact` | openPubSub/ua_pubsub/ua_pubsub_networkmessage.c:768-940 | The offset table has an entry for everything it can refer to, ids for subscribers alone, and for nothing else. |
| `Places.EntriesInPlace` | openPubSub/ua_pubsub/ua_pubsub_networkmessage.c:757-766 | In a measured message, the encoding of what an entry refers to stands at the entry's place. |
| `Publisher.PatchStops` | openPubSub/ua_pubsub/ua_pubsub_networkmessage.c:58-82 | Patching as a whole fails exactly when some entry is not supported, cannot be encoded or does not fit at its place. |
| `Publisher.EntryPatches` | openPubSub/ua_pubsub/ua_pubsub_networkmessage.c:62-78 | Sequence numbers always can be patched, fields when they can be encoded, and nothing else. |
| `FastPath.UpdateBufferedMessage` | openPubSub/ua_pubsub/ua_pubsub_networkmessage.c:58-82 | Patches the buffer in place exactly as specified and leaves all other octets alone; refuses tables with unsupported entries; otherwise its result tells of the last entry alone. |
| `FastPath.EncodeSized` | openPubSub/ua_pubsub/ua_pubsub_networkmessage.c:151-432 | An encodable message is written as a whole exactly when the oracle's size less the slack fits the buffer, and then exactly that many octets are written: with zero slack a buffer of the oracle's size is filled. |
| `FastPath.Republish` | openPubSub/ua_pubsub/ua_pubsub_networkmessage.c:58-82 | Sizing, encoding and patching together, for measured messages: the buffer holds the encoding of the second message. |
| `Subscriber.UpdateBufferedNwMessage` | openPubSub/ua_pubsub/ua_pubsub_networkmessage.c:84-149 | For every source and every table made for the message: fails at the given position exactly when some entry is not refreshable or, unless it is a publisher id, does not decode at its place; otherwise result and position are those of the last entry; the message is the specified one. |
| `Subscriber.RefreshOne` | openPubSub/ua_pubsub/ua_pubsub_networkmessage.c:93-145 | One entry: decodes into the place it stands for; what cannot be decoded stops the update, a publisher id apart, which only sets the result. |
| `Subscriber.RunExact` | openPubSub/ua_pubsub/ua_pubsub_networkmessage.c:84-149 | An update is stopped exactly by an entry that is not refreshable or, unless it is a publisher id, does not decode at its place; otherwise it is good unless the last entry is a publisher id that does not decode. |
| `SubscriberRefines.FastPathDecodes` | openPubSub/ua_pubsub/ua_pubsub_networkmessage.c:84-149 | The subscriber's fast path refines the full decoder: for every surviving message of a measured template's shape it gives the message that full decoding gives and ends where the payload ends, at the message's end exactly without footer octets and signature. |
| `SubscriberRefines.NotRefreshable` | openPubSub/ua_pubsub/ua_pubsub_networkmessage.c:143-144 | Tables with a timestamp, picoseconds, a string publisher id or a DataSetMessage sequence number are always refused. |
| `SubscriberRefines.UnsupportedStops` | openPubSub/ua_pubsub/ua_pubsub_networkmessage.c:92-146 | An unsupported entry stops the update, whatever the source holds. |
| `SubscriberRefines.FieldsRun` | openPubSub/ua_pubsub/ua_pubsub_networkmessage.c:128-142 | The payload entries replace the prepared fields, in order, by the decoded ones. |
| `Ieee754.Normalise` | openPubSub/ua_pubsub/ua_types_encoding_binary.c:316-317 | Both normalising loops end and give the unique mantissa from 1 to below 2 with its exponent. |
| `Ieee754.NormalUnique` | openPubSub/ua_pubsub/ua_types_encoding_binary.c:308-322 | Mantissa and exponent are determined by the number. |
| `Ieee754.HalfHarmless` | openPubSub/ua_pubsub/ua_types_encoding_binary.c:319 | The added half never disturbs the significand, for any factor from 2^s to 2^s + 0.5. |
| `Ieee754.Pack` | openPubSub/ua_pubsub/ua_types_encoding_binary.c:308-322 | Computes the packed form of every number whose exponent the field can hold. |
| `Ieee754.Unpack` | openPubSub/ua_pubsub/ua_types_encoding_binary.c:324-336 | Computes the number of every word. |
| `Ieee754.PackUnpacked` | openPubSub/ua_pubsub/ua_types_encoding_binary.c:308-336 | Packing an unpacked word gives the word back, for every word and every admissible factor. |
| `Ieee754.UnpackPacked` | openPubSub/ua_pubsub/ua_types_encoding_binary.c:308-336 | Unpacking a packed number gives it back exactly when the format can represent it. |
| `Ieee754.EncodeFloat` | openPubSub/ua_pubsub/ua_types_encoding_binary.c:344-353 | Zeros, infinities, NaN and every normal number decode to themselves. |
| `Ieee754.DecodeFloat` | openPubSub/ua_pubsub/ua_types_encoding_binary.c:355-368 | Special words and all others, as specified. |
| `Ieee754.DecodedInjective` | openPubSub/ua_pubsub/ua_types_encoding_binary.c:355-400 | Apart from NaN payloads a word is determined by what it decodes to. |
| `Ieee754.SpecialWords` | openPubSub/ua_pubsub/ua_types_encoding_binary.c:339-374 | The words written for special values are the constants of both formats. |
| `Ieee754.UnitExponent` | openPubSub/ua_pubsub/ua_types_encoding_binary.c:308-336 | With exponent field 2^(e-1) - 1 a word stands for plus or minus 1 + k / 2^s, in every format. |
| `Ieee754.NextExponent` | openPubSub/ua_pubsub/ua_types_encoding_binary.c:308-336 | Adding one to the exponent field doubles the number: with the unit exponent this fixes every word. |
| `Ieee754.OnePacked` | openPubSub/ua_pubsub/ua_types_encoding_binary.c:308-322 | One packs as the word whose exponent field is 2^(e-1) - 1. |
| `Ieee754.UnitWords` | openPubSub/ua_pubsub/ua_types_encoding_binary.c:339-400 | 0x3F800000 and 0x3FF0000000000000 are 1; 0xC0000000 and 0xC000000000000000 are -2. |
| `Links.Around` | openPubSub/ua_pubsub/open62541_queue.h:479-517 | Removing, inserting and replacing an entry, in terms of what stands before and after it. |
| `Links.ReverseAt` | openPubSub/ua_pubsub/open62541_queue.h:443-446 | Entry k from the front is entry k from the back of the reverse. |
| `TailQueue.InsertHead` | openPubSub/ua_pubsub/open62541_queue.h:462-470 | Keeps the queue linked; the new entry is first. |
| `TailQueue.InsertTail` | openPubSub/ua_pubsub/open62541_queue.h:472-477 | Keeps the queue linked; the new entry is last. |
| `TailQueue.InsertAfter` | openPubSub/ua_pubsub/open62541_queue.h:479-487 | Keeps the queue linked; the new entry follows the given one. |
| `TailQueue.InsertBefore` | openPubSub/ua_pubsub/open62541_queue.h:489-494 | Keeps the queue linked without use of the head. |
| `TailQueue.Remove` | openPubSub/ua_pubsub/open62541_queue.h:496-505 | Keeps the queue linked; exactly the entry is gone. |
| `TailQueue.Replace` | openPubSub/ua_pubsub/open62541_queue.h:507-517 | Keeps the queue linked; the new entry takes the old one's place. |
| `TailQueue.Last` | openPubSub/ua_pubsub/open62541_queue.h:423-424 | Reading the last link as a head gives the last entry, and null for an empty queue. |
| `TailQueue.Prev` | openPubSub/ua_pubsub/open62541_queue.h:426-427 | The same trick gives an entry's predecessor, and null for the first. |
| `TailQueue.Forward` | openPubSub/ua_pubsub/open62541_queue.h:431-434 | Visits the entries in order. |
| `TailQueue.Backward` | openPubSub/ua_pubsub/open62541_queue.h:443-446 | Visits the entries in reverse order. |
| `TailQueue.Run` | openPubSub/ua_pubsub/open62541_queue.h:454-517 | Every run of operations ends in the queue that the sequence operations give. |
| `TailQueue.RunAndWalk` | openPubSub/ua_pubsub/open62541_queue.h:443-517 | After any run, the walk back is the exact reverse of the walk forward. |
| `LinkedList.InsertHead` | openPubSub/ua_pubsub/open62541_queue.h:221-226 | Keeps the list linked; the new entry is first. |
| `LinkedList.InsertAfter` | openPubSub/ua_pubsub/open62541_queue.h:206-212 | Keeps the list linked without use of the head. |
| `LinkedList.InsertBefore` | openPubSub/ua_pubsub/open62541_queue.h:214-219 | Keeps the list linked without use of the head. |
| `LinkedList.Remove` | openPubSub/ua_pubsub/open62541_queue.h:228-235 | Removes an entry without use of the head; the entry keeps its successor. |
| `LinkedList.Replace` | openPubSub/ua_pubsub/open62541_queue.h:237-245 | The new entry takes the old one's place. |
| `LinkedList.Run` | openPubSub/ua_pubsub/open62541_queue.h:206-245 | Every run of operations ends in the list that the sequence operations give. |
| `LinkedList.RemoveChosen` | openPubSub/ua_pubsub/open62541_queue.h:194-197 | A safe traversal that removes any chosen entries visits every original entry once, in order, and leaves the others. |
| `CircularQueue.InsertAfter` | openPubSub/ua_pubsub/open62541_queue.h:578-586 | Keeps the ring; the new entry follows the given one. |
| `CircularQueue.InsertBefore` | openPubSub/ua_pubsub/open62541_queue.h:588-596 | Keeps the ring; the new entry precedes the given one. |
| `CircularQueue.InsertHead` | openPubSub/ua_pubsub/open62541_queue.h:598-606 | Keeps the ring; the new entry is first. |
| `CircularQueue.InsertTail` | openPubSub/ua_pubsub/open62541_queue.h:608-616 | Keeps the ring; the new entry is last. |
| `CircularQueue.Remove` | openPubSub/ua_pubsub/open62541_queue.h:618-631 | Keeps the ring; exactly the entry is gone. |
| `CircularQueue.Replace` | openPubSub/ua_pubsub/open62541_queue.h:633-646 | Keeps the ring; the new entry takes the old one's place. |
| `CircularQueue.Forward` | openPubSub/ua_pubsub/open62541_queue.h:548-551 | Visits the entries in order. |
| `CircularQueue.Backward` | openPubSub/ua_pubsub/open62541_queue.h:559-562 | Visits the entries in reverse order. |
| `CircularQueue.Run` | openPubSub/ua_pubsub/open62541_queue.h:578-646 | Every run of operations ends in the ring that the sequence operations give. |
| `CircularQueue.RunAndWalk` | openPubSub/ua_pubsub/open62541_queue.h:548-646 | After any run, the walk back is the exact reverse of the walk forward. |
| `Encoder.Context.EncodeDiagHead` | openPubSub/ua_pubsub/ua_types_encoding_binary.c:1226-1250 | The mask and the numbers are all written, or the buffer is reported full without an exchange. |

## Left out

- Structures with optional fields and bit-field clusters: their encoder, decoder and size function differ in ways of their own.
- Overlayable structures and Guid: `TableOk` makes overlayable types fixed-width, so that arrays of Guid, which the built-in table marks overlayable, are encoded and decoded element by element here, to the same octets.
- Big-endian and slow generic integer paths: on other machines they compute the same octets.
- Allocation, release, failing allocation and pointers into memory: values are trees and allocation succeeds.
- Encoder.Context: does not model a callback that returns the status "buffer full", because the callers' comments exclude it; combined status codes are one failure.
- Decoder.Reader: does not model what a destination holds after a failed decode, because callers discard it.
- Types.DataType: custom type tables linked at run time are one table, in search order.
- NetworkMessage.NetworkMessage: the message id and discovery messages are not encoded by the sources; chunked messages only carry their flag.
- RAWDATA fields: the sources refuse them when encoding and, when decoding, skip them and accept the DataSetMessage without data (lines 1317 and 1341); the model does both. Message types other than key frame, delta frame and keep-alive are refused, here as there.
- NetworkEncoder.EncodeNm: does not say what the buffer holds after a promoted field that failed, because the message goes on from wherever that field stopped; for the same reason `LossExact` is about messages without promoted fields.
- FastPath.UpdateBufferedMessage: does not say what the buffer holds when an entry cannot be encoded or does not fit, because such an entry stops in the middle of its octets and the next one is patched all the same.
- PublisherRefines.FastPathExact: the only-if half needs DataValue fields that survive by themselves, because only then is no field's encoding the beginning of another's.
- Publisher.Live: entries whose captured type is no longer the field's type are excluded, since the sources would read memory of another type through them.
- Subscriber.UpdateBufferedNwMessage: requires a table made for the prepared message, since the sources index its fields without a check.
- Ieee754.Pack: requires an exponent the field can hold, because the sources shift a negative number into the word for subnormal ones; rounding of the host's own floating-point type is not modelled.
- Ieee754.EncodeFloat: is about special values and normal numbers, for the same reason; NaN payloads are not kept by the sources.
- Simple queues, singly linked lists and XOR queues: their operations are special cases of the ones modelled, or of another representation; the reverse safe traversal of circular queues does not compile in the sources.
- Generated one-line forwards, JSON, cryptography, sockets and the C++ wrappers: not part of the codecs.

# LocalStack protocol and concurrency core in Dafny

A verified model of the hardest parts of LocalStack: the wire codecs that its AWS protocols
are built from, and the stateful and concurrent cores of its service runtime.

Code that works step by step in LocalStack (buffers, cursors, element trees, bodies,
stores, port ranges, containers, batchers) is a class or a method with loops, proved against
a specification function; what LocalStack promises is then proved about these functions
for all inputs. Concurrent protocols are state machines whose runs are arbitrary schedules
of any number of threads.

| files | what they model |
|---|---|
| `CborGrammar`, `CborModel`, `CborTheorems`, `CborLocality`, `CborCode` | CBOR data items: grammar, printer and parser (sections 3, 3.1, 3.2 and 4.1 of RFC 8949) |
| `Shapes`, `Outcomes`, `PyDict`, `Sequences`, `BigEndian`, `Numerals` | schemas and values, parsers that may raise, insertion-ordered dicts, numbers |
| `Base64`, `Unicode`, `Scalars` | scalars as text (section 4 of RFC 4648, section 3 of RFC 3629) |
| `QueryWire`, `QueryModel`, `QueryTheorems`, `QueryStrays`, `QueryCode` | query parameters with dotted keys |
| `XmlWire`, `XmlModel`, `XmlTheorems`, `XmlExactness`, `XmlElements`, `XmlCode` | XML trees with flattened collections |
| `JsonWire`, `JsonModel`, `JsonTheorems`, `JsonCode` | JSON bodies |
| `EventFrames` | binary event-stream frames |
| `ChunkedEncoding` | chunked bodies (section 7.1 of RFC 9112, loosely) |
| `Stores` | account, region and store objects that share dicts |
| `LazyLoading`, `ServiceLifecycle`, `ServiceRaces` | loading a service once, its life afterwards, and the races in it |
| `Batching` | the sequential and the asynchronous batcher |
| `Ports` | timed port reservations over nested ranges |
| `ExactlyOnce`, `Singleton` | running a function or a factory once |
| `ResolveApis`, `Pagination` | the service closure and token pagination |

The main results:

* CBOR: the parser accepts exactly the grammar, on every input (`CborGrammar.ParsedExactly`);
  values are printed as it spells them (`CborGrammar.SpelledExactly`) and come back in both
  forms before any other bytes (`CborTheorems.RoundTrip`).
* What is on the wire, in literal names, tags and keys: `QueryWire.SentIsRead`,
  `XmlWire.SerializedAsDrawn`, `JsonWire.EncodedAsWritten`, `Base64.Groups`.
* Query, JSON and XML: nested values of any depth come back (`QueryTheorems.RoundTrip`,
  `QueryTheorems.RequestRoundTrip`, `JsonTheorems.RoundTrip`, `XmlExactness.RoundTripExactly`),
  blobs through `Base64.RoundTrip`.
* Frames and chunks: `EventFrames.StreamSplitsUniquely`, `ChunkedEncoding.RoundTripExactly`.
* Stores: the shared dicts agree with the history of writes and resets
  (`Stores.LastWriteWins`, `Stores.AccountResetClears`, `Stores.RegionResetIsConfined`).
* Concurrency: `LazyLoading.LoadedOnce`, `ServiceRaces.LifecycleIsSound`,
  `Batching.Conservation`, `ExactlyOnce.RunsOnce`, `Singleton.OneObject`.
* `Ports.PortRange.ReservePort`, `ResolveApis.Resolve`, `Pagination.PagesAreComplete`.

What the code does not keep, although its documentation or its naming suggests it, is proved
with the exact condition under which it does:

* An XML value comes back if and only if every collection that is directly inside another
  one became a single element (`XmlExactness.RoundTripExactly`).
* `AsyncBatcher.close` does not always drain the buffer (`Batching.DrainedIff`).
* Pages of positive size are complete if and only if no page boundary repeats an earlier
  token (`Pagination.PagesAreComplete`).
  A list on which paging never ends is `Pagination.RepeatedTokenNeverEnds`.
* `singleton_factory` may create two falsy objects (`Singleton.SafeExactlyIfTruthy`).
* Callers of a `once_func` function agree if and only if it is never interrupted
  (`ExactlyOnce.AgreeExactlyIfNeverInterrupted`), and they all finish if and only if no
  running function calls a wrapped function that is not done (`ExactlyOnce.FinishesExactly`).
* `require` may raise an IndexError instead of the error of the service
  (`ServiceRaces.IndexErrorExactly`), and a stop may be lost (`ServiceRaces.StopIsLostExactly`).
* A port range keeps its promise while its cache has room for every port that was reserved,
  which is so for TCP ports (`Ports.PortCache.TcpIsUncrowded`); with another protocol it may
  hand out one port twice (`Ports.PushesOutExactly`, `Ports.OtherProtocolsPushOut`).
* Query parameters of flattened structures with required members inside a long list are not
  read back (`QueryStrays.StraysMakeItems`).
* Chunked data comes back for exactly the chunk sizes in `ChunkedEncoding.RoundTripExactly`.
* The documentation of `resolve_apis` lists services for `serverless` that its tables do not
  name; `ResolveApis.ServerlessResolved` follows the tables.

To check the project, run `dafny verify dfyconfig.toml`.

## Model

| member | source | states |
|---|---|---|
| CborTheorems.RoundTrip | localstack-core/localstack/aws/protocol/serializer.py:1602-1845 | For every valid value whose lengths fit, in definite or indefinite form, parsing the printed bytes followed by any other bytes gives the meaning of the value and stops exactly where the printed bytes end. |
| CborGrammar.ParsedExactly | localstack-core/localstack/aws/protocol/parser.py:997-1215 | On every byte sequence: the parser stops behind a prefix with some data exactly if this prefix denotes the data in the grammar of section 3 of RFC 8949, which is written out byte by byte (break byte 0xFF, lists 0x80 to 0x9F, chunks, null map values, repeated keys, tag 1, floats of three widths). |
| CborGrammar.DenotesExactly | localstack-core/localstack/aws/protocol/parser.py:1014-1215 | The bytes that the parser takes for exactly one data item are those that the grammar derives, and for the same data. |
| CborGrammar.HeadErrors | localstack-core/localstack/aws/protocol/parser.py:1018-1060 | Heads that are refused: additional information 28 to 30, and 31 where nothing is indefinite, are invalid; a missing byte or argument is the end of the stream. |
| CborGrammar.StringErrors | localstack-core/localstack/aws/protocol/parser.py:1066-1083 | Strings that are refused: too short, with a bad chunk, or text that is not UTF-8. |
| CborGrammar.ChunkErrors | localstack-core/localstack/aws/protocol/parser.py:1072-1080 | Chunks that are refused: none where a chunk or a break byte must be, an invalid head, or too few bytes. |
| CborGrammar.TagErrors | localstack-core/localstack/aws/protocol/parser.py:1118-1137 | A tag reads its item first and passes on its error; then tags other than 1 are refused, then items that are no number. |
| CborGrammar.SimpleErrors | localstack-core/localstack/aws/protocol/parser.py:1140-1172 | Simple values but 20 to 23 and the three floats are refused, and floats with missing bytes. |
| CborGrammar.KeyErrors | localstack-core/localstack/aws/protocol/parser.py:1110-1114 | A list or a dict as a key is refused exactly if its value is not null, after the value was read. |
| CborGrammar.SpelledExactly | localstack-core/localstack/aws/protocol/serializer.py:1577-1845 | Every value is printed with the bytes that the table of section 3 of RFC 8949 gives for it, at every depth in the form that is asked for (0x9F ... 0xFF or a count), and printing fails exactly if a length or an integer does not fit in eight bytes. |
| CborGrammar.SpellingDenotes | localstack-core/localstack/aws/protocol/serializer.py:1577-1845 | These bytes denote the meaning of the value in the grammar. |
| CborTheorems.FormIndependence | localstack-core/localstack/aws/protocol/serializer.py:1832-1845 | Whether containers are printed with a count or with a break byte never changes what is decoded, at any nesting depth. |
| CborTheorems.EncodableEitherWay | localstack-core/localstack/aws/protocol/serializer.py:1832-1845 | What can be printed with counts can also be printed with break bytes. |
| CborTheorems.PrefixFree | localstack-core/localstack/aws/protocol/serializer.py:1602-1610 | Two printed items in front of one common byte sequence have the same meaning and end at the same place: no encoding is a proper prefix of another one. |
| CborTheorems.NeverStartsWithBreak | localstack-core/localstack/aws/protocol/serializer.py:1806-1810 | No printed item starts with the break byte, so the indefinite loops never take an item for their end. |
| CborTheorems.ShortestHead | localstack-core/localstack/aws/protocol/serializer.py:1784-1804 | Whatever head the parser accepts for an argument, the printed head for the same argument is not longer (section 4.1 of RFC 8949). |
| CborTheorems.ReadHead | localstack-core/localstack/aws/protocol/parser.py:1041-1060 | The head printed for an argument below 2^64 is read as the same major type and argument, and never as an indefinite length. |
| CborTheorems.FloatForm | localstack-core/localstack/aws/protocol/serializer.py:1822-1830 | A float is printed as itself in its own width, or in half precision with the same class when it is infinite or NaN. |
| CborTheorems.RoundTripTimestamp | localstack-core/localstack/aws/protocol/serializer.py:1734-1753 | A timestamp is printed as tag 1 and a double, and comes back as the time of that number. |
| CborTheorems.CountBoundedByInput | localstack-core/localstack/aws/protocol/parser.py:1086-1108 | A definite list or map is only accepted when every counted element took at least one byte: a count beyond the input is always an error. |
| CborLocality.ItemIsLocal | localstack-core/localstack/aws/protocol/parser.py:1020-1039 | On every byte sequence an accepted item is a non-empty prefix, and the same prefix before any other bytes gives the same value and leaves those bytes untouched: nothing past the item is looked at. |
| CborLocality.ChunksAreLocal | localstack-core/localstack/aws/protocol/parser.py:1066-1080 | The loop over the chunks of an indefinite string consumes exactly up to its break byte. |
| CborLocality.ItemsToBreakAreLocal | localstack-core/localstack/aws/protocol/parser.py:1086-1094 | The indefinite list loop consumes exactly up to its break byte. |
| CborLocality.EntriesToBreakAreLocal | localstack-core/localstack/aws/protocol/parser.py:1097-1108 | The indefinite map loop consumes exactly up to its break byte, whatever dict it started from. |
| CborModel.ParseItem | localstack-core/localstack/aws/protocol/parser.py:1020-1039 | The parser ends on every byte sequence and either fails or consumes at least one byte. |
| CborCode.SerializeHead | localstack-core/localstack/aws/protocol/serializer.py:1784-1810 | Appends the shortest head, and fails exactly when the argument needs more than eight bytes. |
| CborCode.SerializeInteger | localstack-core/localstack/aws/protocol/serializer.py:1612-1628 | Appends the integer, and fails exactly outside [-2^64, 2^64). |
| CborCode.SerializeItem | localstack-core/localstack/aws/protocol/serializer.py:1602-1610 | The buffer grows by exactly the encoding of the value, and the call fails exactly when some length or integer in it does not fit. |
| CborCode.SerializeList | localstack-core/localstack/aws/protocol/serializer.py:1669-1681 | The same for a list, with its break byte in indefinite form. |
| CborCode.SerializeMap | localstack-core/localstack/aws/protocol/serializer.py:1683-1696 | The same for a map: keys and values alternate in insertion order. |
| CborCode.SerializeStructure | localstack-core/localstack/aws/protocol/serializer.py:1698-1732 | The same for a structure: null members are removed before they are counted. |
| CborCode.SerializeItems | localstack-core/localstack/aws/protocol/serializer.py:1669-1681 | The item loop appends the encodings in order and stops at the first item that does not fit. |
| CborCode.SerializeEntries | localstack-core/localstack/aws/protocol/serializer.py:1698-1732 | The entry loop appends the encodings in order and stops at the first entry that does not fit. |
| CborCode.Stream.Read | localstack-core/localstack/aws/protocol/parser.py:1207-1215 | Reads all the requested bytes and moves the cursor behind them, or fails. |
| CborCode.ReadUnsigned | localstack-core/localstack/aws/protocol/parser.py:1041-1060 | Reads an argument of 0, 1, 2, 4 or 8 bytes; other additional information is an error. |
| CborCode.ReadBytes | localstack-core/localstack/aws/protocol/parser.py:1066-1080 | Reads a definite or an indefinite byte string. |
| CborCode.ReadItem | localstack-core/localstack/aws/protocol/parser.py:1020-1039 | Reads one item: outcome and cursor are those of the parsing function. |
| CborCode.ReadTag | localstack-core/localstack/aws/protocol/parser.py:1118-1135 | Reads a tag and the item behind it; only tag 1 around a number is accepted, and the item is read before the tag is judged. |
| CborCode.ReadSimple | localstack-core/localstack/aws/protocol/parser.py:1140-1170 | Reads booleans, nulls and floats of three widths. |
| CborCode.ReadList | localstack-core/localstack/aws/protocol/parser.py:1086-1094 | Both list loops; they end because every item takes bytes. |
| CborCode.ReadMap | localstack-core/localstack/aws/protocol/parser.py:1097-1108 | Both map loops. |
| CborCode.Transmit | localstack-core/localstack/aws/protocol/serializer.py:1602-1610 | Serializing into a buffer and reading the buffer back through a stream, whatever follows, gives the meaning of the value. |
| QueryTheorems.RoundTrip | localstack-core/localstack/aws/protocol/parser.py:437-547 | For every schema in which no name that is looked for by prefix starts a sibling, and every value of any depth, a dict that carries its parameters in any order is parsed back to the value; `Filter` may also have caught keys of longer indices. Scalars are looked up exactly, so `Engine` may stand beside `EngineVersion`; flattened collections may be the items of a list unless their own items are flattened or have required members. |
| QueryTheorems.RequestRoundTrip | localstack-core/localstack/aws/protocol/parser.py:415-458 | The same for whole requests: other parameters are ignored when no member of the input structure looks at them. |
| QueryTheorems.ParamsRoundTrip | localstack-core/localstack/aws/protocol/parser.py:437-547 | The parameters of a value do not contradict each other, and a request that consists of them is parsed to the value. |
| QueryWire.ParamsAreSent | localstack-core/localstack/aws/protocol/parser.py:437-568 | Every parameter of a value has the name that the protocol gives it, written out as text: `Name.member.1` or the name of the items for `member`, `Name.1` when flattened, `Name.entry.1.key` and `Name.entry.1.value`, members under their own name. |
| QueryWire.SentIsRead | localstack-core/localstack/aws/protocol/parser.py:405-568 | A request with these parameters, in any order and among others, is parsed to the structure. |
| QueryStrays.StraysMakeItems | localstack-core/localstack/aws/protocol/parser.py:507-553 | The condition is needed: no list of more than 101 flattened lists of structures with a required member comes back when its first row has one structure, for a key of row 102 is taken for a second one. |
| QueryTheorems.ParamsAreDistinct | localstack-core/localstack/aws/protocol/parser.py:437-568 | The dotted keys written for a value are pairwise different. |
| QueryTheorems.MemberBack | localstack-core/localstack/aws/protocol/parser.py:415-435 | A value below a name is read back although the bare prefix match also catches longer indices. |
| QueryTheorems.FieldsBack | localstack-core/localstack/aws/protocol/parser.py:437-458 | Members come back in the order of the shape, and an absent member stays absent or is None when it is required. |
| QueryTheorems.ItemsBack | localstack-core/localstack/aws/protocol/parser.py:507-547 | A list of n items comes back with exactly these n items in order: index i sees item i and strays, index n + 1 sees nothing, or strays that are read as nothing. |
| QueryTheorems.EntriesBack | localstack-core/localstack/aws/protocol/parser.py:460-505 | A map comes back with exactly its entries in order. |
| QueryTheorems.FilterIsolates | localstack-core/localstack/aws/protocol/parser.py:549-553 | One filter step turns the parameters of a value at a name into the parameters of the value, and strays into junk that no member name matches. |
| QueryTheorems.NumeralsApart | localstack-core/localstack/aws/protocol/parser.py:528-545 | A key that starts with two indices belongs to the larger one, and is a stray for the smaller one. |
| Numerals.DecimalNumeral | localstack-core/localstack/aws/protocol/parser.py:528-545 | Indices are printed in decimal, without leading zeros. |
| QueryModel.FilterMentions | localstack-core/localstack/aws/protocol/parser.py:549-553 | The filter is empty exactly when no key starts with the name. |
| QueryModel.Filter | localstack-core/localstack/aws/protocol/parser.py:549-553 | Filtering by a non-empty name makes the keys together shorter, which is why recursion over self-referencing shapes ends. |
| QueryModel.IndexBound | localstack-core/localstack/aws/protocol/parser.py:528-545 | An index that is found is printed inside some key, so the index loops end on every parameter dict. |
| QueryModel.ItemTurn | localstack-core/localstack/aws/protocol/parser.py:528-545 | One turn of the index loop takes one item or ends the list. |
| Numerals.PrefixOfNumeral | localstack-core/localstack/aws/protocol/parser.py:528-545 | A decimal numeral that is a prefix of another one belongs to a smaller number, or to the same number when they are equally long. |
| QueryCode.FilterNode | localstack-core/localstack/aws/protocol/parser.py:549-553 | The dict comprehension: a later key replaces an earlier one that is cut to the same key. |
| QueryCode.ReadStructure | localstack-core/localstack/aws/protocol/parser.py:437-458 | The member loop; nothing found means None. |
| QueryCode.ReadList | localstack-core/localstack/aws/protocol/parser.py:507-547 | The index loop; the positions are collected in ascending order, so the final sort changes nothing. |
| QueryCode.ReadMap | localstack-core/localstack/aws/protocol/parser.py:460-505 | The index loop over keys and values. |
| XmlExactness.RoundTripExactly | localstack-core/localstack/aws/protocol/serializer.py:772-890 | For every schema with distinct tags among siblings, a serialized value comes back in normal form if and only if every collection inside a collection became exactly one element with its own tag; it leaves no element at all exactly if it is an empty flattened collection. Scalars are text, base64 blobs and booleans. |
| XmlWire.SerializedAsDrawn | localstack-core/localstack/aws/protocol/serializer.py:772-930 | The serializer makes exactly the tree that the protocol prescribes, written out with the tags `member`, `entry`, `key` and `value`, the names of members and items, and the texts of scalars. |
| XmlWire.ListTags | localstack-core/localstack/aws/protocol/serializer.py:826-844 | A list that is not flattened is one element, and each of its children has the name of the items, or `member`. |
| XmlWire.FlattenedTags | localstack-core/localstack/aws/protocol/serializer.py:826-844 | The elements of a flattened list have the name of its items, or that of the list. |
| XmlWire.MapTags | localstack-core/localstack/aws/protocol/serializer.py:846-890 | Entries are children called `entry`, or elements with the name of a flattened map, and hold first the key and then the value under their names. |
| XmlWire.PairIsRead | localstack-core/localstack/aws/protocol/parser.py:741-757 | An entry is read exactly if each of its children is called like the key or the value and can be read: the last of each counts, in any order, and a missing one is None. |
| XmlWire.OneElement | localstack-core/localstack/aws/protocol/parser.py:732-774 | One element, of any document: a flattened list or map reads the element itself, another one its children with any tags; it is read exactly if each item, or each entry with a hashable key, can be read, items in order, and the last entry with a key decides. |
| XmlWire.SeveralElements | localstack-core/localstack/aws/protocol/parser.py:732-813 | Several elements under one name: a structure reads the first, a list each of them as an item and a map each of them as an entry, flattened or not; a scalar cannot be read. |
| XmlTheorems.RoundTrip | localstack-core/localstack/aws/protocol/parser.py:697-774 | The sufficient half: grouping and parsing the elements of a value gives its normal form. |
| XmlExactness.OnlyIf | localstack-core/localstack/aws/protocol/parser.py:697-774 | The necessary half: a value that comes back in normal form regroups. |
| XmlExactness.ItemsOnly | localstack-core/localstack/aws/protocol/parser.py:760-774 | A list that comes back had exactly one element for each item. |
| XmlExactness.EntriesOnly | localstack-core/localstack/aws/protocol/parser.py:732-758 | A map that comes back had one well-tagged element for each value, although entries are assigned into one dict. |
| XmlExactness.MembersOnly | localstack-core/localstack/aws/protocol/parser.py:697-730 | A structure comes back only if each of its members does. |
| XmlTheorems.FlattenedInsideListIsSplit | localstack-core/localstack/aws/protocol/serializer.py:826-844 | A concrete list of flattened lists comes back as a list of singletons. |
| XmlTheorems.SerializedElements | localstack-core/localstack/aws/protocol/serializer.py:772-890 | How many elements a value becomes, and that all of them carry its tag. |
| XmlTheorems.TaggedMember | localstack-core/localstack/aws/protocol/parser.py:806-827 | Grouping by tag finds exactly the elements of one member, in order, wherever the member stands. |
| XmlTheorems.MembersBack | localstack-core/localstack/aws/protocol/parser.py:697-730 | Members come back in the order of the shape without nulls and unknown members, and missing required members are None. |
| XmlElements.Element.Append | localstack-core/localstack/aws/protocol/serializer.py:772-789 | Appending a finished element adds its tree as the last child and changes nothing else. |
| XmlCode.SerializeShape | localstack-core/localstack/aws/protocol/serializer.py:772-789 | The parent gets exactly the elements of the value as new last children; its other children and its text stay. |
| XmlCode.SerializeStructure | localstack-core/localstack/aws/protocol/serializer.py:791-824 | The member loop: nulls and unknown members leave nothing. |
| XmlCode.SerializeList | localstack-core/localstack/aws/protocol/serializer.py:826-844 | The item loop, into the list element or into the parent. |
| XmlCode.SerializeMap | localstack-core/localstack/aws/protocol/serializer.py:846-890 | The entry loop, into the map element or into the parent. |
| XmlCode.BuildNameToXmlNode | localstack-core/localstack/aws/protocol/parser.py:806-827 | The dict holds under every tag what grouping finds: an element, or the list of all elements with the tag in document order. |
| XmlCode.ReadStructure | localstack-core/localstack/aws/protocol/parser.py:697-730 | The member loop over the dict of tags. |
| XmlCode.ReadList | localstack-core/localstack/aws/protocol/parser.py:297-308 | The item loop. |
| XmlCode.ReadMap | localstack-core/localstack/aws/protocol/parser.py:732-758 | The entry loop. |
| XmlCode.ReadPair | localstack-core/localstack/aws/protocol/parser.py:746-757 | Key and value in either order, an unknown tag is an error. |
| JsonTheorems.RoundTrip | localstack-core/localstack/aws/protocol/serializer.py:1413-1483 | For every schema with distinct wire names, parsing the serialized value gives its normal form: no null members, items and map values, no unknown members, required members present; blobs go through base64 and come back as bytes, also when they were given as text. |
| JsonWire.EncodedAsWritten | localstack-core/localstack/aws/protocol/serializer.py:1413-1502 | The serializer makes exactly the JSON value that the protocol prescribes: objects in the order of the value under the names on the wire, arrays and objects without nulls, booleans, text, and base64 for blobs. |
| Base64.RoundTrip | localstack-core/localstack/aws/protocol/serializer.py:580-589 | Decoding the base64 form of any byte sequence gives these bytes (section 4 of RFC 4648). |
| Base64.Groups | localstack-core/localstack/aws/protocol/serializer.py:580-589 | Each group of three bytes is printed as four characters of Table 1 of RFC 4648, six bits each, with `=` where there are no bits. |
| Scalars.BlobBack | localstack-core/localstack/aws/protocol/parser.py:319-320 | A blob given as bytes comes back as these bytes, and one given as text as its UTF-8 bytes. |
| Scalars.ReadPrinted | localstack-core/localstack/aws/protocol/serializer.py:905-930 | Text, blobs and booleans are read back from their printed form. |
| Scalars.BooleansInAnyCase | localstack-core/localstack/aws/protocol/parser.py:332-338 | The texts `true` and `false` are read in any case, and any other text raises. |
| Unicode.EncodedIsValid | localstack-core/localstack/aws/protocol/serializer.py:586-587 | Encoded text is well-formed UTF-8 (section 3 of RFC 3629). |
| Unicode.ValidExactly | localstack-core/localstack/aws/protocol/parser.py:1079-1083 | Bytes are taken for text exactly if they are the UTF-8 encoding of some text. |
| Unicode.CharIsSpelled | localstack-core/localstack/aws/protocol/serializer.py:586-587 | A character is encoded with the bits of its number, in as few bytes as the table of section 3 of RFC 3629 gives it. |
| JsonTheorems.BodyOfMember | localstack-core/localstack/aws/protocol/serializer.py:1423-1455 | The body dict holds for every member what that member contributed and nothing else, although all members write into one dict. |
| JsonWire.MemberIsRead | localstack-core/localstack/aws/protocol/parser.py:859-867 | A member is looked up under its own name or that of the shape; if it is absent or null, it is None when it is required, and absent otherwise. |
| JsonTheorems.EntriesAppended | localstack-core/localstack/aws/protocol/serializer.py:1457-1466 | A map becomes an object with its entries in order. |
| JsonCode.SerializeInto | localstack-core/localstack/aws/protocol/serializer.py:1413-1421 | The body gets the encoding of the value under the key; other keys keep their values. |
| JsonCode.SerializeStructure | localstack-core/localstack/aws/protocol/serializer.py:1423-1455 | The member loop writes into the given body under wire names. |
| JsonCode.SerializeList | localstack-core/localstack/aws/protocol/serializer.py:1468-1483 | The item loop. |
| JsonCode.SerializeMap | localstack-core/localstack/aws/protocol/serializer.py:1457-1466 | The entry loop. |
| JsonCode.Transmit | localstack-core/localstack/aws/protocol/serializer.py:1413-1421 | Serializing and parsing gives back the normal form of the value. |
| JsonCode.ReadStructure | localstack-core/localstack/aws/protocol/parser.py:845-868 | The member loop. |
| JsonCode.ReadList | localstack-core/localstack/aws/protocol/parser.py:297-308 | The item loop. |
| JsonCode.ReadMap | localstack-core/localstack/aws/protocol/parser.py:870-886 | The entry loop. |
| EventFrames.FrameBack | localstack-core/localstack/aws/protocol/serializer.py:427-496 | A frame decodes to its event whatever follows it, so it delimits itself; the headers and the payload are recovered by a decoder written from the layout. |
| EventFrames.FrameForth | localstack-core/localstack/aws/protocol/serializer.py:427-496 | Whatever decodes is the frame of the decoded event: both lengths and both checksums are the ones that the encoder writes. |
| EventFrames.StreamSplitsUniquely | localstack-core/localstack/aws/protocol/serializer.py:427-496 | A byte stream is a concatenation of the frames of some events if and only if it decodes to these events: there is one way to split it. |
| EventFrames.Layout | localstack-core/localstack/aws/protocol/serializer.py:480-496 | Where each field of a frame is, and which prefix each checksum covers. |
| EventFrames.EncodeEventPayload | localstack-core/localstack/aws/protocol/serializer.py:427-496 | Fails exactly when the length of a header value or of the frame does not fit. Otherwise the result decodes to one event with nothing left over: its payload is the content, `:message-type` is `error` exactly if there is an error code or message and `event` otherwise, `:event-type`, `:error-message` and `:error-code` have their values, the latter two only if they are not empty, and there is no other header. |
| EventFrames.EncodeSection | localstack-core/localstack/aws/protocol/serializer.py:461-469 | The header loop. |
| ChunkedEncoding.RoundTrip | localstack-core/localstack/utils/http.py:25-53 | Parsing the printed chunks gives back every string for every chunk size of at least 1, whatever whitespace, line ends or digits it holds. |
| ChunkedEncoding.PrintedText | localstack-core/localstack/utils/http.py:41-53 | The text that is printed, written out for every chunk size. |
| ChunkedEncoding.HexNumeral | localstack-core/localstack/utils/http.py:44-49 | Lengths are printed in lower-case hexadecimal without leading zeros. |
| ChunkedEncoding.ReadAsNumber | localstack-core/localstack/utils/http.py:31-35 | A word is read as the hexadecimal number that it stands for, and raises if it stands for none. |
| ChunkedEncoding.RoundTripExactly | localstack-core/localstack/utils/http.py:25-53 | For every string and every integer chunk size, the string is printed and read back if and only if the size is positive, or negative with nothing to print. |
| ChunkedEncoding.NegativeSize | localstack-core/localstack/utils/http.py:41-53 | What becomes of negative sizes: the text is read as empty if the size divides the length, and raises otherwise. |
| ChunkedEncoding.ParseOneChunk | localstack-core/localstack/utils/http.py:31-38 | One turn of the parser takes exactly the data of one chunk; the stripping never eats data. |
| ChunkedEncoding.HexRoundTrip | localstack-core/localstack/utils/http.py:35-46 | Printing and reading of hexadecimal lengths are inverse. |
| ChunkedEncoding.ParseChunkedData | localstack-core/localstack/utils/http.py:25-38 | The parser loop; a length word is read as `int(word, 16)` reads it, with or without the prefix 0x, and anything else raises. |
| ChunkedEncoding.CreateChunkedData | localstack-core/localstack/utils/http.py:41-53 | The printer loop for every chunk size: full chunks, a shorter last one, and the final zero; a size of zero raises, and a negative one prints a length that is no number. |
| Stores.LastWriteWins | localstack-core/localstack/services/stores.py:65-149 | A value is found in a scope exactly if the last event that decides about it was a write of that value: the meaning of every run of writes and resets. |
| Stores.WriteIsShared | localstack-core/localstack/services/stores.py:65-149 | A local write is found by one store, a cross-region write by the stores of the same region bundle and by no other, a cross-account write by all, until something else decides; to everybody else and under other names it makes no difference for ever. |
| Stores.AccountResetClears | localstack-core/localstack/services/stores.py:322-335 | After a reset of everything, and whatever happens next, a store that was held in a bundle finds what was written since and nothing older, so it reads defaults first. |
| Stores.RegionResetIsConfined | localstack-core/localstack/services/stores.py:249-281 | A reset of one region bundle makes its stores and its dict forget what came before; for all other bundles and for the universal data it might as well not have happened, whatever comes after. |
| Stores.Forget | localstack-core/localstack/services/stores.py:249-335 | An event that does not concern a scope can be struck from every history, and one that clears it cuts off everything before it. |
| Stores.Store.SetLocal | localstack-core/localstack/services/stores.py:75-76 | A local write keeps every store in agreement with the history. |
| Stores.Store.SetCrossAccount | localstack-core/localstack/services/stores.py:146-149 | The same for a write to the dict of all accounts. |
| Stores.Store.Get | localstack-core/localstack/services/stores.py:65-104 | Reading returns what the history says, and otherwise sets and returns the default. |
| Stores.RegionBundle.Lookup | localstack-core/localstack/services/stores.py:225-247 | A new region gets a new store that shares both dicts; a known one keeps its store; a refused name changes nothing. |
| Stores.RegionBundle.ClearData | localstack-core/localstack/services/stores.py:249-281 | The clearing loop: local attributes, the dict of the account and, on request, the universal dict, which is only reached through a store; then the stores are dropped. |
| Stores.RegionBundle.Reset | localstack-core/localstack/services/stores.py:249-281 | A reset keeps all stores, also the dropped ones, in agreement with the history. |
| Stores.AccountRegionBundle.Lookup | localstack-core/localstack/services/stores.py:305-320 | A new account gets a new region bundle; an invalid account id is refused when validation is on. |
| Stores.AccountRegionBundle.ClearAccount | localstack-core/localstack/services/stores.py:322-335 | One turn of the reset loop clears one account and leaves the others. |
| Stores.AccountRegionBundle.ClearAll | localstack-core/localstack/services/stores.py:322-335 | After the loop over all accounts, exactly what was reachable is empty: other bundles and stores that were dropped before keep their data. |
| Stores.AccountRegionBundle.Reset | localstack-core/localstack/services/stores.py:322-335 | A reset of everything keeps all stores, also those dropped before, in agreement with the history. |
| LazyLoading.LoadedOnce | localstack-core/localstack/services/plugins.py:524-549 | In every interleaving of any number of requests at most one container is created, it is started at most once, its skeleton is registered at most once, and deleting the lock always finds its key. |
| LazyLoading.OneLoader | localstack-core/localstack/services/plugins.py:531-549 | At most one thread is between the second read and the installation. |
| LazyLoading.LockIsDropped | localstack-core/localstack/services/plugins.py:543-549 | When the loader returns, the container is installed and its lock is gone from the table. |
| LazyLoading.NeverReplaced | localstack-core/localstack/services/plugins.py:524-549 | Once installed, a container is never replaced, whatever happens next. |
| LazyLoading.NoDeadlock | localstack-core/localstack/services/plugins.py:263-301 | While a request is not finished, some thread can take a step. |
| LazyLoading.StepsAreBounded | localstack-core/localstack/aws/handlers/service_plugin.py:40-76 | Every step brings its thread forward, so each request ends within 17 steps of its thread. |
| LazyLoading.AllOver | localstack-core/localstack/aws/handlers/service_plugin.py:40-76 | When all requests are over and one succeeded, the service was started once and is running, and was registered once. |
| LazyLoading.AnswersDecide | localstack-core/localstack/services/plugins.py:188-208 | A container is made available exactly if the service is enabled, a start leads to RUNNING or to ERROR as the start and the check answer, and a request fails only because of such an answer, of a timeout, or of a container that is disabled or in error. |
| LazyLoading.BadAnswersFail | localstack-core/localstack/services/plugins.py:188-208 | A request fails when the plugin does not load or the start or the check raises, and the container is then in error. |
| LazyLoading.AllGood | localstack-core/localstack/aws/handlers/service_plugin.py:40-76 | If everything outside answers well and nobody times out, no request fails in any interleaving. |
| LazyLoading.DoneMeansLoaded | localstack-core/localstack/aws/handlers/service_plugin.py:63-70 | A request only succeeds after the service was marked as loaded. |
| LazyLoading.LaterRequestsPass | localstack-core/localstack/aws/handlers/service_plugin.py:40-46 | After any interleaving in which the service was marked as loaded, a request that has not begun yet is done in one step, waits for no lock and changes nothing. |
| LazyLoading.RunInv | localstack-core/localstack/services/plugins.py:524-549 | The invariant holds after every schedule. |
| ServiceLifecycle.EachOperation | localstack-core/localstack/services/plugins.py:188-301 | In every run: stop takes a starting or running service to STOPPED with one more stop, or to ERROR with the error last; check takes a running or failed one to RUNNING or ERROR; require starts an available or stopped one; all others are left as they are. |
| ServiceLifecycle.LifecycleIsSound | localstack-core/localstack/services/plugins.py:169-217 | After every sequence of require, check and stop: ERROR has a recorded error, a disabled service was never started or stopped, and starts exceed completed stops by at most one. |
| ServiceLifecycle.ErrorsAreKept | localstack-core/localstack/services/plugins.py:188-217 | Recorded errors are never dropped. |
| ServiceLifecycle.RequireAnswers | localstack-core/localstack/services/plugins.py:263-301 | One call after the other, require returns a running service, or says that it is disabled, or raises the last recorded error; it is never merely not ready. |
| ServiceRaces.LifecycleIsSound | localstack-core/localstack/services/plugins.py:188-217 | In every interleaving of any number of require, check and stop calls, step by step: starts exceed completed stops by at most one, and ERROR has a recorded error or the failing call is about to record it. |
| ServiceRaces.DisabledIsLeftAlone | localstack-core/localstack/services/plugins.py:263-301 | In every interleaving a disabled service stays disabled, is never started or stopped, and every call ends without effect. |
| ServiceRaces.NoDeadlock | localstack-core/localstack/services/plugins.py:263-301 | In every interleaving some call can go on while one is not over: the lock of the container and the mutex of the manager never wait for each other. |
| ServiceRaces.StepIsReal | localstack-core/localstack/services/plugins.py:188-301 | Every answer has its reason at that moment: a timeout for TimeoutError, the state for the others, the last error for an exception; states and errors follow how the calls of the service end. |
| ServiceRaces.OnlyRequireAnswers | localstack-core/localstack/services/plugins.py:188-301 | In every interleaving: each `require` that is over has an answer, and checks and stops never raise, whatever they ran into. |
| ServiceRaces.IndexErrorExactly | localstack-core/localstack/services/plugins.py:282-301 | The promise that require raises the error of the service fails by an IndexError, in some interleaving, if and only if the service is enabled, require is called at least twice, and check or stop is called as well: the state is set before the error is recorded. |
| ServiceRaces.StopIsLostExactly | localstack-core/localstack/services/plugins.py:188-217 | A service counts as running although each of its starts was stopped, in some interleaving, if and only if it is enabled and both require and stop are called: the check after a start overwrites the state. |
| ServiceLifecycle.ServiceContainer.Start | localstack-core/localstack/services/plugins.py:188-197 | A start counts, and ends in RUNNING, or in ERROR with the error of the start or of the check last. |
| ServiceLifecycle.ServiceContainer.Check | localstack-core/localstack/services/plugins.py:199-208 | A check ends in RUNNING, or in ERROR with its error last. |
| ServiceLifecycle.ServiceContainer.Stop | localstack-core/localstack/services/plugins.py:210-217 | A stop ends in STOPPED and counts, or in ERROR with its error last. |
| ServiceLifecycle.ServiceContainer.RequireRunning | localstack-core/localstack/services/plugins.py:282-301 | Under the lock an available or stopped service is started and checked, all others are left alone; the answer is that it is disabled, that it runs, or its last error. |
| ServiceLifecycle.CheckAll | localstack-core/localstack/services/plugins.py:248-253 | Checks running and failed services in order up to the first check that succeeds; the services behind it keep their state. |
| ServiceLifecycle.StopServices | localstack-core/localstack/services/plugins.py:618-627 | Afterwards no service in the list is starting or running; one that was is STOPPED with one more stop, or in ERROR with its error last; all others, and a second occurrence in the list, are left alone. |
| Batching.Batcher.Add | localstack-core/localstack/utils/batching.py:100-116 | Items are appended in order, and a set trigger stays set. |
| Batching.Batcher.Flush | localstack-core/localstack/utils/batching.py:118-132 | What is returned and what stays are together the old batch in order; a partial flush returns at most the maximum. |
| Batching.Conservation | localstack-core/localstack/utils/batching.py:193-248 | In every interleaving of adders, closers and the loop: the batches handled, the batch in flight and the buffer are together the accepted items in lock order. |
| Batching.OneBatchAfterClose | localstack-core/localstack/utils/batching.py:215-259 | At most one batch is taken after the close. |
| Batching.LeftOver | localstack-core/localstack/utils/batching.py:215-259 | What the loop leaves unhandled when it ends: nothing if the close came between its test and its flush, else the buffer at the close. |
| Batching.DrainedIff | localstack-core/localstack/utils/batching.py:250-259 | Everything accepted was handled if and only if the close found the loop between its test and its flush, or found the buffer empty. |
| Batching.LoopEnds | localstack-core/localstack/utils/batching.py:215-259 | Once closed, the loop ends after at most four steps of its own, in every interleaving. |
| Batching.HandledInTime | localstack-core/localstack/utils/batching.py:215-248 | As long as nobody closes it, everything accepted has been handled, in order, after five more steps of the loop. |
| Batching.CloseDuringHandlerLosesItem | localstack-core/localstack/utils/batching.py:250-259 | A concrete run in which an item that was added while the handler ran is never handled. |
| Batching.AsyncBatcher.Add | localstack-core/localstack/utils/batching.py:193-206 | Appends under the lock, or raises when closed. |
| Batching.AsyncBatcher.Take | localstack-core/localstack/utils/batching.py:215-248 | Copies and clears the buffer after the wait. |
| Ports.PortRange.ReservePort | localstack-core/localstack/utils/net.py:350-381 | A requested port of any protocol is reserved exactly if it is in the range, not in the cache and can be bound; without a request the least such TCP port is reserved, and the call fails only when there is none. While the cache has room for every port that was ever reserved, it says what the history says, and no reservation ever overlaps another one of the same port. |
| Ports.PortRange.TryReserve | localstack-core/localstack/utils/net.py:413-423 | Succeeds exactly if the cache holds no live entry of the port and it can be bound; while the cache has room for every port that was ever reserved, exactly if the history holds no live reservation. |
| Ports.PortRange.IsPortReserved | localstack-core/localstack/utils/net.py:383-392 | A port that the cache reports as reserved is reserved by the history of reservations, and the converse holds while the cache has room for every port that was ever reserved. |
| Ports.PortRange.MarkReserved | localstack-core/localstack/utils/net.py:394-411 | Adds exactly one reservation, whether or not the port is free, and is refused exactly outside the range; reservations of one port overlap afterwards exactly if they did or the port was not free. |
| Ports.PortRange.Subrange | localstack-core/localstack/utils/net.py:317-340 | A range inside this one shares its cache; anything else is refused. |
| Ports.OneHolder | localstack-core/localstack/utils/net.py:350-381 | Without overlaps, no instant lies in two reservations of one port. |
| Ports.PushesOutExactly | localstack-core/localstack/utils/net.py:394-411 | A new entry pushes live entries of other ports out of the cache if and only if the cache is full of them. |
| Ports.OtherProtocolsPushOut | localstack-core/localstack/utils/net.py:350-381 | A concrete failure: a range of one port hands it out for TCP, then for UDP, and then for TCP again, all at one instant. |
| Ports.StillComplete | localstack-core/localstack/utils/net.py:394-411 | When a put fits, every live reservation stays in the cache, also when a port is marked again. |
| Ports.StillKnown | localstack-core/localstack/utils/net.py:394-411 | Whatever is pushed out, every live entry of the cache is still a live reservation. |
| Ports.PortRange.CacheKnows | localstack-core/localstack/utils/net.py:413-423 | What is free by the history is free in the cache, and the converse holds while the cache has room for every port that was ever reserved. |
| Ports.Room | localstack-core/localstack/utils/net.py:308-313 | While the cache has room for every port that was ever reserved, it has room for the next one. |
| Ports.PortCache.TcpIsUncrowded | localstack-core/localstack/utils/net.py:308-313 | Which is so for every history of TCP reservations in the range. |
| Ports.PortCache.Contains | localstack-core/localstack/utils/collections.py:148-157 | Finds a port exactly if a live entry is there. |
| Ports.PortCache.Put | localstack-core/localstack/utils/net.py:406-411 | Expired entries at the front are dropped, a new entry replaces the old one of its port, and others are pushed out only when the cache is full of other ports. |
| Ports.PortCache.Reserve | localstack-core/localstack/utils/net.py:406-411 | Adds one reservation, and keeps reservations of one port apart exactly if they were and the port is free. |
| Ports.IsRangeFree | localstack-core/localstack/utils/net.py:236-240 | True exactly if every port of the range is free and can be bound. |
| Ports.MarkRange | localstack-core/localstack/utils/net.py:254-256 | Reserves exactly the ports of the range, in order. |
| Ports.GetFreeTcpPortRange | localstack-core/localstack/utils/net.py:223-260 | The first draw from which all ports are available is taken and exactly its ports are reserved; otherwise nothing is, and every draw had an unavailable port. |
| ResolveApis.Resolve | localstack-core/localstack/utils/bootstrap.py:137-174 | Returns exactly the services that are not composites and are reachable from the given names through composites and dependencies; it ends for all tables whose composites have no cycle, even if dependencies have. |
| ResolveApis.OrderDoesNotMatter | localstack-core/localstack/utils/bootstrap.py:137-174 | The result depends on the set of names, not on their order or repetition. |
| ResolveApis.Idempotent | localstack-core/localstack/utils/bootstrap.py:137-174 | Resolving a result again changes nothing. |
| ResolveApis.Monotone | localstack-core/localstack/utils/bootstrap.py:137-174 | Asking for more never gives less. |
| ResolveApis.RealCompositesAreAcyclic | localstack-core/localstack/utils/bootstrap.py:86-99 | The search always ends on the composites of the repository. |
| ResolveApis.ServerlessResolved | localstack-core/localstack/utils/bootstrap.py:137-174 | On the tables of LocalStack, `serverless` becomes exactly its composite with everything that it needs, and nothing else. |
| ExactlyOnce.RunsOnce | localstack-core/localstack/utils/sync.py:202-218 | With any number of callers and of wrapped functions that call each other, in every interleaving each function runs at most once, and a finished call has had its function run exactly once. |
| ExactlyOnce.SameAnswer | localstack-core/localstack/utils/sync.py:221-267 | Every finished call has the answer of the single run of its function; two calls of one function have the same answer if and only if the function was not interrupted in one of them. |
| ExactlyOnce.AgreeExactlyIfNeverInterrupted | localstack-core/localstack/utils/sync.py:221-267 | For every set of results that the functions may end with: all callers agree in all interleavings if and only if no result in the set is an interrupt. |
| ExactlyOnce.InterruptIsNotShared | localstack-core/localstack/utils/sync.py:246-263 | A concrete run: the first caller gets the interrupt, the second one gets None. |
| ExactlyOnce.FinishesExactly | localstack-core/localstack/utils/sync.py:199-218 | After any run all callers can still finish if and only if no running function has called a wrapped function that was not done: they all share one mutex, which is not re-entrant. |
| ExactlyOnce.SafeExactlyWithoutNesting | localstack-core/localstack/utils/sync.py:199-218 | For every set of possible nested calls: no interleaving ends in a hang if and only if no function that somebody calls may call a wrapped function. |
| ExactlyOnce.SomebodyCan | localstack-core/localstack/utils/sync.py:202-218 | While no caller is stuck for ever in such a nested call, some caller can take a step. |
| ExactlyOnce.NestedCallHangs | localstack-core/localstack/utils/sync.py:199-218 | A concrete run into such a nested call. |
| Singleton.OneObject | localstack-core/localstack/utils/objects.py:187-210 | With truthy results the factory succeeds at most once, however often it fails, and every caller that returns gets that object. |
| Singleton.SafeExactlyIfTruthy | localstack-core/localstack/utils/objects.py:187-210 | A factory never succeeds twice, in any interleaving of any number of callers, if and only if nothing that it can return is falsy. |
| Singleton.LaterCallersDoNotWait | localstack-core/localstack/utils/objects.py:198-200 | After any interleaving that left an object, even a falsy one, a caller that has not begun yet gets it in two steps, whoever holds the lock, and changes nothing. |
| Singleton.FalsyIsMadeTwice | localstack-core/localstack/utils/objects.py:198-208 | Two callers that race for falsy objects each get their own. |
| Pagination.PagesAreComplete | localstack-core/localstack/utils/collections.py:113-145 | Following tokens from none until none collects exactly the list, in order, if and only if the page size is positive and no page boundary carries the token of an earlier item, or the list is empty and the size zero; for every integer page size. |
| Pagination.CollectFrom | localstack-core/localstack/utils/collections.py:113-145 | From the start of any page, at least as many further requests as expected collect exactly the rest of the list. |
| Pagination.PagesAreCounted | localstack-core/localstack/utils/collections.py:113-145 | The end is reached after exactly the expected number of requests. |
| Pagination.DistinctTokensAreEnough | localstack-core/localstack/utils/collections.py:113-145 | Pairwise different tokens are sufficient for that. |
| Pagination.RepeatedTokenNeverEnds | localstack-core/localstack/utils/collections.py:113-145 | A concrete failure: two items with one token, in pages of one, are paged for ever. |
| Pagination.GetPage | localstack-core/localstack/utils/collections.py:113-145 | Returns the page that starts at the first item with the token, of the filtered list, and the token of the item after it; an unknown token starts over. A negative page size slices and indexes from the end of the list, or raises. |
| Pagination.FilteredIs | localstack-core/localstack/utils/collections.py:122-125 | Filtering keeps exactly the items that the filter accepts, in their order. |

## Left out

CBOR:

- The numeric meaning of floats: finite numbers are bit patterns in the width in which they were sent, so neither the narrowing of a double to four bytes nor rounding is modelled. `datetime` values are the number they are made from; dates out of the range of `datetime` are not modelled.
- Keys that are equal in Python across types (`1`, `True` and `1.0`) are different keys here.
- CBOR error bodies with `__type`, and the renamed members of whole RPC v2 requests and responses.
- CborTheorems.RoundTripTimestamp: `datetime` values are the number they are made from, so the truncation of a time to milliseconds is not stated.
- CborCode.SerializeStructure: members are written under the names they have; renaming to serialization names is not modelled.
- The chunks of an indefinite string are accepted whatever their major type, as in the code; their rejection is not claimed.
- Recursion limits of the interpreter.

Query, XML and JSON:

- Numbers and timestamps in text form; scalars are text, blobs and booleans. Reading base64 follows the lenient decoder of Python.
- XmlCode.ReadShape: repeated elements under a text scalar are an error, where the code returns the list of elements.
- JsonCode.ReadShape: a text or an object under a list shape is an error, where the code iterates over its characters or keys; CBOR media types, which skip base64, are not a case of it.
- XML attributes, namespaces, `resultWrapper`, members bound to headers or the URI, event members, document types and the parsing of XML and JSON text.
- XmlElements.Element.Append: an element is attached to its parent when it is filled, while the code attaches it first; no code looks at the parent in between.
- JsonCode.SerializeInto: a nested dict is likewise assigned when it is filled.
- JsonTheorems.RoundTrip: assumes pairwise different wire names; bodies of members that overwrite each other are not described.
- QueryTheorems.RoundTrip: excluded are flattened lists directly inside a list whose own items are flattened or are structures with required members, flattened maps there with key or value names that look like indices, and map keys that are not text.
- XmlExactness.RoundTripExactly: map keys are scalars, key and value tags differ, and no flattened list holds a flattened collection; on a flattened list that holds itself the parser would not stop.
- Query and XML members with an empty wire name.

Event frames and chunks:

- CRC-32 is any function to 32-bit numbers. The choice of the event member and the Unicode encoding of headers are not modelled.

Stores:

- Attribute values are opaque references, so changes inside a list or a dict that a store returned are not events. The configuration of valid regions is a flag, `\d` means ASCII digits, and stores that never belonged to a bundle are not modelled.

Lazy loading and lifecycle:

- One service, no stop and no load from inside a load; `exists`, `is_api_enabled` and the plugin loader are one step that may fail. The table of route locks is one lock.
- LazyLoading.DoneMeansLoaded: a service is marked as loaded before its routes are added, so no claim is made about its routes.
- ServiceLifecycle.RequireAnswers: here each call is one step, so nobody observes STARTING or STOPPING and nobody waits for them; the steps of calls that interleave are in `ServiceRaces`, with one service, one container per call of stop, and timeouts that may come at any poll.

Batching, ports and the rest:

- A wake-up of the batcher loop may come at any time, which covers notifications and timeouts; exceptions of the handler are logged by the code and are not modelled. `deep_copy` and the getters of the batchers are left out.
- Ports.PortRange.ReservePort: one instant for each call, and `_port_can_be_bound` is a function given by the caller. Which entry a full cache drops is left open.
- ExactlyOnce.RunsOnce: wrapped functions without arguments, whose nested calls go through the same class-level mutex; a caught exception of a nested call is not followed further.
- Singleton.OneObject: no call of `clear`, and no factory that calls itself through the re-entrant lock.
- Pagination.GetPage: lists that change between two requests.
- Sockets, servers, files, TLS, logging, the command line, handler chains, routing of operations, and small helpers.

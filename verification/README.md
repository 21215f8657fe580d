# A verified model of the gremlin.c protobuf compiler and its generated code

gremlin.c turns `.proto` files into C: a `_size` pass that caches the sizes of
sub-messages, an `_encode_at` worker, a `_reader_init` that indexes wire bytes
without copying, and lazy iterators over repeated fields. This project models
three parts of it in Dafny and proves what they promise.

**The generated codec, for every schema.** A schema is a value
(`Schema.Schema`): message types, fields with number, kind, packing and default,
recursive references included. The generated C is modelled as code that
interprets a schema: messages are objects with fields, child references and a
mutable size cache (`Objects.Message`), buffers are arrays, readers and iterators
are objects updated in place. Two simple specifications stand beside it: the pure
`Schema.Encode`, and `Eager.ReadTree`, which parses all bytes into records first
and reads each field off its own records. Main results:

- `Transfer.SendAndReceive`: size, encode into a buffer of exactly that size, read
  back - the message sent arrives, for every schema and every finite, possibly
  shared message graph. `RoundTrip.TreeReads` is the pure statement,
  `Reencode.ReadReencodes` says that encoding again gives the same bytes and
  `Reencode.NormalIsSame` says which messages come back changed at all.
- `Encoder.SizeOf`, `Encoder.WriteMessage`: every reachable cache becomes the
  length of the pure encoding, no data field changes, and exactly the bytes of the
  pure encoding are stored, DAGs included.
- `ReadBack.ReadMessage`: on arbitrary bytes the lazy reader with its offsets,
  counters and rescans delivers exactly what the eager parser does, errors included.
- `PackedBlocks.NumbersExact`: exactly which occurrences of a repeated scalar read
  back, and to what; `PackedBlocks.StrayExample` is an input that initialization
  accepts and the iterator cannot deliver.
- `Unknown.ReadUnmoved`: records the type does not know change nothing.
- `Wire.GroupLimit`: skipping a group with its 32-bit depth counter is the recursive
  grammar on all buffers of a length if and only if that length is below 2^32 - 1.
- `Format.ScalarFormat`, `Format.RecordExact`, `Entries.EntryExact`: the wire format
  in plain numbers, written down without the tables that encoder and reader share.
- `Varint.ClzIsCascade`, `Scalars.ZigZagInterleaves`: the two facts about bit
  tricks that the repository admits or only documents.

**The descriptor graph.** One invariant of the iterative three-colour search
(`DepthFirst.Inv`) serves the cycle check and both topological sorts. The cycle
check reports a cycle if and only if there is one, the file order puts targets
first except around a cycle, the forward declarations are exactly the messages
named by one that does not come after them, the visible set is exact on every
graph, a name means what the innermost scope with an entry says, and the counting,
filling and `extend` walks over a file agree slot by slot.

**The encode plan.** Which messages get contracts is said exactly, from the
declarations; the avoid/navoid saturation over growing arrays terminates with the
least set closed under its seeds and four rules; and emission in message order never
looks up a predicate that is not defined yet and writes every clause called for.

`dafny verify dfyconfig.toml` checks everything. Integers are unbounded and the C
widths are written out; `hide` statements keep proofs small.

## Layout

| files | content |
|---|---|
| bits, varint, scalars, wire | the primitives of `runtime/include/gremlin.h` |
| records, schema, objects | wire records, schemas and their pure encoding, message objects |
| encoder, transfer | the size and encode passes; the whole way of a message |
| cells, scan, layout, reader, iterators | reader cells, initialization, getters and iterators |
| eager, bridge, readback | the eager reader and its agreement with the lazy one |
| roundtrip, reencode, packed, unknown | the round trip and the other laws of the format |
| format, entries | the bytes of every kind, packing, record and map entry in plain numbers |
| graph, dfs, descriptors, imports, visibility, messageorder | the graph passes |
| names, typerefs, extends, slots | names, type references, `extend` blocks, the flat descriptor arrays |
| plan, planemit | the encode plan and its emission |

## Model

| member | source | states |
|---|---|---|
| Varint.ClzIsCascade | runtime/include/gremlin.h:208-262 | for every 64-bit value the count-leading-zeros size equals the comparison cascade, the identity the repository admits as an axiom |
| Varint.CascadeIsLength | runtime/include/gremlin.h:230-277 | both size cascades give the number of bytes of the canonical encoding |
| Varint.EncodeAt | runtime/include/gremlin.h:712-797 | stores exactly the canonical bytes at `off`, returns the end, leaves the rest of the buffer alone |
| Varint.VarintDecode | runtime/include/gremlin.h:386-426 | on arbitrary bytes and for both word widths: the sum of the 7-bit groups modulo the width, the bytes up to the first without continuation bit, or Truncated/Overflow |
| Varint.DecodeEncoded | runtime/include/gremlin.h:386-426 | an encoded value followed by anything decodes to itself and consumes exactly its own bytes |
| Varint.NarrowAgreesWithWide | runtime/include/gremlin.h:890-929 | when the five-byte decoder succeeds the ten-byte one consumes the same bytes and agrees modulo 2^32 |
| Varint.DecodeLocal | runtime/include/gremlin.h:386-426 | a decoder never looks past the bytes it consumes |
| Scalars.ZigZagInterleaves | runtime/include/gremlin.h:1261-1286 | shift and xor compute 2v for v >= 0 and -2v-1 for v < 0, at both widths |
| Scalars.UnZigZagInterleaves | runtime/include/gremlin.h:1270-1294 | the inverse code undoes the interleaving for every unsigned word |
| Scalars.ZigZagBijection | runtime/include/gremlin.h:1244-1294 | the two are mutually inverse bijections at both widths |
| Scalars.Fixed32EncodeAt | runtime/include/gremlin.h:808-816 | stores the four little-endian bytes and nothing else |
| Scalars.Fixed64EncodeAt | runtime/include/gremlin.h:831-843 | stores the eight little-endian bytes and nothing else |
| Scalars.Fixed32Decode | runtime/include/gremlin.h:516-531 | the word of four bytes, or Truncated |
| Scalars.Fixed64Decode | runtime/include/gremlin.h:586-603 | the word of eight bytes, or Truncated |
| Scalars.WordRoundTrip | runtime/include/gremlin.h:808-843 | little-endian bytes read back to the word |
| Scalars.WireRoundTrip | gremlinc/src/emit_scalar.c:87-252 | the casts of the encoder and the decoder of every kind cancel on the kind's whole range |
| Scalars.FromWireInRange | gremlinc/src/emit_scalar.c:154-252 | any decoded word becomes a value of the field's C type |
| Scalars.EnumWireRoundTrip | runtime/include/gremlin.h:132-148 | an enum of either C type goes out sign-extended as an int32 and comes back |
| Format.KindRange | gremlinc/src/emit_common.c:20-34 | the values of every kind's C type, as numbers |
| Format.PayloadFormat | gremlinc/src/emit_scalar.c:87-148 | every kind's bytes in arithmetic: four or eight little-endian bytes of the value modulo 2^32 or 2^64 for the fixed kinds, the varint of the value modulo 2^64 for int32, int64 and enum (ten bytes when negative), of 2v or -2v - 1 for the sint kinds, of the value itself for uint and bool |
| Format.ScalarFormat | gremlinc/src/emit_scalar.c:87-148 | the same behind the tag: 8n + 5 for the four-byte kinds, 8n + 1 for the eight-byte kinds, 8n for the others |
| Format.WordMeaning | gremlinc/src/emit_scalar.c:154-252 | what each kind makes of a decoded word: the congruent value in the C type's range, the undone interleaving, or zero and one |
| Format.ReadMeaning | gremlinc/src/emit_scalar.c:154-252 | on arbitrary bytes: a varint kind reads one varint and its value is given by the sum of the 7-bit groups |
| Format.ReadFixedMeaning | gremlinc/src/emit_scalar.c:154-252 | a fixed-width kind fails exactly on fewer than four or eight bytes and otherwise reads their little-endian value |
| Format.VarintErrors | runtime/include/gremlin.h:386-426 | truncated exactly when the bytes run out before the limit with none ending the varint; overflow exactly when the last permitted byte still continues |
| Wire.BytesDecode | runtime/include/gremlin.h:1018-1041 | the payload behind a length prefix, or the error of the length or of too few bytes |
| Wire.DecodePrefixed | runtime/include/gremlin.h:1018-1041 | a length-prefixed payload followed by anything decodes to the payload |
| Wire.SkipData | runtime/include/gremlin.h:1102-1219 | skips one payload of any wire type, errors included |
| Format.PayloadShape | runtime/include/gremlin.h:1102-1133 | a complete payload of each wire type: one varint, eight bytes, a length and as many bytes, four bytes; no other wire type has one |
| Format.PayloadExact | runtime/include/gremlin.h:1102-1219 | outside groups skipping succeeds with n if and only if the first n bytes are one complete payload |
| Format.PrefixErrors | runtime/include/gremlin.h:1018-1041 | a length prefix fails exactly like its varint or as truncated when it asks for more bytes than follow |
| Wire.GroupSkip | runtime/include/gremlin.h:1134-1214 | the loop with the wrapping depth counter refines the recursive function |
| Wire.GroupComplete | runtime/include/gremlin.h:1134-1214 | every grammatical group body, at any depth below the wrap, is consumed exactly |
| Wire.GroupSound | runtime/include/gremlin.h:1134-1214 | what is consumed without wrapping is a grammatical body |
| Wire.GroupExact | runtime/include/gremlin.h:1134-1214 | below 2^32 - 1 bytes, skipping succeeds with n if and only if the first n bytes are a group body of fields and nested groups |
| Wire.CounterWraps | runtime/include/gremlin.h:1139-1175 | 2^32 - 1 start tags are accepted as a complete group: the counter wraps to zero |
| Wire.GroupLimit | runtime/include/gremlin.h:1134-1214 | code and grammar agree on every buffer of a length if and only if the length is below 2^32 - 1 |
| Records.SkipLocal | runtime/include/gremlin.h:1102-1219 | skipping never looks past what it skips, groups included |
| Records.ParseAppend | gremlinc/src/emit_message.c:900-925 | bytes concatenated at a record boundary parse to concatenated records |
| Format.RecordExact | gremlinc/src/emit_message.c:896-925 | a record is a tag varint of at most five bytes with a wire type below six and a nonzero number in its low 32 bits, and one skippable payload |
| Format.RecordErrors | gremlinc/src/emit_message.c:896-925 | which error, in which order: the tag varint, the wire type, the field number, the payload |
| Cells.ArmLocal | gremlinc/src/emit_message.c:195-225 | a reader arm that accepts consumes exactly what the skipper would and reads no further |
| Format.OwnTags | gremlinc/src/emit_message.c:903-907 | the tags each field's arms match, as numbers: 8n + 2 for what has a length, the kind's own for a scalar, both for a repeated scalar |
| Scanning.ScanIsFold | gremlinc/src/emit_message.c:880-925 | the reader loop accepts exactly the byte strings that parse into records its arms accept, and caches the fold over the records |
| Scanning.FoldIsFields | gremlinc/src/emit_message.c:903-907 | with distinct field numbers the arms do not disturb each other: the whole scan succeeds iff each field's own fold does |
| Scanning.FoldContent | gremlinc/src/emit_message.c:900-925 | a cell depends on the field's own records only, but for offsets |
| Layout.SpanFold | gremlinc/src/emit_bytes.c:116-138 | a bytes or message field caches the span of its last occurrence |
| Layout.ListFold | gremlinc/src/emit_repeated_bytes.c:73-95 | a list caches the number of its records and an offset right behind the first one's tag |
| Layout.PackFold | gremlinc/src/emit_repeated_scalar.c:356-440 | the offset of a repeated scalar is its first occurrence that holds elements |
| Layout.IntFold | gremlinc/src/emit_scalar.c:154-252 | a singular scalar is accepted iff every one of its records decodes, uint32, sint32 and bool through the five-byte decoder, and then the cell holds the value of the last one |
| Reader.CountBlock | gremlinc/src/emit_repeated_scalar.c:381-398 | elements of a packed block: length over width, or bytes without continuation bit |
| Reader.MessageReader.InitFrom | gremlinc/src/emit_message.c:874-925 | `_reader_init` computes the specified cells or the specified error on arbitrary bytes; Layout.IntFold, SpanFold, ListFold and PackFold say what the cells hold |
| Reader.MessageReader.ArmFor | gremlinc/src/emit_message.c:903-907 | the first arm in declaration order whose tag matches |
| Reader.MessageReader.RunArm | gremlinc/src/emit_message.c:195-225 | dispatch to the arm of the field's family; only this field's cell changes (what a run of arms leaves there: the four folds) |
| Reader.MessageReader.SpanArm | gremlinc/src/emit_msg_ref.c:83-108 | caches the payload's span and sets the has-bit |
| Reader.MessageReader.ListArm | gremlinc/src/emit_repeated_msg.c:101-125 | counts and remembers the first offset |
| Reader.MessageReader.PackedOccurrence | gremlinc/src/emit_repeated_scalar.c:371-405 | packed arm: conflict test, count, first offset, packed flag |
| Reader.MessageReader.ExpandedOccurrence | gremlinc/src/emit_repeated_scalar.c:407-438 | expanded arm: conflict test, payload advance, count |
| Reader.GetInt | gremlinc/src/emit_message.c:1028-1036 | the cached value, or the default for a missing reader or field |
| Reader.GetBlob | gremlinc/src/emit_message.c:1018-1036 | the cached span's bytes, or the default |
| Reader.GetChild | gremlinc/src/emit_message.c:960-987 | initializes the child reader on the span, or on nothing |
| Bridge.InitExact | gremlinc/src/emit_message.c:880-925 | initialization succeeds iff the bytes parse and every field accepts its own records; each cell is that field's fold |
| Bridge.ReadNeedsInit | gremlinc/src/emit_message.c:874-925 | whatever reads eagerly also initializes |
| Bridge.SingularRead | gremlinc/src/emit_scalar.c:154-252 | over the records alone: a singular scalar reads iff all its records decode, to the last one's value, or to the default without records |
| Bridge.LastWins | gremlinc/src/emit_message.c:896-925 | in a message read off arbitrary bytes, a singular scalar, bytes or message field is what the last record with its tag holds |
| Bridge.NeverSent | gremlinc/src/emit_message.c:1018-1038 | a field no record belongs to reads as its default, its preset, no message, or an empty list or map |
| Iterators.ListIterator.Begin | gremlinc/src/emit_repeated_bytes.c:100-175 | the iterator stands on the first of the field's records |
| Iterators.ListIterator.Advance | gremlinc/src/emit_repeated_bytes.c:146-173 | the rescan finds the next record of the field across any others, without error |
| Iterators.ListIterator.NextBlob | gremlinc/src/emit_repeated_bytes.c:146-173 | yields the next record's payload and never fails |
| Iterators.ListIterator.NextChild | gremlinc/src/emit_repeated_msg.c:130-203 | initializes the child reader on the next record's payload |
| Iterators.ListIterator.NextEntry | gremlinc/src/emit_map.c:587-679 | key and value of the next entry as the eager entry scan reads them |
| Iterators.WalkEntry | gremlinc/src/emit_map.c:608-665 | the walk over an entry's inner tags: last key and value win, unknown tags skipped, a replaced message value still checked |
| Entries.EntryLastWins | gremlinc/src/emit_map.c:608-665 | over the records of an entry: the key is that of the last record with the key's tag, the value that of the last with the value's tag, else what the walk began with |
| Entries.EntryDefaults | gremlinc/src/emit_map.c:592-603 | an entry without a key has key zero or no bytes; one without a value has zero, no bytes, or the message that no bytes encode |
| Entries.EntryExact | gremlinc/src/emit_map.c:608-665 | an entry is accepted iff its keys and values all decode and every nonempty message value that a later one replaces initializes |
| Entries.EntryTags | gremlinc/src/emit_map.c:608-640 | the tags of key and value, as numbers |
| Iterators.NumberIterator.EnterBlock | gremlinc/src/emit_repeated_scalar.c:508-538 | finds the next packed block with bytes, or fails when no element is left to deliver |
| Iterators.NumberIterator.NextInBlock | gremlinc/src/emit_repeated_scalar.c:539-546 | delivers one element of the block |
| Iterators.NumberIterator.NextExpanded | gremlinc/src/emit_repeated_scalar.c:547-561 | delivers the next expanded occurrence, always |
| Iterators.NumberIterator.Next | gremlinc/src/emit_repeated_scalar.c:494-561 | one call delivers the head of what is left; a call fails only if what is left cannot be delivered |
| ReadBack.ReadMessage | gremlinc/src/emit_message.c:874-1038 | on arbitrary bytes: initialize, call every getter and iterator, recursively - the result is the eager parse, or nothing where that is nothing |
| ReadBack.DrainNumbers | gremlinc/src/emit_repeated_scalar.c:442-563 | `count` calls of `next` deliver the eager elements |
| ReadBack.DrainBlobs | gremlinc/src/emit_repeated_bytes.c:100-175 | `count` is the number of records and as many calls yield exactly their payloads in wire order |
| ReadBack.DrainChildren | gremlinc/src/emit_repeated_msg.c:130-203 | the children of all records in order, or nothing if one does not read |
| ReadBack.DrainTable | gremlinc/src/emit_map.c:516-680 | the entries of all records in order, or nothing if one does not read |
| PackedBlocks.UncountedExact | gremlinc/src/emit_repeated_scalar.c:371-438 | exactly which sequences of packed and expanded occurrences initialization accepts, with the resulting count and flag |
| PackedBlocks.BlocksExact | gremlinc/src/emit_repeated_scalar.c:503-546 | the block iterator delivers all counted elements iff each block's counted elements decode and every block followed by elements has no bytes left over |
| PackedBlocks.NumbersExact | gremlinc/src/emit_repeated_scalar.c:356-563 | a repeated scalar reads back iff all its occurrences are expanded, or all from the first element on are packed in tidy blocks; the value is the concatenation |
| PackedBlocks.WholeBlocksRead | gremlinc/src/emit_repeated_scalar.c:371-438 | packed blocks of whole elements, empty ones included, always read back to all elements, and the count is their number |
| PackedBlocks.StrayElement | gremlinc/src/emit_repeated_scalar.c:395-433 | an expanded first element behind blocks without elements is counted but never delivered |
| PackedBlocks.StrayExample | gremlinc/src/emit_repeated_scalar.c:395-433 | four bytes on which initialization succeeds with count 1 and iteration fails |
| RoundTrip.ScalarRoundTrip | gremlinc/src/emit_scalar.c:87-252 | a scalar's bytes followed by anything decode to it, through either decoder its field uses |
| Format.FieldsInOrder | gremlinc/src/emit_message.c:769-791 | a message is its fields' bytes in declaration order |
| Format.WrittenUnlessDefault | gremlinc/src/emit_message.c:159-193 | a field writes nothing if and only if it holds its default or preset, no message, or an empty list or map |
| Format.PackingForm | gremlinc/src/emit_repeated_scalar.c:301-354 | expanded, and a single element under automatic packing, are tagged elements; packed, and two or more under automatic packing, are tag 8n + 2, length and the elements without tags; an empty list is nothing |
| Format.ListForm | gremlinc/src/emit_map.c:457-483 | lists and maps are one block with tag 8n + 2 for every element, an empty one for a missing message; an entry is its key under number 1 and its value under number 2, both always there |
| RoundTrip.NumbersRecords | gremlinc/src/emit_repeated_scalar.c:301-354 | whichever of the three forms is written, the list reads back |
| RoundTrip.ListRecords | gremlinc/src/emit_repeated_bytes.c:53-71 | a list of payloads goes out as that many records holding them |
| RoundTrip.EntryOnWire | gremlinc/src/emit_map.c:457-483 | an encoded entry scans back to its key and value |
| RoundTrip.TreeReads | gremlinc/src/emit_message.c:769-791 | for every schema and every message below 2^64 bytes, the encoding reads back to the message, null list and map children becoming blank messages |
| Reencode.NormalIsSame | gremlinc/src/emit_repeated_msg.c:42-57 | a message comes back unchanged if and only if no list or map in it, at any depth, lacks a child |
| Reencode.NormalEncodes | gremlinc/src/emit_repeated_msg.c:61-99 | a null child and a blank one encode to the same bytes |
| Reencode.ReadReencodes | gremlinc/src/emit_message.c:769-791 | encoding what was read gives the same bytes again |
| Unknown.UnknownNumber | gremlinc/src/emit_message.c:908-925 | a number the type lacks with any skippable payload, groups included, is foreign |
| Unknown.InitUnmoved | gremlinc/src/emit_message.c:908-925 | inserting foreign records at a boundary keeps initialization's verdict and every cell but for offsets |
| Unknown.ReadUnmoved | gremlinc/src/emit_message.c:908-925 | and every getter result and iterator sequence |
| Objects.ObjectTyped | gremlinc/src/emit_message.c:486-720 | what a closed message graph stands for is a message of its type |
| Objects.TreeVals | gremlinc/src/emit_message.c:718-791 | what a message object stands for, field by field: its own scalars and bytes, and in place of every reference what that message stands for |
| Encoder.VarintSize | runtime/include/gremlin.h:253-277 | the size used by generated code is the encoding's length |
| Encoder.ScalarSize | gremlinc/src/emit_scalar.c:26-81 | the size expression of every kind is the length of the bytes written |
| Encoder.SizeNumbers | gremlinc/src/emit_repeated_scalar.c:261-299 | the size of a repeated scalar in each packing |
| Encoder.SizeBlobs | gremlinc/src/emit_repeated_bytes.c:33-51 | the size of a repeated bytes field |
| Encoder.SizeChild | gremlinc/src/emit_msg_ref.c:31-54 | sizes the child, fills its caches, and counts tag, length and bytes |
| Encoder.SizeChildren | gremlinc/src/emit_repeated_msg.c:28-59 | sizes every element; a null one counts as an empty message |
| Encoder.SizeSlot | gremlinc/src/emit_map.c:119-178 | a key's or value's share; a message value is sized by two calls with the same result |
| Encoder.SizeTable | gremlinc/src/emit_map.c:431-455 | the size of a map field, values' caches filled |
| Encoder.SizeField | gremlinc/src/emit_message.c:123-157 | dispatch: one field's exact share, defaults suppressed |
| Encoder.SizeOf | gremlinc/src/emit_message.c:718-741 | `_size` returns the length of the pure encoding, caches it, caches it in every reachable message, and changes nothing else; shared children allowed |
| Encoder.StoreField | gremlinc/src/emit_scalar.c:87-148 | tag and scalar bytes, exactly |
| Encoder.StoreBlob | gremlinc/src/emit_bytes.c:96-114 | tag, length and payload, exactly |
| Encoder.StoreNumbers | gremlinc/src/emit_repeated_scalar.c:301-354 | the list in the form its packing asks for, exactly |
| Encoder.StoreBlobs | gremlinc/src/emit_repeated_bytes.c:53-71 | all payloads in order, exactly |
| Encoder.WriteChild | gremlinc/src/emit_msg_ref.c:56-81 | the cached size as length prefix, then the child's bytes |
| Encoder.WriteChildren | gremlinc/src/emit_repeated_msg.c:61-99 | all elements, null ones as empty messages |
| Encoder.WriteSlot | gremlinc/src/emit_map.c:180-267 | a key or value, always written |
| Encoder.WriteEntry | gremlinc/src/emit_map.c:466-479 | one entry; sizing its message value again keeps every right cache right |
| Encoder.WriteTable | gremlinc/src/emit_map.c:457-483 | all entries in order |
| Encoder.WriteField | gremlinc/src/emit_message.c:159-193 | dispatch: one field's exact bytes |
| Encoder.WriteMessage | gremlinc/src/emit_message.c:769-791 | after `_size`, `_encode_at` stores exactly the pure encoding at [off, off + size) and returns its end; caches stay right |
| Transfer.SendAndReceive | gremlinc/src/emit_message.c:718-925 | `_size`, a buffer of that size, `_encode_at`, reading back: the message arrives |
| DepthFirst.Room | descriptors/src/resolve.c:111-119 | an unseen node leaves room for itself on a stack of n frames |
| DepthFirst.MarkedExactly | descriptors/src/resolve.c:593-612 | the nodes met while on the stack are exactly the targets of edges whose source does not come after them |
| DepthFirst.LateTarget | descriptors/src/resolve.c:481-521 | an edge whose target is not placed before its source lies on a cycle |
| DepthFirst.Unmarked | descriptors/src/resolve.c:129-175 | no node met twice means no cycle |
| DepthFirst.CycleFound | descriptors/src/resolve.c:159-163 | a target still on the stack lies on a cycle |
| Imports.Context.FileIndex | descriptors/src/resolve.c:79-89 | the first position of a file, or none |
| Imports.ImportEdges | descriptors/src/resolve.c:79-99 | the import graph over the file objects: an edge leads to the first position of a file an import was resolved to |
| Imports.Context.Search | descriptors/src/resolve.c:129-173 | the search from one root: finds a file on a cycle or keeps the invariant, within n frames |
| Imports.Context.CheckNoCycles | descriptors/src/resolve.c:100-176 | CIRCULAR_IMPORT if and only if the resolved import graph has a cycle, and then the reported source lies on one |
| Imports.Context.PlaceFrom | descriptors/src/resolve.c:485-521 | places what a root reaches, each file once, within n frames |
| Imports.Context.TopoSortFiles | descriptors/src/resolve.c:461-524 | a permutation of the files; every import in front of its importer unless both lie on a cycle |
| Imports.ItemsOrdered | descriptors/include/gremlind/resolve.h:127-141 | without cycles every resolved import is an earlier item |
| Visibility.LookupFile | descriptors/src/resolve.c:61-77 | the file of the first source with that path |
| Visibility.LookupIsFirst | descriptors/src/resolve.c:61-77 | the linked file is the one at the first index whose source has the path; none if no source has it |
| Visibility.LinkFile | descriptors/src/resolve.c:646-662 | all imports of a file resolved, or the first missing target reported |
| Visibility.LinkImports | descriptors/src/resolve.c:635-666 | fails iff some import has no target; otherwise every import keeps its path and kind and leads to the file at the first index with that path |
| Visibility.VisibleFrom | descriptors/src/resolve.c:203-236 | the breadth-first closure: sound, complete, duplicate-free, within n slots |
| Visibility.ComputeVisibility | descriptors/src/resolve.c:187-251 | on any graph: itself first, no duplicates, at most n files, and exactly the least set with the file, its direct imports and the public imports of its members |
| Visibility.SeenIsLeast | descriptors/src/resolve.c:187-251 | without graphs or paths: the visible files are part of every set that holds the file, what it imports, and with each file its public imports |
| Visibility.SeenIsView | descriptors/src/resolve.c:187-251 | and they are such a set themselves |
| MessageOrder.TargetIndex | descriptors/src/resolve.c:531-549 | the position of the message a field holds, directly or as a map value |
| MessageOrder.EdgeIsHolds | descriptors/src/resolve.c:531-549 | an edge from one message to another iff a field of the first has the second as its type or as its map value type |
| MessageOrder.OrderFrom | descriptors/src/resolve.c:580-615 | the search from one root with the needs-declaration flags |
| MessageOrder.TopoSortMessages | descriptors/src/resolve.c:551-633 | a permutation; predeclare is, in index order, exactly the messages some message not after them refers to |
| MessageOrder.MarkNamedBefore | gremlinc-gen/src/emit_file.c:23-54 | marks exactly the messages an earlier one in the order holds |
| MessageOrder.HoistIsStrict | gremlinc-gen/src/emit_file.c:21-54 | the marked messages are those another message names early; predeclared but unmarked ones refer to themselves |
| MessageOrder.EmitHoisted | gremlinc-gen/src/emit_file.c:76-116 | marked declarations go out first, the rest in place |
| MessageOrder.EachPieceOnce | gremlinc-gen/src/emit_file.c:76-116 | no text is lost or repeated |
| MessageOrder.DeclaredFirst | gremlinc-gen/src/emit_file.c:21-22 | a reader is declared before any contracts of a message that holds it |
| Names.ParseName | descriptors/src/name.c:24-80 | the name, or an error, with a segment array of exactly the counted size |
| Names.ParseIsInverse | descriptors/include/gremlind/name.h:55-64 | a span parses to a name iff the name has no empty or dotted segment and is written so |
| Names.NameEq | descriptors/src/name.c:7-22 | equality of all segments |
| TypeRefs.LookupInVisible | descriptors/src/resolve.c:280-303 | the first declaration of that name, in visibility order, messages of a file before its enums |
| TypeRefs.LongestPrefix | descriptors/include/gremlind/resolve.h:108-125 | the longest prefix of the scope with any visible match decides; the walk fails only if no prefix has one |
| TypeRefs.RelativeName | descriptors/src/resolve.c:343-358 | a relative name resolves to t iff for some j the first visible entry named by the first j scope segments and the name has type t and no longer prefix has any entry; it is not found iff no prefix has one |
| TypeRefs.AbsoluteName | descriptors/src/resolve.c:338-341 | with a leading dot it resolves to t iff the first entry of exactly that name has type t, whatever the scope |
| TypeRefs.NoName | descriptors/src/resolve.c:315-336 | empty spans are not found, builtins are themselves, and a span is invalid iff no name is written like it |
| TypeRefs.EntriesFirst | descriptors/src/resolve.c:280-303 | among the visible files the first one with an entry of the name decides |
| TypeRefs.FileFirst | descriptors/src/resolve.c:280-303 | within a file the first message of the name decides, and only without one the first enum |
| TypeRefs.ResolveNamed | descriptors/src/resolve.c:315-359 | the span's meaning entry by entry (`Means`): builtin; with a leading dot the first entry of that full name, whatever the scope; otherwise the innermost scope with an entry decides; not found and invalid exactly when they should be |
| TypeRefs.ResolveFieldType | descriptors/src/resolve.c:361-396 | a named type, or key and value of a map (TypeRefs.FieldMeaning and MapMeaning say what that is over the entries) |
| TypeRefs.FieldMeaning | descriptors/src/resolve.c:410-440 | a field means what its span means in the message's scope among the files its own file sees; one added by an `extend` block, in the block's scope among the files the extending file sees |
| TypeRefs.MapMeaning | descriptors/src/resolve.c:361-396 | a map is the map of its key's and value's meanings; the key's failure comes first |
| TypeRefs.ResolveMessage | descriptors/src/resolve.c:410-440 | every field's type in its own scope, or in that of the extending file; the first failing field otherwise |
| TypeRefs.ResolveTypeRefs | descriptors/src/resolve.c:398-444 | every field of every message of every file resolved in its scope, or a field named that does not resolve |
| Slots.CountBody | descriptors/src/build.c:187-254 | messages and enums at every depth |
| Slots.OwnFieldList | descriptors/src/build.c:332-440 | the fields of a body, oneof members flattened, into an array of exactly their number |
| Slots.FieldsOfParts | descriptors/src/build.c:332-440 | the fields of a body are those of its parts in order: a field itself, a oneof's members, nothing from nested descriptors |
| Slots.Filler.FillMessage | descriptors/src/build.c:316-458 | the message's slot, then those of everything nested, with parents |
| Slots.Filler.FillNodes | descriptors/src/build.c:460-508 | the slots of all entries in pre-order, earlier slots untouched |
| Slots.BuildFile | descriptors/src/build.c:510-582 | the counted arrays are filled exactly, in pre-order, parents before children |
| Slots.PathsFollowSlots | descriptors/src/name.c:132-150 | each slot is named after its parent slot: the flat layout and the tree give the same names |
| Slots.PathsFound | descriptors/src/name.c:132-150 | the names given are exactly the package followed by a path of nested messages |
| Slots.PackageParsed | descriptors/src/name.c:116-130 | a nonempty package has the name n iff n is a proper name written like it, with or without a leading dot |
| Slots.ComputeScopedNames | descriptors/src/name.c:114-173 | succeeds iff the package is absent, empty or written as a proper name; then every descriptor without a parent is named by that name and its own, every other by its parent's name and its own, and the names are the tree's |
| Slots.WalkBody | descriptors/src/extend.c:226-266 | the running cursor reaches the slot of each nested message, so every `extend` block is found in the scope its nesting says |
| Slots.ExtendsFound | descriptors/src/extend.c:226-266 | an `extend` block is found in a scope iff the messages the scope names are nested so and the last one holds the block |
| Slots.ScopesOfFile | descriptors/src/extend.c:286-330 | building, naming and walking again agree for a whole file: succeeds iff the package is absent or written as a proper name, and finds an `extend` block in package plus path iff the messages along the path hold it |
| Extends.LookupMessage | descriptors/src/extend.c:68-81 | the first visible message of that name, enums passed over |
| Extends.ResolveTarget | descriptors/src/extend.c:87-128 | the extended message: the same scope walk over messages alone, and each error |
| Extends.RelativeTarget | descriptors/src/extend.c:110-128 | a relative target resolves to t iff t is the first visible message under the longest scope prefix that has a message of the name; enums are passed over |
| Extends.AbsoluteTarget | descriptors/src/extend.c:104-109 | with a leading dot it is the first visible message of exactly that name |
| Extends.NoTarget | descriptors/src/extend.c:87-102 | an empty target is not found; it is invalid iff no name is written like it |
| Extends.ApplyExtend | descriptors/src/extend.c:167-221 | the target keeps its fields and gets the block's behind them, each with the extending file and scope; no other message changes |
| EncodePlan.PairList.Add | gremlinc/src/emit_encode_spec.c:335-356 | appends unless present, growing the array |
| EncodePlan.Plan.SeedField | gremlinc/src/emit_encode_spec.c:433-452 | the pairs one message field calls for |
| EncodePlan.Plan.Round | gremlinc/src/emit_encode_spec.c:453-475 | reports a change iff a list grew; a round without change leaves the lists saturated |
| EncodePlan.Plan.Saturate | gremlinc/src/emit_encode_spec.c:453-475 | terminates, the lists closed under the four rules |
| EncodePlan.BuildPairs | gremlinc/src/emit_encode_spec.c:432-475 | the lists are the least choice of pairs closed under seeds and rules, without duplicates |
| EncodePlan.Classify | gremlinc/src/emit_encode_spec.c:248-325 | a field is taken if and only if it is supported, a value array, or a message whose type is earlier and has contracts, and has no message fields when repeated; and it is taken as declared |
| EncodePlan.ClassifyAll | gremlinc/src/emit_encode_spec.c:394-429 | a message gets contracts if and only if it is within the limits, has no unsupported field, its message fields have earlier types with contracts, the element types of repeated ones have no message fields, and no message field stands beside a repeated one; its fields are kept as declared |
| EncodePlan.EligibleAt | gremlinc/src/emit_encode_spec.c:394-429 | the running summary a message leaves behind decides exactly what its declaration says |
| EncodePlan.ClassifyMessage | gremlinc/src/emit_encode_spec.c:394-429 | ok iff within the limits, every field taken, and no message field beside a repeated one; the flags say whether it has message fields and whether a repeated one lies below |
| PlanEmission.Emitter.EmitAvoid | gremlinc/src/emit_encode_spec.c:628-670 | defines the pair and mentions exactly the children's pairs, all defined before |
| PlanEmission.Emitter.EmitNavoid | gremlinc/src/emit_encode_spec.c:672-704 | defines the pair and mentions avoidance back, arrays and children's pairs, all defined before |
| PlanEmission.Emitter.EmitPairs | gremlinc/src/emit_encode_spec.c:713-733 | defines exactly the pairs whose later message this is, each in full |
| PlanEmission.Emitter.ValidClauses | gremlinc/src/emit_encode_spec.c:924-1041 | every name the validity predicate looks up is defined |
| PlanEmission.Emitter.EmitAll | gremlinc/src/emit_encode_spec.c:1178-1187 | no lookup comes back empty, no mention precedes its definition, every pair's whole definition and every message's clauses are out |
| PlanEmission.AllWritten | gremlinc/src/emit_encode_spec.c:628-704 | pair by pair: the definition of an avoid pair has a clause for every child; that of a navoid pair has the avoidance back, a clause for every array of the message and one for every child; every message's validity keeps its children apart from it, from its arrays and from each other |
| PlanEmission.PlanAndEmit | gremlinc/src/emit_encode_spec.c:372-484 | for every file: exactly the eligible messages get contracts, the pairs are the least closed choice for them, and every definition and clause they call for is out, in order |

## Where code and documentation differ

- The skipper is documented to track nesting with a depth counter; the counter is a
  32-bit unsigned, so 2^32 - 1 start tags end a group (`Wire.CounterWraps`).
- After an empty packed block the packed flag stays set when an expanded element
  follows: initialization accepts and iteration fails (`PackedBlocks.StrayExample`;
  `PackedBlocks.NumbersExact` says exactly when this cannot happen).
- A varint cut off at the end of a packed block is not counted and only harms a
  later block (`PackedBlocks.BlocksExact`).
- Naming takes an empty package for an absent one; the walk over `extend` blocks
  parses any package there is and would reject it (`Slots.ScopesOfFile`).
- The file order is documented as undefined among cycle participants; in fact only
  edges on a cycle can be out of order (`Imports.Context.TopoSortFiles`).
- A repeated singular message takes its last occurrence without merging, and mixed
  packed and expanded occurrences are rejected. The model does the same.
- Singular `uint32`, `sint32` and `bool` fields go through the five-byte decoder,
  lists and maps through the ten-byte one. The model does the same.

## Left out

- Encoder.WriteMessage: asks that the encoded size be below 2^64 and that the message graph have no cycle, as the C code needs.
- Wire.SkipData: buffers are sequences of any length, so `size_t` overflow of offsets, impossible for real buffers, is not modelled.
- TypeRefs.ResolveTypeRefs: asks that no message object stands in two files or twice in one, which separate arrays guarantee in C.
- MessageOrder.MarkNamedBefore: the sorted array searched by address is a map from messages to positions.
- MessageOrder.EmitHoisted: the pieces are markers for text segments; the plain loop for files with nothing marked is its case without marks.
- EncodePlan.ClassifyAll: the limits on weight, cost and field count are an arbitrary input, and scalar families are only supported or not.
- Slots.WalkBody: finds each block and its scope; applying it (`Extends.ApplyExtend`) is a separate step here, and the packing it gives the fields is not modelled.
- Slots.Filler.FillMessage: fills the fields before the nested descriptors, where the C loop interleaves the two; no step reads the other's result.
- Float and double fields: fixed-width bit patterns, covered by the fixed kinds; the comparison with a NaN or negative-zero default is not modelled.
- Null data pointers of empty byte spans; the model only has the bytes.
- The writer-based encoders (`gremlin_varint_encode` and others): the same loops as the `_at` forms.
- Arena allocation and out-of-memory paths, null contexts: ordinary allocation instead.
- The `.proto` text parser: abstract entry trees and import lists stand in for text.
- Emitted text, name mangling, C names, constants and escapes.
- The weights of the encode plan and the proof hooks it emits.
- Command line, file input and output, benchmarks, tests.

# Hermes bytecode debug information, modelled in Dafny

Hermes stores the debug information of a bytecode module in two byte regions
and a small table:

- the **location stream**, one record per function: a header
  `functionIndex, line, column`, then one delta-encoded entry per further
  location (`addressDelta`, `lineDelta * 2 + hasStatementDelta`,
  `columnDelta`, and `statementDelta` only when the low bit is set), then the
  end marker `-1`;
- the **lexical-scope table**: for each function, `parentId | -1`, the number
  of variable names, then each name as its length followed by its bytes;
- the **file table** `files_`: `(fromAddress, filenameId, sourceMappingUrlId)`
  entries.

Every integer is signed LEB128, the variable-length encoding of section 7.6
of the DWARF 4 standard.

`DebugInfoGenerator` appends to the regions and the table.
`serializeWithMove` turns them into a `DebugInfo`, whose data is the location
stream followed by the scope table, split at `lexicalDataOffset`. The reader
answers queries with `FunctionDebugInfoDeserializer`, a cursor that decodes
one record entry by entry.

The model has one module per part:

| file | module | contents |
|---|---|---|
| `leb128.dfy` | `Leb128` | signed LEB128 `Encode`/`Read` and the round trip `ReadEncode` |
| `location_stream.dfy` | `LocationStream` | the record encoding, the total parsers `HeaderAt`/`StepAt`/`ParseEntries`/`ParseRecord(s)`, the record round trip, and the class `FunctionDebugInfoDeserializer` |
| `file_table.dfy` | `FileTable` | `FileRegion`, the scan of `getFilenameForAddress` as the function `FilenameFor`, and its lemmas |
| `lexical_data.dfy` | `LexicalData` | the scope encoding, `decodeString` and the scope round trip |
| `debug_info.dfy` | `DebugInfoReader` | the class `DebugInfo`: each query is a method with the source's loop, proved equal to a function of the fields (`LocationFor`, `AddressFor`, `VariableNamesAt`, `SourceMapSegments`), plus lemmas about those functions |
| `generator_state.dfy` | `GeneratorState` | what the generator has written, as values: one `FunctionRecord` per record and one `Scope` per scope, the file table entries each call pushes, the invariant's parts, and the lemmas that each append keeps them |
| `generator.dfy` | `Generator` | the class `DebugInfoGenerator` with the fields the source mutates (`sourcesData`, `files`, `lexicalData`, `validData`), ghost fields for the records and scopes written so far, and the invariant `Valid()` that every method keeps: the location data is the records back to back, the file table is exactly what their calls pushed and resolves every location to its file, and each scope's bytes stand at its offset |
| `round_trip.dfy` | `RoundTrip` | what the reader gets back from what the generator wrote |

Corrupt data makes `readSignedLEB128` and `decodeString` fail an assertion
or read out of bounds. The parsers are total: a truncated field is `None`,
and a record scan ends in `Ended(end)` or `Broken`. Each reader method
`requires` only that the bytes its loop actually reads decode. For example,
`getLocationForAddress` reads only up to the first entry past the query.

Decoded addresses are relative to the function's start. The deserializer
starts its address and statement accumulators at 0, and the header stores no
address. The record round trip needs one condition the writer does not
check: no address delta may equal the end marker -1 (`NoEndMarkerDelta`).
`LocationStream.EndMarkerDeltaEndsRecordEarly` shows a two-location record
that violates it and reads back with no entries.

## Model

| member | source | states |
|---|---|---|
| Leb128.ReadEncode | lib/BCGen/HBC/DebugInfo.cpp:68-72 | the reader's signed LEB128 decode of the writer's encoding of any integer gives that integer back and advances past exactly its bytes |
| LocationStream.PackLineDelta | lib/BCGen/HBC/DebugInfo.cpp:372 | the packed line field is odd exactly when a statement delta follows, and shifting it right by one recovers the line delta, negative deltas included |
| LocationStream.ReadDeltas | lib/BCGen/HBC/DebugInfo.cpp:33-42 | an encoded entry reads back as its address, packed line and column deltas, and the statement delta is read exactly when the low bit is set (0 otherwise) |
| LocationStream.StepEncodeEntry | lib/BCGen/HBC/DebugInfo.cpp:32-49 | `next()` on an entry written against the previous location advances the accumulators to the next location (relative to the start) and the cursor past the entry |
| LocationStream.StepEndMarker | lib/BCGen/HBC/DebugInfo.cpp:33-35 | on the end marker `next()` yields nothing and consumes the marker's byte |
| LocationStream.HeaderReads | lib/BCGen/HBC/DebugInfo.cpp:23-28 | the deserializer's constructor reads back the function index, start line and start column that the header holds, and stops after them |
| LocationStream.ParseEncodeEntries | lib/BCGen/HBC/DebugInfo.cpp:355-381 | the entries written for the locations, followed by the end marker, decode one by one to exactly those locations (each at its entry's offset) and then end right after the marker |
| LocationStream.ParseEncodeRecord | lib/BCGen/HBC/DebugInfo.cpp:350-381 | a record written for a nonempty list decodes to its function index, the start's line and column, every location in order, and ends at the end of the record's bytes |
| LocationStream.EntriesAtShape | lib/BCGen/HBC/DebugInfo.cpp:355-380 | the decoded entries are the locations relative to the start, the first at the entries' start, with strictly increasing offsets inside the encoded entries |
| LocationStream.EndMarkerDeltaEndsRecordEarly | lib/BCGen/HBC/DebugInfo.cpp:34-35 | a location one address unit before its predecessor is written as the delta -1, and the reader takes it for the end marker and ends the record early |
| LocationStream.ParseEntriesStep | lib/BCGen/HBC/DebugInfo.cpp:32-49 | a record scan is the first `next()` step followed by the scan from where it stopped; an empty scan is the end marker or corrupt data |
| LocationStream.FunctionDebugInfoDeserializer.constructor | lib/BCGen/HBC/DebugInfo.cpp:23-28 | the cursor starts after the header, with the header's function index and the start's line and column in the accumulators |
| LocationStream.FunctionDebugInfoDeserializer.DecodeInt | lib/BCGen/HBC/DebugInfo.cpp:68-72 | `decode1Int` returns the LEB128 value at the cursor and moves the cursor past it |
| LocationStream.FunctionDebugInfoDeserializer.Next | lib/BCGen/HBC/DebugInfo.cpp:32-49 | `next()` performs exactly one step of the stream: None and the cursor past the marker on the end marker, otherwise the updated accumulators, returned and stored |
| FileTable.FilenameFor | lib/BCGen/HBC/DebugInfo.cpp:104-117 | the lookup is None exactly when the table is empty or its first entry starts after the offset; otherwise it is the file of an entry at or before the offset |
| FileTable.FilenameForLast | lib/BCGen/HBC/DebugInfo.cpp:104-117 | on a sorted table the lookup returns the file of the last entry at or before the offset |
| FileTable.FilenameForIgnoresLater | lib/BCGen/HBC/DebugInfo.cpp:110-115 | entries that start after the offset do not change its lookup |
| FileTable.FilenameForAppended | lib/BCGen/HBC/DebugInfo.cpp:345-348 | an entry appended at an offset no earlier than the others keeps the table sorted and decides the lookup of every offset from it on |
| LexicalData.DecodeString | lib/BCGen/HBC/DebugInfo.cpp:84-102 | a decoded string is as long as the LEB128 length read at the offset and is exactly the bytes that follow that length, ending at the new offset within the data; None exactly when the length is truncated, negative or runs past the data |
| LexicalData.DecodeEncodeString | lib/BCGen/HBC/DebugInfo.cpp:84-102 | a length-prefixed string decodes to itself, and the new offset is just past its bytes |
| LexicalData.DecodeEncodeNames | lib/BCGen/HBC/DebugInfo.cpp:205-206 | names written one after the other decode, count by count, to the same names in order, ending after the last one |
| LexicalData.DecodeEncodeScope | lib/BCGen/HBC/DebugInfo.cpp:191-219 | at the offset of a scope record, getParentFunctionId gives back the parent (None for -1) and getVariableNames gives back the names in order |
| LexicalData.EmptyScopeBytes | lib/BCGen/HBC/DebugInfo.cpp:392-393 | the shared empty record is the two bytes of -1 and 0 |
| DebugInfoReader.DebugInfo.GetFilenameForAddress | lib/BCGen/HBC/DebugInfo.cpp:104-117 | the scan over the file table returns the lookup `FilenameFor` of the offset |
| DebugInfoReader.DebugInfo.ScanRecord | lib/BCGen/HBC/DebugInfo.cpp:123-133 | the loop ends with the last location before the first decoded entry whose address is past the query (the header when the first entry already is), and the offset where its entry began (the record's own offset for the header) |
| DebugInfoReader.DebugInfo.GetLocationForAddress | lib/BCGen/HBC/DebugInfo.cpp:119-140 | the result is the chosen location with the queried address and the file at the chosen offset, or None exactly when that lookup fails |
| DebugInfoReader.EntriesNotAfterSorted | lib/BCGen/HBC/DebugInfo.cpp:127-133 | when decoded addresses do not decrease, an entry is accepted by the scan exactly when its address is at most the query, so the choice is the nearest entry not after it |
| DebugInfoReader.EntriesNotAfterStop | lib/BCGen/HBC/DebugInfo.cpp:127-129 | the scan goes on at an entry exactly when the entry exists and its address is at most the query |
| DebugInfoReader.DebugInfo.FindFileWindow | lib/BCGen/HBC/DebugInfo.cpp:146-167 | the window of a file is None when no entry has the file; otherwise it runs from the first such entry's offset to the next entry's offset, or to `lexicalDataOffset` when that entry is the last |
| DebugInfoReader.FileWindow | lib/BCGen/HBC/DebugInfo.cpp:146-167 | the window is None exactly when no table entry has the file |
| DebugInfoReader.DebugInfo.SearchFunction | lib/BCGen/HBC/DebugInfo.cpp:172-183 | the inner loop returns the first entry of the record whose line, and column when given, match, with the function index and address; without a match it returns nothing and the offset just past the end marker |
| DebugInfoReader.FirstMatchStop | lib/BCGen/HBC/DebugInfo.cpp:173-181 | the inner loop goes on at an entry exactly when the entry exists and does not match |
| DebugInfoReader.DebugInfo.GetAddressForLocation | lib/BCGen/HBC/DebugInfo.cpp:142-187 | the method returns `AddressFor`: None for an unknown file, otherwise the first match of the record scan over the file's window, or None |
| DebugInfoReader.SearchRecordsFirstHit | lib/BCGen/HBC/DebugInfo.cpp:169-186 | when the window's records decode, the scan returns the first of all their matching entries in order, headers excluded, and nothing when none matches |
| DebugInfoReader.EntryHitsFirst | lib/BCGen/HBC/DebugInfo.cpp:173-181 | a record's first hit is its first matching entry, and it has no hits when no entry matches |
| DebugInfoReader.DecodeNamesLoop | lib/BCGen/HBC/DebugInfo.cpp:203-207 | the loop of `decodeString` calls returns the `count` names that decode one after the other from the offset |
| DebugInfoReader.DebugInfo.GetVariableNames | lib/BCGen/HBC/DebugInfo.cpp:191-208 | the method skips the parent field, reads the count and returns the names `VariableNamesAt` decodes from the lexical region |
| DebugInfoReader.DebugInfo.RecordSegmentsAt | lib/BCGen/HBC/DebugInfo.cpp:321-326 | one round of the outer loop emits the header's segment and then one per entry, with the function's file offset and the file at the record's start, and moves to the record's end |
| DebugInfoReader.DebugInfo.PopulateSourceMap | lib/BCGen/HBC/DebugInfo.cpp:295-329 | the segment list is every record's segments in stream order |
| DebugInfoReader.RecordSegments | lib/BCGen/HBC/DebugInfo.cpp:305-325 | a record gives one segment more than it has entries, the first from the header location |
| DebugInfoReader.SourceMapSegmentsCount | lib/BCGen/HBC/DebugInfo.cpp:317-327 | the list holds exactly one segment per decoded location, headers included |
| Generator.DebugInfoGenerator.constructor | lib/BCGen/HBC/DebugInfo.cpp:386-394 | a new generator is valid, has empty location data and file table, and holds the shared empty record `-1, 0` at `kEmptyLexicalDataOffset` |
| Generator.DebugInfoGenerator.AppendEntry | lib/BCGen/HBC/DebugInfo.cpp:362-378 | one loop round appends the entry for `next` against `previous`: address, packed line and column deltas, and a nonzero statement delta only |
| Generator.DebugInfoGenerator.AppendScope | lib/BCGen/HBC/DebugInfo.cpp:404-407 | appends the parent field, the count and each name as length and bytes |
| Generator.DebugInfoGenerator.AppendRecord | lib/BCGen/HBC/DebugInfo.cpp:345-381 | appends the whole record encoding, and pushes a file entry at the header when the table is empty or ends with another file, and at each entry whose file differs from the previous location's |
| Generator.DebugInfoGenerator.AppendSourceLocations | lib/BCGen/HBC/DebugInfo.cpp:331-384 | requires a valid generator and a start at statement 0; returns the previous size of the location data; writes nothing and pushes nothing for an empty list; otherwise appends exactly the record and its file entries; keeps the invariant; leaves the lexical data alone |
| Generator.DebugInfoGenerator.AppendLexicalData | lib/BCGen/HBC/DebugInfo.cpp:396-409 | returns `kEmptyLexicalDataOffset` and writes nothing for no parent and no names; otherwise returns the previous size and appends the scope record; in both cases the record for the arguments stands at the returned offset |
| Generator.DebugInfoGenerator.AppendNewScope | lib/BCGen/HBC/DebugInfo.cpp:403-408 | a scope with a parent or names is appended at the end of the lexical data, whose old size is the offset returned, and its record stands there; the invariant is kept |
| Generator.DebugInfoGenerator.SerializeWithMove | lib/BCGen/HBC/DebugInfo.cpp:411-425 | requires valid data and clears it; the result has the file table, the location data followed by the lexical data, and the boundary at the size of the location data |
| GeneratorState.NewRegionsSorted | lib/BCGen/HBC/DebugInfo.cpp:345-360 | each call pushes its entries at the growing write offset, so the file table stays sorted |
| GeneratorState.NewRegionsWithin | lib/BCGen/HBC/DebugInfo.cpp:345-360 | every entry a call pushes lies within the bytes that call writes |
| GeneratorState.NewRegionsLookup | lib/BCGen/HBC/DebugInfo.cpp:345-360 | after a call, the table resolves the record's offset to the start's file and each entry's offset to that location's file |
| GeneratorState.AppendRecordFiles | lib/BCGen/HBC/DebugInfo.cpp:341-381 | a call keeps the file-table part of the invariant: sorted, within the stream, and resolving every record start and entry written so far to its location's file |
| GeneratorState.TablePushesAppend | lib/BCGen/HBC/DebugInfo.cpp:345-360 | the file table after one more call is the table before it followed by that call's pushes, which the invariant uses to say the table is exactly what the calls pushed |
| GeneratorState.AppendRecordTiled | lib/BCGen/HBC/DebugInfo.cpp:341-381 | a call keeps the location data exactly the records written so far, back to back |
| GeneratorState.AppendScopeValid | lib/BCGen/HBC/DebugInfo.cpp:403-408 | appending a scope record keeps every earlier scope's bytes at its offset and adds the new one |
| GeneratorState.ParseTiledFrom | lib/BCGen/HBC/DebugInfo.cpp:319-327 | the record scan over the written location data, with anything after it, decodes exactly the records written, in order |
| RoundTrip.SerializedRecords | lib/BCGen/HBC/DebugInfo.cpp:411-425 | after serialization, `sourceLocationsData()` is the written location data and reads back as the written records |
| RoundTrip.SerializedScope | lib/BCGen/HBC/DebugInfo.cpp:396-425 | after serialization, at every offset appendLexicalData returned, getParentFunctionId and getVariableNames give back what was appended |
| RoundTrip.ChosenWritten | lib/BCGen/HBC/DebugInfo.cpp:123-133 | on a written record with no location before its start, the scan of getLocationForAddress decodes and settles on the last written location before the first one past the query (relative to the start), or the start when the first one already is |
| RoundTrip.WrittenLocationSorted | lib/BCGen/HBC/DebugInfo.cpp:127-133 | when the written addresses do not decrease, the location getLocationForAddress reports is the last one at most the query after the start |
| RoundTrip.WrittenLocationNoneNotAfter | lib/BCGen/HBC/DebugInfo.cpp:127-133 | when no written location is at most the query after the start, the start location is reported |
| RoundTrip.LocationForRecord | lib/BCGen/HBC/DebugInfo.cpp:134-139 | the settled location, with the file the table gives for its offset, is the written location with its own file |
| RoundTrip.LocationForWritten | lib/BCGen/HBC/DebugInfo.cpp:119-140 | getLocationForAddress at an offset appendSourceLocations returned, for a function with no location before its start, reports the last location written before the first one past the queried address (the start when the first one already is), with the file it was written with |
| RoundTrip.SameFileNewRegions | lib/BCGen/HBC/DebugInfo.cpp:345-360 | a call whose locations all share the start's file pushes at most the header's entry |
| RoundTrip.AddressForSingleFile | lib/BCGen/HBC/DebugInfo.cpp:142-187 | with the one-entry table of a program with one file, getAddressForLocation searches the whole stream and returns the first written non-start location that matches, or None |
| RoundTrip.OneFileTablePushes | lib/BCGen/HBC/DebugInfo.cpp:345-360 | when every location of every call has one file, the calls push exactly one table entry, at the first record's offset with its source-map URL, and none before the first record |
| RoundTrip.OneFileTable | lib/BCGen/HBC/DebugInfo.cpp:331-360 | a valid generator whose locations all have one file holds an empty table before its first record and afterwards the single entry for that file at offset 0 |
| RoundTrip.AddressForOneFile | lib/BCGen/HBC/DebugInfo.cpp:142-187 | on such a generator's data, getAddressForLocation for that file searches the whole stream and returns the first written non-start location that matches, or None |
| RoundTrip.SourceMapWritten | lib/BCGen/HBC/DebugInfo.cpp:295-329 | on the written stream, populateSourceMap decodes every record and emits one segment per location written, start locations included |

## Left out

- The `disassemble*` functions: they print diagnostics and are outside the model.
- `lib/VM/JSLib/DebuggerInternal.cpp`: runtime object plumbing with no part in the format.
- The `SourceMapGenerator` calls of populateSourceMap (`getSourceIndex`, `getFilenameByID`, `addMappingsLine`) and `cjsModuleOffset`: foreign code. A segment carries the `filenameId` where the source carries the source index of that file's name.
- The filename string storage (`UniquingStringTable`, `ConsecutiveStringStorage`, `getFilenameByID`), which the generator's constructor moves into the result: strings held outside the byte regions modelled here. Variable names are plain byte sequences, not `Identifier`s.
- Fixed widths: `DebugSourceLocation`'s `uint32_t` fields are `nat`, and the offsets' `uint32_t` arithmetic does not wrap; these matter only past 2^32 bytes or lines. `delta()` is plain subtraction, without its `int32_t` truncation, which matters only for deltas past 2^31.
- LocationStream.Point: the decoder's accumulators are unbounded integers, and the address is relative to the function's start. In the source the address accumulator is a `uint32_t`, so a location whose address is below the start's wraps to near 2^32. The model's address is negative instead. The comparison at lib/BCGen/HBC/DebugInfo.cpp:128 is unsigned, so for such a location the source stops the scan where the model does not. Example: a start at address 5 and a location at address 3. RoundTrip.ChosenWritten and RoundTrip.LocationForWritten therefore require `NotBeforeStart`: no location lies before its start. The addresses that getAddressForLocation and populateSourceMap report agree with the source's only modulo 2^32. Lines and columns are absolute and cannot go negative. Statements cannot either, because AppendSourceLocations requires a start at statement 0.
- `getOffset()`, `getFunctionIndex()` and `getCurrent()`: the loops read the deserializer's fields `offset`, `functionIndex` and `current` directly.
- DebugInfoReader.DebugInfo.GetLocationForAddress: the returned location has no `sourceMappingUrlId` field. The deserializer never sets that field.
- The moved-from state of the generator after serializeWithMove: only `validData == false` is stated. Every other method requires `validData`, so that state is never used.
- The assertions in the reader (`debugOffset < data_.size()`, valid string sizes, and so on) are preconditions on the bytes read, not run-time checks.
- RoundTrip.AddressForSingleFile: getAddressForLocation is proved against the written locations only for a one-file table. With several files the window starts at a file's first table entry. An entry pushed inside a function lies at an entry offset, not at a record header, and the scan would start decoding there as if it were a header. The model computes that behaviour exactly (`AddressFor`) but states no round trip for it. RoundTrip.OneFileTable shows that a generator whose locations all have one file builds exactly that one-entry table.
- RoundTrip.AddressForOneFile: has the same one-file restriction: it covers only generators whose locations all have one file, so that the table has the single entry at offset 0; multi-file programs are left out for the reason given on the line above.
- DebugInfoReader.DebugInfo.PopulateSourceMap: as in the source, every segment of a function takes the file at the function's start. The model does not relate it to the per-entry files.

/**
 * What a reader gets back from what the generator wrote. `serializeWithMove`
 * hands the reader the location stream `s` followed by the lexical data `l`,
 * with the lexical data starting at `|s|`, and the file table unchanged; the
 * lemmas here take those values as the generator's invariant describes them.
 */
module RoundTrip {
  import opened Wrappers
  import opened Leb128
  import opened LocationStream
  import opened FileTable
  import opened LexicalData
  import opened DebugInfoReader
  import opened GeneratorState
  import opened Generator

  //--------------------------------------------------------------------------
  // The location stream and the lexical data, one after the other
  //--------------------------------------------------------------------------

  /**
   * The location stream reads back as the records written, in order, both
   * in `sourceLocationsData()` and in the combined data up to the lexical
   * data's offset.
   */
  lemma SerializedRecords(s: seq<byte>, l: seq<byte>, recs: seq<FunctionRecord>)
    requires Tiled(s, recs) && NoEndMarkerDeltas(recs)
    ensures (s + l)[..|s|] == s
    ensures ParseRecords(s + l, 0, |s|) == Some(DecodedAll(recs))
    ensures ParseRecords((s + l)[..|s|], 0, |s|) == Some(DecodedAll(recs))
  {
    assert (s + l)[..|s|] == s && s + [] == s;
    ParseTiledFrom(s, l, recs, 0);
    ParseTiledFrom(s, [], recs, 0);
  }

  /**
   * Every scope reads back from `lexicalData()`: getParentFunctionId gives
   * its parent (None for none) and getVariableNames its names, in order.
   */
  lemma SerializedScope(s: seq<byte>, l: seq<byte>, scopes: seq<Scope>, i: nat)
    requires ScopesValid(l, scopes) && i < |scopes|
    ensures (s + l)[|s|..] == l
    ensures Read(l, scopes[i].offset).Some?
    ensures ParentFunctionIdAt(l, scopes[i].offset) == (if scopes[i].parent.Some? then Some(scopes[i].parent.value as int) else None)
    ensures VariableNamesAt(l, scopes[i].offset) == Some(scopes[i].names)
  {
    assert (s + l)[|s|..] == l;
    DecodeEncodeScope(l, scopes[i].offset, scopes[i].parent, scopes[i].names);
  }

  //--------------------------------------------------------------------------
  // getLocationForAddress on a written function
  //--------------------------------------------------------------------------

  /** A record the reader parses at `pos` is what getLocationForAddress scans from `pos`. */
  lemma RecordScanOf(data: seq<byte>, pos: nat, rec: Record)
    requires ParseRecord(data, pos) == Some(rec)
    ensures HeaderAt(data, pos).Some? && StartPoint(HeaderAt(data, pos).value) == rec.header
    ensures RecordScan(data, pos) == Entries(rec.entries, Ended(rec.end))
  {
  }

  /** How many leading locations lie at most `target` bytes after the function's start. */
  function LocationsNotAfter(start: DebugSourceLocation, offsets: seq<DebugSourceLocation>, target: int): (n: nat)
    ensures n <= |offsets|
    ensures forall k :: 0 <= k < n ==> offsets[k].address - start.address <= target
    ensures n < |offsets| ==> offsets[n].address - start.address > target
    decreases |offsets|
  {
    if offsets == [] || offsets[0].address - start.address > target then 0
    else 1 + LocationsNotAfter(start, offsets[1..], target)
  }

  /**
   * What a function written with `start` and `offsets` should report
   * `target` bytes into the function: the last leading location at or before
   * `target`, or the start when there is none, with that location's own
   * file, line, column and statement and the queried address.
   */
  function WrittenLocation(r: FunctionRecord, target: int): Location
  {
    var n := LocationsNotAfter(r.start, r.offsets, target);
    if n == 0 then Location(target, r.start.filenameId, r.start.line, r.start.column, 0)
    else
      var l := r.offsets[n - 1];
      Location(target, l.filenameId, l.line, l.column, l.statement)
  }

  /**
   * No location of `r` lies before its start. The reader's address
   * accumulator is 32 bits wide and compared unsigned, so a location below
   * the start would read as an address near 2^32 and stop the scan; the
   * model's relative address is an integer and would be negative instead.
   * On records like this the two agree.
   */
  ghost predicate NotBeforeStart(r: FunctionRecord)
  {
    forall k :: 0 <= k < |r.offsets| ==> r.start.address <= r.offsets[k].address
  }

  /** The locations' addresses do not decrease, as they do when the bytecode is emitted in order. */
  predicate AddressesAscending(offsets: seq<DebugSourceLocation>)
  {
    forall a, b :: 0 <= a < b < |offsets| ==> offsets[a].address <= offsets[b].address
  }

  /**
   * Nearest not after, on the written record: when the addresses do not
   * decrease and location `k` is the last one at most `target` bytes after
   * the start, WrittenLocation reports location `k`.
   */
  lemma WrittenLocationSorted(r: FunctionRecord, target: int, k: nat)
    requires AddressesAscending(r.offsets)
    requires k < |r.offsets| && r.offsets[k].address - r.start.address <= target
    requires forall j :: k < j < |r.offsets| ==> r.offsets[j].address - r.start.address > target
    ensures WrittenLocation(r, target) == Location(target, r.offsets[k].filenameId, r.offsets[k].line, r.offsets[k].column, r.offsets[k].statement)
  {
  }

  /** When no location is at most `target` bytes after the start, WrittenLocation reports the start. */
  lemma WrittenLocationNoneNotAfter(r: FunctionRecord, target: int)
    requires forall j :: 0 <= j < |r.offsets| ==> r.offsets[j].address - r.start.address > target
    ensures WrittenLocation(r, target) == Location(target, r.start.filenameId, r.start.line, r.start.column, 0)
  {
    assert r.offsets == [] || r.offsets[0].address - r.start.address > target;
  }

  /** The reader's count of accepted entries is the count of leading locations within `target`. */
  lemma {:induction false} NotAfterCount(entries: seq<Entry>, start: DebugSourceLocation, offsets: seq<DebugSourceLocation>, target: int)
    requires |entries| == |offsets|
    requires forall k :: 0 <= k < |offsets| ==> entries[k].loc == Relative(start, offsets[k])
    ensures EntriesNotAfter(entries, target) == LocationsNotAfter(start, offsets, target)
    decreases |offsets|
  {
    if offsets != [] {
      assert entries[0].loc == Relative(start, offsets[0]);
      forall k | 0 <= k < |offsets[1..]|
        ensures entries[1..][k].loc == Relative(start, offsets[1..][k])
      {
        assert entries[1..][k] == entries[k + 1] && offsets[1..][k] == offsets[k + 1];
      }
      NotAfterCount(entries[1..], start, offsets[1..], target);
    }
  }

  /**
   * Where the loop of getLocationForAddress should settle on a record the
   * generator wrote: the last leading location within `target` (relative to
   * the start, as the reader sees it) and the offset of its entry, or the
   * start and the record's own offset.
   */
  function WrittenChoice(r: FunctionRecord, target: int): (Point, nat)
  {
    var n := LocationsNotAfter(r.start, r.offsets, target);
    if n == 0 then (Relative(r.start, r.start), r.offset)
    else (Relative(r.start, r.offsets[n - 1]), DecodedEntries(r)[n - 1].offset)
  }

  /** The choice of getLocationForAddress's loop on a record that decodes in full. */
  function ChoiceIn(rec: Record, target: int): (Point, nat)
  {
    var n := EntriesNotAfter(rec.entries, target);
    if n == 0 then (rec.header, rec.offset) else (rec.entries[n - 1].loc, rec.entries[n - 1].offset)
  }

  /** On a record that decodes in full, the loop's scan decodes and settles on ChoiceIn. */
  lemma ChosenInRecord(data: seq<byte>, pos: nat, rec: Record, target: int)
    requires ParseRecord(data, pos) == Some(rec)
    ensures LocationScanDecodes(data, pos, target)
    ensures ChosenLocation(data, pos, target) == ChoiceIn(rec, target)
  {
    RecordScanOf(data, pos, rec);
  }

  /** WrittenChoice is ChoiceIn on the record a reader decodes from `r`. */
  lemma WrittenChoiceDecoded(r: FunctionRecord, target: int)
    requires WellFormed(r)
    ensures WrittenChoice(r, target) == ChoiceIn(Decoded(r), target)
  {
    EntriesAtShape(EntriesStart(r), r.start, r.start, r.offsets);
    NotAfterCount(DecodedEntries(r), r.start, r.offsets, target);
  }

  /** On a record the generator wrote, the scan of getLocationForAddress decodes and settles where WrittenChoice says. */
  lemma ChosenWritten(data: seq<byte>, r: FunctionRecord, target: int)
    requires WellFormed(r) && NotBeforeStart(r) && ParseRecord(data, r.offset) == Some(Decoded(r))
    ensures LocationScanDecodes(data, r.offset, target)
    ensures ChosenLocation(data, r.offset, target) == WrittenChoice(r, target)
  {
    WrittenChoiceDecoded(r, target);
    ChosenInRecord(data, r.offset, Decoded(r), target);
  }

  /** The settled location with the file the table gives for its offset is WrittenLocation. */
  lemma LocationForRecord(files: seq<FileRegion>, data: seq<byte>, r: FunctionRecord, target: int)
    requires WellFormed(r) && HeaderAt(data, r.offset).Some?
    requires ChosenLocation(data, r.offset, target) == WrittenChoice(r, target)
    requires FilenameFor(files, r.offset) == Some(r.start.filenameId)
    requires forall j :: 0 <= j < |DecodedEntries(r)| ==> FilenameFor(files, DecodedEntries(r)[j].offset) == Some(r.offsets[j].filenameId)
    ensures LocationFor(files, data, r.offset, target) == Some(WrittenLocation(r, target))
  {
    var loc, offset, file := WrittenFileAt(files, r, target);
    LocationForOf(files, data, r.offset, target, loc, offset, file);
  }

  /** The file the table gives at WrittenChoice's offset is the file of the location WrittenLocation reports. */
  lemma WrittenFileAt(files: seq<FileRegion>, r: FunctionRecord, target: int) returns (loc: Point, offset: nat, file: nat)
    requires WellFormed(r)
    requires FilenameFor(files, r.offset) == Some(r.start.filenameId)
    requires forall j :: 0 <= j < |DecodedEntries(r)| ==> FilenameFor(files, DecodedEntries(r)[j].offset) == Some(r.offsets[j].filenameId)
    ensures WrittenChoice(r, target) == (loc, offset)
    ensures FilenameFor(files, offset) == Some(file)
    ensures WrittenLocation(r, target) == Location(target, file, loc.line, loc.column, loc.statement)
  {
    var n;
    loc, offset, file, n := WrittenChoiceParts(r, target);
    if n > 0 {
      EntryFile(files, r, n - 1);
    }
  }

  /**
   * WrittenChoice and WrittenLocation agree: the chosen location is the
   * reported one, and its offset is the record's (no location accepted) or
   * that of the last accepted location's entry.
   */
  lemma WrittenChoiceParts(r: FunctionRecord, target: int) returns (loc: Point, offset: nat, file: nat, n: nat)
    requires WellFormed(r)
    ensures WrittenChoice(r, target) == (loc, offset)
    ensures WrittenLocation(r, target) == Location(target, file, loc.line, loc.column, loc.statement)
    ensures n == 0 ==> offset == r.offset && file == r.start.filenameId
    ensures n > 0 ==> n <= |DecodedEntries(r)| && offset == DecodedEntries(r)[n - 1].offset && file == r.offsets[n - 1].filenameId
  {
    n := LocationsNotAfter(r.start, r.offsets, target);
    if n == 0 {
      loc, offset, file := Relative(r.start, r.start), r.offset, r.start.filenameId;
    } else {
      loc, offset, file := Relative(r.start, r.offsets[n - 1]), DecodedEntries(r)[n - 1].offset, r.offsets[n - 1].filenameId;
    }
  }

  /** What FilesValid says of the `k`-th entry of one record. */
  lemma EntryFile(files: seq<FileRegion>, r: FunctionRecord, k: nat)
    requires forall j :: 0 <= j < |DecodedEntries(r)| ==> FilenameFor(files, DecodedEntries(r)[j].offset) == Some(r.offsets[j].filenameId)
    requires k < |DecodedEntries(r)|
    ensures FilenameFor(files, DecodedEntries(r)[k].offset) == Some(r.offsets[k].filenameId)
  {
  }

  /** LocationFor once the loop's choice and the file at its offset are known. */
  lemma LocationForOf(files: seq<FileRegion>, data: seq<byte>, pos: nat, target: int, loc: Point, offset: nat, file: nat)
    requires HeaderAt(data, pos).Some? && ChosenLocation(data, pos, target) == (loc, offset)
    requires FilenameFor(files, offset) == Some(file)
    ensures LocationFor(files, data, pos, target) == Some(Location(target, file, loc.line, loc.column, loc.statement))
  {
  }

  /**
   * getLocationForAddress at the offset appendSourceLocations returned
   * decodes, and reports the last location written at or before the queried
   * address, with the file the location was written with.
   */
  lemma LocationForWritten(files: seq<FileRegion>, s: seq<byte>, l: seq<byte>, recs: seq<FunctionRecord>, i: nat, target: nat)
    requires Tiled(s, recs) && FilesValid(files, s, recs) && i < |recs|
    requires NoEndMarkerDelta(recs[i].start, recs[i].offsets) && NotBeforeStart(recs[i])
    ensures LocationScanDecodes(s + l, recs[i].offset, target)
    ensures LocationFor(files, s + l, recs[i].offset, target) == Some(WrittenLocation(recs[i], target))
  {
    TiledAt(s, recs, 0, i);
    BytesAtGrow(s, l, recs[i].offset, RecordBytes(recs[i]));
    ParseFunctionRecord(s + l, recs[i]);
    ChosenWritten(s + l, recs[i], target);
    LocationForRecord(files, s + l, recs[i], target);
  }

  //--------------------------------------------------------------------------
  // getAddressForLocation on a program with one file
  //--------------------------------------------------------------------------

  /** Entries whose locations all have the previous location's file push nothing. */
  lemma {:induction false} SameFileEntryRegions(pos: nat, prev: DebugSourceLocation, rest: seq<DebugSourceLocation>, url: nat)
    requires forall k :: 0 <= k < |rest| ==> rest[k].filenameId == prev.filenameId
    ensures EntryRegions(pos, prev, rest, url) == []
    decreases |rest|
  {
    if rest != [] {
      assert rest[0].filenameId == prev.filenameId;
      forall k | 0 <= k < |rest[1..]|
        ensures rest[1..][k].filenameId == rest[0].filenameId
      {
        assert rest[1..][k] == rest[k + 1];
      }
      SameFileEntryRegions(pos + |EncodeEntry(prev, rest[0])|, rest[0], rest[1..], url);
    }
  }

  /**
   * A call whose locations all belong to the start's file pushes at most the
   * header's entry, and that only when the table does not already end with
   * that file: so a program with one file gets a one-entry table at offset 0.
   */
  lemma SameFileNewRegions(files: seq<FileRegion>, startOffset: nat, functionIndex: nat,
                           start: DebugSourceLocation, offsets: seq<DebugSourceLocation>)
    requires forall k :: 0 <= k < |offsets| ==> offsets[k].filenameId == start.filenameId
    ensures NewRegions(files, startOffset, functionIndex, start, offsets)
            == if offsets == [] || (files != [] && files[|files| - 1].filenameId == start.filenameId) then []
               else [FileRegion(startOffset, start.filenameId, start.sourceMappingUrlId)]
  {
    SameFileEntryRegions(startOffset + |EncodeHeader(functionIndex, start)|, start, offsets, start.sourceMappingUrlId);
  }

  /**
   * With the one-entry table of a program with one file, getAddressForLocation
   * for that file searches the whole location stream, decodes, and returns
   * the first written location (headers excluded) with the line, and the
   * column when one is given; None when no location matches.
   */
  lemma AddressForSingleFile(s: seq<byte>, l: seq<byte>, recs: seq<FunctionRecord>, f: nat, url: nat,
                             line: int, column: Option<int>)
    requires Tiled(s, recs) && NoEndMarkerDeltas(recs)
    ensures AddressSearchDecodes([FileRegion(0, f, url)], |s|, s + l, f, line, column)
    ensures AddressFor([FileRegion(0, f, url)], |s|, s + l, f, line, column)
            == (var hits := Hits(DecodedAll(recs), line, column); if hits == [] then None else Some(hits[0]))
  {
    var files := [FileRegion(0, f, url)];
    assert FirstFileIndex(files, f) == 0;
    assert FileWindow(files, f, |s|) == Some((0, |s|));
    ParseTiledFrom(s, l, recs, 0);
    SearchRecordsFirstHit(s + l, 0, |s|, line, column, DecodedAll(recs));
  }

  /** Every location of every record, its start included, belongs to file `f`. */
  ghost predicate OneFile(recs: seq<FunctionRecord>, f: nat)
  {
    && (forall i :: 0 <= i < |recs| ==> recs[i].start.filenameId == f)
    && (forall i, k :: 0 <= i < |recs| && 0 <= k < |recs[i].offsets| ==> recs[i].offsets[k].filenameId == f)
  }

  /**
   * A program whose locations all belong to one file: the calls that wrote
   * its records push one table entry, at the first record's offset and with
   * its source-map URL, and nothing when no record was written.
   */
  lemma {:induction false} OneFileTablePushes(recs: seq<FunctionRecord>, f: nat)
    requires OneFile(recs, f)
    requires forall i :: 0 <= i < |recs| ==> recs[i].offsets != []
    ensures recs == [] ==> TablePushes(recs) == []
    ensures recs != [] ==> TablePushes(recs) == [FileRegion(recs[0].offset, f, recs[0].start.sourceMappingUrlId)]
    decreases |recs|
  {
    if recs != [] {
      var before, r := OneFileSplit(recs, f);
      OneFileTablePushes(before, f);
      SameFileNewRegions(TablePushes(before), r.offset, r.functionIndex, r.start, r.offsets);
      if before != [] {
        assert before[0] == recs[0];
      }
    }
  }

  /** The conditions of OneFileTablePushes hold for all records but the last, and the last has all its locations in its start's file. */
  lemma OneFileSplit(recs: seq<FunctionRecord>, f: nat) returns (before: seq<FunctionRecord>, r: FunctionRecord)
    requires recs != [] && OneFile(recs, f)
    requires forall i :: 0 <= i < |recs| ==> recs[i].offsets != []
    ensures before == recs[..|recs| - 1] && r == recs[|recs| - 1]
    ensures OneFile(before, f) && forall i :: 0 <= i < |before| ==> before[i].offsets != []
    ensures forall k :: 0 <= k < |r.offsets| ==> r.offsets[k].filenameId == r.start.filenameId
  {
    before, r := recs[..|recs| - 1], recs[|recs| - 1];
    forall i | 0 <= i < |before|
      ensures before[i] == recs[i]
    {
    }
  }

  /**
   * A generator whose every location belongs to file `f` holds an empty file
   * table before its first record and afterwards one entry for `f` at offset 0.
   */
  lemma OneFileTable(g: DebugInfoGenerator, f: nat)
    requires g.Valid() && OneFile(g.records, f)
    ensures g.records == [] ==> g.files == []
    ensures g.records != [] ==> g.files == [FileRegion(0, f, g.records[0].start.sourceMappingUrlId)]
  {
    forall i | 0 <= i < |g.records|
      ensures g.records[i].offsets != []
    {
      TiledAt(g.sourcesData, g.records, 0, i);
    }
    OneFileTablePushes(g.records, f);
    assert PushedBy(g.files, g.records);
  }

  /**
   * getAddressForLocation on such a generator's serialized data searches the
   * whole location stream and returns the first written location (headers
   * excluded) with the line, and the column when one is given.
   */
  lemma AddressForOneFile(g: DebugInfoGenerator, f: nat, line: int, column: Option<int>)
    requires g.Valid() && OneFile(g.records, f) && NoEndMarkerDeltas(g.records)
    ensures AddressSearchDecodes(g.files, |g.sourcesData|, g.sourcesData + g.lexicalData, f, line, column)
    ensures AddressFor(g.files, |g.sourcesData|, g.sourcesData + g.lexicalData, f, line, column)
            == (var hits := Hits(DecodedAll(g.records), line, column); if hits == [] then None else Some(hits[0]))
  {
    OneFileTable(g, f);
    if g.records == [] {
      assert Hits(DecodedAll(g.records), line, column) == [];
    } else {
      AddressForSingleFile(g.sourcesData, g.lexicalData, g.records, f, g.records[0].start.sourceMappingUrlId, line, column);
    }
  }

  //--------------------------------------------------------------------------
  // populateSourceMap on the written stream
  //--------------------------------------------------------------------------

  /** The number of locations the generator wrote: each record's start and its further locations. */
  function WrittenCount(recs: seq<FunctionRecord>): nat
    decreases |recs|
  {
    if recs == [] then 0 else 1 + |recs[0].offsets| + WrittenCount(recs[1..])
  }

  lemma {:induction false} LocationCountDecoded(recs: seq<FunctionRecord>)
    ensures LocationCount(DecodedAll(recs)) == WrittenCount(recs)
    decreases |recs|
  {
    if recs != [] {
      var d := DecodedAll(recs);
      assert d[1..] == DecodedAll(recs[1..]);
      LocationCountDecoded(recs[1..]);
    }
  }

  /**
   * On the written stream, populateSourceMap's scan decodes every record,
   * every record's start resolves to a file, and one segment comes out per
   * location written, start locations included.
   */
  lemma SourceMapWritten(files: seq<FileRegion>, s: seq<byte>, l: seq<byte>, recs: seq<FunctionRecord>, functionOffsets: seq<int>)
    requires Tiled(s, recs) && FilesValid(files, s, recs) && NoEndMarkerDeltas(recs)
    requires forall i :: 0 <= i < |recs| ==> recs[i].functionIndex < |functionOffsets|
    ensures ParseRecords((s + l)[..|s|], 0, |s|) == Some(DecodedAll(recs))
    ensures SegmentsDefined(files, functionOffsets, DecodedAll(recs))
    ensures |SourceMapSegments(files, functionOffsets, DecodedAll(recs))| == WrittenCount(recs)
  {
    SerializedRecords(s, l, recs);
    var d := DecodedAll(recs);
    forall k | 0 <= k < |d|
      ensures 0 <= d[k].functionIndex < |functionOffsets| && FilenameFor(files, d[k].offset).Some?
    {
      assert d[k] == Decoded(recs[k]);
    }
    SourceMapSegmentsCount(files, functionOffsets, d);
    LocationCountDecoded(recs);
  }
}

/**
 * `DebugInfo`, the reader: the file table, the boundary between the two
 * regions, and the data (the location stream followed by the lexical-scope
 * table). Every query is a scan over that data, stated here as a function
 * of the fields and proved equal to the loop that performs it.
 */
module DebugInfoReader {
  import opened Wrappers
  import opened Leb128
  import opened LocationStream
  import opened FileTable
  import opened LexicalData

  /** The answer of getLocationForAddress: the location, with its file and the queried address. */
  datatype Location = Location(address: int, filenameId: nat, line: int, column: int, statement: int)

  /** `DebugSearchResult`: the function and the address inside it where a source position was found. */
  datatype DebugSearchResult = DebugSearchResult(functionIndex: int, bytecodeOffset: int, line: int, column: int)

  //--------------------------------------------------------------------------
  // getLocationForAddress (DebugInfo.cpp:119-140)
  //--------------------------------------------------------------------------

  /** How many leading entries have an address at most `target`: the entries the loop accepts. */
  function EntriesNotAfter(entries: seq<Entry>, target: int): (n: nat)
    ensures n <= |entries|
    ensures forall i :: 0 <= i < n ==> entries[i].loc.address <= target
    ensures n < |entries| ==> entries[n].loc.address > target
    decreases |entries|
  {
    if entries == [] || entries[0].loc.address > target then 0
    else 1 + EntriesNotAfter(entries[1..], target)
  }

  /** The entries of the function record at `debugOffset`, as `next()` returns them. */
  function RecordScan(data: seq<byte>, debugOffset: nat): Entries
    requires HeaderAt(data, debugOffset).Some?
  {
    var h := HeaderAt(data, debugOffset).value;
    ParseEntries(data, h.next, StartPoint(h))
  }

  /**
   * The scan of getLocationForAddress reads only decodable data: the header,
   * and the entries up to the end marker or up to the first one past `target`.
   */
  predicate LocationScanDecodes(data: seq<byte>, debugOffset: nat, target: int)
  {
    && HeaderAt(data, debugOffset).Some?
    && var p := RecordScan(data, debugOffset);
       p.tail.Ended? || EntriesNotAfter(p.entries, target) < |p.entries|
  }

  /**
   * The location the loop settles on and the offset where its entry begins:
   * the last accepted entry, or the header and the record's own offset when
   * no entry is accepted.
   */
  function ChosenLocation(data: seq<byte>, debugOffset: nat, target: int): (Point, nat)
    requires HeaderAt(data, debugOffset).Some?
  {
    var p := RecordScan(data, debugOffset);
    var n := EntriesNotAfter(p.entries, target);
    if n == 0 then (StartPoint(HeaderAt(data, debugOffset).value), debugOffset)
    else (p.entries[n - 1].loc, p.entries[n - 1].offset)
  }

  /**
   * `getLocationForAddress(debugOffset, offsetInFunction)`: the chosen
   * location with its address replaced by the query and its file looked up
   * at the chosen offset; None exactly when that lookup fails.
   */
  function LocationFor(files: seq<FileRegion>, data: seq<byte>, debugOffset: nat, target: int): (r: Option<Location>)
    requires HeaderAt(data, debugOffset).Some?
    ensures r.None? <==> FilenameFor(files, ChosenLocation(data, debugOffset, target).1).None?
    ensures r.Some? ==> r.value.address == target
  {
    var (loc, offset) := ChosenLocation(data, debugOffset, target);
    match FilenameFor(files, offset)
    case None => None
    case Some(file) => Some(Location(target, file, loc.line, loc.column, loc.statement))
  }

  /**
   * Nearest not after: when the decoded addresses do not decrease, every
   * entry past the chosen one lies after `target`, so the chosen entry is the
   * last one at or before it.
   */
  lemma {:induction false} EntriesNotAfterSorted(entries: seq<Entry>, target: int, i: nat)
    requires forall a, b :: 0 <= a < b < |entries| ==> entries[a].loc.address <= entries[b].loc.address
    requires i < |entries|
    ensures entries[i].loc.address <= target <==> i < EntriesNotAfter(entries, target)
  {
    var n := EntriesNotAfter(entries, target);
    if i >= n {
      assert entries[n].loc.address <= entries[i].loc.address;
    }
  }

  /**
   * Where the loop of getLocationForAddress stops: at entry `i` (not past the
   * accepted ones) it goes on exactly when the entry exists and its address is
   * at most `target`, and stops with `i` the number accepted.
   */
  lemma EntriesNotAfterStop(entries: seq<Entry>, target: int, i: nat)
    requires i <= EntriesNotAfter(entries, target)
    ensures i < EntriesNotAfter(entries, target) <==> i < |entries| && entries[i].loc.address <= target
  {
  }

  //--------------------------------------------------------------------------
  // getAddressForLocation (DebugInfo.cpp:142-187)
  //--------------------------------------------------------------------------

  /** The index of the first file entry for `filenameId`, or the table's length when there is none. */
  function FirstFileIndex(files: seq<FileRegion>, filenameId: nat): (k: nat)
    ensures k <= |files|
    ensures forall i :: 0 <= i < k ==> files[i].filenameId != filenameId
    ensures k < |files| ==> files[k].filenameId == filenameId
    decreases |files|
  {
    if files == [] || files[0].filenameId == filenameId then 0
    else 1 + FirstFileIndex(files[1..], filenameId)
  }

  /**
   * The byte window searched for `filenameId`: from the first matching
   * entry's offset to the next entry's offset, or to the end of the location
   * stream when it is the last entry.
   */
  function FileWindow(files: seq<FileRegion>, filenameId: nat, lexicalDataOffset: nat): (r: Option<(nat, nat)>)
    ensures r.None? <==> forall i :: 0 <= i < |files| ==> files[i].filenameId != filenameId
  {
    var k := FirstFileIndex(files, filenameId);
    if k == |files| then None
    else Some((files[k].fromAddress, if k + 1 < |files| then files[k + 1].fromAddress else lexicalDataOffset))
  }

  /** A decoded location matches the line, and the column when one is given. */
  predicate Matches(loc: Point, line: int, column: Option<int>)
  {
    loc.line == line && (column.None? || loc.column == column.value)
  }

  /** The index of the first matching entry, or the number of entries when none matches. */
  function FirstMatch(entries: seq<Entry>, line: int, column: Option<int>): (k: nat)
    ensures k <= |entries|
    ensures forall i :: 0 <= i < k ==> !Matches(entries[i].loc, line, column)
    ensures k < |entries| ==> Matches(entries[k].loc, line, column)
    decreases |entries|
  {
    if entries == [] || Matches(entries[0].loc, line, column) then 0
    else 1 + FirstMatch(entries[1..], line, column)
  }

  /**
   * Where the inner loop of getAddressForLocation stops: at entry `j` (not
   * past the first match) it goes on exactly when the entry exists and does
   * not match.
   */
  lemma FirstMatchStop(entries: seq<Entry>, line: int, column: Option<int>, j: nat)
    requires j <= FirstMatch(entries, line, column)
    ensures j < FirstMatch(entries, line, column) <==> j < |entries| && !Matches(entries[j].loc, line, column)
  {
  }

  /** How the record scan of getAddressForLocation ends. */
  datatype Search = Found(result: DebugSearchResult) | NotFound | Corrupt

  /** The result for entry `e` of a record of function `functionIndex`. */
  function ResultFor(functionIndex: int, e: Entry): DebugSearchResult
  {
    DebugSearchResult(functionIndex, e.loc.address, e.loc.line, e.loc.column)
  }

  /**
   * The scan `while (offset < end)` over the records from `pos`: the first
   * matching entry of the first record that has one; Corrupt where the scan
   * would read data that does not decode. The header location is never compared.
   */
  function SearchRecords(data: seq<byte>, pos: nat, end: nat, line: int, column: Option<int>): Search
    decreases |data| - pos
  {
    if pos >= end then NotFound
    else
      match HeaderAt(data, pos)
      case None => Corrupt
      case Some(h) =>
        var p := ParseEntries(data, h.next, StartPoint(h));
        var k := FirstMatch(p.entries, line, column);
        if k < |p.entries| then Found(ResultFor(h.functionIndex, p.entries[k]))
        else if p.tail.Broken? then Corrupt
        else SearchRecords(data, p.tail.end, end, line, column)
  }

  /** The record at `pos` decodes up to its first matching entry, or to its end marker when none matches. */
  predicate RecordSearchDecodes(data: seq<byte>, pos: nat, line: int, column: Option<int>)
  {
    && HeaderAt(data, pos).Some?
    && var h := HeaderAt(data, pos).value;
       var p := ParseEntries(data, h.next, StartPoint(h));
       FirstMatch(p.entries, line, column) < |p.entries| || p.tail.Ended?
  }

  /** The scan of getAddressForLocation reads only decodable data. */
  predicate AddressSearchDecodes(files: seq<FileRegion>, lexicalDataOffset: nat, data: seq<byte>,
                                 filenameId: nat, line: int, column: Option<int>)
  {
    match FileWindow(files, filenameId, lexicalDataOffset)
    case None => true
    case Some((start, end)) => !SearchRecords(data, start, end, line, column).Corrupt?
  }

  /** `getAddressForLocation`: None for an unknown file or no match, else the first match in the file's window. */
  function AddressFor(files: seq<FileRegion>, lexicalDataOffset: nat, data: seq<byte>,
                      filenameId: nat, line: int, column: Option<int>): Option<DebugSearchResult>
  {
    match FileWindow(files, filenameId, lexicalDataOffset)
    case None => None
    case Some((start, end)) =>
      match SearchRecords(data, start, end, line, column)
      case Found(r) => Some(r)
      case _ => None
  }

  /** Every matching entry of `recs`, in order, with its function index; headers are not included. */
  function Hits(recs: seq<Record>, line: int, column: Option<int>): seq<DebugSearchResult>
    decreases |recs|
  {
    if recs == [] then []
    else EntryHits(recs[0].functionIndex, recs[0].entries, line, column) + Hits(recs[1..], line, column)
  }

  /** The matching entries of one record, in order. */
  function EntryHits(functionIndex: int, entries: seq<Entry>, line: int, column: Option<int>): seq<DebugSearchResult>
    decreases |entries|
  {
    if entries == [] then []
    else (if Matches(entries[0].loc, line, column) then [ResultFor(functionIndex, entries[0])] else [])
         + EntryHits(functionIndex, entries[1..], line, column)
  }

  /**
   * First match in document order: when the window's records all decode,
   * the search returns the first of all their matching entries, headers
   * excluded, and NotFound when there is none.
   */
  lemma {:induction false} SearchRecordsFirstHit(data: seq<byte>, pos: nat, end: nat, line: int, column: Option<int>, recs: seq<Record>)
    requires ParseRecords(data, pos, end) == Some(recs)
    ensures SearchRecords(data, pos, end, line, column) == if Hits(recs, line, column) == [] then NotFound else Found(Hits(recs, line, column)[0])
    decreases |data| - pos
  {
    ParseRecordsStep(data, pos, end, recs);
    if pos < end {
      var rec := recs[0];
      var h := HeaderAt(data, pos).value;
      var p := ParseEntries(data, h.next, StartPoint(h));
      assert rec.entries == p.entries && rec.functionIndex == h.functionIndex && p.tail == Ended(rec.end);
      EntryHitsFirst(rec.functionIndex, rec.entries, line, column);
      if FirstMatch(p.entries, line, column) == |p.entries| {
        SearchRecordsFirstHit(data, rec.end, end, line, column, recs[1..]);
      }
    }
  }

  /** The first hit of a record is its first matching entry. */
  lemma {:induction false} EntryHitsFirst(functionIndex: int, entries: seq<Entry>, line: int, column: Option<int>)
    ensures var k := FirstMatch(entries, line, column);
            if k < |entries| then EntryHits(functionIndex, entries, line, column) != [] &&
                                  EntryHits(functionIndex, entries, line, column)[0] == ResultFor(functionIndex, entries[k])
            else EntryHits(functionIndex, entries, line, column) == []
    decreases |entries|
  {
    if entries != [] {
      EntryHitsFirst(functionIndex, entries[1..], line, column);
    }
  }

  //--------------------------------------------------------------------------
  // populateSourceMap (DebugInfo.cpp:295-329)
  //--------------------------------------------------------------------------

  /**
   * `SourceMap::Segment` as populateSourceMap fills it: the absolute address
   * as the generated column, the file (whose source index the source-map
   * generator assigns), and the line and column.
   */
  datatype Segment = Segment(generatedColumn: int, filenameId: nat, representedLine: int, representedColumn: int)

  /** `segmentFor(loc, offsetInFile, debugOffset)` once the file of the record is known. */
  function SegmentFor(loc: Point, offsetInFile: int, filenameId: nat): Segment
  {
    Segment(loc.address + offsetInFile, filenameId, loc.line, loc.column)
  }

  /** One segment per entry, in order. */
  function EntrySegments(entries: seq<Entry>, offsetInFile: int, filenameId: nat): (r: seq<Segment>)
    ensures |r| == |entries|
    ensures forall i :: 0 <= i < |entries| ==> r[i] == SegmentFor(entries[i].loc, offsetInFile, filenameId)
    decreases |entries|
  {
    if entries == [] then []
    else [SegmentFor(entries[0].loc, offsetInFile, filenameId)] + EntrySegments(entries[1..], offsetInFile, filenameId)
  }

  /** Cutting the first entry off the suffix from `j`. */
  lemma EntrySegmentsStep(entries: seq<Entry>, j: nat, offsetInFile: int, filenameId: nat)
    requires j < |entries|
    ensures EntrySegments(entries[j..], offsetInFile, filenameId)
         == [SegmentFor(entries[j].loc, offsetInFile, filenameId)] + EntrySegments(entries[j + 1..], offsetInFile, filenameId)
  {
    assert entries[j..][1..] == entries[j + 1..];
  }

  lemma AppendAssoc<T>(a: seq<T>, b: seq<T>, c: seq<T>)
    ensures a + (b + c) == (a + b) + c
  {
  }

  /**
   * Every record's function has an offset and its start offset has a file:
   * what populateSourceMap dereferences without checking.
   */
  predicate SegmentsDefined(files: seq<FileRegion>, functionOffsets: seq<int>, recs: seq<Record>)
  {
    forall k :: 0 <= k < |recs| ==>
      0 <= recs[k].functionIndex < |functionOffsets| && FilenameFor(files, recs[k].offset).Some?
  }

  /** The segments of one record: its header first, then its entries, all with the file at the record's start. */
  function RecordSegments(files: seq<FileRegion>, functionOffsets: seq<int>, rec: Record): (r: seq<Segment>)
    requires 0 <= rec.functionIndex < |functionOffsets| && FilenameFor(files, rec.offset).Some?
    ensures |r| == 1 + |rec.entries|
    ensures r[0] == SegmentFor(rec.header, functionOffsets[rec.functionIndex], FilenameFor(files, rec.offset).value)
  {
    var offsetInFile := functionOffsets[rec.functionIndex];
    var file := FilenameFor(files, rec.offset).value;
    [SegmentFor(rec.header, offsetInFile, file)] + EntrySegments(rec.entries, offsetInFile, file)
  }

  /** The segment list populateSourceMap hands to the source-map generator: the records' segments in order. */
  function SourceMapSegments(files: seq<FileRegion>, functionOffsets: seq<int>, recs: seq<Record>): (r: seq<Segment>)
    requires SegmentsDefined(files, functionOffsets, recs)
    decreases |recs|
  {
    if recs == [] then []
    else RecordSegments(files, functionOffsets, recs[0]) + SourceMapSegments(files, functionOffsets, recs[1..])
  }

  /** SourceMapSegments on a nonempty list: the first record's segments, then the others'. */
  lemma SourceMapSegmentsStep(files: seq<FileRegion>, functionOffsets: seq<int>, recs: seq<Record>)
    requires recs != [] && SegmentsDefined(files, functionOffsets, recs)
    ensures 0 <= recs[0].functionIndex < |functionOffsets| && FilenameFor(files, recs[0].offset).Some?
    ensures SegmentsDefined(files, functionOffsets, recs[1..])
    ensures SourceMapSegments(files, functionOffsets, recs)
         == RecordSegments(files, functionOffsets, recs[0]) + SourceMapSegments(files, functionOffsets, recs[1..])
  {
    forall k | 0 <= k < |recs[1..]|
      ensures 0 <= recs[1..][k].functionIndex < |functionOffsets| && FilenameFor(files, recs[1..][k].offset).Some?
    {
      assert recs[1..][k] == recs[k + 1];
    }
  }

  /** Exactly one segment per decoded location, headers included. */
  function LocationCount(recs: seq<Record>): nat
    decreases |recs|
  {
    if recs == [] then 0 else 1 + |recs[0].entries| + LocationCount(recs[1..])
  }

  lemma {:induction false} SourceMapSegmentsCount(files: seq<FileRegion>, functionOffsets: seq<int>, recs: seq<Record>)
    requires SegmentsDefined(files, functionOffsets, recs)
    ensures |SourceMapSegments(files, functionOffsets, recs)| == LocationCount(recs)
    decreases |recs|
  {
    if recs != [] {
      SourceMapSegmentsCount(files, functionOffsets, recs[1..]);
    }
  }

  //--------------------------------------------------------------------------
  // The reader
  //--------------------------------------------------------------------------

  /** The names loop of `getVariableNames`: `count` strings read one after the other from `pos`. */
  method DecodeNamesLoop(lex: seq<byte>, pos: nat, count: nat) returns (result: seq<Name>)
    requires DecodeNames(lex, pos, count).Some?
    ensures result == DecodeNames(lex, pos, count).value.0
  {
    ghost var (names, end) := DecodeNames(lex, pos, count).value;
    result := [];
    var at := pos;
    var i := 0;
    while i < count
      invariant 0 <= i <= count
      invariant result == names[..i]
      invariant DecodeNames(lex, at, count - i) == Some((names[i..], end))
    {
      ghost var first, after := DecodeNamesStep(lex, at, count - i, names[i..], end);
      SliceStep(names, i);
      var (name, next) := DecodeString(lex, at).value;
      result := result + [name];
      at := next;
      i := i + 1;
    }
  }

  /** `DebugInfo`; `sourceLocationsData()` and `lexicalData()` are the two sides of `lexicalDataOffset`. */
  class DebugInfo {
    const files: seq<FileRegion>
    const lexicalDataOffset: nat
    const data: seq<byte>

    constructor (files: seq<FileRegion>, lexicalDataOffset: nat, data: seq<byte>)
      requires lexicalDataOffset <= |data|
      ensures this.files == files && this.lexicalDataOffset == lexicalDataOffset && this.data == data
    {
      this.files := files;
      this.lexicalDataOffset := lexicalDataOffset;
      this.data := data;
    }

    /** `getFilenameForAddress`: the scan over the file table, stopping at the first entry past the offset. */
    method GetFilenameForAddress(debugOffset: nat) returns (value: Option<nat>)
      ensures value == FilenameFor(files, debugOffset)
    {
      value := None;
      var i := 0;
      while i < |files|
        invariant 0 <= i <= LeadingNotAfter(files, debugOffset)
        invariant value == if i == 0 then None else Some(files[i - 1].filenameId)
      {
        if files[i].fromAddress <= debugOffset {
          value := Some(files[i].filenameId);
        } else {
          break;
        }
        i := i + 1;
      }
    }

    /**
     * `getLocationForAddress`: walks the record at `debugOffset` while the
     * decoded addresses stay at or before `offsetInFunction`, remembering
     * the last location and where its entry began.
     */
    method GetLocationForAddress(debugOffset: nat, offsetInFunction: nat) returns (r: Option<Location>)
      requires LocationScanDecodes(data, debugOffset, offsetInFunction)
      ensures r == LocationFor(files, data, debugOffset, offsetInFunction)
    {
      var lastLocation, lastLocationOffset := ScanRecord(debugOffset, offsetInFunction);
      var file := GetFilenameForAddress(lastLocationOffset);
      if file.Some? {
        r := Some(Location(offsetInFunction, file.value, lastLocation.line, lastLocation.column, lastLocation.statement));
      } else {
        r := None;
      }
    }

    /** The loop of `getLocationForAddress`: the last location at or before the query, and where its entry begins. */
    method ScanRecord(debugOffset: nat, offsetInFunction: nat) returns (lastLocation: Point, lastLocationOffset: nat)
      requires LocationScanDecodes(data, debugOffset, offsetInFunction)
      ensures (lastLocation, lastLocationOffset) == ChosenLocation(data, debugOffset, offsetInFunction)
    {
      ghost var h := HeaderAt(data, debugOffset).value;
      ghost var p := RecordScan(data, debugOffset);
      ghost var n := EntriesNotAfter(p.entries, offsetInFunction);
      ghost var chosen := ChosenLocation(data, debugOffset, offsetInFunction);
      assert n == 0 ==> chosen == (StartPoint(h), debugOffset);
      assert n > 0 ==> chosen == (p.entries[n - 1].loc, p.entries[n - 1].offset);
      var fdid := new FunctionDebugInfoDeserializer(data, debugOffset);
      lastLocation := fdid.current;
      lastLocationOffset := debugOffset;
      var nextLocationOffset := fdid.offset;
      ghost var i := 0;
      while true
        invariant fdid.data == data
        invariant i <= n
        invariant ParseEntries(data, fdid.offset, fdid.current) == Entries(p.entries[i..], p.tail)
        invariant nextLocationOffset == fdid.offset
        invariant i == 0 ==> lastLocation == StartPoint(h) && lastLocationOffset == debugOffset
        invariant i > 0 ==> lastLocation == p.entries[i - 1].loc && lastLocationOffset == p.entries[i - 1].offset
        decreases |p.entries| - i
      {
        ParseEntriesNext(data, fdid.offset, fdid.current, p.entries[i..], p.tail);
        ghost var entry := if i < |p.entries| then p.entries[i] else Entry(0, lastLocation);
        var loc := fdid.Next();
        if loc.None? {
          EntriesNotAfterStop(p.entries, offsetInFunction, i);
          break;
        }
        assert i < |p.entries| && loc.value == entry.loc && entry.offset == nextLocationOffset;
        if loc.value.address > offsetInFunction {
          EntriesNotAfterStop(p.entries, offsetInFunction, i);
          break;
        }
        EntriesNotAfterStop(p.entries, offsetInFunction, i);
        lastLocation := loc.value;
        lastLocationOffset := nextLocationOffset;
        nextLocationOffset := fdid.offset;
        assert p.entries[i..][1..] == p.entries[i + 1..];
        i := i + 1;
      }
    }

    /** The first loop of `getAddressForLocation`: the window of the file's first entry in the file table. */
    method FindFileWindow(filenameId: nat) returns (w: Option<(nat, nat)>)
      ensures w == FileWindow(files, filenameId, lexicalDataOffset)
    {
      ghost var k := FirstFileIndex(files, filenameId);
      var start: nat := 0;
      var end: nat := 0;
      var foundFile := false;
      var i := 0;
      while i < |files|
        invariant 0 <= i <= |files| && i <= k + 1
        invariant foundFile <==> k < i
        invariant foundFile ==> start == files[k].fromAddress && end == lexicalDataOffset
      {
        var cur := files[i];
        if foundFile {
          end := cur.fromAddress;
          break;
        }
        if cur.filenameId == filenameId {
          foundFile := true;
          start := cur.fromAddress;
          end := lexicalDataOffset;
        }
        i := i + 1;
      }
      if !foundFile {
        return None;
      }
      return Some((start, end));
    }

    /**
     * The inner loop of `getAddressForLocation` over the record at `offset`:
     * the first matching entry, or None and the offset past the end marker.
     */
    method SearchFunction(offset: nat, targetLine: int, targetColumn: Option<int>) returns (found: Option<DebugSearchResult>, next: nat)
      requires RecordSearchDecodes(data, offset, targetLine, targetColumn)
      ensures var h := HeaderAt(data, offset).value;
              var p := ParseEntries(data, h.next, StartPoint(h));
              var m := FirstMatch(p.entries, targetLine, targetColumn);
              if m < |p.entries| then found == Some(ResultFor(h.functionIndex, p.entries[m]))
              else found.None? && next == p.tail.end
    {
      ghost var h := HeaderAt(data, offset).value;
      ghost var p := ParseEntries(data, h.next, StartPoint(h));
      ghost var m := FirstMatch(p.entries, targetLine, targetColumn);
      assert m == |p.entries| ==> p.tail.Ended?;
      var fdid := new FunctionDebugInfoDeserializer(data, offset);
      var functionIndex := fdid.functionIndex;
      found := None;
      ghost var j := 0;
      while true
        invariant fdid.data == data
        invariant found.None?
        invariant j <= m
        invariant ParseEntries(data, fdid.offset, fdid.current) == Entries(p.entries[j..], p.tail)
        decreases |p.entries| - j
      {
        ParseEntriesNext(data, fdid.offset, fdid.current, p.entries[j..], p.tail);
        ghost var entry := if j < |p.entries| then p.entries[j] else Entry(0, fdid.current);
        var loc := fdid.Next();
        if loc.None? {
          FirstMatchStop(p.entries, targetLine, targetColumn, j);
          assert j == |p.entries| && fdid.offset == p.tail.end;
          break;
        }
        assert j < |p.entries| && loc.value == entry.loc;
        FirstMatchStop(p.entries, targetLine, targetColumn, j);
        var line := loc.value.line;
        var column := loc.value.column;
        if line == targetLine && (targetColumn.None? || column == targetColumn.value) {
          assert j == m;
          found := Some(DebugSearchResult(functionIndex, loc.value.address, line, column));
          break;
        }
        assert p.entries[j..][1..] == p.entries[j + 1..];
        j := j + 1;
      }
      next := fdid.offset;
    }

    /**
     * `getAddressForLocation`: finds the file's window in the file table,
     * then scans the records in it and returns on the first entry whose line
     * (and column, if given) match.
     */
    method GetAddressForLocation(filenameId: nat, targetLine: int, targetColumn: Option<int>) returns (r: Option<DebugSearchResult>)
      requires AddressSearchDecodes(files, lexicalDataOffset, data, filenameId, targetLine, targetColumn)
      ensures r == AddressFor(files, lexicalDataOffset, data, filenameId, targetLine, targetColumn)
    {
      var window := FindFileWindow(filenameId);
      if window.None? {
        return None;
      }
      var (start, end) := window.value;
      ghost var outcome := SearchRecords(data, start, end, targetLine, targetColumn);
      var offset := start;
      while offset < end
        invariant SearchRecords(data, offset, end, targetLine, targetColumn) == outcome
        invariant !outcome.Corrupt?
        decreases |data| - offset
      {
        var found, next := SearchFunction(offset, targetLine, targetColumn);
        if found.Some? {
          return found;
        }
        offset := next;
      }
      return None;
    }

    /** The lexical-scope table, `lexicalData()`. */
    function LexicalRegion(): seq<byte>
      requires lexicalDataOffset <= |data|
    {
      data[lexicalDataOffset..]
    }

    /** The location stream, `sourceLocationsData()`. */
    function SourceLocationsData(): seq<byte>
      requires lexicalDataOffset <= |data|
    {
      data[..lexicalDataOffset]
    }

    /**
     * `getVariableNames(offset)`: skips the parent field, reads the count,
     * then decodes that many strings, each starting where the previous ended.
     */
    method GetVariableNames(offset: nat) returns (result: seq<Name>)
      requires lexicalDataOffset <= |data| && VariableNamesAt(LexicalRegion(), offset).Some?
      ensures result == VariableNamesAt(LexicalRegion(), offset).value
    {
      var lex := data[lexicalDataOffset..];
      var (_, p1) := Read(lex, offset).value;
      var (signedCount, p2) := Read(lex, p1).value;
      result := DecodeNamesLoop(lex, p2, signedCount);
    }

    /**
     * One round of `populateSourceMap`'s outer loop: the segments of the
     * record at `offset` and the offset of the next record.
     */
    method RecordSegmentsAt(locsData: seq<byte>, offset: nat, functionOffsets: seq<int>, ghost rec: Record)
      returns (segments: seq<Segment>, next: nat)
      requires ParseRecord(locsData, offset) == Some(rec)
      requires 0 <= rec.functionIndex < |functionOffsets| && FilenameFor(files, rec.offset).Some?
      ensures segments == RecordSegments(files, functionOffsets, rec) && next == rec.end
    {
      var fdid := new FunctionDebugInfoDeserializer(locsData, offset);
      var offsetInFile := functionOffsets[fdid.functionIndex];
      var file := GetFilenameForAddress(offset);
      segments := [SegmentFor(fdid.current, offsetInFile, file.value)];
      ghost var target := RecordSegments(files, functionOffsets, rec);
      assert target == segments + EntrySegments(rec.entries, offsetInFile, file.value);
      assert rec.entries[0..] == rec.entries;
      ghost var j := 0;
      while true
        invariant fdid.data == locsData
        invariant j <= |rec.entries|
        invariant ParseEntries(locsData, fdid.offset, fdid.current) == Entries(rec.entries[j..], Ended(rec.end))
        invariant target == segments + EntrySegments(rec.entries[j..], offsetInFile, file.value)
        decreases |rec.entries| - j
      {
        ParseEntriesStep(locsData, fdid.offset, fdid.current);
        var loc := fdid.Next();
        if loc.None? {
          break;
        }
        var segment := SegmentFor(loc.value, offsetInFile, file.value);
        EntrySegmentsStep(rec.entries, j, offsetInFile, file.value);
        AppendAssoc(segments, [segment], EntrySegments(rec.entries[j + 1..], offsetInFile, file.value));
        segments := segments + [segment];
        j := j + 1;
      }
      next := fdid.offset;
    }

    /**
     * `populateSourceMap`: for each record of the location stream, the
     * header's segment and then one per entry, all with the function's
     * offset in the file and the file at the record's start.
     */
    method PopulateSourceMap(functionOffsets: seq<int>) returns (segments: seq<Segment>)
      requires lexicalDataOffset <= |data|
      requires ParseRecords(SourceLocationsData(), 0, |SourceLocationsData()|).Some?
      requires SegmentsDefined(files, functionOffsets, ParseRecords(SourceLocationsData(), 0, |SourceLocationsData()|).value)
      ensures segments == SourceMapSegments(files, functionOffsets, ParseRecords(SourceLocationsData(), 0, |SourceLocationsData()|).value)
    {
      var locsData := data[..lexicalDataOffset];
      ghost var recs := ParseRecords(locsData, 0, |locsData|).value;
      ghost var target := SourceMapSegments(files, functionOffsets, recs);
      segments := [];
      var offset := 0;
      ghost var rest := recs;
      while offset < |locsData|
        invariant ParseRecords(locsData, offset, |locsData|) == Some(rest)
        invariant SegmentsDefined(files, functionOffsets, rest)
        invariant target == segments + SourceMapSegments(files, functionOffsets, rest)
        decreases |locsData| - offset
      {
        ParseRecordsStep(locsData, offset, |locsData|, rest);
        SourceMapSegmentsStep(files, functionOffsets, rest);
        var segs, next := RecordSegmentsAt(locsData, offset, functionOffsets, rest[0]);
        AppendAssoc(segments, segs, SourceMapSegments(files, functionOffsets, rest[1..]));
        segments := segments + segs;
        offset := next;
        rest := rest[1..];
      }
      ParseRecordsStep(locsData, offset, |locsData|, rest);
    }
  }
}

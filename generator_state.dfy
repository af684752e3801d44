/**
 * What `DebugInfoGenerator` has written, as values: one FunctionRecord per
 * `appendSourceLocations` call that wrote a record and one Scope per scope,
 * the file table entries each call pushes, and the invariant that ties the
 * bytes and the file table to them, with the lemmas that show each append
 * keeps it.
 */
module GeneratorState {
  import opened Wrappers
  import opened Leb128
  import opened LocationStream
  import opened FileTable
  import opened LexicalData
  import opened DebugInfoReader

  /** One `appendSourceLocations` call that wrote a record: where it starts, and its arguments. */
  datatype FunctionRecord = FunctionRecord(offset: nat, functionIndex: nat, start: DebugSourceLocation, offsets: seq<DebugSourceLocation>)

  /** One scope of the lexical-scope table: the offset `appendLexicalData` returned, and its arguments. */
  datatype Scope = Scope(offset: nat, parent: Option<nat>, names: seq<Name>)

  function RecordBytes(r: FunctionRecord): seq<byte>
  {
    EncodeRecord(r.functionIndex, r.start, r.offsets)
  }

  function RecordEnd(r: FunctionRecord): nat
  {
    r.offset + |RecordBytes(r)|
  }

  /** Where the entries of `r` begin: right after its header. */
  function EntriesStart(r: FunctionRecord): nat
  {
    r.offset + |EncodeHeader(r.functionIndex, r.start)|
  }

  /** The entries a reader finds in `r`, each with the offset where its bytes begin. */
  function DecodedEntries(r: FunctionRecord): seq<Entry>
  {
    EntriesAt(EntriesStart(r), r.start, r.start, r.offsets)
  }

  /** The record a reader finds at the offset of `r`. */
  function Decoded(r: FunctionRecord): Record
  {
    Record(r.offset, r.functionIndex, Relative(r.start, r.start), DecodedEntries(r), RecordEnd(r))
  }

  function DecodedAll(recs: seq<FunctionRecord>): (r: seq<Record>)
    ensures |r| == |recs|
    ensures forall i :: 0 <= i < |recs| ==> r[i] == Decoded(recs[i])
    decreases |recs|
  {
    if recs == [] then [] else [Decoded(recs[0])] + DecodedAll(recs[1..])
  }

  //--------------------------------------------------------------------------
  // The file table pushes of appendSourceLocations (DebugInfo.cpp:344-358)
  //--------------------------------------------------------------------------

  /** The entry the header pushes: none when the last entry of the table already has the start's file. */
  function HeaderRegion(files: seq<FileRegion>, startOffset: nat, start: DebugSourceLocation): seq<FileRegion>
  {
    if files == [] || files[|files| - 1].filenameId != start.filenameId
    then [FileRegion(startOffset, start.filenameId, start.sourceMappingUrlId)]
    else []
  }

  /**
   * The entries pushed while the entries of `rest` are written from `pos`:
   * one at the offset of each location whose file differs from the previous
   * location's, with the record's source-map URL.
   */
  function EntryRegions(pos: nat, prev: DebugSourceLocation, rest: seq<DebugSourceLocation>, url: nat): seq<FileRegion>
    decreases |rest|
  {
    if rest == [] then []
    else
      (if rest[0].filenameId != prev.filenameId then [FileRegion(pos, rest[0].filenameId, url)] else [])
      + EntryRegions(pos + |EncodeEntry(prev, rest[0])|, rest[0], rest[1..], url)
  }

  /** Everything one appendSourceLocations call pushes onto the file table. */
  function NewRegions(files: seq<FileRegion>, startOffset: nat, functionIndex: nat, start: DebugSourceLocation,
                      offsets: seq<DebugSourceLocation>): seq<FileRegion>
  {
    if offsets == [] then []
    else HeaderRegion(files, startOffset, start)
         + EntryRegions(startOffset + |EncodeHeader(functionIndex, start)|, start, offsets, start.sourceMappingUrlId)
  }

  /** The file table the calls that wrote `recs` push, one call after the other, from an empty table. */
  ghost function TablePushes(recs: seq<FunctionRecord>): seq<FileRegion>
    decreases |recs|
  {
    if recs == [] then []
    else
      var before := TablePushes(recs[..|recs| - 1]);
      var r := recs[|recs| - 1];
      before + NewRegions(before, r.offset, r.functionIndex, r.start, r.offsets)
  }

  /** The file table is exactly what the calls that wrote `recs` pushed. */
  ghost predicate PushedBy(files: seq<FileRegion>, recs: seq<FunctionRecord>)
  {
    files == TablePushes(recs)
  }

  /** The table after one more call is the table before it and that call's pushes. */
  lemma TablePushesAppend(files: seq<FileRegion>, recs: seq<FunctionRecord>, r: FunctionRecord)
    requires PushedBy(files, recs)
    ensures PushedBy(files + NewRegions(files, r.offset, r.functionIndex, r.start, r.offsets), recs + [r])
  {
    assert (recs + [r])[..|recs + [r]| - 1] == recs;
  }

  //--------------------------------------------------------------------------
  // The representation invariant, on values
  //--------------------------------------------------------------------------

  /** A record appendSourceLocations writes: at least one location, and a start at statement 0. */
  predicate WellFormed(r: FunctionRecord)
  {
    r.offsets != [] && r.start.statement == 0
  }

  /**
   * The records lie back to back from `pos` to the end of the stream, each
   * well formed and holding its own bytes.
   */
  ghost predicate TiledFrom(data: seq<byte>, recs: seq<FunctionRecord>, pos: nat)
    decreases |recs|
  {
    if recs == [] then pos == |data|
    else
      && recs[0].offset == pos && WellFormed(recs[0])
      && BytesAt(data, pos, RecordBytes(recs[0]))
      && TiledFrom(data, recs[1..], RecordEnd(recs[0]))
  }

  /** The location stream is the records, back to back from offset 0. */
  ghost predicate Tiled(data: seq<byte>, recs: seq<FunctionRecord>)
  {
    TiledFrom(data, recs, 0)
  }

  /**
   * The file table is sorted, within the stream, and resolves the start of
   * every record and the start of every entry to that location's file.
   */
  ghost predicate FilesValid(files: seq<FileRegion>, data: seq<byte>, recs: seq<FunctionRecord>)
  {
    && Sorted(files)
    && (forall k :: 0 <= k < |files| ==> files[k].fromAddress <= |data|)
    && (forall i :: 0 <= i < |recs| ==> FilenameFor(files, recs[i].offset) == Some(recs[i].start.filenameId))
    && (forall i, j :: 0 <= i < |recs| && 0 <= j < |DecodedEntries(recs[i])| ==>
          FilenameFor(files, DecodedEntries(recs[i])[j].offset) == Some(recs[i].offsets[j].filenameId))
  }

  /** The shared empty scope is at offset 0, and every scope's bytes stand at its offset. */
  ghost predicate ScopesValid(lexicalData: seq<byte>, scopes: seq<Scope>)
  {
    && |scopes| >= 1 && scopes[0] == Scope(EmptyLexicalDataOffset, None, [])
    && (forall i :: 0 <= i < |scopes| ==> BytesAt(lexicalData, scopes[i].offset, EncodeScope(scopes[i].parent, scopes[i].names)))
  }

  //--------------------------------------------------------------------------
  // The file table resolves what appendSourceLocations wrote
  //--------------------------------------------------------------------------

  /** The entries pushed while writing entries are sorted: each is pushed at a later offset. */
  lemma {:induction false} EntryRegionsSorted(pos: nat, prev: DebugSourceLocation, rest: seq<DebugSourceLocation>, url: nat)
    ensures Sorted(EntryRegions(pos, prev, rest, url))
    decreases |rest|
  {
    if rest != [] {
      var next := pos + |EncodeEntry(prev, rest[0])|;
      var pushed := if rest[0].filenameId != prev.filenameId then [FileRegion(pos, rest[0].filenameId, url)] else [];
      EntryRegionsCons(pos, prev, rest, url, next);
      EntryRegionsSorted(next, rest[0], rest[1..], url);
      EntryRegionsWithin(next, rest[0], rest[1..], url);
      SortedAppendAt(pushed, EntryRegions(next, rest[0], rest[1..], url), pos);
    }
  }

  /**
   * Writing the entries of `rest` from `pos`, with the table's last entry
   * holding the previous location's file: the table resolves the offset of
   * each entry to that location's file.
   */
  lemma {:induction false} EntryRegionsLookup(files: seq<FileRegion>, pos: nat, start: DebugSourceLocation,
                                              prev: DebugSourceLocation, rest: seq<DebugSourceLocation>, url: nat)
    requires files != [] && files[|files| - 1].filenameId == prev.filenameId
    requires forall k :: 0 <= k < |files| ==> files[k].fromAddress <= pos
    ensures forall j :: 0 <= j < |rest| ==>
              FilenameFor(files + EntryRegions(pos, prev, rest, url), EntriesAt(pos, start, prev, rest)[j].offset)
              == Some(rest[j].filenameId)
    decreases |rest|
  {
    if rest != [] {
      var next := pos + |EncodeEntry(prev, rest[0])|;
      var f1 := PushIfNewFile(files, pos, prev, rest[0], url);
      var more := EntryRegions(next, rest[0], rest[1..], url);
      var pushed := if rest[0].filenameId != prev.filenameId then [FileRegion(pos, rest[0].filenameId, url)] else [];
      EntryRegionsCons(pos, prev, rest, url, next);
      AppendAssoc(files, pushed, more);
      EntryRegionsLookup(f1, next, start, rest[0], rest[1..], url);
      EntryRegionsWithin(next, rest[0], rest[1..], url);
      assert pos < next;
      FilenameForIgnoresLater(f1, more, pos);
      EntriesAtCons(pos, start, prev, rest, next);
      assert files + EntryRegions(pos, prev, rest, url) == f1 + more;
      LookupCons(f1 + more, Entry(pos, Relative(start, rest[0])), EntriesAt(next, start, rest[0], rest[1..]), rest);
    }
  }

  /**
   * The lookups of a list of entries from the lookup of the first and of the
   * others: the step of EntryRegionsLookup.
   */
  lemma LookupCons(all: seq<FileRegion>, first: Entry, tail: seq<Entry>, rest: seq<DebugSourceLocation>)
    requires |rest| == |tail| + 1
    requires FilenameFor(all, first.offset) == Some(rest[0].filenameId)
    requires forall j :: 0 <= j < |tail| ==> FilenameFor(all, tail[j].offset) == Some(rest[1..][j].filenameId)
    ensures forall j :: 0 <= j < |rest| ==> FilenameFor(all, ([first] + tail)[j].offset) == Some(rest[j].filenameId)
  {
    forall j | 0 <= j < |rest|
      ensures FilenameFor(all, ([first] + tail)[j].offset) == Some(rest[j].filenameId)
    {
      if j > 0 {
        assert ([first] + tail)[j] == tail[j - 1] && rest[j] == rest[1..][j - 1];
      }
    }
  }

  /** EntryRegions on a nonempty `rest`, unfolded once. */
  lemma EntryRegionsCons(pos: nat, prev: DebugSourceLocation, rest: seq<DebugSourceLocation>, url: nat, next: nat)
    requires rest != [] && next == pos + |EncodeEntry(prev, rest[0])|
    ensures EntryRegions(pos, prev, rest, url)
         == (if rest[0].filenameId != prev.filenameId then [FileRegion(pos, rest[0].filenameId, url)] else [])
            + EntryRegions(next, rest[0], rest[1..], url)
  {
  }

  /**
   * The push for one entry at `pos`: a new table entry only when the file
   * changes; afterwards the table resolves `pos` to the entry's file and its
   * last entry holds that file.
   */
  lemma PushIfNewFile(files: seq<FileRegion>, pos: nat, prev: DebugSourceLocation, next: DebugSourceLocation, url: nat)
      returns (f1: seq<FileRegion>)
    requires files != [] && files[|files| - 1].filenameId == prev.filenameId
    requires forall k :: 0 <= k < |files| ==> files[k].fromAddress <= pos
    ensures f1 == files + (if next.filenameId != prev.filenameId then [FileRegion(pos, next.filenameId, url)] else [])
    ensures f1 != [] && f1[|f1| - 1].filenameId == next.filenameId
    ensures forall k :: 0 <= k < |f1| ==> f1[k].fromAddress <= pos
    ensures FilenameFor(f1, pos) == Some(next.filenameId)
  {
    if next.filenameId != prev.filenameId {
      f1 := files + [FileRegion(pos, next.filenameId, url)];
    } else {
      f1 := files;
    }
    FilenameForAllNotAfter(f1, pos);
  }

  /** One appendSourceLocations call keeps the table sorted. */
  lemma NewRegionsSorted(files: seq<FileRegion>, startOffset: nat, functionIndex: nat, start: DebugSourceLocation,
                         offsets: seq<DebugSourceLocation>)
    requires Sorted(files) && forall k :: 0 <= k < |files| ==> files[k].fromAddress <= startOffset
    ensures Sorted(files + NewRegions(files, startOffset, functionIndex, start, offsets))
  {
    var added := NewRegions(files, startOffset, functionIndex, start, offsets);
    if offsets != [] {
      var pos := startOffset + |EncodeHeader(functionIndex, start)|;
      EntryRegionsSorted(pos, start, offsets, start.sourceMappingUrlId);
      EntryRegionsWithin(pos, start, offsets, start.sourceMappingUrlId);
      SortedAppendAt(HeaderRegion(files, startOffset, start), EntryRegions(pos, start, offsets, start.sourceMappingUrlId), startOffset);
    }
    NewRegionsWithin(files, startOffset, functionIndex, start, offsets);
    SortedAppendAt(files, added, startOffset);
  }

  /** The entries pushed while writing the entries of `rest` from `pos` lie within those entries' bytes. */
  lemma {:induction false} EntryRegionsWithin(pos: nat, prev: DebugSourceLocation, rest: seq<DebugSourceLocation>, url: nat)
    ensures forall k :: 0 <= k < |EntryRegions(pos, prev, rest, url)| ==>
              pos <= EntryRegions(pos, prev, rest, url)[k].fromAddress < pos + |EncodeEntries(prev, rest)|
    decreases |rest|
  {
    if rest != [] {
      var next := pos + |EncodeEntry(prev, rest[0])|;
      var pushed: seq<FileRegion> := if rest[0].filenameId != prev.filenameId then [FileRegion(pos, rest[0].filenameId, url)] else [];
      var more: seq<FileRegion> := EntryRegions(next, rest[0], rest[1..], url);
      EntryRegionsCons(pos, prev, rest, url, next);
      EntryRegionsWithin(next, rest[0], rest[1..], url);
      assert |EncodeEntries(prev, rest)| == |EncodeEntry(prev, rest[0])| + |EncodeEntries(rest[0], rest[1..])|;
      forall k | 0 <= k < |pushed + more|
        ensures pos <= (pushed + more)[k].fromAddress < pos + |EncodeEntries(prev, rest)|
      {
        if k >= |pushed| {
          assert (pushed + more)[k] == more[k - |pushed|];
        }
      }
    }
  }

  /** Everything one appendSourceLocations call pushes lies within the bytes it writes. */
  lemma NewRegionsWithin(files: seq<FileRegion>, startOffset: nat, functionIndex: nat, start: DebugSourceLocation,
                         offsets: seq<DebugSourceLocation>)
    ensures forall j :: 0 <= j < |NewRegions(files, startOffset, functionIndex, start, offsets)| ==>
              startOffset <= NewRegions(files, startOffset, functionIndex, start, offsets)[j].fromAddress
              < startOffset + |EncodeRecord(functionIndex, start, offsets)|
  {
    if offsets != [] {
      var h: seq<FileRegion> := HeaderRegion(files, startOffset, start);
      var pos := startOffset + |EncodeHeader(functionIndex, start)|;
      var more: seq<FileRegion> := EntryRegions(pos, start, offsets, start.sourceMappingUrlId);
      EntryRegionsWithin(pos, start, offsets, start.sourceMappingUrlId);
      assert |EncodeRecord(functionIndex, start, offsets)|
          == |EncodeHeader(functionIndex, start)| + |EncodeEntries(start, offsets)| + |Encode(EndMarker)|;
      forall k | 0 <= k < |h + more|
        ensures startOffset <= (h + more)[k].fromAddress < startOffset + |EncodeRecord(functionIndex, start, offsets)|
      {
        if k >= |h| {
          assert (h + more)[k] == more[k - |h|];
        }
      }
    }
  }

  /**
   * One appendSourceLocations call on a table within the stream: the table
   * resolves the record's start to the start's file and each entry's offset
   * to its location's file.
   */
  lemma NewRegionsLookup(files: seq<FileRegion>, startOffset: nat, functionIndex: nat, start: DebugSourceLocation,
                         offsets: seq<DebugSourceLocation>, pos: nat)
    requires forall k :: 0 <= k < |files| ==> files[k].fromAddress <= startOffset
    requires offsets != [] && pos == startOffset + |EncodeHeader(functionIndex, start)|
    ensures FilenameFor(files + NewRegions(files, startOffset, functionIndex, start, offsets), startOffset) == Some(start.filenameId)
    ensures forall j :: 0 <= j < |offsets| ==>
              FilenameFor(files + NewRegions(files, startOffset, functionIndex, start, offsets), EntriesAt(pos, start, start, offsets)[j].offset)
              == Some(offsets[j].filenameId)
  {
    var h := HeaderRegion(files, startOffset, start);
    var f0 := HeaderPush(files, startOffset, start);
    var more := EntryRegions(pos, start, offsets, start.sourceMappingUrlId);
    assert NewRegions(files, startOffset, functionIndex, start, offsets) == h + more;
    AppendAssoc(files, h, more);
    EntryRegionsLookup(f0, pos, start, start, offsets, start.sourceMappingUrlId);
    EntryRegionsWithin(pos, start, offsets, start.sourceMappingUrlId);
    assert startOffset < pos;
    FilenameForIgnoresLater(f0, more, startOffset);
  }

  /** The header's push: afterwards the table resolves the record's start to the start's file. */
  lemma HeaderPush(files: seq<FileRegion>, startOffset: nat, start: DebugSourceLocation) returns (f0: seq<FileRegion>)
    requires forall k :: 0 <= k < |files| ==> files[k].fromAddress <= startOffset
    ensures f0 == files + HeaderRegion(files, startOffset, start)
    ensures f0 != [] && f0[|f0| - 1].filenameId == start.filenameId
    ensures forall k :: 0 <= k < |f0| ==> f0[k].fromAddress <= startOffset
    ensures FilenameFor(f0, startOffset) == Some(start.filenameId)
  {
    if files == [] || files[|files| - 1].filenameId != start.filenameId {
      f0 := files + [FileRegion(startOffset, start.filenameId, start.sourceMappingUrlId)];
    } else {
      f0 := files;
    }
    FilenameForAllNotAfter(f0, startOffset);
  }

  //--------------------------------------------------------------------------
  // Appending a record keeps the invariant
  //--------------------------------------------------------------------------

  /** A record's entries begin inside the record, after its header. */
  lemma EntryOffsetsWithin(r: FunctionRecord)
    requires WellFormed(r)
    ensures forall j :: 0 <= j < |DecodedEntries(r)| ==> r.offset < DecodedEntries(r)[j].offset < RecordEnd(r)
  {
    EntriesAtShape(EntriesStart(r), r.start, r.start, r.offsets);
  }

  /** Each record of a tiling from `pos` is well formed and holds its bytes, no earlier than `pos`. */
  lemma {:induction false} TiledAt(data: seq<byte>, recs: seq<FunctionRecord>, pos: nat, i: nat)
    requires TiledFrom(data, recs, pos) && i < |recs|
    ensures WellFormed(recs[i]) && BytesAt(data, recs[i].offset, RecordBytes(recs[i])) && pos <= recs[i].offset
    decreases i
  {
    if i > 0 {
      TiledAt(data, recs[1..], RecordEnd(recs[0]), i - 1);
      assert recs[1..][i - 1] == recs[i];
    }
  }

  /** Every record of a tiled stream, and every entry of it, starts before the end of the stream. */
  lemma WithinStream(data: seq<byte>, recs: seq<FunctionRecord>, i: nat)
    requires Tiled(data, recs) && i < |recs|
    ensures recs[i].offset < RecordEnd(recs[i]) <= |data|
    ensures forall j :: 0 <= j < |DecodedEntries(recs[i])| ==> DecodedEntries(recs[i])[j].offset < |data|
  {
    TiledAt(data, recs, 0, i);
    EntryOffsetsWithin(recs[i]);
  }

  /** Appending the bytes of a new record at the end keeps a tiling. */
  lemma {:induction false} AppendRecordTiledFrom(data: seq<byte>, recs: seq<FunctionRecord>, pos: nat, r: FunctionRecord)
    requires TiledFrom(data, recs, pos) && r.offset == |data| && WellFormed(r)
    ensures TiledFrom(data + RecordBytes(r), recs + [r], pos)
    decreases |recs|
  {
    var data' := data + RecordBytes(r);
    if recs == [] {
      assert recs + [r] == [r] && [r][1..] == [];
      BytesAtEnd(data, RecordBytes(r));
    } else {
      assert (recs + [r])[0] == recs[0] && (recs + [r])[1..] == recs[1..] + [r];
      BytesAtGrow(data, RecordBytes(r), pos, RecordBytes(recs[0]));
      AppendRecordTiledFrom(data, recs[1..], RecordEnd(recs[0]), r);
    }
  }

  lemma AppendRecordTiled(data: seq<byte>, recs: seq<FunctionRecord>, r: FunctionRecord)
    requires Tiled(data, recs) && r.offset == |data| && WellFormed(r)
    ensures Tiled(data + RecordBytes(r), recs + [r])
  {
    AppendRecordTiledFrom(data, recs, 0, r);
  }

  /** Entries pushed at or after the end of the stream leave every lookup of the records already written alone. */
  lemma OldLookupsKept(files: seq<FileRegion>, added: seq<FileRegion>, data: seq<byte>, recs: seq<FunctionRecord>)
    requires Tiled(data, recs) && FilesValid(files, data, recs)
    requires forall k :: 0 <= k < |added| ==> |data| <= added[k].fromAddress
    ensures forall i :: 0 <= i < |recs| ==> FilenameFor(files + added, recs[i].offset) == Some(recs[i].start.filenameId)
    ensures forall i, j :: 0 <= i < |recs| && 0 <= j < |DecodedEntries(recs[i])| ==>
              FilenameFor(files + added, DecodedEntries(recs[i])[j].offset) == Some(recs[i].offsets[j].filenameId)
  {
    forall i | 0 <= i < |recs|
      ensures FilenameFor(files + added, recs[i].offset) == Some(recs[i].start.filenameId)
    {
      WithinStream(data, recs, i);
      FilenameForIgnoresLater(files, added, recs[i].offset);
    }
    forall i, j | 0 <= i < |recs| && 0 <= j < |DecodedEntries(recs[i])|
      ensures FilenameFor(files + added, DecodedEntries(recs[i])[j].offset) == Some(recs[i].offsets[j].filenameId)
    {
      WithinStream(data, recs, i);
      FilenameForIgnoresLater(files, added, DecodedEntries(recs[i])[j].offset);
    }
  }

  /** Appending a record and its table entries keeps the file table valid. */
  lemma AppendRecordFiles(files: seq<FileRegion>, data: seq<byte>, recs: seq<FunctionRecord>, r: FunctionRecord)
    requires Tiled(data, recs) && FilesValid(files, data, recs)
    requires r.offset == |data| && WellFormed(r)
    ensures FilesValid(files + NewRegions(files, |data|, r.functionIndex, r.start, r.offsets), data + RecordBytes(r), recs + [r])
  {
    var added := NewRegions(files, |data|, r.functionIndex, r.start, r.offsets);
    NewRegionsSorted(files, |data|, r.functionIndex, r.start, r.offsets);
    NewRegionsWithin(files, |data|, r.functionIndex, r.start, r.offsets);
    NewRegionsLookup(files, |data|, r.functionIndex, r.start, r.offsets, EntriesStart(r));
    OldLookupsKept(files, added, data, recs);
    AppendedWithin(files, added, |data|, |data| + |RecordBytes(r)|);
    ExtendLookups(files + added, recs, r);
  }

  /** The table stays within the stream when the stream grows past every added entry. */
  lemma AppendedWithin(files: seq<FileRegion>, added: seq<FileRegion>, size: nat, size': nat)
    requires forall k :: 0 <= k < |files| ==> files[k].fromAddress <= size
    requires forall k :: 0 <= k < |added| ==> added[k].fromAddress < size'
    requires size <= size'
    ensures forall k :: 0 <= k < |files + added| ==> (files + added)[k].fromAddress <= size'
  {
    forall k | 0 <= k < |files + added|
      ensures (files + added)[k].fromAddress <= size'
    {
      if k >= |files| {
        assert (files + added)[k] == added[k - |files|];
      }
    }
  }

  /** The lookups of the records written before and those of the new record are the lookups of all records. */
  lemma ExtendLookups(all: seq<FileRegion>, recs: seq<FunctionRecord>, r: FunctionRecord)
    requires forall i :: 0 <= i < |recs| ==> FilenameFor(all, recs[i].offset) == Some(recs[i].start.filenameId)
    requires forall i, j :: 0 <= i < |recs| && 0 <= j < |DecodedEntries(recs[i])| ==>
               FilenameFor(all, DecodedEntries(recs[i])[j].offset) == Some(recs[i].offsets[j].filenameId)
    requires FilenameFor(all, r.offset) == Some(r.start.filenameId)
    requires forall j :: 0 <= j < |r.offsets| ==>
               FilenameFor(all, EntriesAt(EntriesStart(r), r.start, r.start, r.offsets)[j].offset) == Some(r.offsets[j].filenameId)
    ensures forall i :: 0 <= i < |recs + [r]| ==> FilenameFor(all, (recs + [r])[i].offset) == Some((recs + [r])[i].start.filenameId)
    ensures forall i, j :: 0 <= i < |recs + [r]| && 0 <= j < |DecodedEntries((recs + [r])[i])| ==>
              FilenameFor(all, DecodedEntries((recs + [r])[i])[j].offset) == Some((recs + [r])[i].offsets[j].filenameId)
  {
    var recs' := recs + [r];
    forall i | 0 <= i < |recs'|
      ensures FilenameFor(all, recs'[i].offset) == Some(recs'[i].start.filenameId)
    {
      if i < |recs| {
        assert recs'[i] == recs[i];
      }
    }
    forall i, j | 0 <= i < |recs'| && 0 <= j < |DecodedEntries(recs'[i])|
      ensures FilenameFor(all, DecodedEntries(recs'[i])[j].offset) == Some(recs'[i].offsets[j].filenameId)
    {
      if i < |recs| {
        assert recs'[i] == recs[i];
      }
    }
  }

  /** Appending a scope's bytes at the end of the lexical data keeps every scope in place and adds the new one. */
  lemma AppendScopeValid(lexicalData: seq<byte>, scopes: seq<Scope>, sc: Scope)
    requires ScopesValid(lexicalData, scopes) && sc.offset == |lexicalData|
    ensures ScopesValid(lexicalData + EncodeScope(sc.parent, sc.names), scopes + [sc])
  {
    var lex' := lexicalData + EncodeScope(sc.parent, sc.names);
    var scopes' := scopes + [sc];
    forall i | 0 <= i < |scopes'|
      ensures BytesAt(lex', scopes'[i].offset, EncodeScope(scopes'[i].parent, scopes'[i].names))
    {
      if i < |scopes| {
        assert scopes'[i] == scopes[i];
        BytesAtGrow(lexicalData, EncodeScope(sc.parent, sc.names), scopes[i].offset, EncodeScope(scopes[i].parent, scopes[i].names));
      } else {
        assert scopes'[i] == sc;
        BytesAtEnd(lexicalData, EncodeScope(sc.parent, sc.names));
      }
    }
    assert scopes'[0] == scopes[0];
  }

  //--------------------------------------------------------------------------
  // The stream reads back as the records written
  //--------------------------------------------------------------------------

  /** No record of `recs` has an address delta equal to the end marker. */
  ghost predicate NoEndMarkerDeltas(recs: seq<FunctionRecord>)
  {
    forall k :: 0 <= k < |recs| ==> NoEndMarkerDelta(recs[k].start, recs[k].offsets)
  }

  /**
   * Scanning a tiling from `pos` to the end of the location stream, with
   * whatever follows the stream (the lexical data), gives back the records,
   * each decoded as ParseEncodeRecord describes.
   */
  lemma {:induction false} ParseTiledFrom(data: seq<byte>, more: seq<byte>, recs: seq<FunctionRecord>, pos: nat)
    requires TiledFrom(data, recs, pos) && NoEndMarkerDeltas(recs)
    ensures ParseRecords(data + more, pos, |data|) == Some(DecodedAll(recs))
    decreases |recs|
  {
    if recs != [] {
      var r := recs[0];
      assert NoEndMarkerDelta(r.start, r.offsets);
      BytesAtGrow(data, more, pos, RecordBytes(r));
      ParseFunctionRecord(data + more, r);
      assert forall k :: 0 <= k < |recs[1..]| ==> recs[1..][k] == recs[k + 1];
      ParseTiledFrom(data, more, recs[1..], RecordEnd(r));
      ParseRecordsCons(data + more, pos, |data|, Decoded(r), DecodedAll(recs[1..]));
    }
  }

  /** ParseEncodeRecord for a record of the generator. */
  lemma ParseFunctionRecord(data: seq<byte>, r: FunctionRecord)
    requires WellFormed(r) && BytesAt(data, r.offset, RecordBytes(r)) && NoEndMarkerDelta(r.start, r.offsets)
    ensures ParseRecord(data, r.offset) == Some(Decoded(r))
    ensures r.offset < RecordEnd(r) <= |data|
  {
    var entriesPos, end := ParseEncodeRecord(data, r.offset, r.functionIndex, r.start, r.offsets);
    DecodedUnfold(r, entriesPos, end);
  }

  /** Decoded, with the offsets where the entries begin and where the record ends named. */
  lemma DecodedUnfold(r: FunctionRecord, entriesPos: nat, end: nat)
    requires entriesPos == r.offset + |EncodeHeader(r.functionIndex, r.start)|
    requires end == r.offset + |EncodeRecord(r.functionIndex, r.start, r.offsets)|
    ensures Decoded(r) == Record(r.offset, r.functionIndex, Relative(r.start, r.start), EntriesAt(entriesPos, r.start, r.start, r.offsets), end)
    ensures RecordEnd(r) == end
  {
  }
}

/**
 * `DebugInfoGenerator`: the writer. It appends one record per function to
 * the location stream, keeps the file table in step with the filenames of
 * the locations it writes, appends lexical scopes to their own table, and
 * finally hands all of it to a `DebugInfo`.
 *
 * The ghost fields `records` and `scopes` remember what was appended and
 * where; `Valid()` says the bytes and the file table are exactly what those
 * appends produce, which is what the reader's round trips need.
 */
module Generator {
  import opened Wrappers
  import opened Leb128
  import opened LocationStream
  import opened FileTable
  import opened LexicalData
  import opened DebugInfoReader
  import opened GeneratorState

  //--------------------------------------------------------------------------
  // Appends keep the generator valid
  //--------------------------------------------------------------------------

  /** Appending a record, its bytes and its table entries keeps the generator valid. */
  lemma AppendKeepsValid(g: DebugInfoGenerator, data: seq<byte>, files: seq<FileRegion>, recs: seq<FunctionRecord>,
                          functionIndex: nat, start: DebugSourceLocation, offsets: seq<DebugSourceLocation>)
    requires Tiled(data, recs) && FilesValid(files, data, recs) && PushedBy(files, recs)
    requires offsets != [] && start.statement == 0
    requires g.sourcesData == data + EncodeRecord(functionIndex, start, offsets)
    requires g.files == files + NewRegions(files, |data|, functionIndex, start, offsets)
    requires g.records == recs + [FunctionRecord(|data|, functionIndex, start, offsets)]
    requires ScopesValid(g.lexicalData, g.scopes)
    ensures g.Valid()
  {
    var r := FunctionRecord(|data|, functionIndex, start, offsets);
    assert RecordBytes(r) == EncodeRecord(functionIndex, start, offsets) && WellFormed(r);
    TablePushesAppend(files, recs, r);
    AppendRecordTiled(data, recs, r);
    AppendRecordFiles(files, data, recs, r);
  }

  /** Appending a scope keeps the generator valid. */
  lemma AppendScopeKeepsValid(g: DebugInfoGenerator, lexicalData: seq<byte>, scopes: seq<Scope>, sc: Scope)
    requires ScopesValid(lexicalData, scopes) && sc.offset == |lexicalData|
    requires g.lexicalData == lexicalData + EncodeScope(sc.parent, sc.names) && g.scopes == scopes + [sc]
    requires Tiled(g.sourcesData, g.records) && FilesValid(g.files, g.sourcesData, g.records)
    requires PushedBy(g.files, g.records)
    ensures g.Valid()
  {
    AppendScopeValid(lexicalData, scopes, sc);
  }

  /** A valid generator holds the shared empty scope record at offset 0. */
  lemma EmptyScopeKept(g: DebugInfoGenerator, parent: Option<nat>, names: seq<Name>)
    requires g.Valid() && parent.None? && names == []
    ensures BytesAt(g.lexicalData, EmptyLexicalDataOffset, EncodeScope(parent, names))
  {
    assert g.scopes[0] == Scope(EmptyLexicalDataOffset, None, []);
  }

  //--------------------------------------------------------------------------
  // The generator object
  //--------------------------------------------------------------------------

  /** One entry unfolded: `EncodeEntries` on `rest[i..]`, nonempty, is the entry for `rest[i]` then the others. */
  lemma EncodeEntriesAt(prev: DebugSourceLocation, rest: seq<DebugSourceLocation>, i: nat)
    requires i < |rest|
    ensures EncodeEntries(prev, rest[i..]) == EncodeEntry(prev, rest[i]) + EncodeEntries(rest[i], rest[i + 1..])
  {
    assert rest[i..][0] == rest[i] && rest[i..][1..] == rest[i + 1..];
  }

  /**
   * One turn of the entry loop, seen from what is still to be written: the
   * entry for `rest[i]`, then the rest of the entries and the end marker;
   * the push for `rest[i]`, then the pushes for the rest.
   */
  lemma EntryStepTargets(data: seq<byte>, files: seq<FileRegion>, target: seq<byte>, filesTarget: seq<FileRegion>,
                         prev: DebugSourceLocation, rest: seq<DebugSourceLocation>, i: nat, url: nat)
      returns (nextPos: nat)
    requires i < |rest|
    requires target == data + (EncodeEntries(prev, rest[i..]) + Encode(EndMarker))
    requires filesTarget == files + EntryRegions(|data|, prev, rest[i..], url)
    ensures nextPos == |data| + |EncodeEntry(prev, rest[i])|
    ensures target == (data + EncodeEntry(prev, rest[i])) + (EncodeEntries(rest[i], rest[i + 1..]) + Encode(EndMarker))
    ensures filesTarget
         == (files + (if rest[i].filenameId != prev.filenameId then [FileRegion(|data|, rest[i].filenameId, url)] else []))
            + EntryRegions(nextPos, rest[i], rest[i + 1..], url)
  {
    nextPos := |data| + |EncodeEntry(prev, rest[i])|;
    var pushed := if rest[i].filenameId != prev.filenameId then [FileRegion(|data|, rest[i].filenameId, url)] else [];
    EncodeEntriesAt(prev, rest, i);
    AppendAssoc(data, EncodeEntry(prev, rest[i]), EncodeEntries(rest[i], rest[i + 1..]) + Encode(EndMarker));
    AppendAssoc(EncodeEntry(prev, rest[i]), EncodeEntries(rest[i], rest[i + 1..]), Encode(EndMarker));
    EntryRegionsCons(|data|, prev, rest[i..], url, nextPos);
    assert rest[i..][0] == rest[i] && rest[i..][1..] == rest[i + 1..];
    AppendAssoc(files, pushed, EntryRegions(nextPos, rest[i], rest[i + 1..], url));
  }

  /**
   * What AppendRecord aims at, split the way it writes it: the header and
   * then the rest of the record, and the header's file table entry and then
   * the entries'.
   */
  lemma RecordTargets(data: seq<byte>, files: seq<FileRegion>, functionIndex: nat, start: DebugSourceLocation,
                      offsets: seq<DebugSourceLocation>)
    requires offsets != []
    ensures data + EncodeRecord(functionIndex, start, offsets)
            == data + (EncodeHeader(functionIndex, start) + (EncodeEntries(start, offsets) + Encode(EndMarker)))
    ensures files + NewRegions(files, |data|, functionIndex, start, offsets)
            == (files + HeaderRegion(files, |data|, start))
               + EntryRegions(|data| + |EncodeHeader(functionIndex, start)|, start, offsets, start.sourceMappingUrlId)
  {
    AppendAssoc(files, HeaderRegion(files, |data|, start),
                EntryRegions(|data| + |EncodeHeader(functionIndex, start)|, start, offsets, start.sourceMappingUrlId));
  }

  /** A call with no further locations leaves the stream, the table and the records as they are. */
  lemma EmptyCallWritesNothing(data: seq<byte>, files: seq<FileRegion>, recs: seq<FunctionRecord>,
                               functionIndex: nat, start: DebugSourceLocation)
    ensures data + EncodeRecord(functionIndex, start, []) == data
    ensures files + NewRegions(files, |data|, functionIndex, start, []) == files
    ensures recs + [] == recs
  {
    assert data + [] == data && files + [] == files;
  }

  /**
   * `DebugInfoGenerator`: the location stream `sourcesData_`, the file table
   * `files_` and the lexical-scope table `lexicalData_`, each appended to in
   * place. The filename string table it also holds is not part of this model.
   */
  class DebugInfoGenerator {
    var sourcesData: seq<byte>
    var files: seq<FileRegion>
    var lexicalData: seq<byte>
    /** Cleared by serializeWithMove, whose data the generator then no longer owns. */
    var validData: bool
    /** The records written so far, in order. */
    ghost var records: seq<FunctionRecord>
    /** The scopes written so far, the shared empty one first. */
    ghost var scopes: seq<Scope>

    /** The bytes and the file table are what the recorded appends produce. */
    ghost predicate Valid()
      reads this
    {
      && Tiled(sourcesData, records)
      && FilesValid(files, sourcesData, records) && PushedBy(files, records)
      && ScopesValid(lexicalData, scopes)
    }

    /** The constructor writes the shared empty scope `-1, 0` at offset 0 of the lexical data. */
    constructor ()
      ensures Valid() && validData
      ensures sourcesData == [] && files == [] && records == []
      ensures lexicalData == [127, 0] && scopes == [Scope(EmptyLexicalDataOffset, None, [])]
    {
      sourcesData := [];
      files := [];
      records := [];
      lexicalData := [];
      lexicalData := lexicalData + Encode(-1);
      lexicalData := lexicalData + Encode(0);
      scopes := [Scope(EmptyLexicalDataOffset, None, [])];
      validData := true;
      new;
      EmptyScopeBytes();
      BytesAtEnd([], EncodeScope(None, []));
      assert [] + EncodeScope(None, []) == lexicalData;
    }

    /**
     * `appendSignedLEB128` onto the location stream. `rest` is what is still
     * to come after `x`, so a run of appends reaches a target known in advance.
     */
    method AppendToSources(x: int, ghost rest: seq<byte>, ghost target: seq<byte>)
      requires target == sourcesData + (Encode(x) + rest)
      modifies this`sourcesData
      ensures sourcesData == old(sourcesData) + Encode(x)
      ensures target == sourcesData + rest
    {
      AppendAssoc(sourcesData, Encode(x), rest);
      sourcesData := sourcesData + Encode(x);
    }

    /** The body of the entry loop: the four deltas of `next` against `previous`, the statement only when it changed. */
    method AppendEntry(previous: DebugSourceLocation, next: DebugSourceLocation)
      modifies this`sourcesData
      ensures sourcesData == old(sourcesData) + EncodeEntry(previous, next)
    {
      var adelta := next.address - previous.address;
      var ldelta := next.line - previous.line;
      var cdelta := next.column - previous.column;
      var sdelta := next.statement - previous.statement;
      ghost var lineDelta := ldelta;
      ldelta := ldelta * 2 + (if sdelta != 0 then 1 else 0);
      assert ldelta == PackLineDelta(lineDelta, sdelta != 0);
      ghost var st: seq<byte> := if sdelta != 0 then Encode(sdelta) else [];
      ghost var target := sourcesData + EncodeEntry(previous, next);
      assert EncodeEntry(previous, next) == Encode(adelta) + (Encode(ldelta) + (Encode(cdelta) + st));
      AppendToSources(adelta, Encode(ldelta) + (Encode(cdelta) + st), target);
      AppendToSources(ldelta, Encode(cdelta) + st, target);
      AppendToSources(cdelta, st, target);
      if sdelta != 0 {
        AppendToSources(sdelta, [], target);
        assert sourcesData + [] == sourcesData;
      } else {
        assert target == sourcesData + [];
      }
    }
  
    /** The three absolute header fields: function index, start line, start column. */
    method AppendHeader(functionIndex: nat, start: DebugSourceLocation, ghost body: seq<byte>, ghost target: seq<byte>)
      requires target == sourcesData + (EncodeHeader(functionIndex, start) + body)
      modifies this`sourcesData
      ensures sourcesData == old(sourcesData) + EncodeHeader(functionIndex, start)
      ensures target == sourcesData + body
    {
      ghost var data0 := sourcesData;
      AppendAssoc(Encode(start.line), Encode(start.column), body);
      AppendAssoc(Encode(functionIndex), Encode(start.line) + Encode(start.column), body);
      AppendToSources(functionIndex, Encode(start.line) + (Encode(start.column) + body), target);
      AppendToSources(start.line, Encode(start.column) + body, target);
      AppendToSources(start.column, body, target);
      AppendAssoc(Encode(functionIndex), Encode(start.line), Encode(start.column));
      AppendAssoc(data0, Encode(functionIndex) + Encode(start.line), Encode(start.column));
      AppendAssoc(data0, Encode(functionIndex), Encode(start.line));
    }

    /**
     * The loop over `offsets`: one entry per location, delta-encoded against
     * the one before, and a file table entry wherever the file changes.
     */
    method AppendEntries(start: DebugSourceLocation, offsets: seq<DebugSourceLocation>,
                         ghost target: seq<byte>, ghost filesTarget: seq<FileRegion>)
      requires target == sourcesData + (EncodeEntries(start, offsets) + Encode(EndMarker))
      requires filesTarget == files + EntryRegions(|sourcesData|, start, offsets, start.sourceMappingUrlId)
      modifies this`sourcesData, this`files
      ensures target == sourcesData + Encode(EndMarker)
      ensures filesTarget == files
    {
      ghost var url := start.sourceMappingUrlId;
      assert offsets[0..] == offsets;
      var previous := start;
      var i := 0;
      while i < |offsets|
        invariant 0 <= i <= |offsets|
        invariant target == sourcesData + (EncodeEntries(previous, offsets[i..]) + Encode(EndMarker))
        invariant filesTarget == files + EntryRegions(|sourcesData|, previous, offsets[i..], url)
      {
        var next := offsets[i];
        ghost var nextPos := EntryStepTargets(sourcesData, files, target, filesTarget, previous, offsets, i, url);
        PushEntryRegion(previous, next, start.sourceMappingUrlId);
        AppendEntry(previous, next);
        assert |sourcesData| == nextPos;
        previous := next;
        i := i + 1;
      }
      assert offsets[i..] == [];
    }

    /** The file table push inside the entry loop: a new entry only when the file changes. */
    method PushEntryRegion(previous: DebugSourceLocation, next: DebugSourceLocation, url: nat)
      modifies this`files
      ensures files == old(files) + (if next.filenameId != previous.filenameId then [FileRegion(|sourcesData|, next.filenameId, url)] else [])
    {
      if next.filenameId != previous.filenameId {
        files := files + [FileRegion(|sourcesData|, next.filenameId, url)];
      } else {
        assert files + [] == files;
      }
    }

    /**
     * The writes of appendSourceLocations for a nonempty `offsets`: the file
     * table entry for the header when the file changes, the header, the
     * entries and the end marker.
     */
    method AppendRecord(start: DebugSourceLocation, functionIndex: nat, offsets: seq<DebugSourceLocation>)
      requires offsets != []
      modifies this`sourcesData, this`files
      ensures sourcesData == old(sourcesData) + EncodeRecord(functionIndex, start, offsets)
      ensures files == old(files) + NewRegions(old(files), old(|sourcesData|), functionIndex, start, offsets)
    {
      ghost var target := sourcesData + EncodeRecord(functionIndex, start, offsets);
      ghost var filesTarget := files + NewRegions(files, |sourcesData|, functionIndex, start, offsets);
      ghost var body := EncodeEntries(start, offsets) + Encode(EndMarker);
      RecordTargets(sourcesData, files, functionIndex, start, offsets);
      PushHeaderRegion(start);
      AppendHeader(functionIndex, start, body, target);
      AppendEntries(start, offsets, target, filesTarget);
      AppendToSources(EndMarker, [], target);
      assert sourcesData + [] == sourcesData;
    }

    /** The file table entry for the header: pushed at the write offset unless the table already ends with the start's file. */
    method PushHeaderRegion(start: DebugSourceLocation)
      modifies this`files
      ensures files == old(files) + HeaderRegion(old(files), |sourcesData|, start)
    {
      if files == [] || files[|files| - 1].filenameId != start.filenameId {
        files := files + [FileRegion(|sourcesData|, start.filenameId, start.sourceMappingUrlId)];
      }
    }

    /** A nonempty record appended at the write offset, with the bookkeeping that keeps the generator valid. */
    method AppendFunction(start: DebugSourceLocation, functionIndex: nat, offsets: seq<DebugSourceLocation>)
      requires Valid() && offsets != [] && start.statement == 0
      modifies this`sourcesData, this`files, this`records
      ensures Valid()
      ensures sourcesData == old(sourcesData) + EncodeRecord(functionIndex, start, offsets)
      ensures files == old(files) + NewRegions(old(files), old(|sourcesData|), functionIndex, start, offsets)
      ensures records == old(records) + [FunctionRecord(old(|sourcesData|), functionIndex, start, offsets)]
    {
      ghost var data0, files0, records0 := sourcesData, files, records;
      AppendRecord(start, functionIndex, offsets);
      records := records + [FunctionRecord(|data0|, functionIndex, start, offsets)];
      AppendKeepsValid(this, data0, files0, records0, functionIndex, start, offsets);
    }

    /**
     * `appendSourceLocations`: returns the write offset, and when `offsets`
     * is nonempty writes the record there and pushes the file table entries
     * for the header and for every change of file.
     */
    method AppendSourceLocations(start: DebugSourceLocation, functionIndex: nat, offsets: seq<DebugSourceLocation>)
        returns (startOffset: nat)
      requires validData && Valid()
      requires start.statement == 0
      modifies this`sourcesData, this`files, this`records
      ensures Valid() && validData
      ensures startOffset == old(|sourcesData|)
      ensures sourcesData == old(sourcesData) + EncodeRecord(functionIndex, start, offsets)
      ensures files == old(files) + NewRegions(old(files), startOffset, functionIndex, start, offsets)
      ensures records == old(records) + (if offsets == [] then [] else [FunctionRecord(startOffset, functionIndex, start, offsets)])
      ensures lexicalData == old(lexicalData) && scopes == old(scopes)
    {
      startOffset := |sourcesData|;
      if offsets == [] {
        EmptyCallWritesNothing(sourcesData, files, records, functionIndex, start);
        return;
      }
      AppendFunction(start, functionIndex, offsets);
    }

    /** `appendSignedLEB128` onto the lexical data, reaching `target` as AppendToSources does. */
    method AppendToLexical(x: int, ghost rest: seq<byte>, ghost target: seq<byte>)
      requires target == lexicalData + (Encode(x) + rest)
      modifies this`lexicalData
      ensures lexicalData == old(lexicalData) + Encode(x)
      ensures target == lexicalData + rest
    {
      AppendAssoc(lexicalData, Encode(x), rest);
      lexicalData := lexicalData + Encode(x);
    }

    /** The fields of one `appendLexicalData` record: the parent or -1, the count, then each name by `appendString`. */
    method AppendScope(parent: Option<nat>, names: seq<Name>)
      modifies this`lexicalData
      ensures lexicalData == old(lexicalData) + EncodeScope(parent, names)
    {
      ghost var target := lexicalData + EncodeScope(parent, names);
      AppendToLexical(if parent.Some? then parent.value else -1, Encode(|names|) + EncodeNames(names), target);
      AppendToLexical(|names|, EncodeNames(names), target);
      assert names[0..] == names;
      var i := 0;
      while i < |names|
        invariant 0 <= i <= |names|
        invariant target == lexicalData + EncodeNames(names[i..])
      {
        var name := names[i];
        assert names[i..][0] == name && names[i..][1..] == names[i + 1..];
        AppendAssoc(Encode(|name|), name, EncodeNames(names[i + 1..]));
        AppendToLexical(|name|, name + EncodeNames(names[i + 1..]), target);
        AppendAssoc(lexicalData, name, EncodeNames(names[i + 1..]));
        lexicalData := lexicalData + name;
        i := i + 1;
      }
      assert names[i..] == [] && lexicalData + [] == lexicalData;
    }

    /**
     * `appendLexicalData`: a scope with neither parent nor names shares the
     * empty record at offset 0; any other is written at the end of the
     * lexical data, whose old length is the offset returned. Either way the
     * record at the returned offset holds the scope's bytes.
     */
    method AppendLexicalData(parent: Option<nat>, names: seq<Name>) returns (offset: nat)
      requires validData && Valid()
      modifies this`lexicalData, this`scopes
      ensures Valid() && validData
      ensures BytesAt(lexicalData, offset, EncodeScope(parent, names))
      ensures parent.None? && names == [] ==>
                offset == EmptyLexicalDataOffset && lexicalData == old(lexicalData) && scopes == old(scopes)
      ensures !(parent.None? && names == []) ==>
                && offset == old(|lexicalData|)
                && lexicalData == old(lexicalData) + EncodeScope(parent, names)
                && scopes == old(scopes) + [Scope(offset, parent, names)]
      ensures sourcesData == old(sourcesData) && files == old(files) && records == old(records)
    {
      if parent.None? && names == [] {
        EmptyScopeKept(this, parent, names);
        return EmptyLexicalDataOffset;
      }
      offset := AppendNewScope(parent, names);
    }

    /** A scope record written at the end of the lexical data, and remembered. */
    method AppendNewScope(parent: Option<nat>, names: seq<Name>) returns (offset: nat)
      requires Valid()
      modifies this`lexicalData, this`scopes
      ensures Valid()
      ensures offset == old(|lexicalData|)
      ensures lexicalData == old(lexicalData) + EncodeScope(parent, names)
      ensures scopes == old(scopes) + [Scope(offset, parent, names)]
      ensures BytesAt(lexicalData, offset, EncodeScope(parent, names))
    {
      offset := |lexicalData|;
      ghost var lex0, scopes0 := lexicalData, scopes;
      ghost var sc := Scope(offset, parent, names);
      AppendScope(parent, names);
      BytesAtEnd(lex0, EncodeScope(parent, names));
      scopes := scopes + [sc];
      AppendScopeKeepsValid(this, lex0, scopes0, sc);
    }

    /**
     * `serializeWithMove`: the generator gives up its data; the reader gets
     * the file table, the location stream followed by the lexical data, and
     * the offset where the lexical data begins.
     */
    method SerializeWithMove() returns (info: DebugInfo)
      requires validData
      modifies this`validData
      ensures !validData
      ensures fresh(info)
      ensures info.files == files && info.lexicalDataOffset == |sourcesData| && info.data == sourcesData + lexicalData
    {
      validData := false;
      var lexicalStart := |sourcesData|;
      var combinedData := sourcesData;
      combinedData := combinedData + lexicalData;
      info := new DebugInfo(files, lexicalStart, combinedData);
    }
  }
}

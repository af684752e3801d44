/**
 * The per-function location stream: how `appendSourceLocations` writes one
 * function record and how `FunctionDebugInfoDeserializer` reads it back.
 *
 * A record is `functionIndex, line, column` (the function's start, absolute),
 * then one entry per further location, then the end marker -1. An entry is
 * `addressDelta, lineDelta * 2 + hasStatementDelta, columnDelta`, followed by
 * `statementDelta` only when the low bit of the packed line field is set.
 * Every integer is signed LEB128.
 */
module LocationStream {
  import opened Wrappers
  import opened Leb128

  /** A location as the compiler hands it to the generator (`DebugSourceLocation`; the fields are `uint32_t`). */
  datatype DebugSourceLocation = DebugSourceLocation(
    address: nat,
    filenameId: nat,
    sourceMappingUrlId: nat,
    line: nat,
    column: nat,
    statement: nat)

  /** The running accumulators of a deserializer (`current_`): what a decoded location holds. */
  datatype Point = Point(address: int, line: int, column: int, statement: int)

  /** The address delta that ends a function record; `next()` returns None on it. */
  const EndMarker: int := -1

  //--------------------------------------------------------------------------
  // Writing (DebugInfo.cpp:350-381)
  //--------------------------------------------------------------------------

  /** The absolute header of a record: function index, start line, start column. */
  function EncodeHeader(functionIndex: nat, start: DebugSourceLocation): seq<byte>
  {
    Encode(functionIndex) + (Encode(start.line) + Encode(start.column))
  }

  /**
   * `ldelta * 2 + (sdelta != 0)`: the statement flag rides in the low bit.
   * The contract is the unpacking the deserializer performs: the field is odd
   * exactly when a statement delta follows, and the arithmetic shift right by
   * one (Dafny's `/ 2`, which rounds toward minus infinity) gives the line
   * delta back, negative deltas included.
   */
  function PackLineDelta(lineDelta: int, hasStatementDelta: bool): (packed: int)
    ensures (packed % 2 == 1) == hasStatementDelta
    ensures packed / 2 == lineDelta
  {
    lineDelta * 2 + (if hasStatementDelta then 1 else 0)
  }

  /** The four fields of an entry, the statement delta only when nonzero. */
  function EncodeDeltas(addressDelta: int, lineDelta: int, columnDelta: int, statementDelta: int): seq<byte>
  {
    Encode(addressDelta)
      + (Encode(PackLineDelta(lineDelta, statementDelta != 0))
      + (Encode(columnDelta)
      + (if statementDelta != 0 then Encode(statementDelta) else [])))
  }

  /** The entry written for `next` when the previous location was `prev`. */
  function EncodeEntry(prev: DebugSourceLocation, next: DebugSourceLocation): seq<byte>
  {
    EncodeDeltas(next.address - prev.address, next.line - prev.line,
                 next.column - prev.column, next.statement - prev.statement)
  }

  /** The entries for `rest`, each delta-encoded against the location before it. */
  function EncodeEntries(prev: DebugSourceLocation, rest: seq<DebugSourceLocation>): seq<byte>
    decreases |rest|
  {
    if rest == [] then [] else EncodeEntry(prev, rest[0]) + EncodeEntries(rest[0], rest[1..])
  }

  /** The bytes `appendSourceLocations` adds: nothing at all for an empty `offsets`. */
  function EncodeRecord(functionIndex: nat, start: DebugSourceLocation, offsets: seq<DebugSourceLocation>): seq<byte>
  {
    if offsets == [] then []
    else EncodeHeader(functionIndex, start) + (EncodeEntries(start, offsets) + Encode(EndMarker))
  }

  /** The location that `rest[i]` is delta-encoded against. */
  function Before(first: DebugSourceLocation, rest: seq<DebugSourceLocation>, i: nat): DebugSourceLocation
    requires i < |rest|
  {
    if i == 0 then first else rest[i - 1]
  }

  /**
   * No address delta of the record is the end marker. The writer does not
   * check this; a location one byte before its predecessor would end the
   * record early when read back.
   */
  predicate NoEndMarkerDelta(first: DebugSourceLocation, rest: seq<DebugSourceLocation>)
  {
    forall i :: 0 <= i < |rest| ==> rest[i].address - Before(first, rest, i).address != EndMarker
  }

  //--------------------------------------------------------------------------
  // Reading (DebugInfo.cpp:23-49)
  //--------------------------------------------------------------------------

  /** A decoded record header and the position after it. */
  datatype Header = Header(functionIndex: int, line: int, column: int, next: nat)

  /** What the deserializer's constructor reads at `pos`, or None for a truncated header. */
  function HeaderAt(data: seq<byte>, pos: nat): (r: Option<Header>)
    ensures r.Some? ==> pos < r.value.next <= |data|
  {
    match Read(data, pos)
    case None => None
    case Some((functionIndex, p1)) =>
      match Read(data, p1)
      case None => None
      case Some((line, p2)) =>
        match Read(data, p2)
        case None => None
        case Some((column, p3)) => Some(Header(functionIndex, line, column, p3))
  }

  /** The header location: address and statement keep their default 0. */
  function StartPoint(h: Header): Point
  {
    Point(0, h.line, h.column, 0)
  }

  /** One call of `next()`: the end marker, or a new location and where the entry ends. */
  datatype Step = End(next: nat) | Advance(loc: Point, next: nat)

  /** The statement delta: read only when the packed line field is odd, else 0 and nothing is read. */
  function ReadStatementDelta(data: seq<byte>, pos: nat, packed: int): (r: Option<(int, nat)>)
    ensures r.Some? ==> r.value.1 == pos || pos < r.value.1 <= |data|
  {
    if packed % 2 == 1 then Read(data, pos) else Some((0, pos))
  }

  /** What `next()` reads at `pos` when the accumulators hold `cur`; None for a truncated entry. */
  function StepAt(data: seq<byte>, pos: nat, cur: Point): (r: Option<Step>)
    ensures r.Some? ==> pos < r.value.next <= |data|
  {
    match Read(data, pos)
    case None => None
    case Some((addressDelta, p1)) =>
      if addressDelta == EndMarker then Some(End(p1))
      else
        match Read(data, p1)
        case None => None
        case Some((packed, p2)) =>
          match Read(data, p2)
          case None => None
          case Some((columnDelta, p3)) =>
            match ReadStatementDelta(data, p3, packed)
            case None => None
            case Some((statementDelta, p4)) =>
              Some(Advance(Point(cur.address + addressDelta, cur.line + packed / 2,
                                 cur.column + columnDelta, cur.statement + statementDelta), p4))
  }

  /** A decoded location and the position where its entry begins. */
  datatype Entry = Entry(offset: nat, loc: Point)

  /** How a scan of entries stopped: at the end marker (and the position after it), or at corrupt data. */
  datatype Tail = Ended(end: nat) | Broken

  datatype Entries = Entries(entries: seq<Entry>, tail: Tail)

  /**
   * Repeated `next()` from `pos`: every entry that decodes, in order, and how
   * the scan stopped. Total, so that a query that stops early is not asked to
   * decode what it never reads.
   */
  function ParseEntries(data: seq<byte>, pos: nat, cur: Point): (r: Entries)
    ensures r.tail.Ended? ==> pos < r.tail.end <= |data|
    ensures forall i :: 0 <= i < |r.entries| ==> pos <= r.entries[i].offset < |data|
    ensures r.tail.Ended? ==> forall i :: 0 <= i < |r.entries| ==> r.entries[i].offset < r.tail.end
    ensures r.entries != [] ==> r.entries[0].offset == pos
    decreases |data| - pos
  {
    match StepAt(data, pos, cur)
    case None => Entries([], Broken)
    case Some(End(next)) => Entries([], Ended(next))
    case Some(Advance(loc, next)) =>
      var rest := ParseEntries(data, next, loc);
      Entries([Entry(pos, loc)] + rest.entries, rest.tail)
  }

  /** A whole function record as read back: where it starts, its header, its entries, where it ends. */
  datatype Record = Record(offset: nat, functionIndex: int, header: Point, entries: seq<Entry>, end: nat)

  /** The record at `pos`, or None unless its header and every entry up to the end marker decode. */
  function ParseRecord(data: seq<byte>, pos: nat): (r: Option<Record>)
    ensures r.Some? ==> r.value.offset == pos < r.value.end <= |data|
  {
    match HeaderAt(data, pos)
    case None => None
    case Some(h) =>
      var p := ParseEntries(data, h.next, StartPoint(h));
      if p.tail.Broken? then None
      else Some(Record(pos, h.functionIndex, StartPoint(h), p.entries, p.tail.end))
  }

  /**
   * The records a scan `while (offset < end)` visits from `pos`, each starting
   * where the previous one ended; None if one of them is corrupt.
   */
  function ParseRecords(data: seq<byte>, pos: nat, end: nat): (r: Option<seq<Record>>)
    ensures r.Some? ==> forall j :: 0 <= j < |r.value| ==> pos <= r.value[j].offset < end
    ensures r.Some? && r.value != [] ==> r.value[0].offset == pos
    ensures r.Some? ==> forall j, k {:trigger r.value[j], r.value[k]} :: 0 <= j && k == j + 1 && k < |r.value| ==> r.value[k].offset == r.value[j].end
    decreases |data| - pos
  {
    if pos >= end then Some([])
    else
      match ParseRecord(data, pos)
      case None => None
      case Some(rec) =>
        match ParseRecords(data, rec.end, end)
        case None => None
        case Some(more) => Some([rec] + more)
  }

  /**
   * One `next()` against the scan from `pos`: the first scanned entry is the
   * step's location and the rest of the scan continues from the step; with no
   * entry left the step is the end marker, or corrupt data.
   */
  lemma ParseEntriesStep(data: seq<byte>, pos: nat, cur: Point)
    ensures var p := ParseEntries(data, pos, cur);
            p.entries != [] ==>
              && StepAt(data, pos, cur).Some? && StepAt(data, pos, cur).value.Advance?
              && p.entries[0].loc == StepAt(data, pos, cur).value.loc
              && ParseEntries(data, StepAt(data, pos, cur).value.next, p.entries[0].loc) == Entries(p.entries[1..], p.tail)
    ensures var p := ParseEntries(data, pos, cur);
            p.entries == [] ==> (p.tail.Ended? <==> StepAt(data, pos, cur).Some?)
    ensures var p := ParseEntries(data, pos, cur);
            p.entries == [] && p.tail.Ended? ==> StepAt(data, pos, cur) == Some(End(p.tail.end))
  {
  }

  /**
   * ParseEntriesStep for a scan whose result is known: the step at `pos`
   * yields the first entry and the scan of the others continues from it, or
   * is the end marker (or corrupt) when no entry is left.
   */
  lemma ParseEntriesNext(data: seq<byte>, pos: nat, cur: Point, es: seq<Entry>, tail: Tail)
    requires ParseEntries(data, pos, cur) == Entries(es, tail)
    ensures es != [] ==>
              && StepAt(data, pos, cur).Some? && StepAt(data, pos, cur).value.Advance?
              && StepAt(data, pos, cur).value.loc == es[0].loc
              && ParseEntries(data, StepAt(data, pos, cur).value.next, es[0].loc) == Entries(es[1..], tail)
    ensures es == [] ==> (tail.Ended? <==> StepAt(data, pos, cur).Some?)
    ensures es == [] && tail.Ended? ==> StepAt(data, pos, cur) == Some(End(tail.end))
  {
    ParseEntriesStep(data, pos, cur);
  }

  /** One iteration of a record scan: the first record and the scan of those after it. */
  lemma ParseRecordsStep(data: seq<byte>, pos: nat, end: nat, recs: seq<Record>)
    requires ParseRecords(data, pos, end) == Some(recs)
    ensures recs != [] <==> pos < end
    ensures recs != [] ==> ParseRecord(data, pos) == Some(recs[0]) && ParseRecords(data, recs[0].end, end) == Some(recs[1..])
  {
  }

  /** A scan that finds a record at `pos` and scans on from its end. */
  lemma ParseRecordsCons(data: seq<byte>, pos: nat, end: nat, rec: Record, more: seq<Record>)
    requires pos < end && ParseRecord(data, pos) == Some(rec) && ParseRecords(data, rec.end, end) == Some(more)
    ensures ParseRecords(data, pos, end) == Some([rec] + more)
  {
  }

  //--------------------------------------------------------------------------
  // Round trip
  //--------------------------------------------------------------------------

  /**
   * What the deserializer accumulates for `l` in a record started at `start`:
   * the accumulators begin at address 0 and statement 0, so address and
   * statement come back relative to the start location. The writer asserts
   * `start.statement == 0`, so the statement comes back unchanged.
   */
  function Relative(start: DebugSourceLocation, l: DebugSourceLocation): Point
  {
    Point(l.address - start.address, l.line, l.column, l.statement - start.statement)
  }

  /**
   * The entries a reader finds for `rest` when their bytes begin at `pos`:
   * the i-th location, found where its own bytes begin (EntriesAtShape).
   */
  function EntriesAt(pos: nat, start: DebugSourceLocation, prev: DebugSourceLocation, rest: seq<DebugSourceLocation>): (r: seq<Entry>)
    ensures |r| == |rest|
    decreases |rest|
  {
    if rest == [] then []
    else [Entry(pos, Relative(start, rest[0]))] + EntriesAt(pos + |EncodeEntry(prev, rest[0])|, start, rest[0], rest[1..])
  }

  /** EntriesAt on a nonempty `rest`, unfolded once. */
  lemma EntriesAtCons(pos: nat, start: DebugSourceLocation, prev: DebugSourceLocation, rest: seq<DebugSourceLocation>, next: nat)
    requires rest != [] && next == pos + |EncodeEntry(prev, rest[0])|
    ensures EntriesAt(pos, start, prev, rest) == [Entry(pos, Relative(start, rest[0]))] + EntriesAt(next, start, rest[0], rest[1..])
  {
    assert EntriesAt(pos, start, prev, rest)
        == [Entry(pos, Relative(start, rest[0]))] + EntriesAt(pos + |EncodeEntry(prev, rest[0])|, start, rest[0], rest[1..]);
  }

  /**
   * The decoded entries, in order: the i-th is the i-th location relative to
   * the start, the first at `pos`, and the offsets strictly increase and stay
   * inside the encoded entries.
   */
  lemma {:induction false} EntriesAtShape(pos: nat, start: DebugSourceLocation, prev: DebugSourceLocation, rest: seq<DebugSourceLocation>)
    ensures var r := EntriesAt(pos, start, prev, rest);
            && (forall i :: 0 <= i < |rest| ==> r[i].loc == Relative(start, rest[i]))
            && (forall i :: 0 <= i < |rest| ==> pos <= r[i].offset < pos + |EncodeEntries(prev, rest)|)
            && (rest != [] ==> r[0].offset == pos)
            && (forall i, j :: 0 <= i < j < |rest| ==> r[i].offset < r[j].offset)
    decreases |rest|
  {
    if rest != [] {
      var next := pos + |EncodeEntry(prev, rest[0])|;
      EntriesAtShape(next, start, rest[0], rest[1..]);
      var r := EntriesAt(pos, start, prev, rest);
      var tail := EntriesAt(next, start, rest[0], rest[1..]);
      assert r == [Entry(pos, Relative(start, rest[0]))] + tail;
      assert |EncodeEntries(prev, rest)| == |EncodeEntry(prev, rest[0])| + |EncodeEntries(rest[0], rest[1..])|;
      forall i | 0 < i < |rest|
        ensures r[i] == tail[i - 1] && rest[i] == rest[1..][i - 1]
      {
      }
    }
  }

  /** The end marker decodes as `End`, whatever the accumulators hold. */
  lemma StepEndMarker(data: seq<byte>, pos: nat, cur: Point)
    requires BytesAt(data, pos, Encode(EndMarker))
    ensures StepAt(data, pos, cur) == Some(End(pos + |Encode(EndMarker)|))
  {
    ReadEncode(data, pos, EndMarker);
  }

  /** How `next()` composes its reads: the step is determined by the four fields it reads. */
  lemma StepFromReads(data: seq<byte>, pos: nat, cur: Point, addressDelta: int, p1: nat, packed: int, p2: nat,
                      columnDelta: int, p3: nat, statementDelta: int, p4: nat)
    requires Read(data, pos) == Some((addressDelta, p1)) && addressDelta != EndMarker
    requires Read(data, p1) == Some((packed, p2))
    requires Read(data, p2) == Some((columnDelta, p3))
    requires ReadStatementDelta(data, p3, packed) == Some((statementDelta, p4))
    ensures StepAt(data, pos, cur) == Some(Advance(Point(cur.address + addressDelta, cur.line + packed / 2,
                                                         cur.column + columnDelta, cur.statement + statementDelta), p4))
  {
  }

  /** A value followed by `rest` reads back as the value, and `rest` follows at the position returned. */
  lemma ReadField(data: seq<byte>, pos: nat, x: int, rest: seq<byte>) returns (next: nat)
    requires BytesAt(data, pos, Encode(x) + rest)
    ensures next == pos + |Encode(x)|
    ensures Read(data, pos) == Some((x, next))
    ensures BytesAt(data, next, rest)
  {
    SplitAt(data, pos, Encode(x), rest);
    ReadEncode(data, pos, x);
    next := pos + |Encode(x)|;
  }

  /** The statement delta reads back exactly when the packed line field announces it. */
  lemma ReadStatementField(data: seq<byte>, pos: nat, packed: int, statementDelta: int, s: seq<byte>) returns (next: nat)
    requires (packed % 2 == 1) == (statementDelta != 0)
    requires s == if statementDelta != 0 then Encode(statementDelta) else []
    requires BytesAt(data, pos, s)
    ensures next == pos + |s|
    ensures ReadStatementDelta(data, pos, packed) == Some((statementDelta, next))
  {
    if statementDelta != 0 {
      ReadEncode(data, pos, statementDelta);
    }
    next := pos + |s|;
  }

  /** The entry's fields read back as written, one after the other, ending where the entry ends. */
  lemma ReadDeltas(data: seq<byte>, pos: nat, addressDelta: int, lineDelta: int, columnDelta: int, statementDelta: int)
      returns (p1: nat, p2: nat, p3: nat, p4: nat)
    requires BytesAt(data, pos, EncodeDeltas(addressDelta, lineDelta, columnDelta, statementDelta))
    ensures Read(data, pos) == Some((addressDelta, p1))
    ensures Read(data, p1) == Some((PackLineDelta(lineDelta, statementDelta != 0), p2))
    ensures Read(data, p2) == Some((columnDelta, p3))
    ensures ReadStatementDelta(data, p3, PackLineDelta(lineDelta, statementDelta != 0)) == Some((statementDelta, p4))
    ensures p4 == pos + |EncodeDeltas(addressDelta, lineDelta, columnDelta, statementDelta)|
  {
    var packed := PackLineDelta(lineDelta, statementDelta != 0);
    assert (packed % 2 == 1) == (statementDelta != 0);
    var l := Encode(packed);
    var c := Encode(columnDelta);
    var s: seq<byte> := if statementDelta != 0 then Encode(statementDelta) else [];
    p1 := ReadField(data, pos, addressDelta, l + (c + s));
    p2 := ReadField(data, p1, packed, c + s);
    p3 := ReadField(data, p2, columnDelta, s);
    p4 := ReadStatementField(data, p3, packed, statementDelta, s);
  }

  /** An entry's deltas, once read, are added to the accumulators by `next()`. */
  lemma StepEncodeDeltas(data: seq<byte>, pos: nat, cur: Point,
                         addressDelta: int, lineDelta: int, columnDelta: int, statementDelta: int)
    requires BytesAt(data, pos, EncodeDeltas(addressDelta, lineDelta, columnDelta, statementDelta))
    requires addressDelta != EndMarker
    ensures StepAt(data, pos, cur) == Some(Advance(
              Point(cur.address + addressDelta, cur.line + lineDelta, cur.column + columnDelta, cur.statement + statementDelta),
              pos + |EncodeDeltas(addressDelta, lineDelta, columnDelta, statementDelta)|))
  {
    var packed := PackLineDelta(lineDelta, statementDelta != 0);
    var p1, p2, p3, p4 := ReadDeltas(data, pos, addressDelta, lineDelta, columnDelta, statementDelta);
    StepFromReads(data, pos, cur, addressDelta, p1, packed, p2, columnDelta, p3, statementDelta, p4);
  }

  /**
   * One entry round trip: if the accumulators hold the previous location
   * (relative to the start), reading the entry for `next` moves them to `next`
   * and stops where the entry ends; the statement delta is read exactly when
   * it was written.
   */
  lemma StepEncodeEntry(data: seq<byte>, pos: nat, start: DebugSourceLocation, prev: DebugSourceLocation, next: DebugSourceLocation)
    requires BytesAt(data, pos, EncodeEntry(prev, next))
    requires next.address - prev.address != EndMarker
    ensures StepAt(data, pos, Relative(start, prev)) == Some(Advance(Relative(start, next), pos + |EncodeEntry(prev, next)|))
  {
    var cur := Relative(start, prev);
    var ad, ld, cd, sd := next.address - prev.address, next.line - prev.line, next.column - prev.column, next.statement - prev.statement;
    assert Point(cur.address + ad, cur.line + ld, cur.column + cd, cur.statement + sd) == Relative(start, next);
    assert EncodeEntry(prev, next) == EncodeDeltas(ad, ld, cd, sd);
    StepEncodeDeltas(data, pos, cur, ad, ld, cd, sd);
  }

  /** What NoEndMarkerDelta says of the first location, and that it holds for the rest. */
  lemma NoEndMarkerDeltaTail(prev: DebugSourceLocation, rest: seq<DebugSourceLocation>)
    requires rest != [] && NoEndMarkerDelta(prev, rest)
    ensures rest[0].address - prev.address != EndMarker
    ensures NoEndMarkerDelta(rest[0], rest[1..])
  {
    assert rest[0].address - Before(prev, rest, 0).address != EndMarker;
    forall i | 0 <= i < |rest[1..]|
      ensures rest[1..][i].address - Before(rest[0], rest[1..], i).address != EndMarker
    {
      assert rest[1..][i] == rest[i + 1] && Before(rest[0], rest[1..], i) == Before(prev, rest, i + 1);
    }
  }

  /** The first of the entries reads back, and the remaining entries and the end marker follow it. */
  lemma FirstEntry(data: seq<byte>, pos: nat, start: DebugSourceLocation, prev: DebugSourceLocation, rest: seq<DebugSourceLocation>)
      returns (next: nat)
    requires rest != []
    requires BytesAt(data, pos, EncodeEntries(prev, rest) + Encode(EndMarker))
    requires rest[0].address - prev.address != EndMarker
    ensures next == pos + |EncodeEntry(prev, rest[0])|
    ensures next + |EncodeEntries(rest[0], rest[1..])| == pos + |EncodeEntries(prev, rest)|
    ensures StepAt(data, pos, Relative(start, prev)) == Some(Advance(Relative(start, rest[0]), next))
    ensures BytesAt(data, next, EncodeEntries(rest[0], rest[1..]) + Encode(EndMarker))
  {
    next := EntriesSplit(data, pos, prev, rest);
    StepEncodeEntry(data, pos, start, prev, rest[0]);
  }

  /** The bytes of the entries and end marker split into the first entry and what follows it. */
  lemma EntriesSplit(data: seq<byte>, pos: nat, prev: DebugSourceLocation, rest: seq<DebugSourceLocation>)
      returns (next: nat)
    requires rest != []
    requires BytesAt(data, pos, EncodeEntries(prev, rest) + Encode(EndMarker))
    ensures next == pos + |EncodeEntry(prev, rest[0])|
    ensures next + |EncodeEntries(rest[0], rest[1..])| == pos + |EncodeEntries(prev, rest)|
    ensures BytesAt(data, pos, EncodeEntry(prev, rest[0]))
    ensures BytesAt(data, next, EncodeEntries(rest[0], rest[1..]) + Encode(EndMarker))
  {
    var e := EncodeEntry(prev, rest[0]);
    var more := EncodeEntries(rest[0], rest[1..]);
    assert EncodeEntries(prev, rest) + Encode(EndMarker) == e + (more + Encode(EndMarker));
    SplitAt(data, pos, e, more + Encode(EndMarker));
    next := pos + |e|;
  }

  /** Reading the entries of `rest` and the end marker gives back exactly `rest`, in order. */
  lemma {:induction false} ParseEncodeEntries(data: seq<byte>, pos: nat, start: DebugSourceLocation, prev: DebugSourceLocation, rest: seq<DebugSourceLocation>)
    requires BytesAt(data, pos, EncodeEntries(prev, rest) + Encode(EndMarker))
    requires NoEndMarkerDelta(prev, rest)
    ensures ParseEntries(data, pos, Relative(start, prev))
         == Entries(EntriesAt(pos, start, prev, rest), Ended(pos + |EncodeEntries(prev, rest)| + |Encode(EndMarker)|))
    decreases |rest|
  {
    if rest == [] {
      assert EncodeEntries(prev, rest) + Encode(EndMarker) == Encode(EndMarker);
      StepEndMarker(data, pos, Relative(start, prev));
    } else {
      NoEndMarkerDeltaTail(prev, rest);
      var next := FirstEntry(data, pos, start, prev, rest);
      ParseEncodeEntries(data, next, start, rest[0], rest[1..]);
      var tail := ParseEntries(data, next, Relative(start, rest[0]));
      assert ParseEntries(data, pos, Relative(start, prev))
          == Entries([Entry(pos, Relative(start, rest[0]))] + tail.entries, tail.tail);
      EntriesAtCons(pos, start, prev, rest, next);
    }
  }

  /** The header reads back as written, and the entries and end marker follow it. */
  lemma HeaderReads(data: seq<byte>, pos: nat, functionIndex: nat, start: DebugSourceLocation, body: seq<byte>)
      returns (next: nat)
    requires BytesAt(data, pos, EncodeHeader(functionIndex, start) + body)
    ensures next == pos + |EncodeHeader(functionIndex, start)|
    ensures HeaderAt(data, pos) == Some(Header(functionIndex, start.line, start.column, next))
    ensures BytesAt(data, next, body)
  {
    var l := Encode(start.line);
    var c := Encode(start.column);
    assert EncodeHeader(functionIndex, start) + body == Encode(functionIndex) + (l + (c + body));
    var p1 := ReadField(data, pos, functionIndex, l + (c + body));
    var p2 := ReadField(data, p1, start.line, c + body);
    next := ReadField(data, p2, start.column, body);
  }

  /**
   * Record round trip (`appendSourceLocations` then the deserializer): at the
   * returned offset the header gives back the function index and the start's
   * line and column, the entries give back every location of `offsets` in
   * order, and the record ends exactly where its bytes end, after one end
   * marker.
   */
  lemma ParseEncodeRecord(data: seq<byte>, pos: nat, functionIndex: nat, start: DebugSourceLocation, offsets: seq<DebugSourceLocation>)
      returns (entriesPos: nat, end: nat)
    requires offsets != []
    requires BytesAt(data, pos, EncodeRecord(functionIndex, start, offsets))
    requires NoEndMarkerDelta(start, offsets)
    ensures entriesPos == pos + |EncodeHeader(functionIndex, start)|
    ensures end == pos + |EncodeRecord(functionIndex, start, offsets)|
    ensures ParseRecord(data, pos) == Some(Record(pos, functionIndex, Relative(start, start), EntriesAt(entriesPos, start, start, offsets), end))
  {
    RecordParts(functionIndex, start, offsets);
    assert Relative(start, start) == Point(0, start.line, start.column, 0);
    end := pos + |EncodeRecord(functionIndex, start, offsets)|;
    entriesPos := ParseEncodeParts(data, pos, functionIndex, start, offsets, end);
    ParseRecordOf(data, pos, functionIndex, start.line, start.column, entriesPos, Relative(start, start),
                  EntriesAt(entriesPos, start, start, offsets), end);
  }

  /** The header and then the entries with the end marker read back, one after the other. */
  lemma ParseEncodeParts(data: seq<byte>, pos: nat, functionIndex: nat, start: DebugSourceLocation, offsets: seq<DebugSourceLocation>,
                         end: nat)
      returns (next: nat)
    requires BytesAt(data, pos, EncodeHeader(functionIndex, start) + (EncodeEntries(start, offsets) + Encode(EndMarker)))
    requires NoEndMarkerDelta(start, offsets)
    requires end == pos + |EncodeHeader(functionIndex, start)| + |EncodeEntries(start, offsets)| + |Encode(EndMarker)|
    ensures next == pos + |EncodeHeader(functionIndex, start)|
    ensures HeaderAt(data, pos) == Some(Header(functionIndex, start.line, start.column, next))
    ensures ParseEntries(data, next, Relative(start, start)) == Entries(EntriesAt(next, start, start, offsets), Ended(end))
  {
    next := HeaderReads(data, pos, functionIndex, start, EncodeEntries(start, offsets) + Encode(EndMarker));
    ParseEncodeEntries(data, next, start, start, offsets);
  }

  /** A nonempty record is its header followed by the entries and the end marker. */
  lemma RecordParts(functionIndex: nat, start: DebugSourceLocation, offsets: seq<DebugSourceLocation>)
    requires offsets != []
    ensures EncodeRecord(functionIndex, start, offsets) == EncodeHeader(functionIndex, start) + (EncodeEntries(start, offsets) + Encode(EndMarker))
    ensures |EncodeRecord(functionIndex, start, offsets)|
            == |EncodeHeader(functionIndex, start)| + |EncodeEntries(start, offsets)| + |Encode(EndMarker)|
  {
  }

  /** ParseRecord assembled from a decoded header and an entry scan that ends. */
  lemma ParseRecordOf(data: seq<byte>, pos: nat, functionIndex: int, line: int, column: int, next: nat,
                      header: Point, es: seq<Entry>, end: nat)
    requires HeaderAt(data, pos) == Some(Header(functionIndex, line, column, next)) && header == Point(0, line, column, 0)
    requires ParseEntries(data, next, header) == Entries(es, Ended(end))
    ensures ParseRecord(data, pos) == Some(Record(pos, functionIndex, header, es, end))
  {
  }

  /**
   * The boundary the round trip excludes: a location one byte before the
   * start encodes address delta -1, and the reader takes it for the end
   * marker, so the record reads back with no entries and ends early.
   */
  lemma EndMarkerDeltaEndsRecordEarly()
    ensures var start := DebugSourceLocation(5, 0, 0, 1, 1, 0);
            var offsets := [DebugSourceLocation(4, 0, 0, 2, 1, 0)];
            var data := EncodeRecord(0, start, offsets);
            ParseRecord(data, 0) == Some(Record(0, 0, Point(0, 1, 1, 0), [], 4)) && |data| == 7
  {
    EarlyEndBytes();
    EarlyEndParse();
  }

  /** The bytes of the record in EndMarkerDeltaEndsRecordEarly. */
  lemma EarlyEndBytes()
    ensures EncodeRecord(0, DebugSourceLocation(5, 0, 0, 1, 1, 0), [DebugSourceLocation(4, 0, 0, 2, 1, 0)])
         == [0, 1, 1, 127, 2, 0, 127]
  {
    var start := DebugSourceLocation(5, 0, 0, 1, 1, 0);
    var offsets := [DebugSourceLocation(4, 0, 0, 2, 1, 0)];
    assert Encode(0) == [0] && Encode(1) == [1] && Encode(2) == [2] && Encode(-1) == [127];
    assert EncodeHeader(0, start) == [0, 1, 1];
    assert EncodeEntries(start, offsets) == [127, 2, 0];
  }

  /** How those bytes read back: the header, then the -1 taken as the end marker. */
  lemma EarlyEndParse()
    ensures ParseRecord([0, 1, 1, 127, 2, 0, 127], 0) == Some(Record(0, 0, Point(0, 1, 1, 0), [], 4))
  {
    var data: seq<byte> := [0, 1, 1, 127, 2, 0, 127];
    assert Read(data, 0) == Some((0, 1)) && Read(data, 1) == Some((1, 2)) && Read(data, 2) == Some((1, 3));
    assert HeaderAt(data, 0) == Some(Header(0, 1, 1, 3));
    assert Read(data, 3) == Some((-1, 4));
    assert StepAt(data, 3, Point(0, 1, 1, 0)) == Some(End(4));
    assert ParseEntries(data, 3, Point(0, 1, 1, 0)) == Entries([], Ended(4));
  }

  //--------------------------------------------------------------------------
  // The deserializer (DebugInfo.cpp:18-79)
  //--------------------------------------------------------------------------

  /**
   * `FunctionDebugInfoDeserializer`: a cursor `offset` into `data` and the
   * accumulators `current`. `getOffset()`, `getFunctionIndex()` and
   * `getCurrent()` are the fields `offset`, `functionIndex` and `current`.
   */
  class FunctionDebugInfoDeserializer {
    const data: seq<byte>
    var offset: nat
    var functionIndex: int
    var current: Point

    /** Reads the header at `pos`; address and statement start at 0. */
    constructor (data: seq<byte>, pos: nat)
      requires HeaderAt(data, pos).Some?
      ensures this.data == data
      ensures functionIndex == HeaderAt(data, pos).value.functionIndex
      ensures current == StartPoint(HeaderAt(data, pos).value)
      ensures offset == HeaderAt(data, pos).value.next
    {
      this.data := data;
      offset := pos;
      functionIndex := 0;
      current := Point(0, 0, 0, 0);
      new;
      functionIndex := DecodeInt();
      var line := DecodeInt();
      var column := DecodeInt();
      current := current.(line := line, column := column);
    }

    /** `decode1Int()`: reads one value and advances the cursor past it. */
    method DecodeInt() returns (result: int)
      requires Read(data, offset).Some?
      modifies this`offset
      ensures (result, offset) == Read(data, old(offset)).value
    {
      var (value, next) := Read(data, offset).value;
      result := value;
      offset := next;
    }

    /** `next()`: the next location, or None on the end marker (whose byte is still consumed). */
    method Next() returns (loc: Option<Point>)
      requires StepAt(data, offset, current).Some?
      modifies this`offset, this`current
      ensures offset == old(StepAt(data, offset, current)).value.next
      ensures old(StepAt(data, offset, current)).value.End? ==> loc == None && current == old(current)
      ensures old(StepAt(data, offset, current)).value.Advance? ==>
                var step := old(StepAt(data, offset, current)).value;
                loc == Some(step.loc) && current == step.loc
    {
      var addressDelta := DecodeInt();
      if addressDelta == EndMarker {
        return None;
      }
      var lineDelta := DecodeInt();
      var columnDelta := DecodeInt();
      var statementDelta := 0;
      if lineDelta % 2 == 1 {
        statementDelta := DecodeInt();
      }
      lineDelta := lineDelta / 2;
      current := Point(current.address + addressDelta, current.line + lineDelta,
                       current.column + columnDelta, current.statement + statementDelta);
      loc := Some(current);
    }
  }
}

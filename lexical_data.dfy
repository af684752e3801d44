/**
 * The lexical-scope table: for each function with a lexical parent or
 * variables, `parentId | -1`, the number of names, then each name as its
 * length followed by its bytes (the format `appendString` writes and
 * `decodeString` reads). All integers are signed LEB128.
 */
module LexicalData {
  import opened Wrappers
  import opened Leb128

  /** A variable name: `Identifier::str()` seen as plain bytes. */
  type Name = seq<byte>

  /**
   * `kEmptyLexicalDataOffset`: the constructor asserts that the lexical data
   * is still this long before it writes the shared empty record, so the
   * shared record sits at the very start of the table.
   */
  const EmptyLexicalDataOffset: nat := 0

  /** `appendString`: the length, then the bytes. */
  function EncodeString(name: Name): seq<byte>
  {
    Encode(|name|) + name
  }

  /** The names one after the other, in order. */
  function EncodeNames(names: seq<Name>): seq<byte>
    decreases |names|
  {
    if names == [] then [] else EncodeString(names[0]) + EncodeNames(names[1..])
  }

  /** The parent as written: its id, or -1 when there is none. */
  function ParentField(parent: Option<nat>): int
  {
    if parent.Some? then parent.value else -1
  }

  /** The bytes of one `appendLexicalData` record. */
  function EncodeScope(parent: Option<nat>, names: seq<Name>): seq<byte>
  {
    Encode(ParentField(parent)) + (Encode(|names|) + EncodeNames(names))
  }

  /** The record the constructor writes and every scope without parent or names shares. */
  lemma EmptyScopeBytes()
    ensures EncodeScope(None, []) == [127, 0]
  {
  }

  /**
   * `decodeString`: the string at `offset` and the offset just after it;
   * None where the source's assertion fails (a negative or too large length)
   * or the length itself is truncated.
   */
  function DecodeString(data: seq<byte>, offset: nat): (r: Option<(Name, nat)>)
    ensures r.Some? ==> offset < r.value.1 <= |data|
    ensures r.Some? ==> |r.value.0| <= r.value.1 && data[r.value.1 - |r.value.0|..r.value.1] == r.value.0
    ensures r.Some? ==> Read(data, offset) == Some((|r.value.0|, r.value.1 - |r.value.0|))
    ensures r.None? <==> Read(data, offset).None? || Read(data, offset).value.0 < 0 || Read(data, offset).value.1 + Read(data, offset).value.0 > |data|
  {
    match Read(data, offset)
    case None => None
    case Some((size, p)) =>
      if size < 0 || p + size > |data| then None
      else Some((data[p..p + size], p + size))
  }

  /** `count` strings decoded one after the other from `offset`, and where the last one ends. */
  function DecodeNames(data: seq<byte>, offset: nat, count: nat): (r: Option<(seq<Name>, nat)>)
    ensures r.Some? ==> |r.value.0| == count
    ensures r.Some? ==> r.value.1 == offset || offset < r.value.1 <= |data|
    decreases count
  {
    if count == 0 then Some(([], offset))
    else
      match DecodeString(data, offset)
      case None => None
      case Some((name, next)) =>
        match DecodeNames(data, next, count - 1)
        case None => None
        case Some((more, end)) => Some(([name] + more, end))
  }

  /** One step of DecodeNames: the first name, then the others from where it ends. */
  lemma DecodeNamesStep(data: seq<byte>, offset: nat, count: nat, names: seq<Name>, end: nat)
      returns (name: Name, next: nat)
    requires count > 0 && DecodeNames(data, offset, count) == Some((names, end))
    ensures DecodeString(data, offset) == Some((name, next))
    ensures names == [name] + names[1..]
    ensures DecodeNames(data, next, count - 1) == Some((names[1..], end))
  {
    name, next := DecodeString(data, offset).value.0, DecodeString(data, offset).value.1;
  }

  /** Taking the `i`-th of `names` moves it from the unread suffix to the read prefix. */
  lemma SliceStep<T>(names: seq<T>, i: nat)
    requires i < |names|
    ensures names[i..][1..] == names[i + 1..]
    ensures names[..i + 1] == names[..i] + [names[i]]
  {
  }

  /** What `getVariableNames` reads at `offset`: the parent and count fields, then that many names. */
  function VariableNamesAt(data: seq<byte>, offset: nat): (r: Option<seq<Name>>)
  {
    match Read(data, offset)
    case None => None
    case Some((_, p1)) =>
      match Read(data, p1)
      case None => None
      case Some((count, p2)) =>
        if count < 0 then None
        else
          match DecodeNames(data, p2, count)
          case None => None
          case Some((names, _)) => Some(names)
  }

  /** `getParentFunctionId`: the parent field, None when it is negative. */
  function ParentFunctionIdAt(data: seq<byte>, offset: nat): (r: Option<int>)
    requires Read(data, offset).Some?
  {
    var parentId := Read(data, offset).value.0;
    if parentId < 0 then None else Some(parentId)
  }

  //--------------------------------------------------------------------------
  // Round trips
  //--------------------------------------------------------------------------

  /** A string written by `appendString` decodes to itself and ends where its bytes end. */
  lemma DecodeEncodeString(data: seq<byte>, pos: nat, name: Name)
    requires BytesAt(data, pos, EncodeString(name))
    ensures DecodeString(data, pos) == Some((name, pos + |EncodeString(name)|))
  {
    SplitAt(data, pos, Encode(|name|), name);
    ReadEncode(data, pos, |name|);
    BytesAtSlice(data, pos + |Encode(|name|)|, name);
  }

  /** The first of the names decodes, and the others follow it. */
  lemma FirstName(data: seq<byte>, pos: nat, names: seq<Name>) returns (next: nat)
    requires names != [] && BytesAt(data, pos, EncodeNames(names))
    ensures next + |EncodeNames(names[1..])| == pos + |EncodeNames(names)|
    ensures DecodeString(data, pos) == Some((names[0], next))
    ensures BytesAt(data, next, EncodeNames(names[1..]))
  {
    SplitAt(data, pos, EncodeString(names[0]), EncodeNames(names[1..]));
    DecodeEncodeString(data, pos, names[0]);
    next := pos + |EncodeString(names[0])|;
  }

  /** The names written one after the other decode to the same names, in order. */
  lemma {:induction false} DecodeEncodeNames(data: seq<byte>, pos: nat, names: seq<Name>)
    requires BytesAt(data, pos, EncodeNames(names))
    ensures DecodeNames(data, pos, |names|) == Some((names, pos + |EncodeNames(names)|))
    decreases |names|
  {
    if names != [] {
      assert [names[0]] + names[1..] == names && |names[1..]| == |names| - 1;
      var next := FirstName(data, pos, names);
      DecodeEncodeNames(data, next, names[1..]);
    }
  }

  /**
   * Scope round trip: at the offset `appendLexicalData` returned,
   * `getParentFunctionId` gives back the parent (None when there was none)
   * and `getVariableNames` gives back the names in order.
   */
  lemma DecodeEncodeScope(data: seq<byte>, pos: nat, parent: Option<nat>, names: seq<Name>)
    requires BytesAt(data, pos, EncodeScope(parent, names))
    ensures Read(data, pos).Some?
    ensures ParentFunctionIdAt(data, pos) == (if parent.Some? then Some(parent.value as int) else None)
    ensures VariableNamesAt(data, pos) == Some(names)
  {
    var names1 := FirstScopeFields(data, pos, parent, names);
    DecodeEncodeNames(data, names1, names);
    assert VariableNamesAt(data, pos) == Some(names);
  }

  /**
   * The two fields before the names: the parent field and the count read
   * back, and the names follow them.
   */
  lemma FirstScopeFields(data: seq<byte>, pos: nat, parent: Option<nat>, names: seq<Name>) returns (p2: nat)
    requires BytesAt(data, pos, EncodeScope(parent, names))
    ensures Read(data, pos).Some? && Read(data, pos).value.0 == ParentField(parent)
    ensures Read(data, Read(data, pos).value.1) == Some((|names|, p2))
    ensures BytesAt(data, p2, EncodeNames(names))
  {
    var p1 := pos + |Encode(ParentField(parent))|;
    SplitAt(data, pos, Encode(ParentField(parent)), Encode(|names|) + EncodeNames(names));
    ReadEncode(data, pos, ParentField(parent));
    SplitAt(data, p1, Encode(|names|), EncodeNames(names));
    ReadEncode(data, p1, |names|);
    p2 := p1 + |Encode(|names|)|;
  }

}

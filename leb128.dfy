/**
 * Signed LEB128, the variable-length integer encoding of section 7.6 of the
 * DWARF 4 standard, which every field of the debug information uses.
 *
 * A value is cut into 7-bit groups, least significant group first; every byte
 * but the last has its high bit set, and the last group is read as a 7-bit
 * two's-complement number, which supplies the sign of the whole value.
 */
module Leb128 {
  import opened Wrappers

  /** One byte of an encoded stream. */
  type byte = b: int | 0 <= b < 256

  /** The measure on which both encoding and the round-trip proof recurse. */
  function Magnitude(x: int): nat
  {
    if x >= 0 then x else -x
  }

  /**
   * The bytes `appendSignedLEB128` adds for `x`. Encoding stops once the
   * remaining value fits one 7-bit two's-complement group, which is the
   * standard's stopping rule ("the rest is 0 and bit 6 is clear, or the rest
   * is -1 and bit 6 is set") stated on the value.
   */
  function Encode(x: int): (r: seq<byte>)
    ensures 1 <= |r|
    decreases Magnitude(x)
  {
    if -64 <= x < 64 then [x % 128]
    else [x % 128 + 128] + Encode(x / 128)
  }

  /**
   * `readSignedLEB128(data, pos, &value)`: the value encoded at `pos` and the
   * position just after it, or None when the data ends before a byte whose
   * high bit is clear (a truncated, hence corrupt, stream).
   */
  function Read(data: seq<byte>, pos: nat): (r: Option<(int, nat)>)
    ensures r.Some? ==> pos < r.value.1 <= |data|
    decreases |data| - pos
  {
    if pos >= |data| then None
    else if data[pos] < 128 then
      var b: int := data[pos];
      Some((if b >= 64 then b - 128 else b, pos + 1))
    else
      match Read(data, pos + 1)
      case None => None
      case Some((rest, next)) => Some((data[pos] as int - 128 + 128 * rest, next))
  }

  /**
   * `e` stands in `data` from `pos` on, stated byte by byte so that the
   * verifier unfolds it one byte at a time (BytesAtSlice gives the slice form).
   */
  predicate BytesAt(data: seq<byte>, pos: nat, e: seq<byte>)
    decreases |e|
  {
    pos + |e| <= |data| && (e != [] ==> data[pos] == e[0] && BytesAt(data, pos + 1, e[1..]))
  }

  /** BytesAt is the slice equality it abbreviates. */
  lemma {:induction false} BytesAtSlice(data: seq<byte>, pos: nat, e: seq<byte>)
    ensures BytesAt(data, pos, e) <==> pos + |e| <= |data| && data[pos..pos + |e|] == e
    decreases |e|
  {
    if e != [] && pos + |e| <= |data| {
      BytesAtSlice(data, pos + 1, e[1..]);
      assert data[pos..pos + |e|] == [data[pos]] + data[pos + 1..pos + |e|];
      assert e == [e[0]] + e[1..];
    }
  }

  /** Finding `a + b` at `pos` is finding `a` there and `b` right after it. */
  lemma {:induction false} SplitAt(data: seq<byte>, pos: nat, a: seq<byte>, b: seq<byte>)
    requires BytesAt(data, pos, a + b)
    ensures BytesAt(data, pos, a) && BytesAt(data, pos + |a|, b)
    decreases |a|
  {
    if a == [] {
      assert a + b == b;
    } else {
      assert (a + b)[1..] == a[1..] + b;
      SplitAt(data, pos + 1, a[1..], b);
    }
  }

  /** Bytes already in place stay in place when more are appended. */
  lemma {:induction false} BytesAtGrow(data: seq<byte>, more: seq<byte>, pos: nat, e: seq<byte>)
    requires BytesAt(data, pos, e)
    ensures BytesAt(data + more, pos, e)
    decreases |e|
  {
    if e != [] {
      BytesAtGrow(data, more, pos + 1, e[1..]);
    }
  }

  /** What is appended stands at the old length. */
  lemma BytesAtEnd(data: seq<byte>, e: seq<byte>)
    ensures BytesAt(data + e, |data|, e)
  {
    BytesAtSlice(data + e, |data|, e);
    assert (data + e)[|data|..|data| + |e|] == e;
  }

  /**
   * Round trip: wherever the encoding of `x` stands in a buffer, reading at
   * its first byte gives back `x` and stops right after its last byte, so
   * whatever follows is not consulted.
   */
  lemma {:induction false} ReadEncode(data: seq<byte>, pos: nat, x: int)
    requires BytesAt(data, pos, Encode(x))
    ensures Read(data, pos) == Some((x, pos + |Encode(x)|))
    decreases Magnitude(x)
  {
    if !(-64 <= x < 64) {
      SplitAt(data, pos, [x % 128 + 128], Encode(x / 128));
      ReadEncode(data, pos + 1, x / 128);
    }
  }
}

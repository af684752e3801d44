/**
 * The file table `files_`: one `DebugFileRegion` per run of locations that
 * share a filename, keyed by the offset in the location stream where the run
 * begins. A location's file is found from the offset of its entry.
 */
module FileTable {
  import opened Wrappers

  /** `DebugFileRegion`: from `fromAddress` on, locations belong to `filenameId`. */
  datatype FileRegion = FileRegion(fromAddress: nat, filenameId: nat, sourceMappingUrlId: nat)

  /** Offsets of the table never decrease (the generator appends at the growing write offset). */
  predicate Sorted(files: seq<FileRegion>)
  {
    forall i, j :: 0 <= i < j < |files| ==> files[i].fromAddress <= files[j].fromAddress
  }

  /**
   * How many entries the scan of getFilenameForAddress accepts before it
   * stops: the length of the leading run with `fromAddress <= x`.
   */
  function LeadingNotAfter(files: seq<FileRegion>, x: int): (n: nat)
    ensures n <= |files|
    ensures forall i :: 0 <= i < n ==> files[i].fromAddress <= x
    ensures n < |files| ==> files[n].fromAddress > x
    decreases |files|
  {
    if files == [] || files[0].fromAddress > x then 0
    else 1 + LeadingNotAfter(files[1..], x)
  }

  /**
   * `getFilenameForAddress(x)`: the filename of the last entry the scan
   * accepted, or None when it accepted none.
   */
  function FilenameFor(files: seq<FileRegion>, x: int): (r: Option<nat>)
    ensures r.None? <==> files == [] || files[0].fromAddress > x
    ensures r.Some? ==> exists i :: 0 <= i < |files| && files[i].fromAddress <= x && r.value == files[i].filenameId
  {
    var n := LeadingNotAfter(files, x);
    if n == 0 then None else Some(files[n - 1].filenameId)
  }

  /**
   * On a sorted table the scan finds the last entry with `fromAddress <= x`:
   * whatever entry `i` has that property, the lookup returns its filename.
   */
  lemma FilenameForLast(files: seq<FileRegion>, x: int, i: nat)
    requires Sorted(files)
    requires i < |files| && files[i].fromAddress <= x
    requires i + 1 == |files| || files[i + 1].fromAddress > x
    ensures FilenameFor(files, x) == Some(files[i].filenameId)
  {
  }

  /** Entries appended at offsets past `x` do not change the lookup of `x`. */
  lemma {:induction false} FilenameForIgnoresLater(files: seq<FileRegion>, more: seq<FileRegion>, x: int)
    requires forall k :: 0 <= k < |more| ==> more[k].fromAddress > x
    ensures FilenameFor(files + more, x) == FilenameFor(files, x)
  {
    LeadingNotAfterIgnoresLater(files, more, x);
    var n := LeadingNotAfter(files, x);
    if n > 0 {
      assert (files + more)[n - 1] == files[n - 1];
    }
    if files == [] {
      assert files + more == more;
    } else {
      assert (files + more)[0] == files[0];
    }
  }

  lemma {:induction false} LeadingNotAfterIgnoresLater(files: seq<FileRegion>, more: seq<FileRegion>, x: int)
    requires forall k :: 0 <= k < |more| ==> more[k].fromAddress > x
    ensures LeadingNotAfter(files + more, x) == LeadingNotAfter(files, x)
    decreases |files|
  {
    if files == [] {
      assert files + more == more;
      if more != [] {
        assert more[0].fromAddress > x;
      }
    } else {
      assert (files + more)[0] == files[0];
      assert (files + more)[1..] == files[1..] + more;
      LeadingNotAfterIgnoresLater(files[1..], more, x);
    }
  }

  /**
   * An entry appended at an offset no earlier than every other entry and no
   * later than `x` decides the lookup of `x`.
   */
  lemma FilenameForAppended(files: seq<FileRegion>, r: FileRegion, x: int)
    requires Sorted(files)
    requires forall k :: 0 <= k < |files| ==> files[k].fromAddress <= r.fromAddress
    requires r.fromAddress <= x
    ensures Sorted(files + [r])
    ensures FilenameFor(files + [r], x) == Some(r.filenameId)
  {
    var all := files + [r];
    assert all[|files|] == r;
    FilenameForLast(all, x, |files|);
  }

  /** When no entry starts after `x`, the scan accepts them all and the last entry decides. */
  lemma {:induction false} FilenameForAllNotAfter(files: seq<FileRegion>, x: int)
    requires files != [] && forall k :: 0 <= k < |files| ==> files[k].fromAddress <= x
    ensures FilenameFor(files, x) == Some(files[|files| - 1].filenameId)
  {
    LeadingNotAfterAll(files, x);
  }

  lemma {:induction false} LeadingNotAfterAll(files: seq<FileRegion>, x: int)
    requires forall k :: 0 <= k < |files| ==> files[k].fromAddress <= x
    ensures LeadingNotAfter(files, x) == |files|
    decreases |files|
  {
    if files != [] {
      assert files[0].fromAddress <= x;
      forall k | 0 <= k < |files[1..]|
        ensures files[1..][k].fromAddress <= x
      {
        assert files[1..][k] == files[k + 1];
      }
      LeadingNotAfterAll(files[1..], x);
    }
  }

  /** Two sorted tables, the second starting no earlier than the first ends, make a sorted table. */
  lemma SortedAppend(a: seq<FileRegion>, b: seq<FileRegion>)
    requires Sorted(a) && Sorted(b)
    requires forall i, j :: 0 <= i < |a| && 0 <= j < |b| ==> a[i].fromAddress <= b[j].fromAddress
    ensures Sorted(a + b)
  {
    var c := a + b;
    forall i, j | 0 <= i < j < |c|
      ensures c[i].fromAddress <= c[j].fromAddress
    {
      if j < |a| {
        assert c[i] == a[i] && c[j] == a[j];
      } else if i < |a| {
        assert c[i] == a[i] && c[j] == b[j - |a|];
      } else {
        assert c[i] == b[i - |a|] && c[j] == b[j - |a|];
      }
    }
  }

  /** A sorted table followed by a sorted one that starts no earlier than `x`, where the first ends by `x`. */
  lemma SortedAppendAt(a: seq<FileRegion>, b: seq<FileRegion>, x: int)
    requires Sorted(a) && Sorted(b)
    requires forall i :: 0 <= i < |a| ==> a[i].fromAddress <= x
    requires forall j :: 0 <= j < |b| ==> x <= b[j].fromAddress
    ensures Sorted(a + b)
  {
    SortedAppend(a, b);
  }
}

/**
  The two selections `report` in main.py makes from a list of groups with
  `max(..., key=...)`: the group with the most files ("Max Duplicates") and the
  group that is meant to take the most disk space ("Max"). Printing is not
  modelled; the selected groups are returned instead.

  Python's `max` walks the sequence from the front and replaces its candidate
  only by a strictly larger key, so it returns the first element of maximal
  key; on an empty sequence it raises ValueError, and a key that indexes
  `x[0]` raises IndexError on an empty group.
 */
module Report {
  import opened Comparisons
  import NaiveSearch
  import FasterSearch

  /** Why a selection raises: `max` of an empty sequence, or `x[0]` of an empty group. */
  datatype ReportError = EmptySequence | EmptyGroup

  datatype Result<T> = Ok(value: T) | Fail(error: ReportError)

  /** What `report` prints, as values: the "Max" group and the "Max Duplicates" group. */
  datatype Summary = Summary(maxSpace: seq<FileHandle>, maxDuplicates: seq<FileHandle>)

  /** `k` is the index `max` returns for these keys: a largest key, and no earlier key as large. */
  predicate IsFirstMax(keys: seq<int>, k: int) {
    && 0 <= k < |keys|
    && (forall j :: 0 <= j < |keys| ==> keys[j] <= keys[k])
    && (forall j :: 0 <= j < k ==> keys[j] < keys[k])
  }

  /**
    The index `max` settles on: the candidate of the first `|keys| - 1` keys,
    replaced by the last key only when that key is strictly larger.
   */
  function FirstMaxIndex(keys: seq<int>): (k: nat)
    requires keys != []
    ensures IsFirstMax(keys, k)
    decreases |keys|
  {
    if |keys| == 1 then 0
    else
      var k := FirstMaxIndex(keys[..|keys| - 1]);
      if keys[k] < keys[|keys| - 1] then |keys| - 1 else k
  }

  /** At most one index is the first maximum, so `FirstMaxIndex` is the only possible answer. */
  lemma FirstMaxUnique(keys: seq<int>, k: int, k': int)
    requires IsFirstMax(keys, k) && IsFirstMax(keys, k')
    ensures k == k'
  {
    assert keys[k] == keys[k'];
  }

  /** The key `len(x)` of "Max Duplicates", one per group. */
  function DuplicateKeys(lol: seq<seq<FileHandle>>): seq<int> {
    seq(|lol|, i requires 0 <= i < |lol| => |lol[i]|)
  }

  /** The key `len(x) * len(x[0])` of "Max", one per group: the length of the first path, not a size. */
  function PathSpaceKeys(lol: seq<seq<FileHandle>>): seq<int>
    requires [] !in lol
  {
    seq(|lol|, i requires 0 <= i < |lol| && lol[i] != [] => |lol[i]| * |lol[i][0]|)
  }

  /** The key `len(x) * size of x[0]`, one per group, for a file-size oracle `sizeOf`. */
  function DiskSpaceKeys(sizeOf: FileHandle -> nat, lol: seq<seq<FileHandle>>): seq<int>
    requires [] !in lol
  {
    seq(|lol|, i requires 0 <= i < |lol| && lol[i] != [] => |lol[i]| * sizeOf(lol[i][0]))
  }

  /**
    `max(lol, key=lambda x: len(x))`: the first group with the most files. It
    fails only on an empty list of groups.
   */
  function MostDuplicates(lol: seq<seq<FileHandle>>): (r: Result<seq<FileHandle>>)
    ensures r.Fail? <==> lol == []
    ensures r.Fail? ==> r.error == EmptySequence
    ensures r.Ok? ==> exists k :: 0 <= k < |lol| && IsFirstMax(DuplicateKeys(lol), k) && lol[k] == r.value
  {
    if lol == [] then Fail(EmptySequence)
    else Ok(lol[FirstMaxIndex(DuplicateKeys(lol))])
  }

  /** The "Max Duplicates" group is a group of the list, and no group has more files. */
  lemma MostDuplicatesIsLargest(lol: seq<seq<FileHandle>>)
    requires lol != []
    ensures MostDuplicates(lol).value in lol
    ensures forall g :: g in lol ==> |g| <= |MostDuplicates(lol).value|
  {
    var keys := DuplicateKeys(lol);
    var r := MostDuplicates(lol);
    assert r.Ok?;
    var k :| 0 <= k < |lol| && IsFirstMax(keys, k) && lol[k] == r.value;
    forall g | g in lol ensures |g| <= |lol[k]| {
      var j :| 0 <= j < |lol| && lol[j] == g;
      assert keys[j] == |g| && keys[k] == |lol[k]|;
    }
  }

  /**
    `max(lol, key=lambda x: len(x) * len(x[0]))`, the "Max" line as written:
    the first group maximising its file count times the length of its first
    path. It fails on an empty list of groups, and on any empty group.
   */
  function MaxSpace(lol: seq<seq<FileHandle>>): (r: Result<seq<FileHandle>>)
    ensures r == Fail(EmptySequence) <==> lol == []
    ensures r == Fail(EmptyGroup) <==> lol != [] && [] in lol
    ensures r.Ok? ==> [] !in lol
    ensures r.Ok? ==> exists k :: 0 <= k < |lol| && IsFirstMax(PathSpaceKeys(lol), k) && lol[k] == r.value
  {
    if lol == [] then Fail(EmptySequence)
    else if [] in lol then Fail(EmptyGroup)
    else Ok(lol[FirstMaxIndex(PathSpaceKeys(lol))])
  }

  /**
    The disk-space selection with a real size: the first group maximising its
    file count times the size of its first file. Its errors are those of
    `MaxSpace`.
   */
  function MostDiskSpace(sizeOf: FileHandle -> nat, lol: seq<seq<FileHandle>>): (r: Result<seq<FileHandle>>)
    ensures r == Fail(EmptySequence) <==> lol == []
    ensures r == Fail(EmptyGroup) <==> lol != [] && [] in lol
    ensures r.Ok? ==> [] !in lol
    ensures r.Ok? ==> exists k :: 0 <= k < |lol| && IsFirstMax(DiskSpaceKeys(sizeOf, lol), k) && lol[k] == r.value
  {
    if lol == [] then Fail(EmptySequence)
    else if [] in lol then Fail(EmptyGroup)
    else Ok(lol[FirstMaxIndex(DiskSpaceKeys(sizeOf, lol))])
  }

  /** The selected group occupies at least as many bytes as any group of the list. */
  lemma MostDiskSpaceIsLargest(sizeOf: FileHandle -> nat, lol: seq<seq<FileHandle>>)
    requires lol != [] && [] !in lol
    ensures MostDiskSpace(sizeOf, lol).value in lol
    ensures forall g :: g in lol ==> g != [] && |g| * sizeOf(g[0]) <= |MostDiskSpace(sizeOf, lol).value| * sizeOf(MostDiskSpace(sizeOf, lol).value[0])
  {
    var keys := DiskSpaceKeys(sizeOf, lol);
    var r := MostDiskSpace(sizeOf, lol);
    assert r.Ok?;
    var k :| 0 <= k < |lol| && IsFirstMax(keys, k) && lol[k] == r.value;
    forall g | g in lol ensures g != [] && |g| * sizeOf(g[0]) <= |lol[k]| * sizeOf(lol[k][0]) {
      var j :| 0 <= j < |lol| && lol[j] == g;
      assert keys[j] == |g| * sizeOf(g[0]) && keys[k] == |lol[k]| * sizeOf(lol[k][0]);
    }
  }

  /**
    report(lol) as written: the "Max" selection is evaluated first, so its
    errors are the ones raised, then the "Max Duplicates" selection.
   */
  function Report(lol: seq<seq<FileHandle>>): (r: Result<Summary>)
    ensures r.Ok? <==> lol != [] && [] !in lol
    ensures lol == [] ==> r == Fail(EmptySequence)
    ensures lol != [] && [] in lol ==> r == Fail(EmptyGroup)
    ensures r.Ok? ==> Ok(r.value.maxSpace) == MaxSpace(lol) && Ok(r.value.maxDuplicates) == MostDuplicates(lol)
  {
    match MaxSpace(lol)
    case Fail(e) => Fail(e)
    case Ok(most) => Ok(Summary(most, MostDuplicates(lol).value))
  }

  /** report with the disk-space selection measured by file size. */
  function FixedReport(sizeOf: FileHandle -> nat, lol: seq<seq<FileHandle>>): (r: Result<Summary>)
    ensures r.Ok? <==> lol != [] && [] !in lol
    ensures lol == [] ==> r == Fail(EmptySequence)
    ensures lol != [] && [] in lol ==> r == Fail(EmptyGroup)
    ensures r.Ok? ==> Ok(r.value.maxSpace) == MostDiskSpace(sizeOf, lol) && Ok(r.value.maxDuplicates) == MostDuplicates(lol)
  {
    match MostDiskSpace(sizeOf, lol)
    case Fail(e) => Fail(e)
    case Ok(most) => Ok(Summary(most, MostDuplicates(lol).value))
  }

  /**
    On the groups search returns, report succeeds exactly when there is a
    group, and raises the empty-sequence error when search found none: the
    "No duplicates found" branch is commented out.
   */
  lemma ReportOnSearch(cmp: Comparator, s: seq<FileHandle>)
    requires ReflexiveOn(cmp, s)
    ensures Report(NaiveSearch.SearchGroups(cmp, s)).Ok? <==> NaiveSearch.SearchGroups(cmp, s) != []
    ensures NaiveSearch.SearchGroups(cmp, s) == [] ==> Report(NaiveSearch.SearchGroups(cmp, s)) == Fail(EmptySequence)
  {
    NaiveSearch.SearchGroupsMembers(cmp, s);
    assert [] !in NaiveSearch.SearchGroups(cmp, s);
  }

  /** The same holds for the groups faster_search returns. */
  lemma ReportOnFasterSearch(cmp: Comparator, s: seq<FileHandle>)
    ensures Report(FasterSearch.FasterSearchGroups(cmp, s)).Ok? <==> FasterSearch.FasterSearchGroups(cmp, s) != []
  {
    FasterSearch.FasterSearchGroupsSizes(cmp, s);
    assert [] !in FasterSearch.FasterSearchGroups(cmp, s);
  }

  /**
    Two classes of paths of equal length: A of three files of 10 bytes, B of
    two files of 100 bytes. The selection as written picks A (3 * 2 > 2 * 2);
    measured in bytes, B takes more space (2 * 100 > 3 * 10).
   */
  lemma MaxSpaceIgnoresFileSize()
    ensures var a := ["f1", "f2", "f3"];
      var b := ["f4", "f5"];
      var sizeOf := (f: FileHandle) => if f == "f4" || f == "f5" then 100 else 10;
      MaxSpace([a, b]) == Ok(a) && MostDiskSpace(sizeOf, [a, b]) == Ok(b)
  {
    var a := ["f1", "f2", "f3"];
    var b := ["f4", "f5"];
    var sizeOf := (f: FileHandle) => if f == "f4" || f == "f5" then 100 else 10;
    assert |a[0]| == 2 && |b[0]| == 2;
    assert PathSpaceKeys([a, b]) == [6, 4];
    assert FirstMaxIndex([6, 4]) == 0;
    assert sizeOf(a[0]) == 10 && sizeOf(b[0]) == 100;
    assert DiskSpaceKeys(sizeOf, [a, b]) == [30, 200];
    assert FirstMaxIndex([30, 200]) == 1;
  }
}

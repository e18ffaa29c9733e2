/**
  The strategy `faster_search` of main.py. It pops the first file of the
  caller's list as pivot, scans the rest of the list from the last index down
  to the first and appends every file equal to the pivot, and keeps the
  collection when it has more than one member. The matched files stay in the
  list, so they are scanned again as pivots of their own.

  The module also holds a corrected variant that removes each matched file
  from the list as it is found, which is what the backwards scan is suited
  for, and proves that variant agrees with `search`.
 */
module FasterSearch {
  import opened Comparisons
  import NaiveSearch

  /**
    `dups` after the inner for loop for pivot `p` over the rest of the list:
    the pivot, then the files of `rest` equal to it from the last index down.
   */
  function PivotScan(cmp: Comparator, p: FileHandle, rest: seq<FileHandle>): (g: seq<FileHandle>)
    ensures |g| == 1 + |Matches(cmp, p, rest)| && g[0] == p
  {
    [p] + Reversed(Matches(cmp, p, rest))
  }

  /** After the pivot come exactly the files of `rest` equal to it. */
  lemma PivotScanMembers(cmp: Comparator, p: FileHandle, rest: seq<FileHandle>)
    ensures forall x :: x in PivotScan(cmp, p, rest)[1..] <==> x in rest && cmp(p, x)
  {
    var m := Matches(cmp, p, rest);
    var g := PivotScan(cmp, p, rest);
    MatchesMembers(cmp, p, rest);
    ReversedSameMembers(m);
    assert g[1..] == Reversed(m);
    forall x ensures x in g[1..] <==> x in m {
      assert x in g[1..] <==> x in multiset(Reversed(m));
    }
  }

  /**
    The files after the pivot come in descending index order: position `k`
    holds the `k`-th match counted from the end of `rest`.
   */
  lemma PivotScanOrder(cmp: Comparator, p: FileHandle, rest: seq<FileHandle>)
    ensures var m := Matches(cmp, p, rest);
      forall k :: 1 <= k < |PivotScan(cmp, p, rest)| ==> PivotScan(cmp, p, rest)[k] == m[|m| - k]
  {
    var m := Matches(cmp, p, rest);
    ReversedAt(m);
    assert PivotScan(cmp, p, rest)[1..] == Reversed(m);
  }

  /** One step of the backwards scan: index `i - 1` is looked at after every index above it. */
  lemma ScanStep(cmp: Comparator, p: FileHandle, rest: seq<FileHandle>, i: nat)
    requires 0 < i <= |rest|
    ensures var before := [p] + Reversed(Matches(cmp, p, rest[i..]));
      [p] + Reversed(Matches(cmp, p, rest[i - 1..]))
      == if cmp(p, rest[i - 1]) then before + [rest[i - 1]] else before
  {
    var m := Matches(cmp, p, rest[i..]);
    assert rest[i - 1..] == [rest[i - 1]] + rest[i..];
    assert Matches(cmp, p, rest[i - 1..]) == (if cmp(p, rest[i - 1]) then [rest[i - 1]] else []) + m;
    if cmp(p, rest[i - 1]) {
      assert ([rest[i - 1]] + m)[1..] == m;
      assert Reversed([rest[i - 1]] + m) == Reversed(m) + [rest[i - 1]];
    } else {
      assert [] + m == m;
    }
  }

  /**
    One step of the corrected backwards scan: index `i - 1` is popped from the
    list when it matches, and kept otherwise.
   */
  lemma PopStep(cmp: Comparator, p: FileHandle, rest: seq<FileHandle>, i: nat)
    requires 0 < i <= |rest|
    ensures var items := rest[..i] + Others(cmp, p, rest[i..]);
      && items[i - 1] == rest[i - 1]
      && rest[..i - 1] + Others(cmp, p, rest[i - 1..])
         == if cmp(p, rest[i - 1]) then items[..i - 1] + items[i..] else items
  {
    var o := Others(cmp, p, rest[i..]);
    var items := rest[..i] + o;
    assert rest[i - 1..] == [rest[i - 1]] + rest[i..];
    assert Others(cmp, p, rest[i - 1..]) == (if cmp(p, rest[i - 1]) then [] else [rest[i - 1]]) + o;
    if cmp(p, rest[i - 1]) {
      assert items[..i - 1] == rest[..i - 1] && items[i..] == o;
    } else {
      assert rest[..i] == rest[..i - 1] + [rest[i - 1]];
    }
  }

  /**
    The list of groups `faster_search` returns for the list `s`: one group
    candidate per element of `s`, since every outer iteration pops exactly one
    file.
   */
  function FasterSearchGroups(cmp: Comparator, s: seq<FileHandle>): (r: seq<seq<FileHandle>>)
    ensures |r| <= |s|
  {
    if s == [] then []
    else
      var dups := PivotScan(cmp, s[0], s[1..]);
      (if 1 < |dups| then [dups] else []) + FasterSearchGroups(cmp, s[1..])
  }

  /** One outer iteration of faster_search in terms of the groups still to come. */
  lemma {:induction false} FasterSearchGroupsStep(cmp: Comparator, lol: seq<seq<FileHandle>>, s: seq<FileHandle>)
    requires s != []
    ensures var dups := PivotScan(cmp, s[0], s[1..]);
      lol + FasterSearchGroups(cmp, s)
      == (if 1 < |dups| then lol + [dups] else lol) + FasterSearchGroups(cmp, s[1..])
  {
    var dups := PivotScan(cmp, s[0], s[1..]);
    var later := FasterSearchGroups(cmp, s[1..]);
    if 1 < |dups| {
      assert FasterSearchGroups(cmp, s) == [dups] + later;
      assert lol + ([dups] + later) == (lol + [dups]) + later;
    } else {
      assert FasterSearchGroups(cmp, s) == later;
    }
  }

  /**
    faster_search(file_list). It empties the caller's list, one pop(0) per
    outer iteration, so `rounds`, the number of outer iterations, is the length
    of the list it was given.
   */
  method FasterSearch(cmp: Comparator, fileList: FileList) returns (lol: seq<seq<FileHandle>>, ghost rounds: nat)
    modifies fileList
    ensures fileList.items == []
    ensures rounds == |old(fileList.items)|
    ensures lol == FasterSearchGroups(cmp, old(fileList.items))
  {
    lol := [];
    rounds := 0;
    while 0 < |fileList.items|
      invariant rounds + |fileList.items| == |old(fileList.items)|
      invariant lol + FasterSearchGroups(cmp, fileList.items) == FasterSearchGroups(cmp, old(fileList.items))
      decreases |fileList.items|
    {
      ghost var before := fileList.items;
      FasterSearchGroupsStep(cmp, lol, before);
      var dups := [fileList.items[0]];
      fileList.items := fileList.items[1..];
      ghost var rest := fileList.items;
      var i := |fileList.items|;
      while 0 < i
        invariant 0 <= i <= |rest|
        invariant fileList.items == rest
        invariant dups == [before[0]] + Reversed(Matches(cmp, before[0], rest[i..]))
        decreases i
      {
        ScanStep(cmp, before[0], rest, i);
        i := i - 1;
        if cmp(dups[0], fileList.items[i]) {
          dups := dups + [fileList.items[i]];
        }
      }
      if 1 < |dups| {
        lol := lol + [dups];
      }
      rounds := rounds + 1;
    }
  }

  /** Every group has at least two files and starts with a file of the input. */
  lemma {:induction false} FasterSearchGroupsSizes(cmp: Comparator, s: seq<FileHandle>)
    ensures forall g :: g in FasterSearchGroups(cmp, s) ==> 2 <= |g| && g[0] in s
  {
    if s != [] {
      FasterSearchGroupsSizes(cmp, s[1..]);
      var dups := PivotScan(cmp, s[0], s[1..]);
      var later := FasterSearchGroups(cmp, s[1..]);
      assert FasterSearchGroups(cmp, s) == (if 1 < |dups| then [dups] else []) + later;
      forall x | x in s[1..] ensures x in s {
      }
    }
  }

  /** After its first file, a group holds only files of the input that equal the first file. */
  lemma {:induction false} FasterSearchGroupsMembers(cmp: Comparator, s: seq<FileHandle>)
    ensures forall g, x :: g in FasterSearchGroups(cmp, s) && g != [] && x in g[1..] ==> x in s && cmp(g[0], x)
  {
    if s != [] {
      FasterSearchGroupsMembers(cmp, s[1..]);
      var dups := PivotScan(cmp, s[0], s[1..]);
      var later := FasterSearchGroups(cmp, s[1..]);
      PivotScanMembers(cmp, s[0], s[1..]);
      assert FasterSearchGroups(cmp, s) == (if 1 < |dups| then [dups] else []) + later;
      forall g | g in FasterSearchGroups(cmp, s) ensures g in later || g == dups {
      }
      forall x | x in s[1..] ensures x in s {
      }
    }
  }

  /** Every group is the scan of one pivot of the input over the files after it. */
  lemma {:induction false} FasterSearchGroupsFromPivots(cmp: Comparator, s: seq<FileHandle>)
    ensures forall g :: g in FasterSearchGroups(cmp, s) ==>
      exists k :: 0 <= k < |s| && g == PivotScan(cmp, s[k], s[k + 1..])
  {
    if s != [] {
      FasterSearchGroupsFromPivots(cmp, s[1..]);
      var dups := PivotScan(cmp, s[0], s[1..]);
      forall g | g in FasterSearchGroups(cmp, s)
        ensures exists k :: 0 <= k < |s| && g == PivotScan(cmp, s[k], s[k + 1..])
      {
        if g == dups {
          assert g == PivotScan(cmp, s[0], s[0 + 1..]);
        } else {
          assert g in FasterSearchGroups(cmp, s[1..]);
          var k :| 0 <= k < |s[1..]| && g == PivotScan(cmp, s[1..][k], s[1..][k + 1..]);
          assert s[1..][k] == s[k + 1] && s[1..][k + 1..] == s[k + 2..];
          assert g == PivotScan(cmp, s[k + 1], s[(k + 1) + 1..]);
        }
      }
    }
  }

  /** A comparison that finds every pair of files equal. */
  const AllEqual: Comparator := (x, y) => true

  /** When every pair is equal, every file matches the pivot. */
  lemma {:induction false} AllEqualMatchesAll(p: FileHandle, s: seq<FileHandle>)
    ensures Matches(AllEqual, p, s) == s
    ensures Others(AllEqual, p, s) == []
  {
    if s != [] {
      AllEqualMatchesAll(p, s[1..]);
      assert AllEqual(p, s[0]);
      assert s == [s[0]] + s[1..];
    }
  }

  /** The pivot scan on a one- and a two-element rest. */
  lemma PivotScanSmall(a: FileHandle, b: FileHandle, c: FileHandle)
    ensures PivotScan(AllEqual, c, []) == [c]
    ensures PivotScan(AllEqual, b, [c]) == [b, c]
    ensures PivotScan(AllEqual, a, [b, c]) == [a, c, b]
  {
    AllEqualMatchesAll(b, [c]);
    AllEqualMatchesAll(a, [b, c]);
    assert Reversed([c]) == Reversed([c][1..]) + [c];
    assert [c][1..] == [];
    assert Reversed([b, c]) == Reversed([b, c][1..]) + [b];
    assert [b, c][1..] == [c];
  }

  /**
    With three copies `a`, `b`, `c` of one file, faster_search reports two
    overlapping groups, and the second copy is in both.
   */
  lemma FasterSearchOverlaps(a: FileHandle, b: FileHandle, c: FileHandle)
    ensures FasterSearchGroups(AllEqual, [a, b, c]) == [[a, c, b], [b, c]]
    ensures !PairwiseDisjoint(FasterSearchGroups(AllEqual, [a, b, c]))
  {
    PivotScanSmall(a, b, c);
    assert [c][1..] == [];
    var r1 := FasterSearchGroups(AllEqual, [c]);
    assert r1 == [] + FasterSearchGroups(AllEqual, []);
    assert [b, c][1..] == [c];
    var r2 := FasterSearchGroups(AllEqual, [b, c]);
    assert r2 == [[b, c]] + r1;
    assert [a, b, c][1..] == [b, c];
    var r := FasterSearchGroups(AllEqual, [a, b, c]);
    assert r == [[a, c, b]] + r2;
    assert b in r[0] && b in r[1] && !Disjoint(r[0], r[1]);
  }

  /**
    Corrected faster_search: the matched files are popped from the list during
    the backwards scan, so the next pivot is taken from the files that matched
    no earlier pivot.
   */
  function FixedFasterSearchGroups(cmp: Comparator, s: seq<FileHandle>): (r: seq<seq<FileHandle>>)
    ensures |r| <= |s|
    decreases |s|
  {
    if s == [] then []
    else
      var dups := PivotScan(cmp, s[0], s[1..]);
      (if 1 < |dups| then [dups] else []) + FixedFasterSearchGroups(cmp, Others(cmp, s[0], s[1..]))
  }

  /** One outer iteration of the corrected faster_search in terms of the groups still to come. */
  lemma {:induction false} FixedFasterSearchGroupsStep(cmp: Comparator, lol: seq<seq<FileHandle>>, s: seq<FileHandle>)
    requires s != []
    ensures var dups := PivotScan(cmp, s[0], s[1..]);
      lol + FixedFasterSearchGroups(cmp, s)
      == (if 1 < |dups| then lol + [dups] else lol) + FixedFasterSearchGroups(cmp, Others(cmp, s[0], s[1..]))
  {
    var dups := PivotScan(cmp, s[0], s[1..]);
    var later := FixedFasterSearchGroups(cmp, Others(cmp, s[0], s[1..]));
    if 1 < |dups| {
      assert FixedFasterSearchGroups(cmp, s) == [dups] + later;
      assert lol + ([dups] + later) == (lol + [dups]) + later;
    } else {
      assert FixedFasterSearchGroups(cmp, s) == later;
    }
  }

  /** The backwards scan before its first step and after its last one. */
  lemma ScanBounds(cmp: Comparator, p: FileHandle, rest: seq<FileHandle>)
    ensures rest[..|rest|] + Others(cmp, p, rest[|rest|..]) == rest
    ensures [p] + Reversed(Matches(cmp, p, rest[|rest|..])) == [p]
    ensures rest[..0] + Others(cmp, p, rest[0..]) == Others(cmp, p, rest)
    ensures Matches(cmp, p, rest[0..]) == Matches(cmp, p, rest)
  {
    assert rest[..|rest|] == rest && rest[|rest|..] == [];
    assert rest[..0] == [] && rest[0..] == rest;
  }

  /** faster_search with `dups.append(file_list.pop(i))` in the backwards scan. */
  method FixedFasterSearch(cmp: Comparator, fileList: FileList) returns (lol: seq<seq<FileHandle>>)
    modifies fileList
    ensures fileList.items == []
    ensures lol == FixedFasterSearchGroups(cmp, old(fileList.items))
  {
    lol := [];
    while 0 < |fileList.items|
      invariant lol + FixedFasterSearchGroups(cmp, fileList.items) == FixedFasterSearchGroups(cmp, old(fileList.items))
      decreases |fileList.items|
    {
      ghost var before := fileList.items;
      ghost var rest := before[1..];
      FixedFasterSearchGroupsStep(cmp, lol, before);
      var dups := [fileList.items[0]];
      fileList.items := fileList.items[1..];
      var i := |fileList.items|;
      ScanBounds(cmp, before[0], rest);
      while 0 < i
        invariant 0 <= i <= |rest|
        invariant fileList.items == rest[..i] + Others(cmp, before[0], rest[i..])
        invariant dups == [before[0]] + Reversed(Matches(cmp, before[0], rest[i..]))
        decreases i
      {
        ScanStep(cmp, before[0], rest, i);
        PopStep(cmp, before[0], rest, i);
        i := i - 1;
        if cmp(dups[0], fileList.items[i]) {
          var x := fileList.items[i];
          fileList.items := fileList.items[..i] + fileList.items[i + 1..];
          dups := dups + [x];
        }
      }
      if 1 < |dups| {
        lol := lol + [dups];
      }
    }
  }

  /** `g` and `h` have the same first member and the same members, in possibly different order. */
  predicate SameClass(g: seq<FileHandle>, h: seq<FileHandle>) {
    g != [] && h != [] && g[0] == h[0] && multiset(g) == multiset(h)
  }

  /** The two lists of groups agree position by position up to the order inside each group. */
  predicate SameClasses(a: seq<seq<FileHandle>>, b: seq<seq<FileHandle>>) {
    |a| == |b| && forall i :: 0 <= i < |a| ==> SameClass(a[i], b[i])
  }

  /** Lists of groups that agree class by class still agree when joined. */
  lemma SameClassesJoin(a: seq<seq<FileHandle>>, b: seq<seq<FileHandle>>, c: seq<seq<FileHandle>>, d: seq<seq<FileHandle>>)
    requires SameClasses(a, b) && SameClasses(c, d)
    ensures SameClasses(a + c, b + d)
  {
    forall i | 0 <= i < |a + c| ensures SameClass((a + c)[i], (b + d)[i]) {
      if i < |a| {
        assert (a + c)[i] == a[i] && (b + d)[i] == b[i];
      } else {
        assert (a + c)[i] == c[i - |a|] && (b + d)[i] == d[i - |a|];
      }
    }
  }

  /**
    For a pivot that equals itself, the backwards scan collects the same files
    as the comprehension of search, the pivot first.
   */
  lemma PivotScanSameClass(cmp: Comparator, s: seq<FileHandle>)
    requires s != [] && cmp(s[0], s[0])
    ensures SameClass(PivotScan(cmp, s[0], s[1..]), Matches(cmp, s[0], s))
    ensures |PivotScan(cmp, s[0], s[1..])| == |Matches(cmp, s[0], s)|
  {
    var m := Matches(cmp, s[0], s[1..]);
    PivotLeavesList(cmp, s);
    ReversedSameMembers(m);
    assert multiset([s[0]] + Reversed(m)) == multiset([s[0]]) + multiset(Reversed(m));
    assert multiset([s[0]] + m) == multiset([s[0]]) + multiset(m);
  }

  /** One pivot of both strategies: the group each keeps, and the list each continues with. */
  lemma {:induction false} PivotOfBoth(cmp: Comparator, s: seq<FileHandle>)
    requires ReflexiveOn(cmp, s) && s != []
    ensures ReflexiveOn(cmp, Others(cmp, s[0], s)) && |Others(cmp, s[0], s)| < |s|
    ensures var d := PivotScan(cmp, s[0], s[1..]);
      FixedFasterSearchGroups(cmp, s)
      == (if 1 < |d| then [d] else []) + FixedFasterSearchGroups(cmp, Others(cmp, s[0], s))
    ensures var g := Matches(cmp, s[0], s);
      NaiveSearch.SearchGroups(cmp, s)
      == (if 1 < |g| then [g] else []) + NaiveSearch.SearchGroups(cmp, Others(cmp, s[0], s))
  {
    PivotShrinksList(cmp, s);
    ReflexiveOnOthers(cmp, s[0], s);
    PivotLeavesList(cmp, s);
  }

  /**
    When `compare` says every file equals itself, the corrected faster_search
    finds the same groups as search, in the same order, each led by the same
    pivot; only the order of the other members differs.
   */
  lemma {:induction false} FixedFasterSearchAgreesWithSearch(cmp: Comparator, s: seq<FileHandle>)
    requires ReflexiveOn(cmp, s)
    ensures SameClasses(FixedFasterSearchGroups(cmp, s), NaiveSearch.SearchGroups(cmp, s))
    decreases |s|
  {
    if s != [] {
      PivotOfBoth(cmp, s);
      var rest := Others(cmp, s[0], s);
      FixedFasterSearchAgreesWithSearch(cmp, rest);
      PivotScanSameClass(cmp, s);
      var d := PivotScan(cmp, s[0], s[1..]);
      var g := Matches(cmp, s[0], s);
      SameClassesJoin(if 1 < |d| then [d] else [], if 1 < |g| then [g] else [],
        FixedFasterSearchGroups(cmp, rest), NaiveSearch.SearchGroups(cmp, rest));
    }
  }

  /** When every file equals itself, no file is in two groups of the corrected faster_search. */
  lemma FixedFasterSearchDisjoint(cmp: Comparator, s: seq<FileHandle>)
    requires ReflexiveOn(cmp, s)
    ensures PairwiseDisjoint(FixedFasterSearchGroups(cmp, s))
  {
    FixedFasterSearchAgreesWithSearch(cmp, s);
    NaiveSearch.SearchGroupsDisjoint(cmp, s);
    var d := FixedFasterSearchGroups(cmp, s);
    var g := NaiveSearch.SearchGroups(cmp, s);
    forall i, j | 0 <= i < j < |d| ensures Disjoint(d[i], d[j]) {
      assert SameClass(d[i], g[i]) && SameClass(d[j], g[j]);
      assert Disjoint(g[i], g[j]);
      forall x | x in d[i] ensures x !in d[j] {
        assert x in multiset(d[i]);
        assert x in g[i];
        assert x !in multiset(g[j]);
      }
    }
  }

  /** On three copies of one file the corrected version reports one group. */
  lemma FixedFasterSearchOnCopies(a: FileHandle, b: FileHandle, c: FileHandle)
    ensures FixedFasterSearchGroups(AllEqual, [a, b, c]) == [[a, c, b]]
  {
    PivotScanSmall(a, b, c);
    AllEqualMatchesAll(a, [b, c]);
    assert [a, b, c][1..] == [b, c];
    var r := FixedFasterSearchGroups(AllEqual, [a, b, c]);
    assert r == [[a, c, b]] + FixedFasterSearchGroups(AllEqual, []);
  }
}

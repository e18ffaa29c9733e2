/**
  The basic strategy `search` of main.py: take the first remaining file as
  pivot, collect every remaining file equal to it (the pivot included), keep
  the collection when it has more than one member, and continue with the files
  that are not equal to the pivot.
 */
module NaiveSearch {
  import opened Comparisons

  /**
    The list of groups `search` returns for the working list `s`. One call per
    iteration of the while loop; it needs `compare(x, x)` for the files of `s`,
    without which the working list never shrinks.
   */
  function SearchGroups(cmp: Comparator, s: seq<FileHandle>): (r: seq<seq<FileHandle>>)
    requires ReflexiveOn(cmp, s)
    decreases |s|
  {
    if s == [] then []
    else
      PivotShrinksList(cmp, s);
      ReflexiveOnOthers(cmp, s[0], s);
      var dups := Matches(cmp, s[0], s);
      var rest := Others(cmp, s[0], s);
      (if 1 < |dups| then [dups] else []) + SearchGroups(cmp, rest)
  }

  /**
    Every group has at least two files, all of them from the input and equal
    to the first file of the group.
   */
  lemma {:induction false} SearchGroupsMembers(cmp: Comparator, s: seq<FileHandle>)
    requires ReflexiveOn(cmp, s)
    ensures forall g :: g in SearchGroups(cmp, s) ==> 2 <= |g|
    ensures forall g, x :: g in SearchGroups(cmp, s) && x in g ==> x in s && cmp(g[0], x)
    decreases |s|
  {
    if s != [] {
      PivotShrinksList(cmp, s);
      ReflexiveOnOthers(cmp, s[0], s);
      MatchesMembers(cmp, s[0], s);
      OthersMembers(cmp, s[0], s);
      SearchGroupsMembers(cmp, Others(cmp, s[0], s));
    }
  }

  /**
    search(file_list). The argument is only read: the loop rebinds a local
    working list and never changes the caller's list, which the absence of a
    `modifies` clause makes Dafny check.
   */
  method Search(cmp: Comparator, fileList: FileList) returns (lol: seq<seq<FileHandle>>)
    requires ReflexiveOn(cmp, fileList.items)
    ensures lol == SearchGroups(cmp, fileList.items)
    ensures fileList.items == [] ==> lol == []
    ensures forall g :: g in lol ==> 2 <= |g|
  {
    lol := [];
    var work := fileList.items;
    while 0 < |work|
      invariant ReflexiveOn(cmp, work)
      invariant lol + SearchGroups(cmp, work) == SearchGroups(cmp, fileList.items)
      decreases |work|
    {
      PivotShrinksList(cmp, work);
      SearchGroupsStep(cmp, lol, work);
      var dups := Matches(cmp, work[0], work);
      if 1 < |dups| {
        lol := lol + [dups];
      }
      work := Others(cmp, work[0], work);
    }
    SearchGroupsMembers(cmp, fileList.items);
  }

  /** One pass of the while loop in terms of the groups still to come. */
  lemma {:induction false} SearchGroupsStep(cmp: Comparator, lol: seq<seq<FileHandle>>, work: seq<FileHandle>)
    requires ReflexiveOn(cmp, work) && work != []
    ensures ReflexiveOn(cmp, Others(cmp, work[0], work))
    ensures var dups := Matches(cmp, work[0], work);
      lol + SearchGroups(cmp, work)
      == (if 1 < |dups| then lol + [dups] else lol) + SearchGroups(cmp, Others(cmp, work[0], work))
  {
    var dups := Matches(cmp, work[0], work);
    var rest := Others(cmp, work[0], work);
    ReflexiveOnOthers(cmp, work[0], work);
    var later := SearchGroups(cmp, rest);
    if 1 < |dups| {
      assert SearchGroups(cmp, work) == [dups] + later;
      assert lol + ([dups] + later) == (lol + [dups]) + later;
    } else {
      assert SearchGroups(cmp, work) == later;
    }
  }

  /**
    Without `compare(x, x)` for the pivot, one pass of the loop leaves a
    working list that starts with the same pivot and that the next pass leaves
    unchanged: the loop never ends.
   */
  lemma {:induction false} SearchStallsWithoutReflexivity(cmp: Comparator, work: seq<FileHandle>)
    requires work != [] && !cmp(work[0], work[0])
    ensures Others(cmp, work[0], work) != []
    ensures Others(cmp, work[0], work)[0] == work[0]
    ensures Others(cmp, work[0], Others(cmp, work[0], work)) == Others(cmp, work[0], work)
  {
    OthersIdempotent(cmp, work[0], work);
    assert work == [work[0]] + work[1..];
  }

  /** Every group keeps its members in their order in the input list. */
  lemma {:induction false} SearchGroupsKeepInputOrder(cmp: Comparator, s: seq<FileHandle>)
    requires ReflexiveOn(cmp, s)
    ensures forall g :: g in SearchGroups(cmp, s) ==> IsSubsequence(g, s)
    decreases |s|
  {
    if s != [] {
      PivotShrinksList(cmp, s);
      var dups := Matches(cmp, s[0], s);
      var rest := Others(cmp, s[0], s);
      ReflexiveOnOthers(cmp, s[0], s);
      SearchGroupsKeepInputOrder(cmp, rest);
      MatchesIsSubsequence(cmp, s[0], s);
      OthersIsSubsequence(cmp, s[0], s);
      forall g | g in SearchGroups(cmp, s) ensures IsSubsequence(g, s) {
        if g != dups {
          assert g in SearchGroups(cmp, rest);
          SubsequenceTransitive(g, rest, s);
        }
      }
    }
  }

  /** No file is in two groups. */
  lemma {:induction false} SearchGroupsDisjoint(cmp: Comparator, s: seq<FileHandle>)
    requires ReflexiveOn(cmp, s)
    ensures PairwiseDisjoint(SearchGroups(cmp, s))
    decreases |s|
  {
    if s != [] {
      PivotShrinksList(cmp, s);
      var p := s[0];
      var dups := Matches(cmp, p, s);
      var rest := Others(cmp, p, s);
      ReflexiveOnOthers(cmp, p, s);
      MatchesMembers(cmp, p, s);
      OthersMembers(cmp, p, s);
      SearchGroupsDisjoint(cmp, rest);
      SearchGroupsMembers(cmp, rest);
      var later := SearchGroups(cmp, rest);
      if 1 < |dups| {
        forall h | h in later ensures Disjoint(dups, h) {
          forall x | x in dups ensures x !in h {
            assert cmp(p, x);
          }
        }
        PairwiseDisjointCons(dups, later);
      }
    }
  }

  /**
    When `compare` is an equivalence relation, every group is the whole class
    of its first member: all files of the input equal to it, in input order.
   */
  lemma {:induction false} SearchGroupsAreClasses(cmp: Comparator, s: seq<FileHandle>)
    requires EquivalenceOn(cmp, s)
    ensures forall g :: g in SearchGroups(cmp, s) ==> g != [] && g == Matches(cmp, g[0], s)
    decreases |s|
  {
    if s != [] {
      PivotShrinksList(cmp, s);
      var p := s[0];
      var dups := Matches(cmp, p, s);
      var rest := Others(cmp, p, s);
      EquivalenceOnOthers(cmp, p, s);
      OthersMembers(cmp, p, s);
      SearchGroupsAreClasses(cmp, rest);
      SearchGroupsMembers(cmp, rest);
      forall g | g in SearchGroups(cmp, s) ensures g != [] && g == Matches(cmp, g[0], s) {
        if g != dups {
          assert g in SearchGroups(cmp, rest);
          var q := g[0];
          assert q in g;
          assert q in rest && !cmp(p, q);
          forall z | z in s && cmp(p, z) ensures !cmp(q, z) {
          }
          MatchesSkipsOthers(cmp, p, q, s);
        }
      }
    }
  }

  /**
    When `compare` is an equivalence relation, a file of the input lies in some
    group exactly when at least two entries of the input equal it.
   */
  lemma SearchGroupsComplete(cmp: Comparator, s: seq<FileHandle>)
    requires EquivalenceOn(cmp, s)
    ensures forall x :: x in s ==> (InSomeGroup(SearchGroups(cmp, s), x) <==> 2 <= |Matches(cmp, x, s)|)
  {
    SearchGroupsAreClasses(cmp, s);
    SearchGroupsMembers(cmp, s);
    forall x | x in s ensures InSomeGroup(SearchGroups(cmp, s), x) <==> 2 <= |Matches(cmp, x, s)| {
      if InSomeGroup(SearchGroups(cmp, s), x) {
        var g :| g in SearchGroups(cmp, s) && x in g;
        assert g[0] in g;
        MatchesAgree(cmp, g[0], x, s);
      }
      if 2 <= |Matches(cmp, x, s)| {
        SearchFindsDuplicated(cmp, s, x);
      }
    }
  }

  /** A file with at least two equal entries in the input ends up in a group. */
  lemma {:induction false} SearchFindsDuplicated(cmp: Comparator, s: seq<FileHandle>, x: FileHandle)
    requires EquivalenceOn(cmp, s)
    requires x in s && 2 <= |Matches(cmp, x, s)|
    ensures InSomeGroup(SearchGroups(cmp, s), x)
    decreases |s|
  {
    PivotShrinksList(cmp, s);
    var p := s[0];
    var dups := Matches(cmp, p, s);
    var rest := Others(cmp, p, s);
    EquivalenceOnOthers(cmp, p, s);
    var later := SearchGroups(cmp, rest);
    if cmp(p, x) {
      MatchesAgree(cmp, p, x, s);
      MatchesMembers(cmp, p, s);
      assert SearchGroups(cmp, s) == [dups] + later;
      assert dups in SearchGroups(cmp, s) && x in dups;
    } else {
      forall z | z in s && cmp(p, z) ensures !cmp(x, z) {
      }
      MatchesSkipsOthers(cmp, p, x, s);
      OthersMembers(cmp, p, s);
      SearchFindsDuplicated(cmp, rest, x);
      var g :| g in later && x in g;
      assert SearchGroups(cmp, s) == (if 1 < |dups| then [dups] else []) + later;
      assert g in SearchGroups(cmp, s);
    }
  }
}

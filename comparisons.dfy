/**
  File handles, the content-comparison oracle, and the list filters that both
  search strategies of main.py build their groups from.
 */
module Comparisons {

  /** A file handle is the path string that directory traversal produced. */
  type FileHandle = string

  /**
    The byte-level comparison `compare` imported from p1utils. Its code is not
    part of this model, so every operation receives it as a parameter and
    nothing is assumed about it unless an operation states it in `requires`.
   */
  type Comparator = (FileHandle, FileHandle) -> bool

  /** A Python list of file handles, which an operation may change in place. */
  class FileList {
    var items: seq<FileHandle>

    constructor (files: seq<FileHandle>)
      ensures items == files
    {
      items := files;
    }
  }

  /** `cmp` says every file of `s` equals itself. */
  predicate ReflexiveOn(cmp: Comparator, s: seq<FileHandle>) {
    forall x :: x in s ==> cmp(x, x)
  }

  /** `cmp` is an equivalence relation on the files of `s`. */
  predicate EquivalenceOn(cmp: Comparator, s: seq<FileHandle>) {
    && ReflexiveOn(cmp, s)
    && (forall x, y :: x in s && y in s && cmp(x, y) ==> cmp(y, x))
    && (forall x, y, z :: x in s && y in s && z in s && cmp(x, y) && cmp(y, z) ==> cmp(x, z))
  }

  /** No file is in both `a` and `b`. */
  predicate Disjoint(a: seq<FileHandle>, b: seq<FileHandle>) {
    forall x :: x in a ==> x !in b
  }

  /** No file appears in two different groups. */
  predicate PairwiseDisjoint(lol: seq<seq<FileHandle>>) {
    forall i, j :: 0 <= i < j < |lol| ==> Disjoint(lol[i], lol[j])
  }

  /** A group disjoint from every group of a pairwise disjoint list can be put in front of it. */
  lemma PairwiseDisjointCons(g: seq<FileHandle>, lol: seq<seq<FileHandle>>)
    requires PairwiseDisjoint(lol)
    requires forall h :: h in lol ==> Disjoint(g, h)
    ensures PairwiseDisjoint([g] + lol)
  {
    var all := [g] + lol;
    forall i, j | 0 <= i < j < |all| ensures Disjoint(all[i], all[j]) {
      assert all[j] == lol[j - 1] && lol[j - 1] in lol;
      if 0 < i {
        assert all[i] == lol[i - 1];
      }
    }
  }

  /** Some group of `lol` holds `x`. */
  predicate InSomeGroup(lol: seq<seq<FileHandle>>, x: FileHandle) {
    exists g :: g in lol && x in g
  }

  /** `a` is `b` with some elements left out, the others kept in their order. */
  predicate IsSubsequence(a: seq<FileHandle>, b: seq<FileHandle>)
    decreases |b|
  {
    if a == [] then true
    else if b == [] then false
    else (a[0] == b[0] && IsSubsequence(a[1..], b[1..])) || IsSubsequence(a, b[1..])
  }

  /**
    The files of `s` that compare equal to pivot `p`, in their order in `s`:
    the comprehension `[x for x in file_list if compare(p, x)]`.
   */
  function Matches(cmp: Comparator, p: FileHandle, s: seq<FileHandle>): (r: seq<FileHandle>)
    ensures |r| <= |s|
  {
    if s == [] then []
    else
      assert s == [s[0]] + s[1..];
      (if cmp(p, s[0]) then [s[0]] else []) + Matches(cmp, p, s[1..])
  }

  /**
    The files of `s` that do not compare equal to pivot `p`, in their order in
    `s`: the comprehension `[x for x in file_list if not compare(p, x)]`.
    Together with `Matches` it splits `s` into two parts.
   */
  function Others(cmp: Comparator, p: FileHandle, s: seq<FileHandle>): (r: seq<FileHandle>)
    ensures |Matches(cmp, p, s)| + |r| == |s|
  {
    if s == [] then []
    else
      assert s == [s[0]] + s[1..];
      (if cmp(p, s[0]) then [] else [s[0]]) + Others(cmp, p, s[1..])
  }

  /** The files kept by `Matches` are exactly the files of `s` equal to the pivot. */
  lemma {:induction false} MatchesMembers(cmp: Comparator, p: FileHandle, s: seq<FileHandle>)
    ensures forall x :: x in Matches(cmp, p, s) <==> x in s && cmp(p, x)
  {
    if s != [] {
      MatchesMembers(cmp, p, s[1..]);
      assert s == [s[0]] + s[1..];
    }
  }

  /** The files kept by `Others` are exactly the files of `s` not equal to the pivot. */
  lemma {:induction false} OthersMembers(cmp: Comparator, p: FileHandle, s: seq<FileHandle>)
    ensures forall x :: x in Others(cmp, p, s) <==> x in s && !cmp(p, x)
  {
    if s != [] {
      OthersMembers(cmp, p, s[1..]);
      assert s == [s[0]] + s[1..];
    }
  }

  /** `Matches` and `Others` split `s`: together they hold each file as often as `s` does. */
  lemma {:induction false} MatchesOthersSplit(cmp: Comparator, p: FileHandle, s: seq<FileHandle>)
    ensures multiset(Matches(cmp, p, s)) + multiset(Others(cmp, p, s)) == multiset(s)
  {
    if s != [] {
      MatchesOthersSplit(cmp, p, s[1..]);
      assert s == [s[0]] + s[1..];
    }
  }

  /** `s` back to front. */
  function Reversed(s: seq<FileHandle>): (r: seq<FileHandle>)
    ensures |r| == |s|
  {
    if s == [] then [] else Reversed(s[1..]) + [s[0]]
  }

  /** Position `k` of the reversed list holds position `|s| - 1 - k` of the list. */
  lemma {:induction false} ReversedAt(s: seq<FileHandle>)
    ensures forall k :: 0 <= k < |s| ==> Reversed(s)[k] == s[|s| - 1 - k]
  {
    if s != [] {
      ReversedAt(s[1..]);
    }
  }

  /** Reversing keeps every file and how often it occurs. */
  lemma {:induction false} ReversedSameMembers(s: seq<FileHandle>)
    ensures multiset(Reversed(s)) == multiset(s)
  {
    if s != [] {
      ReversedSameMembers(s[1..]);
      assert s == [s[0]] + s[1..];
    }
  }

  /** When the pivot is the head of the list and equals itself, it leads its own group and leaves the list. */
  lemma PivotLeavesList(cmp: Comparator, s: seq<FileHandle>)
    requires s != [] && cmp(s[0], s[0])
    ensures Matches(cmp, s[0], s) == [s[0]] + Matches(cmp, s[0], s[1..])
    ensures Others(cmp, s[0], s) == Others(cmp, s[0], s[1..])
  {
  }

  /** A pivot at the head of the list that equals itself makes the list shorter. */
  lemma PivotShrinksList(cmp: Comparator, s: seq<FileHandle>)
    requires s != [] && cmp(s[0], s[0])
    ensures |Others(cmp, s[0], s)| < |s|
  {
    MatchesMembers(cmp, s[0], s);
    assert s[0] in Matches(cmp, s[0], s);
  }

  /** The files left after filtering still equal themselves. */
  lemma ReflexiveOnOthers(cmp: Comparator, p: FileHandle, s: seq<FileHandle>)
    requires ReflexiveOn(cmp, s)
    ensures ReflexiveOn(cmp, Others(cmp, p, s))
  {
    OthersMembers(cmp, p, s);
  }

  /** `compare` stays an equivalence relation on the files left after filtering. */
  lemma EquivalenceOnOthers(cmp: Comparator, p: FileHandle, s: seq<FileHandle>)
    requires EquivalenceOn(cmp, s)
    ensures EquivalenceOn(cmp, Others(cmp, p, s))
  {
    OthersMembers(cmp, p, s);
  }

  /** `Matches` keeps the files it selects in their order in `s`. */
  lemma {:induction false} MatchesIsSubsequence(cmp: Comparator, p: FileHandle, s: seq<FileHandle>)
    ensures IsSubsequence(Matches(cmp, p, s), s)
  {
    if s != [] {
      MatchesIsSubsequence(cmp, p, s[1..]);
      var m := Matches(cmp, p, s[1..]);
      if cmp(p, s[0]) {
        assert ([s[0]] + m)[1..] == m;
      } else {
        assert [] + m == m;
      }
    }
  }

  /** `Others` keeps the files it selects in their order in `s`. */
  lemma {:induction false} OthersIsSubsequence(cmp: Comparator, p: FileHandle, s: seq<FileHandle>)
    ensures IsSubsequence(Others(cmp, p, s), s)
  {
    if s != [] {
      OthersIsSubsequence(cmp, p, s[1..]);
      var o := Others(cmp, p, s[1..]);
      if cmp(p, s[0]) {
        assert [] + o == o;
      } else {
        assert ([s[0]] + o)[1..] == o;
      }
    }
  }

  /** A subsequence of a subsequence of `c` is a subsequence of `c`. */
  lemma {:induction false} SubsequenceTransitive(a: seq<FileHandle>, b: seq<FileHandle>, c: seq<FileHandle>)
    requires IsSubsequence(a, b) && IsSubsequence(b, c)
    ensures IsSubsequence(a, c)
    decreases |c|
  {
    if a == [] {
    } else if c == [] {
    } else if IsSubsequence(b, c[1..]) {
      SubsequenceTransitive(a, b, c[1..]);
    } else if a[0] == b[0] && IsSubsequence(a[1..], b[1..]) {
      SubsequenceTransitive(a[1..], b[1..], c[1..]);
    } else {
      SubsequenceTransitive(a, b[1..], c[1..]);
    }
  }

  /** Filtering out the files equal to `p` first does not change which files equal `q`, when none equal both. */
  lemma {:induction false} MatchesSkipsOthers(cmp: Comparator, p: FileHandle, q: FileHandle, s: seq<FileHandle>)
    requires forall z :: z in s && cmp(p, z) ==> !cmp(q, z)
    ensures Matches(cmp, q, Others(cmp, p, s)) == Matches(cmp, q, s)
  {
    if s != [] {
      MatchesSkipsOthers(cmp, p, q, s[1..]);
      var o := Others(cmp, p, s[1..]);
      var head := if cmp(q, s[0]) then [s[0]] else [];
      assert Matches(cmp, q, s) == head + Matches(cmp, q, s[1..]);
      if !cmp(p, s[0]) {
        var o' := [s[0]] + o;
        assert o'[0] == s[0] && o'[1..] == o;
        assert Matches(cmp, q, o') == head + Matches(cmp, q, o);
      } else {
        assert Others(cmp, p, s) == o;
      }
    }
  }

  /** Two pivots that agree on every file of `s` select the same files. */
  lemma {:induction false} MatchesAgree(cmp: Comparator, p: FileHandle, q: FileHandle, s: seq<FileHandle>)
    requires forall z :: z in s ==> (cmp(p, z) <==> cmp(q, z))
    ensures Matches(cmp, p, s) == Matches(cmp, q, s)
  {
    if s != [] {
      MatchesAgree(cmp, p, q, s[1..]);
    }
  }

  /** Filtering a second time with the same pivot changes nothing. */
  lemma {:induction false} OthersIdempotent(cmp: Comparator, p: FileHandle, s: seq<FileHandle>)
    ensures Others(cmp, p, Others(cmp, p, s)) == Others(cmp, p, s)
  {
    if s != [] {
      OthersIdempotent(cmp, p, s[1..]);
      var o := Others(cmp, p, s[1..]);
      if !cmp(p, s[0]) {
        assert ([s[0]] + o)[1..] == o;
      } else {
        assert [] + o == o;
      }
    }
  }
}

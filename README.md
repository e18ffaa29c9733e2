# Duplicate file finder: grouping and report selections

This project models the core of `main.py`, a small program that finds files
with identical content under a directory. The model covers three parts:

- `search` (the basic strategy). It takes the first remaining file as a pivot, collects every remaining
  file whose content equals the pivot's, keeps that collection when it has
  more than one file, and goes on with the files that did not match.
- `faster_search`. It pops the first file of the caller's list as the pivot. It then scans the
  rest of the list backwards and appends every match. The matched files are
  left in the list.
- The two `max(..., key=...)` selections of `report`. "Max Duplicates" is
  the group with the most files. "Max" is the group meant to use the most
  disk space.

The content comparison `compare` comes from `p1utils`, which is not part of
this model. It is a parameter `cmp` of every operation. Nothing is assumed
about it, except where a `requires` names reflexivity or an equivalence
relation.

Layout:

- `comparisons.dfy`, module `Comparisons`:
  - file handles, the comparator type and the mutable `FileList`;
  - the two list comprehensions of `search`, as `Matches` and `Others`;
  - their lemmas.
- `search.dfy`, module `NaiveSearch`:
  - `Search`, a method with the while loop of `search`;
  - `SearchGroups`, the function it is proved equal to;
  - the properties of `SearchGroups`.
- `faster_search.dfy`, module `FasterSearch`:
  - `FasterSearch`, a method that pops from the `FileList` it is given, with its nested loops;
  - `FasterSearchGroups`, the function it is proved equal to;
  - the overlap counterexample;
  - a corrected version that pops each match, proved to agree with `search`.
- `report.dfy`, module `Report`:
  - first-maximum selection as Python's `max` does it;
  - the two keys as written;
  - a corrected disk-space key using a size oracle;
  - the errors `report` raises.

## Model

| member | source | states |
|---|---|---|
| Comparisons.MatchesMembers | main.py:31 | the comprehension for `dups` keeps exactly the files of the list that compare equal to the pivot |
| Comparisons.OthersMembers | main.py:34 | the comprehension for the new `file_list` keeps exactly the files that do not compare equal to the pivot |
| Comparisons.MatchesOthersSplit | main.py:31-34 | the two comprehensions split the working list: together they hold every file exactly as often as the list does |
| Comparisons.MatchesIsSubsequence | main.py:31 | `dups` keeps the files in their order in the working list |
| Comparisons.OthersIsSubsequence | main.py:34 | the new working list keeps the files in their order |
| Comparisons.PivotShrinksList | main.py:30-34 | when the pivot compares equal to itself, the working list gets strictly shorter in each iteration |
| Comparisons.OthersIdempotent | main.py:34 | filtering the working list again with the same pivot changes nothing |
| NaiveSearch.Search | main.py:17-35 | the loop returns `SearchGroups` of the caller's list, returns `[]` for an empty list, keeps only groups with at least two files, and does not modify the caller's list (no `modifies` clause) |
| NaiveSearch.SearchGroupsStep | main.py:30-34 | one loop iteration appends `dups` when it has more than one file and continues with the filtered list, which stays reflexive |
| NaiveSearch.SearchGroupsMembers | main.py:31-33 | every group has at least two files; every file of a group is in the input and compares equal to the group's first file |
| NaiveSearch.SearchStallsWithoutReflexivity | main.py:30-34 | if the first file does not compare equal to itself, it stays first in the new list, and the next iteration leaves the list unchanged: the loop never ends |
| NaiveSearch.SearchGroupsKeepInputOrder | main.py:31 | every group lists its files in their input order |
| NaiveSearch.SearchGroupsDisjoint | main.py:31-34 | no file is in two groups |
| NaiveSearch.SearchGroupsAreClasses | main.py:31-34 | for an equivalence, every group is exactly the input's files equal to its first file, in input order |
| NaiveSearch.SearchFindsDuplicated | main.py:30-34 | for an equivalence, a file that at least two input entries equal ends up in a group |
| NaiveSearch.SearchGroupsComplete | main.py:29-35 | for an equivalence, an input file is in some group if and only if at least two input entries equal it |
| FasterSearch.PivotScan | main.py:48-51 | `dups` after the backwards scan starts with the popped pivot and has one more file than the rest has matches |
| FasterSearch.PivotScanMembers | main.py:49-51 | after the pivot, `dups` holds exactly the files of the rest of the list that compare equal to it |
| FasterSearch.PivotScanOrder | main.py:49-51 | after the pivot, the matches come in descending index order |
| FasterSearch.ScanStep | main.py:49-51 | one step of the scan at index `i` appends `file_list[i]` exactly when it matches the pivot |
| FasterSearch.FasterSearchGroups | main.py:47-53 | there is at most one group per input file |
| FasterSearch.FasterSearchGroupsStep | main.py:47-53 | one outer iteration appends the pivot's scan when it has more than one file, and continues with the list minus its first file |
| FasterSearch.FasterSearch | main.py:38-55 | it empties the caller's list, runs exactly one outer iteration per input file, and returns `FasterSearchGroups` of the input |
| FasterSearch.FasterSearchGroupsSizes | main.py:48-53 | every group has at least two files and starts with an input file |
| FasterSearch.FasterSearchGroupsMembers | main.py:49-51 | after its first file, a group holds only input files equal to the first file |
| FasterSearch.FasterSearchGroupsFromPivots | main.py:47-53 | every group is the scan of some input position over the files after it |
| FasterSearch.FasterSearchOverlaps | main.py:47-53 | for three copies `a, b, c` the result is `[[a, c, b], [b, c]]`, whose groups are not disjoint |
| FasterSearch.PopStep | main.py:49-51 | corrected scan: popping a matched file at index `i` leaves the list as the rest with the matches from `i` on removed |
| FasterSearch.FixedFasterSearchGroups | main.py:47-53 | corrected version: there is at most one group per input file |
| FasterSearch.FixedFasterSearchGroupsStep | main.py:47-53 | corrected version: one outer iteration continues with the files that did not match the pivot |
| FasterSearch.FixedFasterSearch | main.py:38-55 | the corrected method empties the caller's list and returns `FixedFasterSearchGroups` of the input |
| FasterSearch.PivotScanSameClass | main.py:48-51 | a self-equal pivot's scan has the same first file and the same files as `search`'s `dups` for that pivot |
| FasterSearch.PivotOfBoth | main.py:31-34 | `search` and the corrected version both keep their pivot's group and continue with the same filtered list |
| FasterSearch.FixedFasterSearchAgreesWithSearch | main.py:17-55 | for a reflexive `compare`, the corrected version returns as many groups as `search`. Position by position, each group has the same first file and the same files, in another order |
| FasterSearch.FixedFasterSearchDisjoint | main.py:47-53 | corrected version: no file is in two groups |
| FasterSearch.FixedFasterSearchOnCopies | main.py:47-53 | corrected version: three copies give the single group `[a, c, b]` |
| Report.FirstMaxIndex | main.py:69-70 | `max`'s left-to-right scan with strict replacement returns an index of a largest key, with no earlier index having as large a key |
| Report.FirstMaxUnique | main.py:69-70 | at most one index satisfies that description |
| Report.MostDuplicates | main.py:70 | "Max Duplicates" fails with the empty-sequence error exactly on an empty list; otherwise it is the first group of maximal length |
| Report.MostDuplicatesIsLargest | main.py:70 | the "Max Duplicates" group is in the list and no group has more files |
| Report.MaxSpace | main.py:69 | "Max" as written: the empty-sequence error on an empty list, the empty-group error when some group is empty, otherwise the first group maximising file count times first-path length |
| Report.MostDiskSpace | main.py:69 | corrected "Max": the same errors; otherwise the first group maximising file count times the size of its first file |
| Report.MostDiskSpaceIsLargest | main.py:69 | the corrected "Max" group is in the list and no group occupies more bytes |
| Report.Report | main.py:58-71 | report succeeds exactly on a non-empty list with no empty group. "Max" is evaluated first, so its error is the one raised. On success it returns both selections |
| Report.FixedReport | main.py:58-71 | the same, with the corrected "Max" selection |
| Report.ReportOnSearch | main.py:69-75 | on `search`'s result, report succeeds if and only if a group was found. Otherwise it raises the empty-sequence error, because the "No duplicates found" branch is commented out |
| Report.ReportOnFasterSearch | main.py:69-75 | on `faster_search`'s result, report succeeds if and only if a group was found |
| Report.MaxSpaceIgnoresFileSize | main.py:69 | with three 10-byte files and two 100-byte files, all with paths of equal length, "Max" as written picks the three-file group, while the size-based selection picks the two-file group |

## Left out

- `all_files` and `compare` (main.py:14). `p1utils` is not part of this model.
  - The file list is an input.
  - `compare` is a pure, total function parameter. Its failures on unreadable files are not modelled, and neither is how often it is called.
- `getsize` and `join` (main.py:10). `getsize` is imported but never called.
- Printing and string formatting in `report` (main.py:66-70). The selections are returned as values.
  - Python's `ValueError` from `max` on an empty sequence is `EmptySequence`.
  - The `IndexError` from `x[0]` on an empty group is `EmptyGroup`.
- The timing code and the module-level driver (main.py:78-96).
- The size pre-filter described by the comment at main.py:45 is not in the code. `FasterSearch` compares files without looking at sizes.
- On an empty list of groups, `report` raises from `max`, because the `else` branch that prints "No duplicates found" is commented out (main.py:73-75). The model returns `EmptySequence` for this case.
- NaiveSearch.Search: requires `compare(x, x)` for every file of the list. The loop only fails to end when a file `p` with `compare(p, p)` false becomes the pivot. A file that an earlier pivot already removed from the list does no harm. The model requires the property for every file anyway, because a Dafny method must terminate and the real byte comparison is reflexive. `SearchStallsWithoutReflexivity` proves the stall.
- NaiveSearch.SearchGroups: has the same requirement, for the same reason.
- FasterSearch.FasterSearch: `rounds` is a ghost counter of outer iterations. It is not part of the returned value.
- FasterSearch.FixedFasterSearchAgreesWithSearch: agreement is up to the order of the files after the first one in each group. The backwards scan reverses them.

## Findings

| source | as written | input that shows it | evidently intended | confidence | as-written member | corrected member |
|---|---|---|---|---|---|---|
| main.py:49-51 | matched files are appended to `dups` but stay in `file_list`, so each is popped later as a pivot and grouped again | three files `a, b, c` with equal content: `[[a, c, b], [b, c]]` | each file in exactly one group, the same groups as `search` (`dups.append(file_list.pop(i))`, which the backwards scan is suited for) | high; not executed | FasterSearch.FasterSearchOverlaps | FasterSearch.FixedFasterSearchAgreesWithSearch |
| main.py:69 | the "Max" key is `len(x) * len(x[0])`: the length of the first path string, not a size in bytes | group A of three 10-byte files and group B of two 100-byte files, paths `f1`..`f5`: A is chosen (6 > 4), B uses more space (200 > 30) | key `len(x) * getsize(x[0])` | high; not executed | Report.MaxSpaceIgnoresFileSize | Report.MostDiskSpaceIsLargest |

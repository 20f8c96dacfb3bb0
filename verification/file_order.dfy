/** Putting the primary file first in `emit_message_default`.

    The annotated files come out of `preprocess_annotations` in the order
    their names are first seen. The emitter looks the primary file's name
    up with the standard library's `binary_search_by` and swaps the match
    to the front. The slice implementation is not part of this model; the
    search below is the halving loop that implementation used at the time:
    split the window in two, compare the first element of the upper half,
    and keep the half that can still hold the target. Names are compared
    character by character, which agrees with the byte order of `String`
    on the ASCII names the emitter sees. */
module FileOrder {
  import opened Common
  import opened Annotations
  import Cmp

  /** What a search reports: the index of a match, or where the target
      would go. */
  datatype Search = Found(index: nat) | NotFound(insertAt: nat)

  /** `binary_search_by` over the window of `len` names starting at
      `base`, comparing each name against `target`. */
  function SearchWindow(names: seq<string>, target: string, base: nat, len: nat): (r: Search)
    requires base + len <= |names|
    ensures r.Found? ==> base <= r.index < base + len && names[r.index] == target
    ensures r.NotFound? ==> base <= r.insertAt <= base + len
    decreases len
  {
    if len == 0 then NotFound(base)
    else
      var mid := base + len / 2;
      match StrCompare(names[mid], target)
      case Less => SearchWindow(names, target, mid + 1, len - len / 2 - 1)
      case Greater => SearchWindow(names, target, base, len / 2)
      case Equal =>
        StrCompareLaws(names[mid], target);
        Found(mid)
  }

  /** The whole list. */
  function SearchByName(names: seq<string>, target: string): (r: Search)
    ensures r.Found? ==> r.index < |names| && names[r.index] == target
  {
    SearchWindow(names, target, 0, |names|)
  }

  /** Names in ascending order, the order a binary search needs. */
  predicate SortedNames(names: seq<string>)
  {
    forall i, j :: 0 <= i < j < |names| ==> StrCompare(names[i], names[j]) != Cmp.Greater
  }

  /** On sorted names the search finds every name the window holds. */
  lemma {:induction false} SearchWindowComplete(names: seq<string>, target: string, base: nat, len: nat, k: nat)
    requires base + len <= |names| && SortedNames(names)
    requires base <= k < base + len && names[k] == target
    ensures SearchWindow(names, target, base, len).Found?
    decreases len
  {
    var mid := base + len / 2;
    StrCompareLaws(names[mid], names[k]);
    match StrCompare(names[mid], target)
    case Less =>
      SearchWindowComplete(names, target, mid + 1, len - len / 2 - 1, k);
    case Greater =>
      SearchWindowComplete(names, target, base, len / 2, k);
    case Equal =>
  }

  lemma SearchByNameComplete(names: seq<string>, target: string, k: nat)
    requires SortedNames(names) && k < |names| && names[k] == target
    ensures SearchByName(names, target).Found?
  {
    SearchWindowComplete(names, target, 0, |names|, k);
  }

  /** Exchanges two entries. */
  function Swap<T>(s: seq<T>, i: nat, j: nat): (r: seq<T>)
    requires i < |s| && j < |s|
    ensures |r| == |s| && r[i] == s[j] && r[j] == s[i]
    ensures forall k :: 0 <= k < |s| && k != i && k != j ==> r[k] == s[k]
  {
    s[i := s[j]][j := s[i]]
  }

  /** Swapping rearranges: the entries are the same, with the same
      multiplicities. */
  lemma SwapPermutes<T>(s: seq<T>, i: nat, j: nat)
    requires i < |s| && j < |s|
    ensures multiset(Swap(s, i, j)) == multiset(s)
  {
    var s1 := s[i := s[j]];
    assert multiset(s1) == multiset(s) - multiset{s[i]} + multiset{s[j]};
    assert multiset(s1[j := s[i]]) == multiset(s1) - multiset{s1[j]} + multiset{s[i]};
  }

  predicate HasName(files: seq<FileWithAnnotatedLines>, name: string)
  {
    exists i :: 0 <= i < |files| && files[i].file.name == name
  }

  /** The reordering as written: the file the binary search finds, if it
      finds one, is swapped with the first. */
  function PrimaryFirstAsWritten(files: seq<FileWithAnnotatedLines>, name: string): (r: seq<FileWithAnnotatedLines>)
    ensures |r| == |files| && multiset(r) == multiset(files)
    ensures |r| > 0 && r[0].file.name == name ==> HasName(files, name)
  {
    match SearchByName(Names(files), name)
    case Found(pos) =>
      SwapPermutes(files, 0, pos);
      Swap(files, 0, pos)
    case NotFound(_) => files
  }

  /** When the files are in name order, as written the named file does
      come first. */
  lemma PrimaryFirstAsWrittenSorted(files: seq<FileWithAnnotatedLines>, name: string)
    requires SortedNames(Names(files)) && HasName(files, name)
    ensures PrimaryFirstAsWritten(files, name)[0].file.name == name
  {
    var k :| 0 <= k < |files| && files[k].file.name == name;
    SearchByNameComplete(Names(files), name, k);
  }

  function Src(name: string): FileWithAnnotatedLines
  {
    FileWithAnnotatedLines(FileMap(name, []), [])
  }

  /** Files seen in the order `c.rs`, `z.rs`, `b.rs`, the primary span in
      `b.rs`: the search looks at `z.rs`, then at `c.rs`, and gives up, so
      nothing moves and the primary file stays last. */
  lemma PrimaryFirstAsWrittenSearchMisses(files: seq<FileWithAnnotatedLines>)
    requires Names(files) == ["c.rs", "z.rs", "b.rs"]
    ensures PrimaryFirstAsWritten(files, "b.rs") == files
  {
    var names := Names(files);
    assert StrCompare("z.rs", "b.rs") == Cmp.Greater;
    assert StrCompare("c.rs", "b.rs") == Cmp.Greater;
    assert SearchWindow(names, "b.rs", 0, 0) == NotFound(0);
    assert SearchWindow(names, "b.rs", 0, 1) == NotFound(0);
    assert SearchByName(names, "b.rs") == NotFound(0);
  }

  lemma PrimaryFirstAsWrittenMisses()
    ensures var files := [Src("c.rs"), Src("z.rs"), Src("b.rs")];
            HasName(files, "b.rs") && PrimaryFirstAsWritten(files, "b.rs") == files
            && PrimaryFirstAsWritten(files, "b.rs")[0].file.name != "b.rs"
  {
    var files := [Src("c.rs"), Src("z.rs"), Src("b.rs")];
    assert Names(files) == ["c.rs", "z.rs", "b.rs"];
    assert files[2].file.name == "b.rs";
    PrimaryFirstAsWrittenSearchMisses(files);
  }

  /** The first file with the name, if any. */
  function FindName(files: seq<FileWithAnnotatedLines>, name: string): (r: Option<nat>)
    ensures r.Some? ==> r.value < |files| && files[r.value].file.name == name
                        && forall j :: 0 <= j < r.value ==> files[j].file.name != name
    ensures r.None? <==> !HasName(files, name)
    decreases |files|
  {
    if |files| == 0 then None
    else if files[0].file.name == name then Some(0)
    else
      match FindName(files[1..], name)
      case None =>
        assert forall j :: 1 <= j < |files| ==> files[j] == files[1..][j - 1];
        None
      case Some(i) =>
        assert files[1..][i] == files[i + 1];
        Some(i + 1)
  }

  /** The reordering as evidently intended: the file with the primary
      file's name, wherever it is, is swapped with the first. */
  function PrimaryFirst(files: seq<FileWithAnnotatedLines>, name: string): (r: seq<FileWithAnnotatedLines>)
    ensures |r| == |files| && multiset(r) == multiset(files)
    ensures |r| > 0 && r[0].file.name == name <==> HasName(files, name)
    ensures !HasName(files, name) ==> r == files
  {
    match FindName(files, name)
    case Some(pos) =>
      SwapPermutes(files, 0, pos);
      Swap(files, 0, pos)
    case None => files
  }

  /** The reordering moves one file to the front and the first file to
      where it was; every other file keeps its place. */
  lemma PrimaryFirstPlaces(files: seq<FileWithAnnotatedLines>, name: string, i: nat)
    requires i < |files|
    ensures exists j :: 0 <= j < |files| && PrimaryFirst(files, name)[i] == files[j]
  {
    var r := PrimaryFirst(files, name);
    match FindName(files, name)
    case Some(pos) =>
      if i == 0 {
        assert r[i] == files[pos];
      } else if i == pos {
        assert r[i] == files[0];
      } else {
        assert r[i] == files[i];
      }
    case None =>
      assert r[i] == files[i];
  }

  /** On files in name order with distinct names the binary search does
      what the linear one does, so there the code as written behaves as
      intended. */
  lemma PrimaryFirstAgrees(files: seq<FileWithAnnotatedLines>, name: string)
    requires SortedNames(Names(files)) && WellFormed(files)
    ensures PrimaryFirstAsWritten(files, name) == PrimaryFirst(files, name)
  {
    match SearchByName(Names(files), name)
    case Found(pos) =>
      var f := FindName(files, name);
      assert f.Some?;
      assert f.value == pos;
    case NotFound(_) =>
      if HasName(files, name) {
        var k :| 0 <= k < |files| && files[k].file.name == name;
        SearchByNameComplete(Names(files), name, k);
      }
  }
}

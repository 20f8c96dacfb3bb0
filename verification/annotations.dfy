/** Grouping a diagnostic's span labels into annotated source lines
    (`preprocess_annotations` of the emitter).

    The code map is an input: `lookupCharPos` resolves a byte position to
    its file, 1-based line and 0-based column. Files are told apart by name
    only, as the emitter does. */
module Annotations {
  import opened Common
  import Cmp

  // ---------------------------------------------------------------------------
  // Spans and the code map

  /** A span: byte positions and the expansion it came from. */
  datatype Span = Span(lo: nat, hi: nat, expnId: nat)

  const NoExpansion: nat := 0xffff_ffff
  const CommandLineExpn: nat := 0xffff_fffe

  /** The two sentinel spans that carry no source position. */
  const DummySp: Span := Span(0, 0, NoExpansion)
  const CommandLineSp: Span := Span(0, 0, CommandLineExpn)

  predicate IsSentinel(sp: Span)
  {
    sp == DummySp || sp == CommandLineSp
  }

  /** A source file: its name and its lines. */
  datatype FileMap = FileMap(name: string, src: seq<string>)

  /** `get_line(i)`: the 0-based line `i`, if the file has one. */
  function GetLine(f: FileMap, i: nat): (r: Option<string>)
    ensures r.Some? <==> i < |f.src|
  {
    if i < |f.src| then Some(f.src[i]) else None
  }

  type LineNo = n: nat | n >= 1 witness 1

  datatype Loc = Loc(file: FileMap, line: LineNo, col: nat)

  datatype CodeMap = CodeMap(lookupCharPos: nat -> Loc)

  datatype SpanLabel = SpanLabel(span: Span, isPrimary: bool, text: Option<string>)

  /** A multi-span: its primary spans and the labelled spans it reports
      (each primary span is among the labels). */
  datatype MultiSpan = MultiSpan(primarySpans: seq<Span>, spanLabels: seq<SpanLabel>)

  function PrimarySpan(msp: MultiSpan): Option<Span>
  {
    if |msp.primarySpans| == 0 then None else Some(msp.primarySpans[0])
  }

  // ---------------------------------------------------------------------------
  // Annotations, lines, files

  datatype Annotation = Annotation(startCol: nat, endCol: nat, isPrimary: bool,
                                   isMinimized: bool, text: Option<string>)

  datatype Line = Line(lineIndex: nat, annotations: seq<Annotation>)

  datatype FileWithAnnotatedLines = FileWithAnnotatedLines(file: FileMap, lines: seq<Line>)

  /** The annotation for a span label whose ends resolve to `lo` and `hi`:
      a span over several lines shrinks to the first character and is
      marked minimized; an empty span widens to one character. */
  function ToAnnotation(lo: Loc, hi: Loc, sl: SpanLabel): (a: Annotation)
    ensures a.startCol == lo.col
    ensures a.isPrimary == sl.isPrimary && a.text == sl.text
    ensures a.isMinimized <==> lo.line != hi.line
    ensures a.isMinimized ==> a.endCol == a.startCol + 1
    ensures !a.isMinimized && lo.col == hi.col ==> a.endCol == a.startCol + 1
    ensures !a.isMinimized && lo.col != hi.col ==> a.endCol == hi.col
  {
    var multiLine := lo.line != hi.line;
    var hiCol := if multiLine then lo.col + 1 else hi.col;
    var endCol := if lo.col == hiCol then lo.col + 1 else hiCol;
    Annotation(lo.col, endCol, sl.isPrimary, multiLine, sl.text)
  }

  /** Every annotation of a span that does not run backwards covers at
      least one column. */
  lemma ToAnnotationNonEmpty(lo: Loc, hi: Loc, sl: SpanLabel)
    requires lo.line < hi.line || (lo.line == hi.line && lo.col <= hi.col)
    ensures ToAnnotation(lo, hi, sl).startCol < ToAnnotation(lo, hi, sl).endCol
  {
  }

  // ---------------------------------------------------------------------------
  // The derived orders

  /** Lexicographic order of strings, by character. */
  function StrCompare(a: string, b: string): (r: Cmp.Ordering)
    decreases |a|
  {
    if |a| == 0 && |b| == 0 then Cmp.Equal
    else if |a| == 0 then Cmp.Less
    else if |b| == 0 then Cmp.Greater
    else if a[0] != b[0] then Cmp.Compare(a[0] as int, b[0] as int)
    else StrCompare(a[1..], b[1..])
  }

  lemma {:induction false} StrCompareLaws(a: string, b: string)
    ensures StrCompare(a, b) == Cmp.Equal <==> a == b
    ensures StrCompare(b, a) == Cmp.Reverse(StrCompare(a, b))
    decreases |a|
  {
    if |a| > 0 && |b| > 0 && a[0] == b[0] {
      StrCompareLaws(a[1..], b[1..]);
      if a[1..] == b[1..] {
        assert a == [a[0]] + a[1..] && b == [b[0]] + b[1..];
      }
    }
  }

  function BoolCompare(a: bool, b: bool): Cmp.Ordering
  {
    Cmp.Compare(if a then 1 else 0, if b then 1 else 0)
  }

  /** `None` sorts before every `Some`. */
  function OptStrCompare(a: Option<string>, b: Option<string>): Cmp.Ordering
  {
    match (a, b)
    case (None, None) => Cmp.Equal
    case (None, Some(_)) => Cmp.Less
    case (Some(_), None) => Cmp.Greater
    case (Some(x), Some(y)) => StrCompare(x, y)
  }

  function Then(first: Cmp.Ordering, next: Cmp.Ordering): Cmp.Ordering
  {
    if first == Cmp.Equal then next else first
  }

  /** The derived order of annotations: start column, end column, primary,
      minimized, then label. */
  function AnnCompare(a: Annotation, b: Annotation): Cmp.Ordering
  {
    Then(Cmp.Compare(a.startCol, b.startCol),
    Then(Cmp.Compare(a.endCol, b.endCol),
    Then(BoolCompare(a.isPrimary, b.isPrimary),
    Then(BoolCompare(a.isMinimized, b.isMinimized),
         OptStrCompare(a.text, b.text)))))
  }

  /** The annotation order is antisymmetric and only identical annotations
      compare equal. */
  lemma AnnCompareLaws(a: Annotation, b: Annotation)
    ensures AnnCompare(a, b) == Cmp.Equal <==> a == b
    ensures AnnCompare(b, a) == Cmp.Reverse(AnnCompare(a, b))
  {
    if a.text.Some? && b.text.Some? {
      StrCompareLaws(a.text.value, b.text.value);
    }
  }

  predicate AnnLe(a: Annotation, b: Annotation)
  {
    AnnCompare(a, b) != Cmp.Greater
  }

  lemma {:induction false} StrCompareTransitive(a: string, b: string, c: string)
    requires StrCompare(a, b) != Cmp.Greater && StrCompare(b, c) != Cmp.Greater
    ensures StrCompare(a, c) != Cmp.Greater
    ensures StrCompare(a, b) == Cmp.Less || StrCompare(b, c) == Cmp.Less ==> StrCompare(a, c) == Cmp.Less
    decreases |a|
  {
    if |a| > 0 && |b| > 0 && |c| > 0 && a[0] == b[0] && b[0] == c[0] {
      StrCompareTransitive(a[1..], b[1..], c[1..]);
    }
  }

  lemma OptStrCompareTransitive(a: Option<string>, b: Option<string>, c: Option<string>)
    requires OptStrCompare(a, b) != Cmp.Greater && OptStrCompare(b, c) != Cmp.Greater
    ensures OptStrCompare(a, c) != Cmp.Greater
  {
    if a.Some? && b.Some? && c.Some? {
      StrCompareTransitive(a.value, b.value, c.value);
    }
  }

  /** The annotation order is transitive. */
  lemma AnnLeTransitive(a: Annotation, b: Annotation, c: Annotation)
    requires AnnLe(a, b) && AnnLe(b, c)
    ensures AnnLe(a, c)
  {
    if a.startCol == b.startCol == c.startCol && a.endCol == b.endCol == c.endCol
       && a.isPrimary == b.isPrimary == c.isPrimary && a.isMinimized == b.isMinimized == c.isMinimized {
      OptStrCompareTransitive(a.text, b.text, c.text);
    }
  }

  /** Annotations ordered both ways are the same annotation. */
  lemma AnnLeAntisymmetric(a: Annotation, b: Annotation)
    requires AnnLe(a, b) && AnnLe(b, a)
    ensures a == b
  {
    AnnCompareLaws(a, b);
  }

  predicate SortedAnns(s: seq<Annotation>)
  {
    forall i :: 0 < i < |s| ==> AnnLe(s[i - 1], s[i])
  }

  function InsertAnn(x: Annotation, s: seq<Annotation>): (r: seq<Annotation>)
    ensures multiset(r) == multiset(s) + multiset{x}
    ensures |r| == |s| + 1
    ensures SortedAnns(s) ==> SortedAnns(r)
    ensures |r| > 0 && (r[0] == x || (|s| > 0 && r[0] == s[0]))
  {
    if |s| == 0 then [x]
    else if AnnLe(x, s[0]) then [x] + s
    else
      AnnCompareLaws(x, s[0]);
      assert s == [s[0]] + s[1..];
      [s[0]] + InsertAnn(x, s[1..])
  }

  /** `annotations.sort()`: a sorted permutation (insertion sort; the
      sorted arrangement is unique, `SortedAnnsUnique`, so any sort
      agrees). */
  function SortAnnotations(s: seq<Annotation>): (r: seq<Annotation>)
    ensures multiset(r) == multiset(s) && |r| == |s|
    ensures SortedAnns(r)
  {
    if |s| == 0 then []
    else
      assert s == [s[0]] + s[1..];
      InsertAnn(s[0], SortAnnotations(s[1..]))
  }

  /** The first annotation of a sorted list is ordered before every other. */
  lemma {:induction false} SortedAnnsHeadLe(s: seq<Annotation>, i: nat)
    requires SortedAnns(s) && i < |s|
    ensures AnnLe(s[0], s[i])
    decreases i
  {
    if i == 0 {
      AnnCompareLaws(s[0], s[0]);
    } else {
      SortedAnnsHeadLe(s, i - 1);
      AnnLeTransitive(s[0], s[i - 1], s[i]);
    }
  }

  /** A sorted arrangement of annotations is unique: two sorted lists with
      the same elements are equal. */
  lemma {:induction false} SortedAnnsUnique(a: seq<Annotation>, b: seq<Annotation>)
    requires SortedAnns(a) && SortedAnns(b) && multiset(a) == multiset(b)
    ensures a == b
    decreases |a|
  {
    assert |a| == |multiset(a)| == |b|;
    if |a| > 0 {
      assert a[0] in multiset(b);
      var j :| 0 <= j < |b| && b[j] == a[0];
      assert b[0] in multiset(a);
      var i :| 0 <= i < |a| && a[i] == b[0];
      SortedAnnsHeadLe(a, i);
      SortedAnnsHeadLe(b, j);
      AnnLeAntisymmetric(a[0], b[0]);
      SameHeadTails(a, b);
      SortedAnnsUnique(a[1..], b[1..]);
      assert a == [a[0]] + a[1..] && b == [b[0]] + b[1..];
    }
  }

  lemma SameHeadTails(a: seq<Annotation>, b: seq<Annotation>)
    requires |a| > 0 && |b| > 0 && a[0] == b[0] && multiset(a) == multiset(b)
    ensures multiset(a[1..]) == multiset(b[1..])
    ensures SortedAnns(a) ==> SortedAnns(a[1..])
  {
    assert a == [a[0]] + a[1..] && b == [b[0]] + b[1..];
    assert multiset(a) == multiset{a[0]} + multiset(a[1..]);
    assert multiset(b) == multiset{a[0]} + multiset(b[1..]);
    assert multiset(a[1..]) == multiset(a) - multiset{a[0]};
  }

  /** Any sorted arrangement of the annotations is the one
      `SortAnnotations` builds. */
  lemma SortAnnotationsUnique(s: seq<Annotation>, t: seq<Annotation>)
    requires SortedAnns(t) && multiset(t) == multiset(s)
    ensures t == SortAnnotations(s)
  {
    SortedAnnsUnique(t, SortAnnotations(s));
  }

  // ---------------------------------------------------------------------------
  // Line lists

  /** Lines strictly ascending by line index. */
  predicate LinesSorted(lines: seq<Line>)
  {
    forall i, j :: 0 <= i < j < |lines| ==> lines[i].lineIndex < lines[j].lineIndex
  }

  predicate DistinctIndices(lines: seq<Line>)
  {
    forall i, j :: 0 <= i < j < |lines| ==> lines[i].lineIndex != lines[j].lineIndex
  }

  /** Whether some line of the list has index `n`. */
  predicate HasLine(lines: seq<Line>, n: nat)
  {
    |lines| > 0 && (lines[0].lineIndex == n || HasLine(lines[1..], n))
  }

  lemma {:induction false} HasLineWitness(lines: seq<Line>, n: nat) returns (i: nat)
    requires HasLine(lines, n)
    ensures i < |lines| && lines[i].lineIndex == n
    decreases |lines|
  {
    if lines[0].lineIndex == n {
      i := 0;
    } else {
      var k := HasLineWitness(lines[1..], n);
      i := k + 1;
    }
  }

  lemma {:induction false} HasLineAt(lines: seq<Line>, i: nat)
    requires i < |lines|
    ensures HasLine(lines, lines[i].lineIndex)
    decreases i
  {
    if i > 0 {
      HasLineAt(lines[1..], i - 1);
    }
  }

  /** Inserts a line before the first line whose index is not smaller. */
  function InsertLine(x: Line, s: seq<Line>): (r: seq<Line>)
    ensures |r| == |s| + 1
    ensures multiset(r) == multiset(s) + multiset{x}
  {
    if |s| == 0 then [x]
    else if x.lineIndex <= s[0].lineIndex then [x] + s
    else
      assert s == [s[0]] + s[1..];
      [s[0]] + InsertLine(x, s[1..])
  }

  lemma {:induction false} InsertLineSorted(x: Line, s: seq<Line>)
    requires LinesSorted(s) && !HasLine(s, x.lineIndex)
    ensures LinesSorted(InsertLine(x, s))
    decreases |s|
  {
    if |s| > 0 && x.lineIndex > s[0].lineIndex {
      InsertLineSorted(x, s[1..]);
      InsertLineAbove(x, s[1..], s[0].lineIndex);
      var rest := InsertLine(x, s[1..]);
      assert InsertLine(x, s) == [s[0]] + rest;
    }
  }

  /** A lower bound on every index survives the insertion of a line above it. */
  lemma {:induction false} InsertLineAbove(x: Line, s: seq<Line>, bound: int)
    requires bound < x.lineIndex && forall i :: 0 <= i < |s| ==> bound < s[i].lineIndex
    ensures forall i :: 0 <= i < |InsertLine(x, s)| ==> bound < InsertLine(x, s)[i].lineIndex
    decreases |s|
  {
    if |s| > 0 && x.lineIndex > s[0].lineIndex {
      InsertLineAbove(x, s[1..], bound);
      var rest := InsertLine(x, s[1..]);
      assert InsertLine(x, s) == [s[0]] + rest;
    }
  }

  /** `lines.sort()` on lines whose indices are distinct: ascending by line
      index (the derived order looks at the annotations only on a tie of
      indices, which the emitter never produces). */
  function SortLines(s: seq<Line>): (r: seq<Line>)
    ensures |r| == |s| && multiset(r) == multiset(s)
  {
    if |s| == 0 then []
    else
      assert s == [s[0]] + s[1..];
      InsertLine(s[0], SortLines(s[1..]))
  }

  lemma MultisetMember(a: seq<Line>, b: seq<Line>, i: nat)
    requires multiset(a) == multiset(b) && i < |a|
    ensures exists j :: 0 <= j < |b| && b[j] == a[i]
  {
    assert a[i] in multiset(b);
  }

  /** Sorting a list with distinct indices puts it in strictly ascending
      order. */
  lemma {:induction false} SortLinesSorted(s: seq<Line>)
    requires DistinctIndices(s)
    ensures LinesSorted(SortLines(s))
    decreases |s|
  {
    if |s| > 0 {
      SortLinesSorted(s[1..]);
      var rest := SortLines(s[1..]);
      if HasLine(rest, s[0].lineIndex) {
        var i := HasLineWitness(rest, s[0].lineIndex);
        MultisetMember(rest, s[1..], i);
        assert false;
      }
      InsertLineSorted(s[0], rest);
    }
  }

  // ---------------------------------------------------------------------------
  // add_annotation_to_file and preprocess_annotations

  /** The annotation entries of a file list: (file name, line, annotation). */
  datatype Entry = Entry(file: string, line: nat, ann: Annotation)

  function LineEntries(name: string, l: Line): multiset<Entry>
  {
    AnnEntries(name, l.lineIndex, l.annotations)
  }

  function AnnEntries(name: string, line: nat, anns: seq<Annotation>): multiset<Entry>
  {
    if |anns| == 0 then multiset{}
    else AnnEntries(name, line, anns[..|anns| - 1]) + multiset{Entry(name, line, anns[|anns| - 1])}
  }

  function LinesEntries(name: string, lines: seq<Line>): multiset<Entry>
  {
    if |lines| == 0 then multiset{} else LineEntries(name, lines[0]) + LinesEntries(name, lines[1..])
  }

  function Entries(files: seq<FileWithAnnotatedLines>): multiset<Entry>
  {
    if |files| == 0 then multiset{}
    else LinesEntries(files[0].file.name, files[0].lines) + Entries(files[1..])
  }

  function Names(files: seq<FileWithAnnotatedLines>): (r: seq<string>)
    ensures |r| == |files| && forall i :: 0 <= i < |files| ==> r[i] == files[i].file.name
  {
    if |files| == 0 then [] else [files[0].file.name] + Names(files[1..])
  }

  /** The shape `preprocess_annotations` keeps: one entry per file name,
      each file's lines strictly ascending. */
  predicate WellFormed(files: seq<FileWithAnnotatedLines>)
  {
    && (forall i, j :: 0 <= i < j < |files| ==> files[i].file.name != files[j].file.name)
    && (forall i :: 0 <= i < |files| ==> LinesSorted(files[i].lines))
  }

  /** Appends `ann` to the first line with index `lineIndex`. */
  function AppendToLine(lines: seq<Line>, lineIndex: nat, ann: Annotation): (r: seq<Line>)
    requires HasLine(lines, lineIndex)
    ensures |r| == |lines|
    ensures forall i :: 0 <= i < |r| ==> r[i].lineIndex == lines[i].lineIndex
  {
    if lines[0].lineIndex == lineIndex then
      [lines[0].(annotations := lines[0].annotations + [ann])] + lines[1..]
    else
      [lines[0]] + AppendToLine(lines[1..], lineIndex, ann)
  }

  lemma {:induction false} AppendToLineEntries(name: string, lines: seq<Line>, lineIndex: nat, ann: Annotation)
    requires HasLine(lines, lineIndex)
    ensures LinesEntries(name, AppendToLine(lines, lineIndex, ann))
            == LinesEntries(name, lines) + multiset{Entry(name, lineIndex, ann)}
    decreases |lines|
  {
    var r := AppendToLine(lines, lineIndex, ann);
    if lines[0].lineIndex == lineIndex {
      var anns := lines[0].annotations + [ann];
      assert anns[..|anns| - 1] == lines[0].annotations;
      assert r[1..] == lines[1..];
    } else {
      AppendToLineEntries(name, lines[1..], lineIndex, ann);
      assert r[1..] == AppendToLine(lines[1..], lineIndex, ann);
    }
  }

  /** On a line list without repeated indices, the line with the given
      index gains `ann` at the end of its annotations; all others are kept. */
  lemma {:induction false} AppendToLineAppends(lines: seq<Line>, lineIndex: nat, ann: Annotation, i: nat)
    requires HasLine(lines, lineIndex) && DistinctIndices(lines) && i < |lines|
    ensures AppendToLine(lines, lineIndex, ann)[i] ==
            if lines[i].lineIndex == lineIndex then lines[i].(annotations := lines[i].annotations + [ann])
            else lines[i]
    decreases |lines|
  {
    var r := AppendToLine(lines, lineIndex, ann);
    if lines[0].lineIndex != lineIndex {
      if i > 0 {
        assert DistinctIndices(lines[1..]) by {
          forall a, b | 0 <= a < b < |lines[1..]|
            ensures lines[1..][a].lineIndex != lines[1..][b].lineIndex
          {
            assert lines[1..][a] == lines[a + 1] && lines[1..][b] == lines[b + 1];
          }
        }
        AppendToLineAppends(lines[1..], lineIndex, ann, i - 1);
        assert r[i] == AppendToLine(lines[1..], lineIndex, ann)[i - 1];
      }
    }
  }

  lemma {:induction false} LinesEntriesAppend(name: string, a: seq<Line>, b: seq<Line>)
    ensures LinesEntries(name, a + b) == LinesEntries(name, a) + LinesEntries(name, b)
    decreases |a|
  {
    if |a| == 0 {
      assert a + b == b;
    } else {
      assert (a + b)[1..] == a[1..] + b;
      LinesEntriesAppend(name, a[1..], b);
    }
  }

  lemma {:induction false} InsertLineEntries(name: string, x: Line, s: seq<Line>)
    ensures LinesEntries(name, InsertLine(x, s)) == LinesEntries(name, s) + LineEntries(name, x)
    decreases |s|
  {
    if |s| == 0 {
      assert LinesEntries(name, [x]) == LineEntries(name, x) + LinesEntries(name, [x][1..]);
    } else if x.lineIndex <= s[0].lineIndex {
      assert ([x] + s)[1..] == s;
    } else {
      InsertLineEntries(name, x, s[1..]);
      assert InsertLine(x, s)[1..] == InsertLine(x, s[1..]);
    }
  }

  lemma {:induction false} SortLinesEntries(name: string, s: seq<Line>)
    ensures LinesEntries(name, SortLines(s)) == LinesEntries(name, s)
    decreases |s|
  {
    if |s| > 0 {
      SortLinesEntries(name, s[1..]);
      InsertLineEntries(name, s[0], SortLines(s[1..]));
    }
  }

  /** The line list of a file after adding one annotation: appended to the
      line it is on, or a new line with the list re-sorted. */
  function AddToLines(lines: seq<Line>, lineIndex: nat, ann: Annotation): (r: seq<Line>)
  {
    if HasLine(lines, lineIndex) then AppendToLine(lines, lineIndex, ann)
    else SortLines(lines + [Line(lineIndex, [ann])])
  }

  /** A new line pushed onto a list that lacks its index, then sorted. */
  lemma PushLineEffects(name: string, lines: seq<Line>, l: Line)
    requires !HasLine(lines, l.lineIndex) && |l.annotations| == 1
    ensures LinesEntries(name, SortLines(lines + [l]))
            == LinesEntries(name, lines) + multiset{Entry(name, l.lineIndex, l.annotations[0])}
    ensures LinesSorted(lines) ==> LinesSorted(SortLines(lines + [l]))
  {
    var pushed := lines + [l];
    SortLinesEntries(name, pushed);
    LinesEntriesAppend(name, lines, [l]);
    assert l.annotations[..0] == [];
    assert AnnEntries(name, l.lineIndex, l.annotations[..0]) == multiset{};
    assert LineEntries(name, l) == multiset{Entry(name, l.lineIndex, l.annotations[0])};
    assert [l][1..] == [];
    assert LinesEntries(name, [l]) == LineEntries(name, l);
    if LinesSorted(lines) {
      forall i, j | 0 <= i < j < |pushed|
        ensures pushed[i].lineIndex != pushed[j].lineIndex
      {
        if j == |pushed| - 1 {
          HasLineAt(lines, i);
        }
      }
      SortLinesSorted(pushed);
    }
  }

  /** Adding to a line list adds exactly one entry and keeps the list
      strictly ascending; a new line index lengthens the list by one. */
  lemma AddToLinesEffects(name: string, lines: seq<Line>, lineIndex: nat, ann: Annotation)
    ensures LinesEntries(name, AddToLines(lines, lineIndex, ann))
            == LinesEntries(name, lines) + multiset{Entry(name, lineIndex, ann)}
    ensures LinesSorted(lines) ==> LinesSorted(AddToLines(lines, lineIndex, ann))
    ensures |AddToLines(lines, lineIndex, ann)| == if HasLine(lines, lineIndex) then |lines| else |lines| + 1
  {
    if HasLine(lines, lineIndex) {
      AppendToLineEntries(name, lines, lineIndex, ann);
    } else {
      PushLineEffects(name, lines, Line(lineIndex, [ann]));
    }
  }

  /** Adds one annotation: to the matching file and, within it, to the
      matching line, else a new line with the list re-sorted; a file not
      seen before goes at the end. */
  function AddAnnotationToFile(files: seq<FileWithAnnotatedLines>, file: FileMap,
                               lineIndex: nat, ann: Annotation): (r: seq<FileWithAnnotatedLines>)
    ensures |r| == |files| || |r| == |files| + 1
  {
    if |files| == 0 then
      [FileWithAnnotatedLines(file, [Line(lineIndex, [ann])])]
    else if files[0].file.name == file.name then
      [files[0].(lines := AddToLines(files[0].lines, lineIndex, ann))] + files[1..]
    else
      [files[0]] + AddAnnotationToFile(files[1..], file, lineIndex, ann)
  }

  /** `preprocess_annotations`: every span label that is not a sentinel, in
      order, added to the file of its low end at its low end's line. No
      code map means no annotations. */
  function PreprocessAnnotations(cm: Option<CodeMap>, labels: seq<SpanLabel>): (r: seq<FileWithAnnotatedLines>)
    ensures cm.None? ==> r == []
    ensures cm.Some? ==> Entries(r) == KeptEntries(cm.value, labels)
    ensures cm.Some? ==> Names(r) == FirstSeen(KeptFileNames(cm.value, labels))
    ensures WellFormed(r) && Numbered(r)
  {
    match cm
    case None => []
    case Some(m) =>
      PreprocessNumbered(m, labels);
      PreprocessEntries(m, labels);
      PreprocessNames(m, labels);
      PreprocessWellFormed(m, labels);
      Preprocess(m, labels)
  }

  function Preprocess(m: CodeMap, labels: seq<SpanLabel>): seq<FileWithAnnotatedLines>
  {
    if |labels| == 0 then []
    else
      var acc := Preprocess(m, labels[..|labels| - 1]);
      var sl := labels[|labels| - 1];
      if IsSentinel(sl.span) then acc
      else
        var lo := m.lookupCharPos(sl.span.lo);
        var hi := m.lookupCharPos(sl.span.hi);
        AddAnnotationToFile(acc, lo.file, lo.line, ToAnnotation(lo, hi, sl))
  }

  /** The entry a non-sentinel span label contributes. */
  function LabelEntry(m: CodeMap, sl: SpanLabel): Entry
  {
    var lo := m.lookupCharPos(sl.span.lo);
    var hi := m.lookupCharPos(sl.span.hi);
    Entry(lo.file.name, lo.line, ToAnnotation(lo, hi, sl))
  }

  /** The reference: one entry per non-sentinel span label. */
  function KeptEntries(m: CodeMap, labels: seq<SpanLabel>): multiset<Entry>
  {
    if |labels| == 0 then multiset{}
    else KeptEntries(m, labels[..|labels| - 1])
         + (if IsSentinel(labels[|labels| - 1].span) then multiset{} else multiset{LabelEntry(m, labels[|labels| - 1])})
  }

  /** File names in order of first appearance. */
  function FirstSeen(names: seq<string>): seq<string>
  {
    if |names| == 0 then []
    else
      var init := FirstSeen(names[..|names| - 1]);
      if names[|names| - 1] in init then init else init + [names[|names| - 1]]
  }

  function KeptFileNames(m: CodeMap, labels: seq<SpanLabel>): seq<string>
  {
    if |labels| == 0 then []
    else KeptFileNames(m, labels[..|labels| - 1])
         + (if IsSentinel(labels[|labels| - 1].span) then [] else [m.lookupCharPos(labels[|labels| - 1].span.lo).file.name])
  }

  /** Adding one annotation adds exactly its entry. */
  lemma {:induction false} AddAnnotationToFileEntries(files: seq<FileWithAnnotatedLines>, file: FileMap,
                                                       lineIndex: nat, ann: Annotation)
    ensures Entries(AddAnnotationToFile(files, file, lineIndex, ann))
            == Entries(files) + multiset{Entry(file.name, lineIndex, ann)}
    decreases |files|
  {
    if |files| == 0 {
      var l := Line(lineIndex, [ann]);
      PushLineEffects(file.name, [], l);
      assert SortLines([] + [l]) == [l];
      EntriesCons(FileWithAnnotatedLines(file, [l]), []);
    } else if files[0].file.name == file.name {
      AddToLinesEffects(file.name, files[0].lines, lineIndex, ann);
      EntriesCons(files[0], files[1..]);
      EntriesCons(files[0].(lines := AddToLines(files[0].lines, lineIndex, ann)), files[1..]);
    } else {
      AddAnnotationToFileEntries(files[1..], file, lineIndex, ann);
      EntriesCons(files[0], files[1..]);
      EntriesCons(files[0], AddAnnotationToFile(files[1..], file, lineIndex, ann));
    }
  }

  /** The entries of a list with a given head. */
  lemma EntriesCons(f: FileWithAnnotatedLines, rest: seq<FileWithAnnotatedLines>)
    ensures Entries([f] + rest) == LinesEntries(f.file.name, f.lines) + Entries(rest)
  {
    assert ([f] + rest)[1..] == rest;
  }

  /** A file seen before keeps its place; a new one goes last. */
  lemma {:induction false} AddAnnotationToFileNames(files: seq<FileWithAnnotatedLines>, file: FileMap,
                                                     lineIndex: nat, ann: Annotation)
    ensures Names(AddAnnotationToFile(files, file, lineIndex, ann))
            == if file.name in Names(files) then Names(files) else Names(files) + [file.name]
    decreases |files|
  {
    var r := AddAnnotationToFile(files, file, lineIndex, ann);
    if |files| > 0 {
      assert Names(files) == [files[0].file.name] + Names(files[1..]);
      if files[0].file.name != file.name {
        AddAnnotationToFileNames(files[1..], file, lineIndex, ann);
        assert r[1..] == AddAnnotationToFile(files[1..], file, lineIndex, ann);
      }
    }
  }

  /** One entry per file name and ascending line lists survive adding an
      annotation. */
  lemma {:induction false} AddAnnotationToFileWellFormed(files: seq<FileWithAnnotatedLines>, file: FileMap,
                                                          lineIndex: nat, ann: Annotation)
    requires WellFormed(files)
    ensures WellFormed(AddAnnotationToFile(files, file, lineIndex, ann))
    decreases |files|
  {
    if |files| == 0 {
      var r := AddAnnotationToFile(files, file, lineIndex, ann);
      assert LinesSorted(r[0].lines);
    } else if files[0].file.name == file.name {
      AddToLinesEffects(file.name, files[0].lines, lineIndex, ann);
      ReplaceHeadWellFormed(files, files[0].(lines := AddToLines(files[0].lines, lineIndex, ann)));
    } else {
      var rest := AddAnnotationToFile(files[1..], file, lineIndex, ann);
      WellFormedTail(files);
      AddAnnotationToFileWellFormed(files[1..], file, lineIndex, ann);
      AddAnnotationToFileNames(files[1..], file, lineIndex, ann);
      ConsWellFormed(files[0], rest);
    }
  }

  /** The tail of a well-formed list is well formed and does not repeat
      the head's name. */
  lemma WellFormedTail(files: seq<FileWithAnnotatedLines>)
    requires WellFormed(files) && |files| > 0
    ensures WellFormed(files[1..]) && files[0].file.name !in Names(files[1..])
  {
    assert forall i :: 0 <= i < |files[1..]| ==> files[1..][i] == files[i + 1];
    forall j | 0 <= j < |files[1..]|
      ensures Names(files[1..])[j] != files[0].file.name
    {
      assert Names(files[1..])[j] == files[j + 1].file.name;
    }
  }

  /** Replacing the head's lines by sorted ones, under the same name. */
  lemma ReplaceHeadWellFormed(files: seq<FileWithAnnotatedLines>, f: FileWithAnnotatedLines)
    requires WellFormed(files) && |files| > 0
    requires f.file.name == files[0].file.name && LinesSorted(f.lines)
    ensures WellFormed([f] + files[1..])
  {
    var r := [f] + files[1..];
    assert forall i :: 0 < i < |r| ==> r[i] == files[i];
  }

  /** An entry whose name is new, in front of a well-formed list. */
  lemma ConsWellFormed(f: FileWithAnnotatedLines, rest: seq<FileWithAnnotatedLines>)
    requires WellFormed(rest) && LinesSorted(f.lines) && f.file.name !in Names(rest)
    ensures WellFormed([f] + rest)
  {
    var r := [f] + rest;
    assert forall i :: 0 < i < |r| ==> r[i] == rest[i - 1];
    forall j | 0 < j < |r|
      ensures r[0].file.name != r[j].file.name
    {
      assert Names(rest)[j - 1] == r[j].file.name;
    }
  }

  /** `preprocess_annotations` records exactly one entry per non-sentinel
      span label. */
  lemma {:induction false} PreprocessEntries(m: CodeMap, labels: seq<SpanLabel>)
    ensures Entries(Preprocess(m, labels)) == KeptEntries(m, labels)
    decreases |labels|
  {
    if |labels| > 0 {
      var init := labels[..|labels| - 1];
      PreprocessEntries(m, init);
      var sl := labels[|labels| - 1];
      if !IsSentinel(sl.span) {
        var lo := m.lookupCharPos(sl.span.lo);
        var hi := m.lookupCharPos(sl.span.hi);
        AddAnnotationToFileEntries(Preprocess(m, init), lo.file, lo.line, ToAnnotation(lo, hi, sl));
      }
    }
  }

  /** Files appear once each, in the order their names are first met. */
  lemma {:induction false} PreprocessNames(m: CodeMap, labels: seq<SpanLabel>)
    ensures Names(Preprocess(m, labels)) == FirstSeen(KeptFileNames(m, labels))
    decreases |labels|
  {
    if |labels| > 0 {
      var init := labels[..|labels| - 1];
      PreprocessNames(m, init);
      var sl := labels[|labels| - 1];
      if !IsSentinel(sl.span) {
        var lo := m.lookupCharPos(sl.span.lo);
        var hi := m.lookupCharPos(sl.span.hi);
        AddAnnotationToFileNames(Preprocess(m, init), lo.file, lo.line, ToAnnotation(lo, hi, sl));
        var names := KeptFileNames(m, labels);
        assert names == KeptFileNames(m, init) + [lo.file.name];
        assert names[..|names| - 1] == KeptFileNames(m, init);
      } else {
        assert KeptFileNames(m, labels) == KeptFileNames(m, init);
      }
    }
  }

  /** Every file's lines come out strictly ascending, one file per name. */
  lemma {:induction false} PreprocessWellFormed(m: CodeMap, labels: seq<SpanLabel>)
    ensures WellFormed(Preprocess(m, labels))
    decreases |labels|
  {
    if |labels| > 0 {
      var init := labels[..|labels| - 1];
      PreprocessWellFormed(m, init);
      var sl := labels[|labels| - 1];
      if !IsSentinel(sl.span) {
        var lo := m.lookupCharPos(sl.span.lo);
        var hi := m.lookupCharPos(sl.span.hi);
        AddAnnotationToFileWellFormed(Preprocess(m, init), lo.file, lo.line, ToAnnotation(lo, hi, sl));
      }
    }
  }

  /** Every line of every file is numbered from 1, as the code map numbers
      them. */
  predicate Numbered(files: seq<FileWithAnnotatedLines>)
  {
    forall i :: 0 <= i < |files| ==> LinesNumbered(files[i].lines)
  }

  predicate LinesNumbered(lines: seq<Line>)
  {
    forall j :: 0 <= j < |lines| ==> lines[j].lineIndex >= 1
  }

  lemma AddToLinesNumbered(lines: seq<Line>, lineIndex: nat, ann: Annotation)
    requires LinesNumbered(lines) && lineIndex >= 1
    ensures LinesNumbered(AddToLines(lines, lineIndex, ann))
  {
    if !HasLine(lines, lineIndex) {
      var pushed := lines + [Line(lineIndex, [ann])];
      var r := SortLines(pushed);
      forall j | 0 <= j < |r|
        ensures r[j].lineIndex >= 1
      {
        MultisetMember(r, pushed, j);
      }
    }
  }

  lemma {:induction false} AddAnnotationToFileNumbered(files: seq<FileWithAnnotatedLines>, file: FileMap,
                                                        lineIndex: nat, ann: Annotation)
    requires Numbered(files) && lineIndex >= 1
    ensures Numbered(AddAnnotationToFile(files, file, lineIndex, ann))
    decreases |files|
  {
    if |files| > 0 {
      if files[0].file.name == file.name {
        AddToLinesNumbered(files[0].lines, lineIndex, ann);
      } else {
        assert Numbered(files[1..]) by {
          assert forall i :: 0 <= i < |files[1..]| ==> files[1..][i] == files[i + 1];
        }
        AddAnnotationToFileNumbered(files[1..], file, lineIndex, ann);
      }
    }
  }

  lemma {:induction false} PreprocessNumbered(m: CodeMap, labels: seq<SpanLabel>)
    ensures Numbered(Preprocess(m, labels))
    decreases |labels|
  {
    if |labels| > 0 {
      var init := labels[..|labels| - 1];
      PreprocessNumbered(m, init);
      var sl := labels[|labels| - 1];
      if !IsSentinel(sl.span) {
        var lo := m.lookupCharPos(sl.span.lo);
        var hi := m.lookupCharPos(sl.span.hi);
        AddAnnotationToFileNumbered(Preprocess(m, init), lo.file, lo.line, ToAnnotation(lo, hi, sl));
      }
    }
  }
}

/** Drawing one annotated source line (`render_source_line` of the
    emitter): the quoted source with its line number, the underline row of
    `^` and `-` marks, and the labels, either appended to the underline row
    or hung below it on rows of their own.

    The quantities that matter are rows and columns of the styled buffer;
    the source line and labels are written as given. */
module Render {
  import opened Common
  import opened StyledBuffer
  import opened Annotations

  // ---------------------------------------------------------------------------
  // Columns covered by annotations

  /** Column `c` lies in the half-open range of `a`. */
  predicate Covers(a: Annotation, c: nat)
  {
    a.startCol <= c < a.endCol
  }

  /** `overlaps`: one annotation starts inside the other's range. */
  predicate Overlaps(a1: Annotation, a2: Annotation)
  {
    (a2.startCol <= a1.startCol < a2.endCol) || (a1.startCol <= a2.startCol < a1.endCol)
  }

  /** For annotations that cover at least one column, overlapping is
      symmetric and means sharing a column. */
  lemma OverlapsMeansSharedColumn(a1: Annotation, a2: Annotation)
    requires a1.startCol < a1.endCol && a2.startCol < a2.endCol
    ensures Overlaps(a1, a2) <==> exists c: nat :: Covers(a1, c) && Covers(a2, c)
    ensures Overlaps(a1, a2) == Overlaps(a2, a1)
  {
    if Overlaps(a1, a2) {
      if a2.startCol <= a1.startCol < a2.endCol {
        assert Covers(a1, a1.startCol) && Covers(a2, a1.startCol);
      } else {
        assert Covers(a1, a2.startCol) && Covers(a2, a2.startCol);
      }
    }
  }

  /** The last annotation of the list covering column `c`. */
  function LastCovering(anns: seq<Annotation>, c: nat): (r: Option<Annotation>)
    ensures r.Some? ==> r.value in anns && Covers(r.value, c)
    ensures r.None? <==> forall a :: a in anns ==> !Covers(a, c)
  {
    if |anns| == 0 then None
    else if Covers(anns[|anns| - 1], c) then Some(anns[|anns| - 1])
    else
      assert anns == anns[..|anns| - 1] + [anns[|anns| - 1]];
      LastCovering(anns[..|anns| - 1], c)
  }

  /** The last annotation covering `c` that is not minimized: the one whose
      style the source character takes. */
  function LastStyling(anns: seq<Annotation>, c: nat): (r: Option<Annotation>)
    ensures r.Some? ==> r.value in anns && Covers(r.value, c) && !r.value.isMinimized
    ensures r.None? <==> forall a :: a in anns && !a.isMinimized ==> !Covers(a, c)
  {
    if |anns| == 0 then None
    else if Covers(anns[|anns| - 1], c) && !anns[|anns| - 1].isMinimized then Some(anns[|anns| - 1])
    else
      assert anns == anns[..|anns| - 1] + [anns[|anns| - 1]];
      LastStyling(anns[..|anns| - 1], c)
  }

  // ---------------------------------------------------------------------------
  // Buffer frames

  /** Row `row` of `b` is unchanged in `r`. */
  predicate RowKept(b: Buffer, r: Buffer, row: nat)
  {
    row < |b| ==> row < |r| && r[row] == b[row]
  }

  /** The cell at (`row`, `col`) of `b`, if any, is unchanged in `r`. */
  predicate CellKept(b: Buffer, r: Buffer, row: nat, col: nat)
  {
    At(b, row, col).Some? ==> At(r, row, col) == At(b, row, col)
  }

  /** Every cell of row `row` of `b` is unchanged in `r`; `r` may extend
      the row. */
  ghost predicate CellsKept(b: Buffer, r: Buffer, row: nat)
  {
    forall c: nat :: CellKept(b, r, row, c)
  }

  /** Column `k` of the source row `lo` is exactly as before, and the cell
      in that column of the underline row below it, if any, too. */
  predicate TwoRowsKept(b: Buffer, r: Buffer, lo: nat, k: nat)
  {
    At(r, lo, k) == At(b, lo, k) && CellKept(b, r, lo + 1, k)
  }

  function UnderlineStyle(a: Annotation): Style
  {
    if a.isPrimary then UnderlinePrimary else UnderlineSecondary
  }

  /** `^` under a primary annotation, `-` under a secondary one. */
  function UnderlineCell(a: Annotation): Cell
  {
    Cell(if a.isPrimary then '^' else '-', UnderlineStyle(a))
  }

  /** A source cell after the styling annotation, if any, restyles it. */
  function Restyled(o: Option<Cell>, styler: Option<Annotation>): Option<Cell>
  {
    if o.None? || styler.None? then o else Some(o.value.(style := UnderlineStyle(styler.value)))
  }

  function Restyle(o: Option<Cell>, a: Annotation): Option<Cell>
  {
    if a.isMinimized then o else Restyled(o, Some(a))
  }

  // ---------------------------------------------------------------------------
  // The underline row

  /** One column of an annotation: the mark on the row below the source,
      and, unless minimized, the source cell restyled. */
  function Mark(b: Buffer, lo: nat, col: nat, a: Annotation): (r: Buffer)
    ensures |r| == Max(|b|, lo + 2)
    ensures At(r, lo + 1, col) == Some(UnderlineCell(a))
    ensures At(r, lo, col) == Restyle(At(b, lo, col), a)
    ensures forall row: nat :: row != lo && row != lo + 1 ==> RowKept(b, r, row)
    ensures forall k: nat :: k != col ==> TwoRowsKept(b, r, lo, k)
  {
    var b1 := Putc(b, lo + 1, col, UnderlineCell(a).ch, UnderlineStyle(a));
    assert At(b1, lo, col) == At(b, lo, col);
    if a.isMinimized then b1 else SetStyle(b1, lo, col, UnderlineStyle(a))
  }

  /** Columns `p` to the end of an annotation's range. */
  function MarkFrom(b: Buffer, lo: nat, w: nat, a: Annotation, p: nat): (r: Buffer)
    ensures |r| >= |b|
    decreases a.endCol - p
  {
    if p >= a.endCol then b else MarkFrom(Mark(b, lo, w + p, a), lo, w, a, p + 1)
  }

  /** Marking an annotation's columns from `p` on: each gets the mark and
      its source cell the style; nothing outside those columns of the two
      rows changes. */
  lemma {:induction false} MarkFromEffects(b: Buffer, lo: nat, w: nat, a: Annotation, p: nat)
    ensures p < a.endCol ==> |MarkFrom(b, lo, w, a, p)| >= lo + 2
    ensures |MarkFrom(b, lo, w, a, p)| <= Max(|b|, lo + 2)
    ensures forall c: nat :: p <= c && Covers(a, c) ==> At(MarkFrom(b, lo, w, a, p), lo + 1, w + c) == Some(UnderlineCell(a))
    ensures forall c: nat :: p <= c && Covers(a, c) ==> At(MarkFrom(b, lo, w, a, p), lo, w + c) == Restyle(At(b, lo, w + c), a)
    ensures forall k: nat :: (k < w + p || w + a.endCol <= k) ==> TwoRowsKept(b, MarkFrom(b, lo, w, a, p), lo, k)
    ensures forall row: nat :: row != lo && row != lo + 1 ==> RowKept(b, MarkFrom(b, lo, w, a, p), row)
    decreases a.endCol - p
  {
    if p < a.endCol {
      var b1 := Mark(b, lo, w + p, a);
      var r := MarkFrom(b1, lo, w, a, p + 1);
      assert r == MarkFrom(b, lo, w, a, p);
      MarkFromEffects(b1, lo, w, a, p + 1);
      assert TwoRowsKept(b1, r, lo, w + p);
      forall c: nat | p < c && Covers(a, c)
        ensures At(r, lo, w + c) == Restyle(At(b, lo, w + c), a)
      {
        assert TwoRowsKept(b, b1, lo, w + c);
      }
      forall k: nat | k < w + p || w + a.endCol <= k
        ensures TwoRowsKept(b, r, lo, k)
      {
        assert TwoRowsKept(b, b1, lo, k);
        assert TwoRowsKept(b1, r, lo, k);
      }
      forall row: nat | row != lo && row != lo + 1
        ensures RowKept(b, r, row)
      {
        assert RowKept(b, b1, row) && RowKept(b1, r, row);
      }
    }
  }

  /** Marks every annotation in order. */
  function Highlight(b: Buffer, lo: nat, w: nat, anns: seq<Annotation>): (r: Buffer)
    ensures |r| >= |b|
    decreases |anns|
  {
    if |anns| == 0 then b
    else
      var last := anns[|anns| - 1];
      MarkFrom(Highlight(b, lo, w, anns[..|anns| - 1]), lo, w, last, last.startCol)
  }

  /** Where annotations share a column, the later one's mark and style
      win; columns no annotation covers, and the line-number gutter, keep
      their cells; no other row changes. */
  lemma {:induction false} HighlightEffects(b: Buffer, lo: nat, w: nat, anns: seq<Annotation>)
    ensures forall c: nat :: LastCovering(anns, c).Some? ==>
              At(Highlight(b, lo, w, anns), lo + 1, w + c) == Some(UnderlineCell(LastCovering(anns, c).value))
    ensures forall c: nat :: LastCovering(anns, c).None? ==> CellKept(b, Highlight(b, lo, w, anns), lo + 1, w + c)
    ensures forall c: nat :: At(Highlight(b, lo, w, anns), lo, w + c) == Restyled(At(b, lo, w + c), LastStyling(anns, c))
    ensures forall k: nat :: k < w ==> TwoRowsKept(b, Highlight(b, lo, w, anns), lo, k)
    ensures forall row: nat :: row != lo && row != lo + 1 ==> RowKept(b, Highlight(b, lo, w, anns), row)
    ensures |Highlight(b, lo, w, anns)| <= Max(|b|, lo + 2)
    decreases |anns|
  {
    if |anns| > 0 {
      var init := anns[..|anns| - 1];
      var last := anns[|anns| - 1];
      var m := Highlight(b, lo, w, init);
      var r := MarkFrom(m, lo, w, last, last.startCol);
      assert r == Highlight(b, lo, w, anns);
      HighlightEffects(b, lo, w, init);
      MarkFromEffects(m, lo, w, last, last.startCol);
      assert anns == init + [last];
      HighlightStep(b, m, r, lo, w, init, last);
      forall k: nat | k < w
        ensures TwoRowsKept(b, r, lo, k)
      {
        assert TwoRowsKept(b, m, lo, k);
        assert TwoRowsKept(m, r, lo, k);
      }
      forall row: nat | row != lo && row != lo + 1
        ensures RowKept(b, r, row)
      {
        assert RowKept(b, m, row) && RowKept(m, r, row);
      }
    }
  }

  /** The induction step of `HighlightEffects` on the two rows. */
  lemma HighlightStep(b: Buffer, m: Buffer, r: Buffer, lo: nat, w: nat, init: seq<Annotation>, last: Annotation)
    requires r == MarkFrom(m, lo, w, last, last.startCol)
    requires forall c: nat :: last.startCol <= c && Covers(last, c) ==> At(r, lo + 1, w + c) == Some(UnderlineCell(last))
    requires forall c: nat :: last.startCol <= c && Covers(last, c) ==> At(r, lo, w + c) == Restyle(At(m, lo, w + c), last)
    requires forall k: nat :: (k < w + last.startCol || w + last.endCol <= k) ==> TwoRowsKept(m, r, lo, k)
    requires forall c: nat :: LastCovering(init, c).Some? ==> At(m, lo + 1, w + c) == Some(UnderlineCell(LastCovering(init, c).value))
    requires forall c: nat :: LastCovering(init, c).None? ==> CellKept(b, m, lo + 1, w + c)
    requires forall c: nat :: At(m, lo, w + c) == Restyled(At(b, lo, w + c), LastStyling(init, c))
    ensures forall c: nat :: LastCovering(init + [last], c).Some? ==> At(r, lo + 1, w + c) == Some(UnderlineCell(LastCovering(init + [last], c).value))
    ensures forall c: nat :: LastCovering(init + [last], c).None? ==> CellKept(b, r, lo + 1, w + c)
    ensures forall c: nat :: At(r, lo, w + c) == Restyled(At(b, lo, w + c), LastStyling(init + [last], c))
  {
    forall c: nat
      ensures LastCovering(init + [last], c).Some? ==> At(r, lo + 1, w + c) == Some(UnderlineCell(LastCovering(init + [last], c).value))
      ensures LastCovering(init + [last], c).None? ==> CellKept(b, r, lo + 1, w + c)
      ensures At(r, lo, w + c) == Restyled(At(b, lo, w + c), LastStyling(init + [last], c))
    {
      var k: nat := w + c;
      if !Covers(last, c) {
        assert TwoRowsKept(m, r, lo, k);
      }
      HighlightColumn(b, m, r, lo, w, init, last, c);
    }
  }

  /** One column of `HighlightStep`. */
  lemma HighlightColumn(b: Buffer, m: Buffer, r: Buffer, lo: nat, w: nat, init: seq<Annotation>, last: Annotation, c: nat)
    requires Covers(last, c) ==> At(r, lo + 1, w + c) == Some(UnderlineCell(last))
    requires Covers(last, c) ==> At(r, lo, w + c) == Restyle(At(m, lo, w + c), last)
    requires !Covers(last, c) ==> TwoRowsKept(m, r, lo, w + c)
    requires LastCovering(init, c).Some? ==> At(m, lo + 1, w + c) == Some(UnderlineCell(LastCovering(init, c).value))
    requires LastCovering(init, c).None? ==> CellKept(b, m, lo + 1, w + c)
    requires At(m, lo, w + c) == Restyled(At(b, lo, w + c), LastStyling(init, c))
    ensures LastCovering(init + [last], c).Some? ==> At(r, lo + 1, w + c) == Some(UnderlineCell(LastCovering(init + [last], c).value))
    ensures LastCovering(init + [last], c).None? ==> CellKept(b, r, lo + 1, w + c)
    ensures At(r, lo, w + c) == Restyled(At(b, lo, w + c), LastStyling(init + [last], c))
  {
    var anns := init + [last];
    assert anns[..|anns| - 1] == init;
    assert anns[|anns| - 1] == last;
  }

  // ---------------------------------------------------------------------------
  // Separators

  /** `draw_col_separator`: `| ` in the line-number style. */
  function DrawColSeparator(b: Buffer, line: nat, col: nat): (r: Buffer)
    ensures |r| == Max(|b|, line + 1)
    ensures At(r, line, col) == Some(Cell('|', LineNumber)) && At(r, line, col + 1) == Some(Cell(' ', LineNumber))
    ensures forall row: nat :: row != line ==> RowKept(b, r, row)
    ensures forall c: nat :: c < col || col + 2 <= c ==> CellKept(b, r, line, c)
    ensures forall c: nat :: c < col && At(b, line, c).None? ==> At(r, line, c) == Some(Blank)
    ensures |r[line]| == Max(if line < |b| then |b[line]| else 0, col + 2)
  {
    Putc(Putc(b, line, col, '|', LineNumber), line, col + 1, ' ', LineNumber)
  }

  /** `draw_col_separator_no_space`: a lone `|`. */
  function DrawColSeparatorNoSpace(b: Buffer, line: nat, col: nat): (r: Buffer)
    ensures |r| == Max(|b|, line + 1)
    ensures At(r, line, col) == Some(Cell('|', LineNumber))
    ensures forall row: nat :: row != line ==> RowKept(b, r, row)
    ensures forall c: nat :: c < col || col + 1 <= c ==> CellKept(b, r, line, c)
  {
    Putc(b, line, col, '|', LineNumber)
  }

  /** `draw_note_separator`: `= ` in the line-number style. */
  function DrawNoteSeparator(b: Buffer, line: nat, col: nat): (r: Buffer)
    ensures |r| == Max(|b|, line + 1)
    ensures At(r, line, col) == Some(Cell('=', LineNumber)) && At(r, line, col + 1) == Some(Cell(' ', LineNumber))
    ensures forall row: nat :: row != line ==> RowKept(b, r, row)
    ensures forall c: nat :: c < col || col + 2 <= c ==> CellKept(b, r, line, c)
  {
    Putc(Putc(b, line, col, '=', LineNumber), line, col + 1, ' ', LineNumber)
  }

  /** The separators are the `puts` calls the emitter makes, written out
      as one `putc` per character. */
  lemma SeparatorsArePuts(b: Buffer, line: nat, col: nat)
    ensures DrawColSeparator(b, line, col) == Puts(b, line, col, "| ", LineNumber)
    ensures DrawColSeparatorNoSpace(b, line, col) == Puts(b, line, col, "|", LineNumber)
    ensures DrawNoteSeparator(b, line, col) == Puts(b, line, col, "= ", LineNumber)
  {
    PutsTwo(b, line, col, '|', ' ', LineNumber);
    PutsOne(b, line, col, '|', LineNumber);
    PutsTwo(b, line, col, '=', ' ', LineNumber);
  }

  // ---------------------------------------------------------------------------
  // Labels

  function LabelStyle(a: Annotation): Style
  {
    if a.isPrimary then LabelPrimary else LabelSecondary
  }

  /** The label of a labelled annotation. */
  function LabelText(a: Annotation): string
  {
    match a.text
    case Some(t) => t
    case None => ""
  }

  /** The labelled annotations, in order. */
  function Labeled(anns: seq<Annotation>): (r: seq<Annotation>)
    ensures forall a :: a in r ==> a.text.Some?
  {
    if |anns| == 0 then []
    else if anns[0].text.Some? then [anns[0]] + Labeled(anns[1..])
    else Labeled(anns[1..])
  }

  /** The annotations without a label, in order. */
  function Unlabeled(anns: seq<Annotation>): (r: seq<Annotation>)
    ensures forall a :: a in r ==> a.text.None?
  {
    if |anns| == 0 then []
    else if anns[0].text.None? then [anns[0]] + Unlabeled(anns[1..])
    else Unlabeled(anns[1..])
  }

  /** The two halves of the partition hold every annotation once. */
  lemma {:induction false} PartitionIsPermutation(anns: seq<Annotation>)
    ensures multiset(Labeled(anns)) + multiset(Unlabeled(anns)) == multiset(anns)
  {
    if |anns| > 0 {
      PartitionIsPermutation(anns[1..]);
      assert anns == [anns[0]] + anns[1..];
    }
  }

  /** The rightmost labelled annotation keeps its label on the underline
      row exactly when no other annotation, labelled or not, overlaps it. */
  predicate LabelInline(labeled: seq<Annotation>, unlabeled: seq<Annotation>)
  {
    && |labeled| > 0
    && (forall i :: 0 <= i < |labeled| - 1 ==> !Overlaps(labeled[i], labeled[|labeled| - 1]))
    && (forall a :: a in unlabeled ==> !Overlaps(a, labeled[|labeled| - 1]))
  }

  /** The labels hung below the underline row. */
  function Hanging(labeled: seq<Annotation>, unlabeled: seq<Annotation>): (r: seq<Annotation>)
    ensures LabelInline(labeled, unlabeled) ==> r == labeled[..|labeled| - 1]
    ensures !LabelInline(labeled, unlabeled) ==> r == labeled
  {
    if LabelInline(labeled, unlabeled) then labeled[..|labeled| - 1] else labeled
  }

  /** A `|` at the annotation's start column on rows `lo + first` up to
      `lo + upto`, exclusive, each with the gutter separator. */
  function HangRows(b: Buffer, lo: nat, w: nat, a: Annotation, first: nat, upto: nat): (r: Buffer)
    requires w >= 2
    ensures first < upto ==> |r| == Max(|b|, lo + upto)
    ensures first >= upto ==> r == b
    decreases upto - first
  {
    if first >= upto then b
    else HangRows(HangStep(b, lo, w, a, first), lo, w, a, first + 1, upto)
  }

  lemma {:induction false} HangRowsFrame(b: Buffer, lo: nat, w: nat, a: Annotation, first: nat, upto: nat)
    requires w >= 2
    ensures forall row: nat :: row < lo + first || lo + upto <= row ==> RowKept(b, HangRows(b, lo, w, a, first, upto), row)
    decreases upto - first
  {
    if first < upto {
      var b2 := HangStep(b, lo, w, a, first);
      HangRowsUnfold(b, lo, w, a, first, upto);
      HangRowsFrame(b2, lo, w, a, first + 1, upto);
      HangStepFrame(b, lo, w, a, first);
      forall row: nat | row < lo + first || lo + upto <= row
        ensures RowKept(b, HangRows(b, lo, w, a, first, upto), row)
      {
        KeptTwice(b, b2, HangRows(b2, lo, w, a, first + 1, upto), row);
      }
    }
  }

  /** One `|` row of `HangRows`. */
  function HangStep(b: Buffer, lo: nat, w: nat, a: Annotation, first: nat): Buffer
    requires w >= 2
  {
    DrawColSeparator(Putc(b, lo + first, w + a.startCol, '|', UnderlineStyle(a)), lo + first, w - 2)
  }

  lemma HangRowsUnfold(b: Buffer, lo: nat, w: nat, a: Annotation, first: nat, upto: nat)
    requires w >= 2 && first < upto
    ensures HangRows(b, lo, w, a, first, upto) == HangRows(HangStep(b, lo, w, a, first), lo, w, a, first + 1, upto)
  {
  }

  /** A `|` row changes only its own row. */
  lemma HangStepFrame(b: Buffer, lo: nat, w: nat, a: Annotation, first: nat)
    requires w >= 2
    ensures forall row: nat :: row != lo + first ==> RowKept(b, HangStep(b, lo, w, a, first), row)
  {
    var b1 := Putc(b, lo + first, w + a.startCol, '|', UnderlineStyle(a));
    forall row: nat | row != lo + first
      ensures RowKept(b, HangStep(b, lo, w, a, first), row)
    {
      KeptTwice(b, b1, DrawColSeparator(b1, lo + first, w - 2), row);
    }
  }

  /** `RowKept` composes along two stages. */
  lemma KeptTwice(b: Buffer, b1: Buffer, r: Buffer, row: nat)
    requires RowKept(b, b1, row) && RowKept(b1, r, row)
    ensures RowKept(b, r, row)
  {
  }

  /** One hung label with `comesAfter` labels still to come: its `|`
      rows, then its text on row `lo + 3 + comesAfter`. */
  function StackLabel(b: Buffer, lo: nat, w: nat, a: Annotation, comesAfter: nat): (r: Buffer)
    requires w >= 2
    ensures |r| == Max(|b|, lo + 4 + comesAfter)
  {
    LabelLine(HangRows(b, lo, w, a, 2, 3 + comesAfter), lo + 3 + comesAfter, w, a)
  }

  /** The label's own row: its text from the annotation's start column,
      and the gutter separator. */
  function LabelLine(b: Buffer, row: nat, w: nat, a: Annotation): (r: Buffer)
    requires w >= 2
    ensures |r| == Max(|b|, row + 1)
  {
    DrawColSeparator(Puts(b, row, w + a.startCol, LabelText(a), LabelStyle(a)), row, w - 2)
  }

  /** One character of the label text, on the label's row. */
  lemma LabelLineCell(b: Buffer, row: nat, w: nat, a: Annotation, k: nat, col: nat)
    requires w >= 2 && k < |LabelText(a)| && col == w + a.startCol + k
    ensures At(LabelLine(b, row, w, a), row, col) == Some(Cell(LabelText(a)[k], LabelStyle(a)))
  {
    var p := Puts(b, row, w + a.startCol, LabelText(a), LabelStyle(a));
    assert At(p, row, (w + a.startCol) + k) == Some(Cell(LabelText(a)[k], LabelStyle(a)));
    assert CellKept(p, LabelLine(b, row, w, a), row, col);
  }

  /** The label's row is the only one that changes. */
  lemma LabelLineFrame(b: Buffer, row: nat, w: nat, a: Annotation)
    requires w >= 2
    ensures forall r: nat :: r != row ==> RowKept(b, LabelLine(b, row, w, a), r)
  {
    var b2 := Puts(b, row, w + a.startCol, LabelText(a), LabelStyle(a));
    forall r: nat | r != row
      ensures RowKept(b, LabelLine(b, row, w, a), r)
    {
      assert RowKept(b, b2, r);
    }
  }

  /** Only rows `lo + 2` to the label's row change. */
  lemma StackLabelFrame(b: Buffer, lo: nat, w: nat, a: Annotation, comesAfter: nat)
    requires w >= 2
    ensures forall row: nat :: row < lo + 2 || lo + 3 + comesAfter < row ==> RowKept(b, StackLabel(b, lo, w, a, comesAfter), row)
  {
    var b1 := HangRows(b, lo, w, a, 2, 3 + comesAfter);
    HangRowsFrame(b, lo, w, a, 2, 3 + comesAfter);
    LabelLineFrame(b1, lo + 3 + comesAfter, w, a);
    forall row: nat | row < lo + 2 || lo + 3 + comesAfter < row
      ensures RowKept(b, StackLabel(b, lo, w, a, comesAfter), row)
    {
      assert RowKept(b, b1, row) && RowKept(b1, LabelLine(b1, lo + 3 + comesAfter, w, a), row);
    }
  }

  /** `RowKept` composes along three stages. */
  lemma KeptThrough(b: Buffer, b1: Buffer, b2: Buffer, r: Buffer, row: nat)
    requires RowKept(b, b1, row) && RowKept(b1, b2, row) && RowKept(b2, r, row)
    ensures RowKept(b, r, row)
  {
  }

  /** `r` is `b` with `n` rows added below and the rows of `b` unchanged. */
  predicate Extends(b: Buffer, r: Buffer, n: nat)
  {
    |r| == |b| + n && forall row: nat :: row < |b| ==> RowKept(b, r, row)
  }

  lemma ExtendsTrans(b: Buffer, b1: Buffer, r: Buffer, n1: nat, n2: nat)
    requires Extends(b, b1, n1) && Extends(b1, r, n2)
    ensures Extends(b, r, n1 + n2)
  {
    forall row: nat | row < |b|
      ensures RowKept(b, r, row)
    {
      KeptTwice(b, b1, r, row);
    }
  }

  lemma ExtendsRefl(b: Buffer)
    ensures Extends(b, b, 0)
  {
  }

  lemma ExtendsText(b: Buffer, r: Buffer, n: nat, row: nat)
    requires Extends(b, r, n) && row < |b|
    ensures Text(r, row) == Text(b, row)
  {
    assert RowKept(b, r, row);
  }

  /** `hanging[i..]` hung below the underline row. */
  function StackFrom(b: Buffer, lo: nat, w: nat, hanging: seq<Annotation>, i: nat): (r: Buffer)
    requires w >= 2
    ensures i < |hanging| ==> |r| == Max(|b|, lo + 3 + |hanging| - i)
    ensures i >= |hanging| ==> r == b
    decreases |hanging| - i
  {
    if i >= |hanging| then b
    else StackFrom(StackLabel(b, lo, w, hanging[i], |hanging| - i - 1), lo, w, hanging, i + 1)
  }

  lemma {:induction false} StackFromFrame(b: Buffer, lo: nat, w: nat, hanging: seq<Annotation>, i: nat)
    requires w >= 2 && i < |hanging|
    ensures forall row: nat :: row < lo + 2 || lo + 2 + |hanging| - i < row ==> RowKept(b, StackFrom(b, lo, w, hanging, i), row)
    decreases |hanging| - i
  {
    var r := StackFrom(b, lo, w, hanging, i);
    var b1 := StackLabel(b, lo, w, hanging[i], |hanging| - i - 1);
    assert r == StackFrom(b1, lo, w, hanging, i + 1);
    StackLabelFrame(b, lo, w, hanging[i], |hanging| - i - 1);
    if i + 1 < |hanging| {
      StackFromFrame(b1, lo, w, hanging, i + 1);
      forall row: nat | row < lo + 2 || lo + 2 + |hanging| - i < row
        ensures RowKept(b, r, row)
      {
        assert RowKept(b, b1, row) && RowKept(b1, r, row);
      }
    }
  }

  /** One step of `StackFrom`: the buffer after hanging label `j`, whose
      text sits on row `lo + 2 + |hanging| - j`. */
  lemma StackFromStep(b: Buffer, lo: nat, w: nat, hanging: seq<Annotation>, j: nat, next: nat) returns (b1: Buffer)
    requires w >= 2 && j < |hanging| && next == j + 1
    ensures StackFrom(b, lo, w, hanging, j) == StackFrom(b1, lo, w, hanging, next)
    ensures b1 == StackLabel(b, lo, w, hanging[j], |hanging| - j - 1)
  {
    b1 := StackLabel(b, lo, w, hanging[j], |hanging| - j - 1);
  }

  /** One cell of a hung label's text, on the label's own row. */
  lemma StackLabelCell(b: Buffer, lo: nat, w: nat, a: Annotation, comesAfter: nat, k: nat, row: nat, col: nat)
    requires w >= 2 && k < |LabelText(a)| && row == lo + 3 + comesAfter && col == w + a.startCol + k
    ensures At(StackLabel(b, lo, w, a, comesAfter), row, col) == Some(Cell(LabelText(a)[k], LabelStyle(a)))
  {
    LabelLineCell(HangRows(b, lo, w, a, 2, 3 + comesAfter), lo + 3 + comesAfter, w, a, k, col);
  }

  /** One step of `StackFrom`, seen from one cell of the label it hangs. */
  lemma StackFromStepCell(b: Buffer, lo: nat, w: nat, hanging: seq<Annotation>, j: nat, next: nat, k: nat, row: nat, col: nat)
      returns (b1: Buffer)
    requires w >= 2 && j < |hanging| && next == j + 1 && k < |LabelText(hanging[j])|
    requires row == lo + 2 + |hanging| - j && col == w + hanging[j].startCol + k
    ensures StackFrom(b, lo, w, hanging, j) == StackFrom(b1, lo, w, hanging, next)
    ensures At(b1, row, col) == Some(Cell(LabelText(hanging[j])[k], LabelStyle(hanging[j])))
  {
    b1 := StackFromStep(b, lo, w, hanging, j, next);
    StackLabelCell(b, lo, w, hanging[j], |hanging| - j - 1, k, row, col);
  }

  /** A cell of a row that a later stage keeps. */
  lemma CellOfKeptRow(b: Buffer, r: Buffer, row: nat, col: nat)
    requires RowKept(b, r, row) && At(b, row, col).Some?
    ensures At(r, row, col) == At(b, row, col)
  {
  }

  /** Every hung label survives the later ones: label `i` reads on row
      `lo + 2 + |hanging| - i`, so the first label is lowest and each has
      a row of its own. */
  lemma {:induction false} StackedLabelAt(b: Buffer, lo: nat, w: nat, hanging: seq<Annotation>, j: nat, i: nat, k: nat, row: nat, col: nat)
    requires w >= 2 && j <= i < |hanging| && k < |LabelText(hanging[i])|
    requires row == lo + 2 + |hanging| - i && col == w + hanging[i].startCol + k
    ensures At(StackFrom(b, lo, w, hanging, j), row, col) == Some(Cell(LabelText(hanging[i])[k], LabelStyle(hanging[i])))
    decreases i - j
  {
    if j < i {
      var next := j + 1;
      var b1 := StackFromStep(b, lo, w, hanging, j, next);
      StackedLabelAt(b1, lo, w, hanging, next, i, k, row, col);
    } else {
      StackedLabelHere(b, lo, w, hanging, i, k, row, col);
    }
  }

  /** The label hung at step `i` is in place after all later steps. */
  lemma StackedLabelHere(b: Buffer, lo: nat, w: nat, hanging: seq<Annotation>, i: nat, k: nat, row: nat, col: nat)
    requires w >= 2 && i < |hanging| && k < |LabelText(hanging[i])|
    requires row == lo + 2 + |hanging| - i && col == w + hanging[i].startCol + k
    ensures At(StackFrom(b, lo, w, hanging, i), row, col) == Some(Cell(LabelText(hanging[i])[k], LabelStyle(hanging[i])))
  {
    var next := i + 1;
    var b1 := StackFromStepCell(b, lo, w, hanging, i, next, k, row, col);
    LaterLabelsKeepRow(b1, lo, w, hanging, next, row, col);
  }

  /** The labels after label `i - 1` leave its row alone. */
  lemma LaterLabelsKeepRow(b: Buffer, lo: nat, w: nat, hanging: seq<Annotation>, i: nat, row: nat, col: nat)
    requires w >= 2 && 1 <= i <= |hanging| && row == lo + 3 + |hanging| - i
    requires At(b, row, col).Some?
    ensures At(StackFrom(b, lo, w, hanging, i), row, col) == At(b, row, col)
  {
    if i < |hanging| {
      var r := StackFrom(b, lo, w, hanging, i);
      StackFromFrame(b, lo, w, hanging, i);
      assert RowKept(b, r, row);
      CellOfKeptRow(b, r, row, col);
    }
  }

  // ---------------------------------------------------------------------------
  // render_source_line

  /** The text of a line: line `lineIndex` counted from 1, or empty when
      the file has no such line. */
  function SourceText(file: FileMap, line: Line): string
    requires line.lineIndex >= 1
  {
    match GetLine(file, line.lineIndex - 1)
    case Some(t) => t
    case None => ""
  }

  /** The quoted source on row `lo`: the source from column `w`, the line
      number `num` from column 0, and the gutter separator two columns
      before the source. */
  function QuoteRow(b: Buffer, lo: nat, src: string, num: string, w: nat): Buffer
    requires w >= 2
  {
    DrawColSeparator(Puts(Puts(b, lo, w, src, Quotation), lo, 0, num, LineNumber), lo, w - 2)
  }

  /** How a quoted row reads: the line number, blanks up to the gutter,
      `| ` and the source. */
  function QuotedText(src: string, num: string, w: nat): (t: string)
    requires |num| + 2 <= w
    ensures |t| == w + |src|
  {
    num + Repeat(' ', w - 2 - |num|) + "| " + src
  }

  /** The quoted row is one new row, and it reads `QuotedText`. */
  lemma QuoteRowText(b: Buffer, lo: nat, src: string, num: string, w: nat)
    requires w >= 2 && lo == |b| && 1 <= |num| <= w - 2
    ensures |QuoteRow(b, lo, src, num, w)| == lo + 1
    ensures RowText(QuoteRow(b, lo, src, num, w)[lo]) == QuotedText(src, num, w)
  {
    var r: Buffer := QuoteRow(b, lo, src, num, w);
    QuoteRowLength(b, lo, src, num, w);
    forall k: nat | k < |r[lo]|
      ensures r[lo][k].ch == QuotedText(src, num, w)[k]
    {
      QuoteRowChar(b, lo, src, num, w, k);
    }
    RowTextOf(r[lo], QuotedText(src, num, w));
  }

  /** The quoted row is one new row; the rows above are unchanged. */
  lemma QuoteRowSize(b: Buffer, lo: nat, src: string, num: string, w: nat)
    requires w >= 2 && lo == |b| && |num| >= 1
    ensures |QuoteRow(b, lo, src, num, w)| == lo + 1
    ensures forall row: nat :: row < lo ==> RowKept(b, QuoteRow(b, lo, src, num, w), row)
  {
    var b1 := Puts(b, lo, w, src, Quotation);
    var b2 := Puts(b1, lo, 0, num, LineNumber);
    var r := DrawColSeparator(b2, lo, w - 2);
    forall row: nat | row < lo
      ensures RowKept(b, r, row)
    {
      KeptThrough(b, b1, b2, r, row);
    }
  }

  /** The source keeps the quotation style. */
  lemma QuoteRowCells(b: Buffer, lo: nat, src: string, num: string, w: nat)
    requires w >= 2 && |num| <= w - 2
    ensures forall c: nat :: c < |src| ==> At(QuoteRow(b, lo, src, num, w), lo, w + c) == Some(Cell(src[c], Quotation))
  {
    var b1 := Puts(b, lo, w, src, Quotation);
    var b2 := Puts(b1, lo, 0, num, LineNumber);
    var r := DrawColSeparator(b2, lo, w - 2);
    forall c: nat | c < |src|
      ensures At(r, lo, w + c) == Some(Cell(src[c], Quotation))
    {
      assert At(b1, lo, w + c) == Some(Cell(src[c], Quotation));
      assert CellKept(b1, b2, lo, w + c) && CellKept(b2, r, lo, w + c);
    }
  }

  /** The quoted row has `w + |src|` cells. */
  lemma QuoteRowLength(b: Buffer, lo: nat, src: string, num: string, w: nat)
    requires w >= 2 && lo == |b| && 1 <= |num| <= w - 2
    ensures |QuoteRow(b, lo, src, num, w)| == lo + 1 && |QuoteRow(b, lo, src, num, w)[lo]| == w + |src|
  {
    var b1 := Puts(b, lo, w, src, Quotation);
    if |src| > 0 {
      assert |b1[lo]| == w + |src|;
    } else {
      assert |b1| == lo;
    }
  }

  /** One character of the quoted row: the line number, the blanks before
      the gutter, the separator, or the source. */
  lemma QuoteRowChar(b: Buffer, lo: nat, src: string, num: string, w: nat, k: nat)
    requires w >= 2 && lo == |b| && 1 <= |num| <= w - 2 && k < w + |src|
    ensures |QuoteRow(b, lo, src, num, w)| == lo + 1 && |QuoteRow(b, lo, src, num, w)[lo]| == w + |src|
    ensures QuoteRow(b, lo, src, num, w)[lo][k].ch == QuotedText(src, num, w)[k]
  {
    QuoteRowLength(b, lo, src, num, w);
    QuotedTextIndex(src, num, w, k);
    if k < |num| {
      QuoteRowNumber(b, lo, src, num, w, k);
    } else if k < w - 2 {
      QuoteRowBlank(b, lo, src, num, w, k);
    } else if k < w {
      QuoteRowSeparator(b, lo, src, num, w);
    } else {
      QuoteRowSource(b, lo, src, num, w, k);
    }
  }

  lemma QuotedTextIndex(src: string, num: string, w: nat, k: nat)
    requires |num| + 2 <= w && k < w + |src|
    ensures QuotedText(src, num, w)[k]
            == if k < |num| then num[k] else if k < w - 2 then ' ' else if k < w then "| "[k - (w - 2)] else src[k - w]
  {
  }

  lemma QuoteRowNumber(b: Buffer, lo: nat, src: string, num: string, w: nat, k: nat)
    requires w >= 2 && k < |num| <= w - 2
    ensures At(QuoteRow(b, lo, src, num, w), lo, k) == Some(Cell(num[k], LineNumber))
  {
    var b2 := Puts(Puts(b, lo, w, src, Quotation), lo, 0, num, LineNumber);
    assert At(b2, lo, 0 + k) == Some(Cell(num[k], LineNumber));
    assert CellKept(b2, DrawColSeparator(b2, lo, w - 2), lo, k);
  }

  lemma QuoteRowBlank(b: Buffer, lo: nat, src: string, num: string, w: nat, k: nat)
    requires w >= 2 && lo == |b| && 1 <= |num| <= k < w - 2
    ensures At(QuoteRow(b, lo, src, num, w), lo, k) == Some(Blank)
  {
    var b1 := Puts(b, lo, w, src, Quotation);
    var b2 := Puts(b1, lo, 0, num, LineNumber);
    assert At(b, lo, k).None?;
    if At(b1, lo, k).Some? {
      assert |src| > 0;
      assert At(b1, lo, k) == Some(Blank);
      assert CellKept(b1, b2, lo, k) && CellKept(b2, DrawColSeparator(b2, lo, w - 2), lo, k);
    } else {
      assert At(b2, lo, k).None?;
    }
  }

  lemma QuoteRowSeparator(b: Buffer, lo: nat, src: string, num: string, w: nat)
    requires w >= 2
    ensures At(QuoteRow(b, lo, src, num, w), lo, w - 2) == Some(Cell('|', LineNumber))
    ensures At(QuoteRow(b, lo, src, num, w), lo, w - 1) == Some(Cell(' ', LineNumber))
  {
  }

  lemma QuoteRowSource(b: Buffer, lo: nat, src: string, num: string, w: nat, k: nat)
    requires |num| + 2 <= w <= k < w + |src|
    ensures At(QuoteRow(b, lo, src, num, w), lo, k) == Some(Cell(src[k - w], Quotation))
  {
    var b1 := Puts(b, lo, w, src, Quotation);
    var b2 := Puts(b1, lo, 0, num, LineNumber);
    assert At(b1, lo, w + (k - w)) == Some(Cell(src[k - w], Quotation));
    assert CellKept(b1, b2, lo, k) && CellKept(b2, DrawColSeparator(b2, lo, w - 2), lo, k);
  }

  // ---------------------------------------------------------------------------
  // Width of the underline row

  /** The number of cells of a row; 0 for a row not yet in the buffer. */
  function RowLen(b: Buffer, row: nat): nat
  {
    if row < |b| then |b[row]| else 0
  }

  /** The end column of the rightmost range that marks at least one column;
      0 when every range is empty. */
  function MaxEnd(anns: seq<Annotation>): nat
    decreases |anns|
  {
    if |anns| == 0 then 0
    else
      var last := anns[|anns| - 1];
      var m := MaxEnd(anns[..|anns| - 1]);
      if last.startCol < last.endCol then Max(m, last.endCol) else m
  }

  /** `MaxEnd` is the largest end column among non-empty ranges, and 0
      exactly when there is none. */
  lemma {:induction false} MaxEndIsMaximum(anns: seq<Annotation>)
    ensures forall a :: a in anns && a.startCol < a.endCol ==> a.endCol <= MaxEnd(anns)
    ensures MaxEnd(anns) > 0 ==> exists a :: a in anns && a.startCol < a.endCol && a.endCol == MaxEnd(anns)
    ensures MaxEnd(anns) == 0 <==> forall a :: a in anns ==> a.endCol <= a.startCol
    decreases |anns|
  {
    if |anns| > 0 {
      var init := anns[..|anns| - 1];
      var last := anns[|anns| - 1];
      MaxEndIsMaximum(init);
      assert anns == init + [last];
      assert forall a :: a in anns ==> a in init || a == last;
      if MaxEnd(anns) > 0 && MaxEnd(anns) != MaxEnd(init) {
        assert last in anns && last.endCol == MaxEnd(anns);
      }
    }
  }

  /** A mark at column `col` reaches at least `col + 1` cells on the
      underline row. */
  lemma MarkRowLen(b: Buffer, lo: nat, col: nat, a: Annotation)
    ensures RowLen(Mark(b, lo, col, a), lo + 1) == Max(RowLen(b, lo + 1), col + 1)
  {
    var b1 := Putc(b, lo + 1, col, UnderlineCell(a).ch, UnderlineStyle(a));
    assert RowLen(b1, lo + 1) == Max(RowLen(b, lo + 1), col + 1);
  }

  lemma {:induction false} MarkFromRowLen(b: Buffer, lo: nat, w: nat, a: Annotation, p: nat)
    ensures RowLen(MarkFrom(b, lo, w, a, p), lo + 1)
            == if p < a.endCol then Max(RowLen(b, lo + 1), w + a.endCol) else RowLen(b, lo + 1)
    decreases a.endCol - p
  {
    if p < a.endCol {
      var b1 := Mark(b, lo, w + p, a);
      assert MarkFrom(b, lo, w, a, p) == MarkFrom(b1, lo, w, a, p + 1);
      MarkRowLen(b, lo, w + p, a);
      MarkFromRowLen(b1, lo, w, a, p + 1);
    }
  }

  /** The underline row reaches exactly the rightmost marked column. */
  lemma {:induction false} HighlightRowLen(b: Buffer, lo: nat, w: nat, anns: seq<Annotation>)
    ensures RowLen(Highlight(b, lo, w, anns), lo + 1)
            == if MaxEnd(anns) == 0 then RowLen(b, lo + 1) else Max(RowLen(b, lo + 1), w + MaxEnd(anns))
    decreases |anns|
  {
    if |anns| > 0 {
      var init := anns[..|anns| - 1];
      var last := anns[|anns| - 1];
      HighlightRowLen(b, lo, w, init);
      MarkFromRowLen(Highlight(b, lo, w, init), lo, w, last, last.startCol);
    }
  }

  // ---------------------------------------------------------------------------
  // The stages of render_source_line

  /** The underline row below row `lo`, with its gutter separator. */
  function UnderlineRow(b: Buffer, lo: nat, w: nat, anns: seq<Annotation>): Buffer
    requires w >= 2
  {
    DrawColSeparator(Highlight(b, lo, w, anns), lo + 1, w - 2)
  }

  /** The rightmost label appended to the underline row after a space, when
      nothing overlaps it. */
  function InlineLabel(b: Buffer, lo: nat, labeled: seq<Annotation>, unlabeled: seq<Annotation>): Buffer
  {
    if LabelInline(labeled, unlabeled) then
      var last := labeled[|labeled| - 1];
      Append(b, lo + 1, " " + LabelText(last), LabelStyle(last))
    else b
  }

  /** The labels: the rightmost inline when it can be, the others hung
      below. */
  function LabelRows(b: Buffer, lo: nat, w: nat, anns: seq<Annotation>): Buffer
    requires w >= 2
  {
    if |Labeled(anns)| == 0 then b
    else StackFrom(InlineLabel(b, lo, Labeled(anns), Unlabeled(anns)), lo, w, Hanging(Labeled(anns), Unlabeled(anns)), 0)
  }

  /** `render_source_line`: draws `line` of `file` below the rows already
      in the buffer, the source starting at column `w`. */
  function RenderSourceLine(b: Buffer, file: FileMap, line: Line, w: nat): Buffer
    requires w >= 2 && line.lineIndex >= 1
  {
    var quoted := QuoteRow(b, |b|, SourceText(file, line), NatToString(line.lineIndex), w);
    if |line.annotations| == 0 then quoted
    else LabelRows(UnderlineRow(quoted, |b|, w, SortAnnotations(line.annotations)), |b|, w, SortAnnotations(line.annotations))
  }

  /** The labels hung below the underline row of a source line. */
  function HungLabels(anns: seq<Annotation>): seq<Annotation>
  {
    var sorted := SortAnnotations(anns);
    Hanging(Labeled(sorted), Unlabeled(sorted))
  }

  /** The number of rows a source line takes: one for the source, one for
      the underline row when there are annotations, and, when some label
      hangs, a blank row plus one row per hung label. */
  function RowsUsed(anns: seq<Annotation>): nat
  {
    if |anns| == 0 then 1
    else if |HungLabels(anns)| == 0 then 2
    else 3 + |HungLabels(anns)|
  }

  /** The style a source character ends up with: that of the last
      non-minimized annotation over it, in the sorted order, or the
      quotation style. */
  function SourceStyle(sorted: seq<Annotation>, c: nat): Style
  {
    match LastStyling(sorted, c)
    case Some(a) => UnderlineStyle(a)
    case None => Quotation
  }

  // ---------------------------------------------------------------------------
  // Effects of each stage

  /** The underline stage on a buffer whose last row is the source row
      `lo` adds row `lo + 1`, as wide as the rightmost mark and at least
      the gutter, and leaves the rows above the source row alone. */
  lemma UnderlineRowShape(b: Buffer, lo: nat, w: nat, anns: seq<Annotation>)
    requires w >= 2 && |b| == lo + 1
    ensures |UnderlineRow(b, lo, w, anns)| == lo + 2
    ensures RowLen(UnderlineRow(b, lo, w, anns), lo + 1) == w + MaxEnd(anns)
    ensures forall row: nat :: row < lo ==> RowKept(b, UnderlineRow(b, lo, w, anns), row)
  {
    var h := Highlight(b, lo, w, anns);
    var u := DrawColSeparator(h, lo + 1, w - 2);
    HighlightEffects(b, lo, w, anns);
    HighlightRowLen(b, lo, w, anns);
    forall row: nat | row < lo
      ensures RowKept(b, u, row)
    {
      KeptTwice(b, h, u, row);
    }
  }

  /** The underline stage restyles the source row as the annotations over
      each column say, and keeps its gutter. */
  lemma UnderlineRowSource(b: Buffer, lo: nat, w: nat, anns: seq<Annotation>)
    requires w >= 2
    ensures forall c: nat :: At(UnderlineRow(b, lo, w, anns), lo, w + c) == Restyled(At(b, lo, w + c), LastStyling(anns, c))
    ensures forall k: nat :: k < w ==> At(UnderlineRow(b, lo, w, anns), lo, k) == At(b, lo, k)
  {
    var h := Highlight(b, lo, w, anns);
    var u := DrawColSeparator(h, lo + 1, w - 2);
    HighlightEffects(b, lo, w, anns);
    assert RowKept(h, u, lo);
    forall k: nat | k < w
      ensures At(u, lo, k) == At(b, lo, k)
    {
      assert TwoRowsKept(b, h, lo, k);
    }
  }

  /** The underline stage marks each covered column with the last
      annotation over it, and draws the gutter separator. */
  lemma UnderlineRowMarks(b: Buffer, lo: nat, w: nat, anns: seq<Annotation>)
    requires w >= 2
    ensures forall c: nat :: LastCovering(anns, c).Some? ==>
              At(UnderlineRow(b, lo, w, anns), lo + 1, w + c) == Some(UnderlineCell(LastCovering(anns, c).value))
    ensures At(UnderlineRow(b, lo, w, anns), lo + 1, w - 2) == Some(Cell('|', LineNumber))
  {
    var h := Highlight(b, lo, w, anns);
    var u := DrawColSeparator(h, lo + 1, w - 2);
    HighlightEffects(b, lo, w, anns);
    forall c: nat | LastCovering(anns, c).Some?
      ensures At(u, lo + 1, w + c) == Some(UnderlineCell(LastCovering(anns, c).value))
    {
      assert CellKept(h, u, lo + 1, w + c);
    }
  }

  /** Appending the inline label keeps every existing cell and row, and
      puts the label right after the last cell of row `lo + 1`. */
  lemma InlineLabelEffects(b: Buffer, lo: nat, labeled: seq<Annotation>, unlabeled: seq<Annotation>)
    requires |b| == lo + 2
    ensures |InlineLabel(b, lo, labeled, unlabeled)| == lo + 2
    ensures forall row: nat :: row != lo + 1 ==> RowKept(b, InlineLabel(b, lo, labeled, unlabeled), row)
    ensures CellsKept(b, InlineLabel(b, lo, labeled, unlabeled), lo + 1)
    ensures LabelInline(labeled, unlabeled) ==>
              var last := labeled[|labeled| - 1];
              forall k :: 0 <= k < |LabelText(last)| + 1 ==>
                At(InlineLabel(b, lo, labeled, unlabeled), lo + 1, |b[lo + 1]| + k)
                == Some(Cell((" " + LabelText(last))[k], LabelStyle(last)))
    ensures !LabelInline(labeled, unlabeled) ==> InlineLabel(b, lo, labeled, unlabeled) == b
  {
    if LabelInline(labeled, unlabeled) {
      var last := labeled[|labeled| - 1];
      AppendKept(b, lo + 1, " " + LabelText(last), LabelStyle(last));
    }
  }

  /** `append` keeps every other row, and every cell of its own. */
  lemma AppendKept(b: Buffer, line: nat, s: string, style: Style)
    ensures forall row: nat :: row != line ==> RowKept(b, Append(b, line, s, style), row)
    ensures CellsKept(b, Append(b, line, s, style), line)
  {
    var r := Append(b, line, s, style);
    forall c: nat
      ensures CellKept(b, r, line, c)
    {
      if At(b, line, c).Some? {
        assert At(r, line, c) == At(b, line, c);
      }
    }
  }

  /** The label stage on a buffer of `lo + 2` rows adds a blank row and
      one row per hung label, if any label hangs. */
  lemma LabelRowsSize(b: Buffer, lo: nat, w: nat, anns: seq<Annotation>)
    requires w >= 2 && |b| == lo + 2
    ensures var hanging := Hanging(Labeled(anns), Unlabeled(anns));
            |LabelRows(b, lo, w, anns)| == if |hanging| == 0 then lo + 2 else lo + 3 + |hanging|
  {
    if |Labeled(anns)| > 0 {
      InlineLabelEffects(b, lo, Labeled(anns), Unlabeled(anns));
    }
  }

  /** The label stage keeps the rows above the underline row, and every
      cell of the underline row. */
  lemma LabelRowsFrame(b: Buffer, lo: nat, w: nat, anns: seq<Annotation>)
    requires w >= 2 && |b| == lo + 2
    ensures forall row: nat :: row < lo + 1 ==> RowKept(b, LabelRows(b, lo, w, anns), row)
    ensures CellsKept(b, LabelRows(b, lo, w, anns), lo + 1)
  {
    var labeled := Labeled(anns);
    var unlabeled := Unlabeled(anns);
    if |labeled| > 0 {
      var b1 := InlineLabel(b, lo, labeled, unlabeled);
      var hanging := Hanging(labeled, unlabeled);
      var r := StackFrom(b1, lo, w, hanging, 0);
      InlineLabelEffects(b, lo, labeled, unlabeled);
      StackKeepsUpperRows(b, b1, r, lo, w, hanging);
    }
  }

  /** Hanging labels below a buffer that an inline label kept the cells
      of. */
  lemma StackKeepsUpperRows(b: Buffer, b1: Buffer, r: Buffer, lo: nat, w: nat, hanging: seq<Annotation>)
    requires w >= 2 && r == StackFrom(b1, lo, w, hanging, 0)
    requires forall row: nat :: row != lo + 1 ==> RowKept(b, b1, row)
    requires CellsKept(b, b1, lo + 1)
    ensures forall row: nat :: row < lo + 1 ==> RowKept(b, r, row)
    ensures CellsKept(b, r, lo + 1)
  {
    var ul := lo + 1;
    if |hanging| > 0 {
      StackFromFrame(b1, lo, w, hanging, 0);
    }
    assert RowKept(b1, r, ul);
    forall row: nat | row < ul
      ensures RowKept(b, r, row)
    {
      KeptTwice(b, b1, r, row);
    }
    forall c: nat
      ensures CellKept(b, r, ul, c)
    {
      assert CellKept(b, b1, ul, c);
    }
  }

  /** The hung labels of the label stage. */
  lemma LabelRowsHung(b: Buffer, lo: nat, w: nat, anns: seq<Annotation>, i: nat, k: nat, row: nat, col: nat)
    requires w >= 2
    requires var hanging := Hanging(Labeled(anns), Unlabeled(anns));
             i < |hanging| && k < |LabelText(hanging[i])| && row == lo + 2 + |hanging| - i && col == w + hanging[i].startCol + k
    ensures var a := Hanging(Labeled(anns), Unlabeled(anns))[i];
            At(LabelRows(b, lo, w, anns), row, col) == Some(Cell(LabelText(a)[k], LabelStyle(a)))
  {
    var labeled := Labeled(anns);
    var unlabeled := Unlabeled(anns);
    var b1 := InlineLabel(b, lo, labeled, unlabeled);
    StackedLabelAt(b1, lo, w, Hanging(labeled, unlabeled), 0, i, k, row, col);
  }

  /** Restyling leaves the text of a row as it was. */
  lemma RestyledRowText(q: Buffer, u: Buffer, lo: nat, w: nat, anns: seq<Annotation>)
    requires lo < |q| && lo < |u|
    requires forall c: nat :: At(u, lo, w + c) == Restyled(At(q, lo, w + c), LastStyling(anns, c))
    requires forall k: nat :: k < w ==> At(u, lo, k) == At(q, lo, k)
    ensures RowText(u[lo]) == RowText(q[lo])
  {
    forall k: nat
      ensures At(u, lo, k).Some? == At(q, lo, k).Some?
      ensures At(u, lo, k).Some? ==> At(u, lo, k).value.ch == At(q, lo, k).value.ch
    {
      if k >= w {
        assert At(u, lo, w + (k - w)) == Restyled(At(q, lo, w + (k - w)), LastStyling(anns, k - w));
      }
    }
    assert |u[lo]| == |q[lo]| by {
      assert At(q, lo, |u[lo]|).Some? == At(u, lo, |u[lo]|).Some?;
      assert At(u, lo, |q[lo]|).Some? == At(q, lo, |q[lo]|).Some?;
    }
    forall k | 0 <= k < |u[lo]|
      ensures RowText(u[lo])[k] == RowText(q[lo])[k]
    {
      assert At(u, lo, k).Some?;
    }
  }

  // ---------------------------------------------------------------------------
  // What a rendered source line looks like

  /** The annotations of a line, sorted as the emitter sorts them. */
  function Sorted(line: Line): seq<Annotation>
  {
    SortAnnotations(line.annotations)
  }

  /** The stages of `RenderSourceLine` for a line with annotations. */
  lemma RenderSourceLineStages(b: Buffer, file: FileMap, line: Line, w: nat)
    requires w >= 2 && line.lineIndex >= 1 && |line.annotations| > 0
    ensures RenderSourceLine(b, file, line, w)
            == LabelRows(UnderlineRow(QuoteRow(b, |b|, SourceText(file, line), NatToString(line.lineIndex), w), |b|, w, Sorted(line)),
                         |b|, w, Sorted(line))
  {
  }

  /** Drawing a source line leaves the rows above it alone and adds exactly
      `RowsUsed` rows. */
  lemma RenderSourceLineRows(b: Buffer, file: FileMap, line: Line, w: nat)
    requires w >= 2 && line.lineIndex >= 1
    ensures |RenderSourceLine(b, file, line, w)| == |b| + RowsUsed(line.annotations)
    ensures forall row: nat :: row < |b| ==> RowKept(b, RenderSourceLine(b, file, line, w), row)
  {
    var lo := |b|;
    var src, num := SourceText(file, line), NatToString(line.lineIndex);
    var q := QuoteRow(b, lo, src, num, w);
    QuoteRowSize(b, lo, src, num, w);
    if |line.annotations| > 0 {
      var sorted := Sorted(line);
      var u := UnderlineRow(q, lo, w, sorted);
      var r := LabelRows(u, lo, w, sorted);
      RenderSourceLineStages(b, file, line, w);
      UnderlineRowShape(q, lo, w, sorted);
      LabelRowsSize(u, lo, w, sorted);
      LabelRowsFrame(u, lo, w, sorted);
      forall row: nat | row < lo
        ensures RowKept(b, r, row)
      {
        KeptThrough(b, q, u, r, row);
      }
    }
  }

  /** The label stage leaves the source row as the underline stage left
      it. */
  lemma LabelRowsKeepSourceRow(q: Buffer, lo: nat, w: nat, anns: seq<Annotation>)
    requires w >= 2 && |q| == lo + 1
    ensures RowKept(UnderlineRow(q, lo, w, anns), LabelRows(UnderlineRow(q, lo, w, anns), lo, w, anns), lo)
    ensures lo < |UnderlineRow(q, lo, w, anns)|
  {
    UnderlineRowShape(q, lo, w, anns);
    LabelRowsFrame(UnderlineRow(q, lo, w, anns), lo, w, anns);
  }

  /** The source row reads line number, gutter and source text. The line
      number must fit the gutter, as the emitter's choice of `w` ensures. */
  lemma RenderSourceLineQuote(b: Buffer, file: FileMap, line: Line, w: nat)
    requires w >= 2 && line.lineIndex >= 1 && |NatToString(line.lineIndex)| + 2 <= w
    ensures |b| < |RenderSourceLine(b, file, line, w)|
    ensures RowText(RenderSourceLine(b, file, line, w)[|b|]) == QuotedText(SourceText(file, line), NatToString(line.lineIndex), w)
  {
    var lo := |b|;
    var src, num := SourceText(file, line), NatToString(line.lineIndex);
    var q := QuoteRow(b, lo, src, num, w);
    QuoteRowText(b, lo, src, num, w);
    if |line.annotations| > 0 {
      var sorted := Sorted(line);
      var u := UnderlineRow(q, lo, w, sorted);
      RenderSourceLineStages(b, file, line, w);
      UnderlineRowSource(q, lo, w, sorted);
      LabelRowsKeepSourceRow(q, lo, w, sorted);
      RestyledRowText(q, u, lo, w, sorted);
    }
  }

  /** Each source character carries the style of the last non-minimized
      annotation over it, or the quotation style. */
  lemma RenderSourceLineStyle(b: Buffer, file: FileMap, line: Line, w: nat, c: nat)
    requires w >= 2 && line.lineIndex >= 1 && |NatToString(line.lineIndex)| + 2 <= w
    requires c < |SourceText(file, line)|
    ensures At(RenderSourceLine(b, file, line, w), |b|, w + c) == Some(Cell(SourceText(file, line)[c], SourceStyle(Sorted(line), c)))
  {
    var lo := |b|;
    var src, num := SourceText(file, line), NatToString(line.lineIndex);
    var q := QuoteRow(b, lo, src, num, w);
    QuoteRowSize(b, lo, src, num, w);
    QuoteRowCells(b, lo, src, num, w);
    if |line.annotations| == 0 {
      assert Sorted(line) == [];
    } else {
      var sorted := Sorted(line);
      RenderSourceLineStages(b, file, line, w);
      UnderlineRowSource(q, lo, w, sorted);
      LabelRowsKeepSourceRow(q, lo, w, sorted);
    }
  }

  /** Below the source, each column some annotation covers shows the mark
      of the last one over it in the sorted order, and the gutter shows the
      separator. */
  lemma RenderSourceLineUnderline(b: Buffer, file: FileMap, line: Line, w: nat)
    requires w >= 2 && line.lineIndex >= 1 && |line.annotations| > 0
    ensures |b| + 1 < |RenderSourceLine(b, file, line, w)|
    ensures forall c: nat :: LastCovering(Sorted(line), c).Some? ==>
              At(RenderSourceLine(b, file, line, w), |b| + 1, w + c) == Some(UnderlineCell(LastCovering(Sorted(line), c).value))
    ensures At(RenderSourceLine(b, file, line, w), |b| + 1, w - 2) == Some(Cell('|', LineNumber))
  {
    var lo := |b|;
    var src, num := SourceText(file, line), NatToString(line.lineIndex);
    var q := QuoteRow(b, lo, src, num, w);
    var sorted := Sorted(line);
    var u := UnderlineRow(q, lo, w, sorted);
    var r := LabelRows(u, lo, w, sorted);
    RenderSourceLineStages(b, file, line, w);
    QuoteRowSize(b, lo, src, num, w);
    UnderlineRowShape(q, lo, w, sorted);
    UnderlineRowMarks(q, lo, w, sorted);
    LabelRowsSize(u, lo, w, sorted);
    LabelRowsFrame(u, lo, w, sorted);
    var ul := lo + 1;
    assert CellsKept(u, r, ul);
    assert CellKept(u, r, ul, w - 2);
    forall c: nat | LastCovering(sorted, c).Some?
      ensures At(r, ul, w + c) == Some(UnderlineCell(LastCovering(sorted, c).value))
    {
      assert CellKept(u, r, ul, w + c);
    }
  }

  /** One character of the inline label, right after the underline marks. */
  lemma InlineLabelAt(b: Buffer, lo: nat, labeled: seq<Annotation>, unlabeled: seq<Annotation>, k: nat, row: nat, col: nat)
    requires |b| == lo + 2 && LabelInline(labeled, unlabeled)
    requires k < |LabelText(labeled[|labeled| - 1])| + 1 && row == lo + 1 && col == |b[lo + 1]| + k
    ensures var last := labeled[|labeled| - 1];
            At(InlineLabel(b, lo, labeled, unlabeled), row, col) == Some(Cell((" " + LabelText(last))[k], LabelStyle(last)))
  {
    InlineLabelEffects(b, lo, labeled, unlabeled);
  }

  /** Stacking the hung labels leaves the underline row alone. */
  lemma StackKeepsUnderlineRow(b: Buffer, lo: nat, w: nat, hanging: seq<Annotation>, row: nat)
    requires w >= 2 && row == lo + 1
    ensures RowKept(b, StackFrom(b, lo, w, hanging, 0), row)
  {
    if |hanging| > 0 {
      StackFromFrame(b, lo, w, hanging, 0);
    }
  }

  /** With labels present, the label stage is the inline label followed by
      the stack of hung ones. */
  lemma LabelRowsStages(u: Buffer, lo: nat, w: nat, anns: seq<Annotation>)
    requires w >= 2 && |Labeled(anns)| > 0
    ensures LabelRows(u, lo, w, anns) == StackFrom(InlineLabel(u, lo, Labeled(anns), Unlabeled(anns)), lo, w, Hanging(Labeled(anns), Unlabeled(anns)), 0)
  {
  }

  /** The inline label on the underline row survives the label stage. */
  lemma LabelRowsInline(u: Buffer, lo: nat, w: nat, anns: seq<Annotation>, k: nat, row: nat, col: nat)
    requires w >= 2 && |u| == lo + 2 && LabelInline(Labeled(anns), Unlabeled(anns))
    requires var last := Labeled(anns)[|Labeled(anns)| - 1];
             k < |LabelText(last)| + 1 && row == lo + 1 && col == |u[lo + 1]| + k
    ensures var last := Labeled(anns)[|Labeled(anns)| - 1];
            At(LabelRows(u, lo, w, anns), row, col) == Some(Cell((" " + LabelText(last))[k], LabelStyle(last)))
  {
    LabelRowsStages(u, lo, w, anns);
    InlineSurvivesStack(u, lo, w, Labeled(anns), Unlabeled(anns), k, row, col);
  }

  /** The inline label survives stacking the hung labels below it. */
  lemma InlineSurvivesStack(u: Buffer, lo: nat, w: nat, labeled: seq<Annotation>, unlabeled: seq<Annotation>, k: nat, row: nat, col: nat)
    requires w >= 2 && |u| == lo + 2 && LabelInline(labeled, unlabeled)
    requires k < |LabelText(labeled[|labeled| - 1])| + 1 && row == lo + 1 && col == |u[lo + 1]| + k
    ensures var last := labeled[|labeled| - 1];
            At(StackFrom(InlineLabel(u, lo, labeled, unlabeled), lo, w, Hanging(labeled, unlabeled), 0), row, col)
            == Some(Cell((" " + LabelText(last))[k], LabelStyle(last)))
  {
    var b1 := InlineLabel(u, lo, labeled, unlabeled);
    var hanging := Hanging(labeled, unlabeled);
    InlineLabelAt(u, lo, labeled, unlabeled, k, row, col);
    StackKeepsUnderlineRow(b1, lo, w, hanging, row);
    CellOfKeptRow(b1, StackFrom(b1, lo, w, hanging, 0), row, col);
  }

  /** When no other annotation overlaps the rightmost labelled one, its
      label follows the underline marks on the same row, after a space,
      from column `w + MaxEnd`. */
  lemma RenderSourceLineInlineLabel(b: Buffer, file: FileMap, line: Line, w: nat, k: nat, row: nat, col: nat)
    requires w >= 2 && line.lineIndex >= 1 && |line.annotations| > 0
    requires LabelInline(Labeled(Sorted(line)), Unlabeled(Sorted(line)))
    requires var last := Labeled(Sorted(line))[|Labeled(Sorted(line))| - 1];
             k < |LabelText(last)| + 1 && row == |b| + 1 && col == w + MaxEnd(Sorted(line)) + k
    ensures var last := Labeled(Sorted(line))[|Labeled(Sorted(line))| - 1];
            At(RenderSourceLine(b, file, line, w), row, col) == Some(Cell((" " + LabelText(last))[k], LabelStyle(last)))
  {
    var lo := |b|;
    var src, num := SourceText(file, line), NatToString(line.lineIndex);
    var q := QuoteRow(b, lo, src, num, w);
    var sorted := Sorted(line);
    var u := UnderlineRow(q, lo, w, sorted);
    RenderSourceLineStages(b, file, line, w);
    QuoteRowSize(b, lo, src, num, w);
    UnderlineRowShape(q, lo, w, sorted);
    LabelRowsInline(u, lo, w, sorted, k, row, col);
  }

  /** Each label that does not fit inline hangs at its annotation's start
      column, label `i` of the hung ones on row `|b| + 2 + |hanging| - i`:
      the first hung label lowest, each on a row of its own. */
  lemma RenderSourceLineHungLabel(b: Buffer, file: FileMap, line: Line, w: nat, i: nat, k: nat, row: nat, col: nat)
    requires w >= 2 && line.lineIndex >= 1 && |line.annotations| > 0
    requires var hanging := HungLabels(line.annotations);
             i < |hanging| && k < |LabelText(hanging[i])| && row == |b| + 2 + |hanging| - i && col == w + hanging[i].startCol + k
    ensures var a := HungLabels(line.annotations)[i];
            At(RenderSourceLine(b, file, line, w), row, col) == Some(Cell(LabelText(a)[k], LabelStyle(a)))
  {
    var q := QuoteRow(b, |b|, SourceText(file, line), NatToString(line.lineIndex), w);
    RenderSourceLineStages(b, file, line, w);
    LabelRowsHung(UnderlineRow(q, |b|, w, Sorted(line)), |b|, w, Sorted(line), i, k, row, col);
  }
}

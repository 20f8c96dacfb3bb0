/** The source lines of one file in `emit_message_default`: each annotated
    line drawn by `render_source_line`, and between two of them either
    nothing, the one line they skip, or a `...` row. */
module SourceLines {
  import opened Common
  import opened StyledBuffer
  import opened Annotations
  import opened Render
  import Diagnostic

  /** What is drawn between two consecutive annotated lines. */
  datatype Gap = Adjacent | OneLine(number: nat, text: string) | Elided

  /** The gap between annotated lines `cur` and `next`: more than one
      skipped line is elided; exactly one skipped line is shown, numbered
      `next - 1`, read with `get_line` at `cur`'s (1-based) index, which is
      the 0-based index of the skipped line. The line indices are
      subtracted as integers; in a file's sorted line list `next` is always
      the larger. The gap is decided by how many lines lie strictly between
      the two, and a single skipped line is that line, numbered and read as
      `render_source_line` would number and read it. */
  function LineGap(file: FileMap, cur: Line, next: Line): (r: Gap)
    ensures r == Elided <==> next.lineIndex > cur.lineIndex + 2
    ensures r == Adjacent <==> next.lineIndex <= cur.lineIndex + 1
    ensures r.OneLine? <==> next.lineIndex == cur.lineIndex + 2
    ensures r.OneLine? ==>
              var skipped := Line(cur.lineIndex + 1, []);
              r == OneLine(skipped.lineIndex, SourceText(file, skipped))
  {
    var delta := next.lineIndex - cur.lineIndex;
    if delta > 2 then Elided
    else if delta == 2 then
      OneLine(next.lineIndex - 1, match GetLine(file, cur.lineIndex) case Some(t) => t case None => "")
    else Adjacent
  }

  /** The rows a gap adds. */
  function GapRows(g: Gap): nat
  {
    if g.Adjacent? then 0 else 1
  }

  /** Draws a gap below the rows already in the buffer; `maxLen` is the
      width of the line-number gutter. */
  function DrawGap(b: Buffer, g: Gap, maxLen: nat): Buffer
  {
    match g
    case Adjacent => b
    case Elided => Puts(b, |b|, 0, "...", LineNumber)
    case OneLine(n, t) => SkippedRow(b, |b|, t, NatToString(n), maxLen + 3)
  }

  /** A skipped line on row `lo`, in the order the gap code writes it: the
      line number from column 0, the separator two columns before `w`,
      then the source from column `w`. */
  function SkippedRow(b: Buffer, lo: nat, src: string, num: string, w: nat): Buffer
    requires w >= 2
  {
    Puts(DrawColSeparator(Puts(b, lo, 0, num, LineNumber), lo, w - 2), lo, w, src, Quotation)
  }

  /** A skipped row is one new row, whatever the width of its number. */
  lemma SkippedRowSize(b: Buffer, lo: nat, src: string, num: string, w: nat)
    requires w >= 2 && lo == |b| && |num| >= 1
    ensures |SkippedRow(b, lo, src, num, w)| == lo + 1
    ensures forall row: nat :: row < lo ==> RowKept(b, SkippedRow(b, lo, src, num, w), row)
  {
    var s1 := Puts(b, lo, 0, num, LineNumber);
    var s2 := DrawColSeparator(s1, lo, w - 2);
    var s3 := Puts(s2, lo, w, src, Quotation);
    forall row: nat | row < lo
      ensures RowKept(b, s3, row)
    {
      KeptThrough(b, s1, s2, s3, row);
    }
  }

  /** Cell `c` of a quoted row whose number fits the gutter: the number,
      blanks, `| ` and the source, each in its style. */
  function QuotedCell(src: string, num: string, w: nat, c: nat): Cell
    requires 2 <= w && |num| <= w - 2 && c < w + |src|
  {
    if c < |num| then Cell(num[c], LineNumber)
    else if c < w - 2 then Blank
    else if c == w - 2 then Cell('|', LineNumber)
    else if c == w - 1 then Cell(' ', LineNumber)
    else Cell(src[c - w], Quotation)
  }

  lemma SkippedRowCell(b: Buffer, lo: nat, src: string, num: string, w: nat, c: nat)
    requires w >= 2 && lo == |b| && 1 <= |num| <= w - 2 && c < w + |src|
    ensures At(SkippedRow(b, lo, src, num, w), lo, c) == Some(QuotedCell(src, num, w, c))
  {
    if c < w - 2 {
      SkippedCellGutter(b, lo, src, num, w, c);
    } else if c >= w {
      SkippedCellSource(b, lo, src, num, w, c);
    }
  }

  /** The gutter of a skipped row: the number's digits, then blanks. */
  lemma SkippedCellGutter(b: Buffer, lo: nat, src: string, num: string, w: nat, c: nat)
    requires w >= 2 && lo == |b| && 1 <= |num| <= w - 2 && c < w - 2
    ensures At(SkippedRow(b, lo, src, num, w), lo, c) == Some(QuotedCell(src, num, w, c))
  {
    var s1 := Puts(b, lo, 0, num, LineNumber);
    if c < |num| {
      assert At(s1, lo, c) == Some(Cell(num[c], LineNumber));
    } else {
      assert At(s1, lo, c).None?;
    }
  }

  /** The source part of a skipped row. */
  lemma SkippedCellSource(b: Buffer, lo: nat, src: string, num: string, w: nat, c: nat)
    requires w >= 2 && lo == |b| && 1 <= |num| <= w - 2 && w <= c < w + |src|
    ensures At(SkippedRow(b, lo, src, num, w), lo, c) == Some(QuotedCell(src, num, w, c))
  {
    var s2 := DrawColSeparator(Puts(b, lo, 0, num, LineNumber), lo, w - 2);
    PutsWritesCell(s2, lo, w, src, Quotation, c - w, c);
  }

  lemma QuoteRowCell(b: Buffer, lo: nat, src: string, num: string, w: nat, c: nat)
    requires w >= 2 && lo == |b| && 1 <= |num| <= w - 2 && c < w + |src|
    ensures At(QuoteRow(b, lo, src, num, w), lo, c) == Some(QuotedCell(src, num, w, c))
  {
    var q1 := Puts(b, lo, w, src, Quotation);
    var q2 := Puts(q1, lo, 0, num, LineNumber);
    QuoteRowLength(b, lo, src, num, w);
    if c < |num| {
      assert At(q2, lo, c) == Some(Cell(num[c], LineNumber));
    } else if c < w - 2 {
      if |src| > 0 {
        assert At(q1, lo, c) == Some(Blank);
      } else {
        assert At(q2, lo, c).None?;
      }
    } else if c >= w {
      assert At(q1, lo, w + (c - w)) == Some(Cell(src[c - w], Quotation));
    }
  }

  /** When the number fits the gutter, writing it first or the source
      first gives the same row. */
  lemma SkippedRowAsQuoteRow(b: Buffer, lo: nat, src: string, num: string, w: nat)
    requires w >= 2 && lo == |b| && 1 <= |num| <= w - 2
    ensures SkippedRow(b, lo, src, num, w) == QuoteRow(b, lo, src, num, w)
  {
    var s := SkippedRow(b, lo, src, num, w);
    var q := QuoteRow(b, lo, src, num, w);
    SkippedRowSize(b, lo, src, num, w);
    QuoteRowSize(b, lo, src, num, w);
    SkippedRowSameRow(b, lo, src, num, w);
    forall row: nat | row < |s|
      ensures s[row] == q[row]
    {
      if row < lo {
        assert RowKept(b, s, row) && RowKept(b, q, row);
      }
    }
  }

  /** The new row itself reads the same either way. */
  lemma SkippedRowSameRow(b: Buffer, lo: nat, src: string, num: string, w: nat)
    requires w >= 2 && lo == |b| && 1 <= |num| <= w - 2
    ensures |SkippedRow(b, lo, src, num, w)| == lo + 1 == |QuoteRow(b, lo, src, num, w)|
    ensures SkippedRow(b, lo, src, num, w)[lo] == QuoteRow(b, lo, src, num, w)[lo]
  {
    var s := SkippedRow(b, lo, src, num, w);
    var q := QuoteRow(b, lo, src, num, w);
    SkippedRowSize(b, lo, src, num, w);
    QuoteRowLength(b, lo, src, num, w);
    QuoteRowSize(b, lo, src, num, w);
    assert |DrawColSeparator(Puts(b, lo, 0, num, LineNumber), lo, w - 2)[lo]| == w;
    assert |s[lo]| == w + |src|;
    forall c: nat | c < w + |src|
      ensures s[lo][c] == q[lo][c]
    {
      SkippedRowCell(b, lo, src, num, w, c);
      QuoteRowCell(b, lo, src, num, w, c);
    }
  }

  /** A number wider than the gutter is overwritten by the separator and
      the source: line 12344 skipped under a one-column gutter reads
      `12| ab`. */
  lemma SkippedRowWideNumber()
    ensures Text(DrawGap([], OneLine(12344, "ab"), 1), 0) == "12| ab"
  {
    Digits12344();
    WideRowText("12344");
  }

  lemma Digits12344()
    ensures NatToString(12344) == "12344"
  {
    assert NatToString(1) == "1";
    assert NatToString(12) == "12";
    assert NatToString(123) == "123";
    assert NatToString(1234) == "1234";
  }

  /** The row for a five-digit number written before a separator at
      column 2 and the source `ab` at column 4. */
  lemma WideRowText(num: string)
    requires |num| == 5 && num[0] == '1' && num[1] == '2'
    ensures Text(SkippedRow([], 0, "ab", num, 4), 0) == "12| ab"
  {
    var s1 := Puts([], 0, 0, num, LineNumber);
    var s2 := DrawColSeparator(s1, 0, 2);
    var r := SkippedRow([], 0, "ab", num, 4);
    assert |s2[0]| == 5;
    assert |r[0]| == 6;
    forall c: nat | c < 6
      ensures At(r, 0, c).value.ch == "12| ab"[c]
    {
      if c < 2 {
        assert At(s1, 0, c) == Some(Cell(num[c], LineNumber));
      } else if c >= 4 {
        assert At(r, 0, 4 + (c - 4)) == Some(Cell("ab"[c - 4], Quotation));
      }
    }
    TextOfCells(r, 0, "12| ab");
  }

  /** A skipped line whose number fits the gutter is drawn exactly as
      `render_source_line` draws that line with no annotations. */
  lemma SkippedLineAsSource(b: Buffer, file: FileMap, cur: Line, next: Line, maxLen: nat)
    requires next.lineIndex == cur.lineIndex + 2
    requires |NatToString(cur.lineIndex + 1)| <= maxLen + 1
    ensures DrawGap(b, LineGap(file, cur, next), maxLen) == RenderSourceLine(b, file, Line(cur.lineIndex + 1, []), maxLen + 3)
  {
    var skipped := Line(cur.lineIndex + 1, []);
    var g := LineGap(file, cur, next);
    assert g == OneLine(skipped.lineIndex, SourceText(file, skipped));
    SkippedRowAsQuoteRow(b, |b|, SourceText(file, skipped), NatToString(skipped.lineIndex), maxLen + 3);
  }

  /** A gap adds `GapRows` rows and keeps the rows above. */
  lemma DrawGapRows(b: Buffer, g: Gap, maxLen: nat)
    ensures |DrawGap(b, g, maxLen)| == |b| + GapRows(g)
    ensures forall row: nat :: row < |b| ==> RowKept(b, DrawGap(b, g, maxLen), row)
  {
    match g
    case Adjacent =>
    case Elided =>
    case OneLine(n, t) =>
      SkippedRowSize(b, |b|, t, NatToString(n), maxLen + 3);
  }

  /** An elided gap is one `...` row; a skipped line is one quoted row. */
  lemma DrawGapText(b: Buffer, g: Gap, maxLen: nat)
    requires g.OneLine? ==> |NatToString(g.number)| <= maxLen + 1
    ensures g.Elided? ==> Text(DrawGap(b, g, maxLen), |b|) == "..."
    ensures g.OneLine? ==> Text(DrawGap(b, g, maxLen), |b|) == QuotedText(g.text, NatToString(g.number), maxLen + 3)
  {
    match g
    case Adjacent =>
    case Elided => ElidedGapText(b, maxLen);
    case OneLine(n, t) => OneLineGapText(b, n, t, maxLen);
  }

  lemma ElidedGapText(b: Buffer, maxLen: nat)
    ensures Text(DrawGap(b, Elided, maxLen), |b|) == "..."
  {
    PutsText(b, |b|, 0, "...", LineNumber);
    ConcatEmpty("...");
  }

  lemma OneLineGapText(b: Buffer, n: nat, t: string, maxLen: nat)
    requires |NatToString(n)| <= maxLen + 1
    ensures Text(DrawGap(b, OneLine(n, t), maxLen), |b|) == QuotedText(t, NatToString(n), maxLen + 3)
  {
    SkippedRowText(b, t, NatToString(n), maxLen + 3);
  }

  lemma SkippedRowText(b: Buffer, t: string, num: string, w: nat)
    requires w >= 2 && 1 <= |num| <= w - 2
    ensures Text(SkippedRow(b, |b|, t, num, w), |b|) == QuotedText(t, num, w)
  {
    SkippedRowAsQuoteRow(b, |b|, t, num, w);
    QuoteRowText(b, |b|, t, num, w);
  }

  // ---------------------------------------------------------------------------
  // A file's lines

  /** Every line number of the list fits a gutter of `maxLen + 1`
      columns. */
  predicate Fits(lines: seq<Line>, maxLen: nat)
  {
    forall j :: 0 <= j < |lines| ==> 1 <= lines[j].lineIndex && |NatToString(lines[j].lineIndex)| <= maxLen + 1
  }

  lemma FitsTail(lines: seq<Line>, maxLen: nat)
    requires |lines| > 0 && Fits(lines, maxLen)
    ensures Fits(lines[1..], maxLen)
  {
    assert forall j :: 0 <= j < |lines| - 1 ==> lines[1..][j] == lines[j + 1];
  }

  lemma NumberedTail(lines: seq<Line>)
    requires |lines| > 0 && LinesNumbered(lines)
    ensures LinesNumbered(lines[1..])
  {
    assert forall j :: 0 <= j < |lines| - 1 ==> lines[1..][j] == lines[j + 1];
  }

  /** The gap after line `i` of the list: to line `i + 1`, or nothing
      after the last line. */
  function GapAfter(file: FileMap, lines: seq<Line>, i: nat): Gap
    requires i < |lines|
  {
    if i + 1 < |lines| then LineGap(file, lines[i], lines[i + 1]) else Adjacent
  }

  /** How a gap reads when it is drawn: `...`, or the skipped line quoted
      with its number, which fits the gutter. */
  predicate GapReads(g: Gap, t: string, maxLen: nat)
  {
    && (g.Elided? ==> t == "...")
    && (g.OneLine? ==> |NatToString(g.number)| <= maxLen + 1 && t == QuotedText(g.text, NatToString(g.number), maxLen + 3))
  }

  /** The number of a skipped line fits the gutter when the next line's
      does. */
  lemma GapNumberFits(file: FileMap, lines: seq<Line>, i: nat, maxLen: nat)
    requires i < |lines| && Fits(lines, maxLen)
    ensures GapAfter(file, lines, i).OneLine? ==> |NatToString(GapAfter(file, lines, i).number)| <= maxLen + 1
  {
    if GapAfter(file, lines, i).OneLine? {
      Diagnostic.NatToStringMonotone(lines[i + 1].lineIndex - 1, lines[i + 1].lineIndex);
    }
  }

  // ---------------------------------------------------------------------------
  // The loop over a file's lines

  /** The two drawing steps of the loop: an annotated line, and the gap
      after it. */
  datatype Painter = Painter(line: (Buffer, Line) -> Buffer, gap: (Buffer, Gap) -> Buffer)

  /** What the loop relies on from its drawing steps. A numbered line adds
      `RowsUsed` rows, keeps the rows above, and its first new row quotes
      it when its number fits the gutter; a gap adds `GapRows` rows, keeps
      the rows above, and reads as `GapReads` says. */
  ghost predicate Paints(p: Painter, rows: Line -> nat, file: FileMap, maxLen: nat)
  {
    && PaintsRows(p, rows)
    && (forall b: Buffer, line: Line {:trigger Text(p.line(b, line), |b|)} ::
          line.lineIndex >= 1 && |NatToString(line.lineIndex)| <= maxLen + 1 ==>
            Text(p.line(b, line), |b|) == QuotedText(SourceText(file, line), NatToString(line.lineIndex), maxLen + 3))
    && (forall b: Buffer, g: Gap {:trigger Text(p.gap(b, g), |b|)} ::
          (g.OneLine? ==> |NatToString(g.number)| <= maxLen + 1) ==> GapReads(g, Text(p.gap(b, g), |b|), maxLen))
  }

  /** The rows each step adds, keeping the rows above. */
  ghost predicate PaintsRows(p: Painter, rows: Line -> nat)
  {
    && (forall b: Buffer, line: Line {:trigger Extends(b, p.line(b, line), rows(line))} ::
          line.lineIndex >= 1 ==> Extends(b, p.line(b, line), rows(line)))
    && (forall b: Buffer, g: Gap {:trigger Extends(b, p.gap(b, g), GapRows(g))} :: Extends(b, p.gap(b, g), GapRows(g)))
  }

  /** The emitter's drawing steps: `render_source_line` with the source
      after the gutter and its `| ` separator, and `DrawGap`. Lines are
      numbered from 1; for a line numbered 0, which the loop never sees,
      the buffer is left as it is. */
  function SourcePainter(file: FileMap, maxLen: nat): Painter
  {
    Painter((b: Buffer, line: Line) => if line.lineIndex >= 1 then RenderSourceLine(b, file, line, maxLen + 3) else b,
            (b: Buffer, g: Gap) => DrawGap(b, g, maxLen))
  }

  /** The rows `render_source_line` takes for a line. */
  function LineRows(line: Line): nat
  {
    RowsUsed(line.annotations)
  }

  /** The emitter's drawing steps add the rows the loop counts. */
  lemma SourcePainterRows(file: FileMap, maxLen: nat)
    ensures PaintsRows(SourcePainter(file, maxLen), LineRows)
  {
    var p := SourcePainter(file, maxLen);
    forall b: Buffer, line: Line | line.lineIndex >= 1
      ensures Extends(b, p.line(b, line), LineRows(line))
    {
      RenderSourceLineExtends(b, file, line, maxLen + 3);
    }
    forall b: Buffer, g: Gap
      ensures Extends(b, p.gap(b, g), GapRows(g))
    {
      DrawGapExtends(b, g, maxLen);
    }
  }

  /** The emitter's drawing steps are such steps. */
  lemma SourcePainterPaints(file: FileMap, maxLen: nat)
    ensures Paints(SourcePainter(file, maxLen), LineRows, file, maxLen)
  {
    var p := SourcePainter(file, maxLen);
    SourcePainterRows(file, maxLen);
    forall b: Buffer, line: Line | line.lineIndex >= 1 && |NatToString(line.lineIndex)| <= maxLen + 1
      ensures Text(p.line(b, line), |b|) == QuotedText(SourceText(file, line), NatToString(line.lineIndex), maxLen + 3)
    {
      RenderSourceLineQuotes(b, file, line, maxLen);
    }
    forall b: Buffer, g: Gap | g.OneLine? ==> |NatToString(g.number)| <= maxLen + 1
      ensures GapReads(g, Text(p.gap(b, g), |b|), maxLen)
    {
      DrawGapText(b, g, maxLen);
    }
  }

  /** A source line extends the buffer by `RowsUsed` rows. */
  lemma RenderSourceLineExtends(b: Buffer, file: FileMap, line: Line, w: nat)
    requires w >= 2 && line.lineIndex >= 1
    ensures Extends(b, RenderSourceLine(b, file, line, w), RowsUsed(line.annotations))
  {
    RenderSourceLineRows(b, file, line, w);
  }

  lemma RenderSourceLineQuotes(b: Buffer, file: FileMap, line: Line, maxLen: nat)
    requires line.lineIndex >= 1 && |NatToString(line.lineIndex)| <= maxLen + 1
    ensures Text(RenderSourceLine(b, file, line, maxLen + 3), |b|) == QuotedText(SourceText(file, line), NatToString(line.lineIndex), maxLen + 3)
  {
    RenderSourceLineQuote(b, file, line, maxLen + 3);
  }

  /** A gap extends the buffer by `GapRows` rows. */
  lemma DrawGapExtends(b: Buffer, g: Gap, maxLen: nat)
    ensures Extends(b, DrawGap(b, g, maxLen), GapRows(g))
  {
    DrawGapRows(b, g, maxLen);
  }

  /** The gaps after each line of the list, in order; the last line has
      nothing after it. */
  function Gaps(file: FileMap, lines: seq<Line>): (r: seq<Gap>)
    ensures |r| == |lines|
    decreases |lines|
  {
    if |lines| == 0 then [] else [GapAfter(file, lines, 0)] + Gaps(file, lines[1..])
  }

  lemma GapAfterTail(file: FileMap, lines: seq<Line>, i: nat)
    requires 1 <= i < |lines|
    ensures GapAfter(file, lines[1..], i - 1) == GapAfter(file, lines, i)
  {
    assert lines[1..][i - 1] == lines[i];
    if i + 1 < |lines| {
      assert lines[1..][i] == lines[i + 1];
    }
  }

  /** Entry `i` of `Gaps` is the gap after line `i`. */
  lemma {:induction false} GapsAt(file: FileMap, lines: seq<Line>, i: nat)
    requires i < |lines|
    ensures Gaps(file, lines)[i] == GapAfter(file, lines, i)
    decreases i
  {
    if i > 0 {
      GapAfterTail(file, lines, i);
      GapsAt(file, lines[1..], i - 1);
    }
  }

  /** The loop over a file's annotated lines: the buffer after its first
      `k` iterations, each drawing a line and then the gap to the next. The
      gap after the last line is `Adjacent`, which draws nothing. */
  function Drawn(b: Buffer, lines: seq<Line>, gaps: seq<Gap>, p: Painter, k: nat): Buffer
    requires k <= |lines| == |gaps|
    decreases k
  {
    if k == 0 then b
    else p.gap(p.line(Drawn(b, lines, gaps, p, k - 1), lines[k - 1]), gaps[k - 1])
  }

  /** The whole loop. */
  function DrawLines(b: Buffer, lines: seq<Line>, gaps: seq<Gap>, p: Painter): Buffer
    requires |lines| == |gaps|
  {
    Drawn(b, lines, gaps, p, |lines|)
  }

  /** The loop as the emitter runs it, `maxLen` being the gutter width. */
  function DrawSourceLines(b: Buffer, file: FileMap, lines: seq<Line>, maxLen: nat): Buffer
  {
    DrawLines(b, lines, Gaps(file, lines), SourcePainter(file, maxLen))
  }

  /** The rows taken by the first `k` lines and the gaps after them. */
  function Offset(lines: seq<Line>, gaps: seq<Gap>, rows: Line -> nat, k: nat): nat
    requires k <= |lines| == |gaps|
    decreases k
  {
    if k == 0 then 0
    else Offset(lines, gaps, rows, k - 1) + rows(lines[k - 1]) + GapRows(gaps[k - 1])
  }

  /** Iterations `j` to `k` add `Offset(.., k) - Offset(.., j)` rows and
      keep the rows above. */
  lemma {:induction false} DrawnExtends(b: Buffer, lines: seq<Line>, gaps: seq<Gap>, p: Painter, rows: Line -> nat, j: nat, k: nat)
    requires PaintsRows(p, rows) && LinesNumbered(lines) && j <= k <= |lines| == |gaps|
    ensures Offset(lines, gaps, rows, j) <= Offset(lines, gaps, rows, k)
    ensures Extends(Drawn(b, lines, gaps, p, j), Drawn(b, lines, gaps, p, k), Offset(lines, gaps, rows, k) - Offset(lines, gaps, rows, j))
    decreases k
  {
    if j == k {
      ExtendsRefl(Drawn(b, lines, gaps, p, j));
    } else {
      DrawnExtends(b, lines, gaps, p, rows, j, k - 1);
      IterationExtends(b, lines, gaps, p, rows, k - 1);
      ExtendsTrans(Drawn(b, lines, gaps, p, j), Drawn(b, lines, gaps, p, k - 1), Drawn(b, lines, gaps, p, k),
                   Offset(lines, gaps, rows, k - 1) - Offset(lines, gaps, rows, j), rows(lines[k - 1]) + GapRows(gaps[k - 1]));
    }
  }

  /** One iteration: the line's rows, then the gap's. */
  lemma IterationExtends(b: Buffer, lines: seq<Line>, gaps: seq<Gap>, p: Painter, rows: Line -> nat, k: nat)
    requires PaintsRows(p, rows) && LinesNumbered(lines) && k < |lines| == |gaps|
    ensures Offset(lines, gaps, rows, k + 1) == Offset(lines, gaps, rows, k) + rows(lines[k]) + GapRows(gaps[k])
    ensures Extends(Drawn(b, lines, gaps, p, k), Drawn(b, lines, gaps, p, k + 1), rows(lines[k]) + GapRows(gaps[k]))
  {
    var b0 := Drawn(b, lines, gaps, p, k);
    var b1 := p.line(b0, lines[k]);
    assert Extends(b0, b1, rows(lines[k]));
    assert Extends(b1, p.gap(b1, gaps[k]), GapRows(gaps[k]));
    ExtendsTrans(b0, b1, p.gap(b1, gaps[k]), rows(lines[k]), GapRows(gaps[k]));
  }

  /** The whole loop adds `Offset(.., |lines|)` rows and keeps the rows
      above; the first `k` iterations leave `Offset(.., k)` rows below
      `b`. */
  lemma DrawLinesExtends(b: Buffer, lines: seq<Line>, gaps: seq<Gap>, p: Painter, rows: Line -> nat, k: nat)
    requires PaintsRows(p, rows) && LinesNumbered(lines) && k <= |lines| == |gaps|
    ensures Extends(b, DrawLines(b, lines, gaps, p), Offset(lines, gaps, rows, |lines|))
    ensures |Drawn(b, lines, gaps, p, k)| == |b| + Offset(lines, gaps, rows, k)
  {
    DrawnExtends(b, lines, gaps, p, rows, 0, |lines|);
    DrawnExtends(b, lines, gaps, p, rows, 0, k);
  }
}

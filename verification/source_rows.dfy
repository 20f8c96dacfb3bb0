/** Where the loop over a file's lines puts each line and each gap: line
    `i` is quoted on the row `Offset(.., i)` below where the loop starts,
    and the gap after it follows that line's rows. */
module SourceRows {
  import opened Common
  import opened StyledBuffer
  import opened Annotations
  import opened Render
  import opened SourceLines

  /** A row the first `k` iterations leave reading `v` still reads `v`
      when the loop is done. */
  lemma KeptToEnd(b: Buffer, lines: seq<Line>, gaps: seq<Gap>, p: Painter, rows: Line -> nat, k: nat, row: nat, v: string)
    requires PaintsRows(p, rows) && LinesNumbered(lines) && k <= |lines| == |gaps|
    requires row < |Drawn(b, lines, gaps, p, k)| && Text(Drawn(b, lines, gaps, p, k), row) == v
    ensures Text(DrawLines(b, lines, gaps, p), row) == v
  {
    DrawnExtends(b, lines, gaps, p, rows, k, |lines|);
    ExtendsText(Drawn(b, lines, gaps, p, k), DrawLines(b, lines, gaps, p),
                Offset(lines, gaps, rows, |lines|) - Offset(lines, gaps, rows, k), row);
  }

  /** One iteration quotes its line on the first row it adds. */
  lemma StepQuote(b: Buffer, file: FileMap, line: Line, g: Gap, rows: Line -> nat, maxLen: nat, p: Painter)
    requires Paints(p, rows, file, maxLen) && line.lineIndex >= 1 && |NatToString(line.lineIndex)| <= maxLen + 1
    ensures |b| < |p.gap(p.line(b, line), g)|
    ensures Text(p.gap(p.line(b, line), g), |b|) == QuotedText(SourceText(file, line), NatToString(line.lineIndex), maxLen + 3)
  {
    var b1 := p.line(b, line);
    assert Text(b1, |b|) == QuotedText(SourceText(file, line), NatToString(line.lineIndex), maxLen + 3);
    assert Extends(b1, p.gap(b1, g), GapRows(g));
    ExtendsText(b1, p.gap(b1, g), GapRows(g), |b|);
  }

  /** One iteration draws its gap on the row right below its line's rows. */
  lemma StepGap(b: Buffer, file: FileMap, line: Line, g: Gap, rows: Line -> nat, maxLen: nat, p: Painter)
    requires Paints(p, rows, file, maxLen) && line.lineIndex >= 1 && !g.Adjacent?
    requires g.OneLine? ==> |NatToString(g.number)| <= maxLen + 1
    ensures |b| + rows(line) < |p.gap(p.line(b, line), g)|
    ensures GapReads(g, Text(p.gap(p.line(b, line), g), |b| + rows(line)), maxLen)
  {
    var b1 := p.line(b, line);
    assert Extends(b, b1, rows(line));
    assert Extends(b1, p.gap(b1, g), GapRows(g));
    assert GapReads(g, Text(p.gap(b1, g), |b1|), maxLen);
  }

  /** Line `i` of the list is quoted, numbered and padded to the gutter,
      `Offset(.., i)` rows below where the loop starts. */
  lemma LineAt(b: Buffer, file: FileMap, lines: seq<Line>, gaps: seq<Gap>, maxLen: nat, p: Painter, rows: Line -> nat, i: nat)
    requires Paints(p, rows, file, maxLen) && Fits(lines, maxLen) && i < |lines| == |gaps|
    ensures Text(DrawLines(b, lines, gaps, p), |b| + Offset(lines, gaps, rows, i))
            == QuotedText(SourceText(file, lines[i]), NatToString(lines[i].lineIndex), maxLen + 3)
  {
    StepQuote(Drawn(b, lines, gaps, p, i), file, lines[i], gaps[i], rows, maxLen, p);
    DrawLinesExtends(b, lines, gaps, p, rows, i);
    KeptToEnd(b, lines, gaps, p, rows, i + 1, |b| + Offset(lines, gaps, rows, i),
              QuotedText(SourceText(file, lines[i]), NatToString(lines[i].lineIndex), maxLen + 3));
  }

  /** The gap after line `i` follows that line's rows and reads as
      `GapReads` says. */
  lemma GapAt(b: Buffer, file: FileMap, lines: seq<Line>, gaps: seq<Gap>, maxLen: nat, p: Painter, rows: Line -> nat, i: nat)
    requires Paints(p, rows, file, maxLen) && LinesNumbered(lines) && i < |lines| == |gaps|
    requires gaps[i].OneLine? ==> |NatToString(gaps[i].number)| <= maxLen + 1
    ensures GapReads(gaps[i], Text(DrawLines(b, lines, gaps, p), |b| + Offset(lines, gaps, rows, i) + rows(lines[i])), maxLen)
  {
    if !gaps[i].Adjacent? {
      var b0 := Drawn(b, lines, gaps, p, i);
      StepGap(b0, file, lines[i], gaps[i], rows, maxLen, p);
      DrawLinesExtends(b, lines, gaps, p, rows, i);
      KeptToEnd(b, lines, gaps, p, rows, i + 1, |b0| + rows(lines[i]), Text(p.gap(p.line(b0, lines[i]), gaps[i]), |b0| + rows(lines[i])));
    }
  }

  /** The emitter's loop keeps the rows above it and adds
      `Offset(.., |lines|)` rows. */
  lemma DrawSourceLinesExtends(b: Buffer, file: FileMap, lines: seq<Line>, maxLen: nat)
    requires LinesNumbered(lines)
    ensures Extends(b, DrawSourceLines(b, file, lines, maxLen), Offset(lines, Gaps(file, lines), LineRows, |lines|))
  {
    SourcePainterRows(file, maxLen);
    DrawLinesExtends(b, lines, Gaps(file, lines), SourcePainter(file, maxLen), LineRows, 0);
  }
}

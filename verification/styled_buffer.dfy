/** The styled character grid the diagnostic emitter draws into.

    Rows grow on demand; writing past the end of a row pads it with blank,
    unstyled cells. `At(b, row, col)` is the grid as a partial map from
    positions to (character, style) cells. Strings are sequences of
    characters; the emitter only writes ASCII in the positions it computes,
    so byte and character lengths agree there. */
module StyledBuffer {
  import opened Common

  datatype Style =
    | NoStyle
    | Quotation
    | LineNumber
    | UnderlinePrimary
    | UnderlineSecondary
    | LabelPrimary
    | LabelSecondary
    | HeaderMsg
    | LineAndColumn
    | LevelStyle(level: string)

  datatype Cell = Cell(ch: char, style: Style)

  const Blank: Cell := Cell(' ', NoStyle)

  type Buffer = seq<seq<Cell>>

  /** The cell at a position, if the grid has one there. */
  function At(b: Buffer, row: nat, col: nat): Option<Cell>
  {
    if row < |b| && col < |b[row]| then Some(b[row][col]) else None
  }

  function NumLines(b: Buffer): nat { |b| }

  /** Adds empty rows until `line` exists. */
  function EnsureLines(b: Buffer, line: nat): (r: Buffer)
    ensures |r| == Max(|b|, line + 1)
    ensures r[..|b|] == b
    ensures forall row :: |b| <= row < |r| ==> r[row] == []
  {
    if line < |b| then b else b + Repeat([], line + 1 - |b|)
  }

  /** `putc(line, col, c, style)`: one cell, padding the row with blanks. */
  function Putc(b: Buffer, line: nat, col: nat, ch: char, style: Style): (r: Buffer)
    ensures |r| == Max(|b|, line + 1)
    ensures At(r, line, col) == Some(Cell(ch, style))
    ensures forall row :: 0 <= row < |r| && row != line ==> r[row] == (if row < |b| then b[row] else [])
    ensures line < |b| ==> |r[line]| == Max(|b[line]|, col + 1)
    ensures line >= |b| ==> |r[line]| == col + 1
    ensures forall c :: 0 <= c < |r[line]| && c != col ==>
              r[line][c] == (if line < |b| && c < |b[line]| then b[line][c] else Blank)
  {
    var e := EnsureLines(b, line);
    var row := e[line];
    var row' := if col < |row| then row[col := Cell(ch, style)]
                else row + Repeat(Blank, col - |row|) + [Cell(ch, style)];
    e[line := row']
  }

  /** `puts(line, col, s, style)`: `putc` of each character in turn. An
      empty string writes nothing, and does not add rows either. */
  function Puts(b: Buffer, line: nat, col: nat, s: string, style: Style): (r: Buffer)
    ensures |s| == 0 ==> r == b
    ensures |s| > 0 ==> |r| == Max(|b|, line + 1)
    ensures forall k :: 0 <= k < |s| ==> At(r, line, col + k) == Some(Cell(s[k], style))
    ensures forall row :: 0 <= row < |r| && row != line ==> r[row] == (if row < |b| then b[row] else [])
    ensures forall c: nat :: (c < col || col + |s| <= c) && At(b, line, c).Some? ==> At(r, line, c) == At(b, line, c)
    ensures |s| > 0 ==> |r[line]| == Max(if line < |b| then |b[line]| else 0, col + |s|)
    ensures |s| > 0 ==> forall c: nat :: c < col && At(b, line, c).None? ==> At(r, line, c) == Some(Blank)
    decreases |s|
  {
    if |s| == 0 then b
    else
      var b1 := Putc(b, line, col, s[0], style);
      var r := Puts(b1, line, col + 1, s[1..], style);
      assert forall k :: 1 <= k < |s| ==> At(r, line, col + k) == Some(Cell(s[k], style)) by {
        forall k | 1 <= k < |s|
          ensures At(r, line, col + k) == Some(Cell(s[k], style))
        {
          assert At(r, line, (col + 1) + (k - 1)) == Some(Cell(s[1..][k - 1], style));
        }
      }
      r
  }

  /** `puts` of one character is `putc`. */
  lemma PutsOne(b: Buffer, line: nat, col: nat, c: char, style: Style)
    ensures Puts(b, line, col, [c], style) == Putc(b, line, col, c, style)
  {
    assert [c][1..] == [];
  }

  /** `puts` of two characters is two `putc`s. */
  lemma PutsTwo(b: Buffer, line: nat, col: nat, c1: char, c2: char, style: Style)
    ensures Puts(b, line, col, [c1, c2], style) == Putc(Putc(b, line, col, c1, style), line, col + 1, c2, style)
  {
    assert [c1, c2][1..] == [c2];
    PutsOne(Putc(b, line, col, c1, style), line, col + 1, c2, style);
  }

  /** `set_style(line, col, style)`: restyles an existing cell; a position
      outside the grid is left alone. */
  function SetStyle(b: Buffer, line: nat, col: nat, style: Style): (r: Buffer)
    ensures At(b, line, col).Some? ==> At(r, line, col) == Some(At(b, line, col).value.(style := style))
    ensures |r| == |b| && forall row :: 0 <= row < |r| ==> |r[row]| == |b[row]|
    ensures forall row: nat, c: nat :: (row != line || c != col) && At(b, row, c).Some? ==> At(r, row, c) == At(b, row, c)
    ensures At(b, line, col).None? ==> r == b
  {
    if line < |b| && col < |b[line]| then b[line := b[line][col := b[line][col].(style := style)]]
    else b
  }

  /** `append(line, s, style)`: writes `s` after the last cell of the row,
      or from column 0 on a row that does not exist yet. */
  function Append(b: Buffer, line: nat, s: string, style: Style): (r: Buffer)
    ensures var start := if line < |b| then |b[line]| else 0;
            forall k :: 0 <= k < |s| ==> At(r, line, start + k) == Some(Cell(s[k], style))
    ensures forall c: nat :: At(b, line, c).Some? ==> At(r, line, c) == At(b, line, c)
    ensures forall row :: 0 <= row < |r| && row != line ==> r[row] == (if row < |b| then b[row] else [])
    ensures |s| > 0 ==> line < |r| && |r[line]| == (if line < |b| then |b[line]| else 0) + |s|
    ensures |s| == 0 ==> r == b
  {
    Puts(b, line, if line < |b| then |b[line]| else 0, s, style)
  }

  /** `prepend(line, s, style)`: shifts the row right by `|s|` and writes
      `s` in front. */
  function Prepend(b: Buffer, line: nat, s: string, style: Style): (r: Buffer)
    ensures |r| == Max(|b|, line + 1)
    ensures r[line] == StyledCells(s, style) + (if line < |b| then b[line] else [])
    ensures forall row :: 0 <= row < |r| && row != line ==> r[row] == (if row < |b| then b[row] else [])
  {
    var e := EnsureLines(b, line);
    e[line := StyledCells(s, style) + e[line]]
  }

  function StyledCells(s: string, style: Style): (r: seq<Cell>)
    ensures |r| == |s| && forall k :: 0 <= k < |s| ==> r[k] == Cell(s[k], style)
  {
    if |s| == 0 then [] else [Cell(s[0], style)] + StyledCells(s[1..], style)
  }

  /** The text of a row. */
  function RowText(cells: seq<Cell>): (s: string)
    ensures |s| == |cells| && forall k :: 0 <= k < |cells| ==> s[k] == cells[k].ch
  {
    if |cells| == 0 then "" else [cells[0].ch] + RowText(cells[1..])
  }

  /** Writing a string and reading the row back: `puts` on a fresh row at
      column `col` leaves `col` blanks and then the string. */
  lemma PutsOnFreshRow(b: Buffer, line: nat, col: nat, s: string, style: Style)
    requires line >= |b| && |s| > 0
    ensures RowText(Puts(b, line, col, s, style)[line]) == Repeat(' ', col) + s
  {
    var r := Puts(b, line, col, s, style);
    var t := RowText(r[line]);
    assert |t| == col + |s|;
    forall k | 0 <= k < |t|
      ensures t[k] == (Repeat(' ', col) + s)[k]
    {
      if k < col {
        assert At(b, line, k).None?;
      } else {
        assert At(r, line, col + (k - col)) == Some(Cell(s[k - col], style));
      }
    }
  }

  /** The text of a row; a row the grid does not have reads empty. */
  function Text(b: Buffer, row: nat): string
  {
    if row < |b| then RowText(b[row]) else ""
  }

  /** A row reads `t` when its cells hold the characters of `t`. */
  lemma RowTextOf(cells: seq<Cell>, t: string)
    requires |cells| == |t| && forall k :: 0 <= k < |t| ==> cells[k].ch == t[k]
    ensures RowText(cells) == t
  {
  }

  /** Two rows with the same text, cell for cell. */
  lemma TextOfCells(b: Buffer, line: nat, t: string)
    requires line < |b| && |b[line]| == |t|
    requires forall c: nat :: c < |t| ==> At(b, line, c).value.ch == t[c]
    ensures Text(b, line) == t
  {
    var x := RowText(b[line]);
    forall c | 0 <= c < |t|
      ensures x[c] == t[c]
    {
      assert At(b, line, c).value.ch == t[c];
    }
  }

  /** `puts` at or past the end of a row: the row reads as before, padded
      with blanks up to `col`, then `s`. */
  lemma PutsText(b: Buffer, line: nat, col: nat, s: string, style: Style)
    requires col >= |Text(b, line)| && (|s| > 0 || col == |Text(b, line)|)
    ensures Text(Puts(b, line, col, s, style), line) == Text(b, line) + Repeat(' ', col - |Text(b, line)|) + s
  {
    var r := Puts(b, line, col, s, style);
    var old_ := Text(b, line);
    var t := old_ + Repeat(' ', col - |old_|) + s;
    if |s| > 0 {
      forall c: nat | c < |t|
        ensures At(r, line, c).value.ch == t[c]
      {
        PutsCellChar(b, line, col, s, style, c);
      }
      TextOfCells(r, line, t);
    }
  }

  /** One cell of the row `puts` writes at or past the row's end. */
  lemma PutsCellChar(b: Buffer, line: nat, col: nat, s: string, style: Style, c: nat)
    requires |s| > 0 && col >= |Text(b, line)| && c < col + |s|
    ensures var old_ := Text(b, line);
            At(Puts(b, line, col, s, style), line, c).value.ch == (old_ + Repeat(' ', col - |old_|) + s)[c]
  {
    var old_ := Text(b, line);
    PaddedIndex(old_, col - |old_|, s, c);
    if c < |old_| {
      PutsKeepsCell(b, line, col, s, style, c);
    } else if c < col {
      PutsPadsCell(b, line, col, s, style, c);
    } else {
      PutsWritesCell(b, line, col, s, style, c - col, c);
    }
  }

  /** A character of `x`, then `n` blanks, then `y`. */
  lemma PaddedIndex(x: string, n: nat, y: string, c: nat)
    requires c < |x| + n + |y|
    ensures (x + Repeat(' ', n) + y)[c] == if c < |x| then x[c] else if c < |x| + n then ' ' else y[c - |x| - n]
  {
  }

  lemma PutsKeepsCell(b: Buffer, line: nat, col: nat, s: string, style: Style, c: nat)
    requires c < |Text(b, line)| && c < col
    ensures At(Puts(b, line, col, s, style), line, c) == Some(b[line][c])
    ensures Text(b, line)[c] == b[line][c].ch
  {
    assert At(b, line, c) == Some(b[line][c]);
  }

  lemma PutsPadsCell(b: Buffer, line: nat, col: nat, s: string, style: Style, c: nat)
    requires |s| > 0 && |Text(b, line)| <= c < col
    ensures At(Puts(b, line, col, s, style), line, c) == Some(Blank)
  {
    assert At(b, line, c).None?;
  }

  lemma PutsWritesCell(b: Buffer, line: nat, col: nat, s: string, style: Style, k: nat, c: nat)
    requires k < |s| && c == col + k
    ensures At(Puts(b, line, col, s, style), line, c) == Some(Cell(s[k], style))
  {
  }

  /** `append` adds `s` to the row's text. */
  lemma AppendText(b: Buffer, line: nat, s: string, style: Style)
    ensures Text(Append(b, line, s, style), line) == Text(b, line) + s
  {
    var r := Append(b, line, s, style);
    var t := Text(b, line) + s;
    var start := |Text(b, line)|;
    if |s| > 0 {
      forall c: nat | c < |t|
        ensures At(r, line, c).value.ch == t[c]
      {
        if c < start {
          assert At(b, line, c) == Some(b[line][c]);
        } else {
          assert At(r, line, start + (c - start)) == Some(Cell(s[c - start], style));
        }
      }
      TextOfCells(r, line, t);
    }
  }

  /** `append` adds a row only when it writes something on a row past the
      end. */
  lemma AppendSize(b: Buffer, line: nat, s: string, style: Style)
    ensures |Append(b, line, s, style)| == if |s| > 0 then Max(|b|, line + 1) else |b|
  {
  }

  /** `prepend` puts `s` in front of the row's text. */
  lemma PrependText(b: Buffer, line: nat, s: string, style: Style)
    ensures Text(Prepend(b, line, s, style), line) == s + Text(b, line)
  {
    var r := Prepend(b, line, s, style);
    var rest: seq<Cell> := if line < |b| then b[line] else [];
    RowTextConcat(StyledCells(s, style), rest);
    StyledCellsText(s, style);
  }

  lemma {:induction false} RowTextConcat(a: seq<Cell>, b: seq<Cell>)
    ensures RowText(a + b) == RowText(a) + RowText(b)
  {
    var x, y := RowText(a + b), RowText(a) + RowText(b);
    forall k | 0 <= k < |x|
      ensures x[k] == y[k]
    {
      if k < |a| {
        assert (a + b)[k] == a[k];
      } else {
        assert (a + b)[k] == b[k - |a|];
      }
    }
  }

  lemma StyledCellsText(s: string, style: Style)
    ensures RowText(StyledCells(s, style)) == s
  {
  }
}

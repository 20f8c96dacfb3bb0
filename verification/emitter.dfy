/** The emitter's message layout: `emit_messages_default`,
    `emit_message_default` and `emit_suggestion_default`.

    A message becomes a list of styled buffers, one per block the emitter
    writes out; each buffer row is printed followed by a newline. Writing
    to the terminal and its errors are not part of this model. */
module Emitter {
  import opened Common
  import opened StyledBuffer
  import opened Annotations
  import opened Render
  import opened Diagnostic

  /** `MAX_HIGHLIGHT_LINES`: the most lines of a suggestion shown. */
  const MaxHighlightLines: nat := 6

  // ---------------------------------------------------------------------------
  // Rows of text

  /** One `append` or `prepend` on a row. */
  datatype Edit = Appended(s: string, style: Style) | Prepended(s: string, style: Style)

  function Apply(b: Buffer, line: nat, e: Edit): Buffer
  {
    match e
    case Appended(s, style) => Append(b, line, s, style)
    case Prepended(s, style) => Prepend(b, line, s, style)
  }

  /** A run of edits on one row, in order. */
  function Edits(b: Buffer, line: nat, es: seq<Edit>): Buffer
    decreases |es|
  {
    if |es| == 0 then b else Edits(Apply(b, line, es[0]), line, es[1..])
  }

  /** `n` prepends of one blank: the emitter's indentation past the gutter. */
  function Spaces(n: nat): seq<Edit>
  {
    Repeat(Prepended(" ", NoStyle), n)
  }

  /** What one edit does to a row's text. */
  function EditOne(t: string, e: Edit): string
  {
    match e
    case Appended(s, _) => t + s
    case Prepended(s, _) => s + t
  }

  /** What a run of edits does to a row's text. */
  function Edited(t: string, es: seq<Edit>): string
    decreases |es|
  {
    if |es| == 0 then t else Edited(EditOne(t, es[0]), es[1..])
  }

  /** The edit writes something, so it creates its row when missing. */
  predicate Writes(e: Edit)
  {
    e.Prepended? || |e.s| > 0
  }

  /** Some edit of the run creates the row when it is missing. */
  predicate Grows(es: seq<Edit>)
  {
    exists i :: 0 <= i < |es| && Writes(es[i])
  }

  lemma GrowsUnfold(es: seq<Edit>)
    requires |es| > 0
    ensures Grows(es) == (Writes(es[0]) || Grows(es[1..]))
  {
    if Grows(es[1..]) {
      var i :| 0 <= i < |es[1..]| && Writes(es[1..][i]);
      assert es[i + 1] == es[1..][i];
    }
    if Grows(es) && !Writes(es[0]) {
      var i :| 0 <= i < |es| && Writes(es[i]);
      assert es[1..][i - 1] == es[i];
    }
  }

  /** One edit changes its row's text as `EditOne` says, creates the row
      exactly when it writes, and leaves the other rows alone. */
  lemma ApplyText(b: Buffer, line: nat, e: Edit)
    ensures Text(Apply(b, line, e), line) == EditOne(Text(b, line), e)
    ensures |Apply(b, line, e)| == if Writes(e) then Max(|b|, line + 1) else |b|
    ensures forall row: nat :: row != line ==> RowKept(b, Apply(b, line, e), row)
  {
    match e
    case Appended(s, style) =>
      AppendText(b, line, s, style);
      AppendSize(b, line, s, style);
    case Prepended(s, style) =>
      PrependText(b, line, s, style);
  }

  /** A run of edits changes the text of its row as `Edited` says, creates
      the row exactly when some edit writes, and leaves the other rows
      alone. */
  lemma {:induction false} EditsText(b: Buffer, line: nat, es: seq<Edit>)
    ensures Text(Edits(b, line, es), line) == Edited(Text(b, line), es)
    ensures |Edits(b, line, es)| == if Grows(es) then Max(|b|, line + 1) else |b|
    ensures forall row: nat :: row != line ==> RowKept(b, Edits(b, line, es), row)
    decreases |es|
  {
    if |es| > 0 {
      var b1 := Apply(b, line, es[0]);
      ApplyText(b, line, es[0]);
      EditsText(b1, line, es[1..]);
      GrowsUnfold(es);
      forall row: nat | row != line
        ensures RowKept(b, Edits(b, line, es), row)
      {
        assert RowKept(b, b1, row) && RowKept(b1, Edits(b1, line, es[1..]), row);
      }
    }
  }

  lemma {:induction false} EditedConcat(t: string, xs: seq<Edit>, ys: seq<Edit>)
    ensures Edited(t, xs + ys) == Edited(Edited(t, xs), ys)
    decreases |xs|
  {
    if |xs| > 0 {
      assert (xs + ys)[0] == xs[0] && (xs + ys)[1..] == xs[1..] + ys;
      EditedConcat(EditOne(t, xs[0]), xs[1..], ys);
    } else {
      assert xs + ys == ys;
    }
  }

  lemma {:induction false} EditsConcat(b: Buffer, line: nat, xs: seq<Edit>, ys: seq<Edit>)
    ensures Edits(b, line, xs + ys) == Edits(Edits(b, line, xs), line, ys)
    decreases |xs|
  {
    if |xs| > 0 {
      assert (xs + ys)[0] == xs[0] && (xs + ys)[1..] == xs[1..] + ys;
      EditsConcat(Apply(b, line, xs[0]), line, xs[1..], ys);
    } else {
      assert xs + ys == ys;
    }
  }

  /** `n` blanks go in front of the row. */
  lemma {:induction false} SpacesText(t: string, n: nat)
    ensures Edited(t, Spaces(n)) == Repeat(' ', n) + t
    decreases n
  {
    if n > 0 {
      assert Spaces(n)[0] == Prepended(" ", NoStyle);
      assert Spaces(n)[1..] == Spaces(n - 1);
      SpacesText(" " + t, n - 1);
      assert Repeat(' ', n - 1) + (" " + t) == Repeat(' ', n) + t by {
        assert Repeat(' ', n - 1) + " " == Repeat(' ', n) by {
          RepeatAdd(' ', n - 1, 1);
        }
      }
    }
  }

  lemma SpacesGrow(n: nat)
    ensures Grows(Spaces(n)) <==> n > 0
  {
    if n > 0 {
      assert Writes(Spaces(n)[0]);
    }
  }

  /** Appends add their texts in order. */
  function AppendedText(es: seq<Edit>): string
    decreases |es|
  {
    if |es| == 0 then "" else es[0].s + AppendedText(es[1..])
  }

  predicate AllAppends(es: seq<Edit>)
  {
    forall i :: 0 <= i < |es| ==> es[i].Appended?
  }

  lemma {:induction false} AppendsText(t: string, es: seq<Edit>)
    requires AllAppends(es)
    ensures Edited(t, es) == t + AppendedText(es)
    decreases |es|
  {
    if |es| == 0 {
      ConcatEmpty(t);
    } else {
      assert es[0].Appended?;
      assert AllAppends(es[1..]) by {
        assert forall i :: 0 <= i < |es[1..]| ==> es[1..][i] == es[i + 1];
      }
      AppendsText(t + es[0].s, es[1..]);
      assert t + es[0].s + AppendedText(es[1..]) == t + (es[0].s + AppendedText(es[1..]));
    }
  }

  /** A run of appends on an existing row adds their texts to it and adds
      no row. */
  lemma AppendsRow(b: Buffer, line: nat, es: seq<Edit>)
    requires AllAppends(es) && line < |b|
    ensures |Edits(b, line, es)| == |b|
    ensures Text(Edits(b, line, es), line) == Text(b, line) + AppendedText(es)
  {
    EditsText(b, line, es);
    AppendsText(Text(b, line), es);
  }

  /** `n` blanks on a fresh buffer: one row of `n` blanks, or no row when
      `n` is zero. */
  lemma SpacesRow(n: nat)
    ensures |Edits([], 0, Spaces(n))| == if n > 0 then 1 else 0
    ensures Text(Edits([], 0, Spaces(n)), 0) == Repeat(' ', n)
  {
    EditsText([], 0, Spaces(n));
    SpacesText("", n);
    SpacesGrow(n);
    ConcatEmpty(Repeat(' ', n));
  }

  /** The note separator after `n` blanks. */
  lemma NoteSeparatorRow(b: Buffer, n: nat)
    requires |b| <= 1 && Text(b, 0) == Repeat(' ', n)
    ensures |DrawNoteSeparator(b, 0, n + 1)| == 1
    ensures Text(DrawNoteSeparator(b, 0, n + 1), 0) == Repeat(' ', n + 1) + "= "
  {
    PutsText(b, 0, n + 1, "= ", LineNumber);
    RepeatAdd(' ', n, 1);
  }

  /** The `[code]` after the level, when the message has a code. */
  function CodeText(code: Option<string>): string
  {
    match code
    case None => ""
    case Some(c) => "[" + c + "]"
  }

  /** The header row of a message. A secondary message with no span
      information is a note under the gutter; any other message starts with
      its level and code. */
  function Header(level: string, code: Option<string>, msg: string, maxLen: nat, noteOnly: bool): Buffer
  {
    if noteOnly then NoteHeader(level, msg, maxLen) else LevelHeader(level, code, msg)
  }

  function NoteHeader(level: string, msg: string, maxLen: nat): Buffer
  {
    var b := DrawNoteSeparator(Edits([], 0, Spaces(maxLen)), 0, maxLen + 1);
    Edits(b, 0, NoteEdits(level, msg))
  }

  function NoteEdits(level: string, msg: string): seq<Edit>
  {
    [Appended(level, HeaderMsg), Appended(": ", NoStyle), Appended(msg, NoStyle)]
  }

  function CodeEdits(code: Option<string>, style: Style): seq<Edit>
  {
    match code
    case None => []
    case Some(c) => [Appended("[", style), Appended(c, style), Appended("]", style)]
  }

  function MessageEdits(msg: string): seq<Edit>
  {
    [Appended(": ", HeaderMsg), Appended(msg, HeaderMsg)]
  }

  function LevelHeader(level: string, code: Option<string>, msg: string): Buffer
  {
    var st := LevelStyle(level);
    Edits([], 0, [Appended(level, st)] + CodeEdits(code, st) + MessageEdits(msg))
  }

  /** The header is one row: `= level: msg` indented past the gutter for a
      bare note, `level[code]: msg` otherwise. */
  lemma HeaderText(level: string, code: Option<string>, msg: string, maxLen: nat, noteOnly: bool)
    ensures |Header(level, code, msg, maxLen, noteOnly)| == 1
    ensures Text(Header(level, code, msg, maxLen, noteOnly), 0)
            == if noteOnly then Repeat(' ', maxLen + 1) + "= " + level + ": " + msg
               else level + CodeText(code) + ": " + msg
  {
    if noteOnly {
      NoteHeaderText(level, msg, maxLen);
    } else {
      LevelHeaderText(level, code, msg);
    }
  }

  lemma NoteHeaderText(level: string, msg: string, maxLen: nat)
    ensures |NoteHeader(level, msg, maxLen)| == 1
    ensures Text(NoteHeader(level, msg, maxLen), 0) == Repeat(' ', maxLen + 1) + "= " + level + ": " + msg
  {
    SpacesRow(maxLen);
    NoteSeparatorRow(Edits([], 0, Spaces(maxLen)), maxLen);
    NoteHeaderAppends(DrawNoteSeparator(Edits([], 0, Spaces(maxLen)), 0, maxLen + 1), level, msg);
  }

  lemma NoteHeaderAppends(b: Buffer, level: string, msg: string)
    requires |b| == 1
    ensures |Edits(b, 0, NoteEdits(level, msg))| == 1
    ensures Text(Edits(b, 0, NoteEdits(level, msg)), 0) == Text(b, 0) + level + ": " + msg
  {
    var es := NoteEdits(level, msg);
    AppendsRow(b, 0, es);
    AppendedTextOf3(es);
  }

  lemma AppendedTextOf3(es: seq<Edit>)
    requires |es| == 3
    ensures AppendedText(es) == es[0].s + es[1].s + es[2].s
  {
    AppendedTextOf2(es[1..]);
  }

  lemma AppendedTextOf2(es: seq<Edit>)
    requires |es| == 2
    ensures AppendedText(es) == es[0].s + es[1].s
  {
    AppendedTextOf1(es[1..]);
  }

  lemma AppendedTextOf1(es: seq<Edit>)
    requires |es| == 1
    ensures AppendedText(es) == es[0].s
  {
    assert es[1..] == [];
    ConcatEmpty(es[0].s);
  }

  lemma {:induction false} AppendedTextConcat(xs: seq<Edit>, ys: seq<Edit>)
    ensures AppendedText(xs + ys) == AppendedText(xs) + AppendedText(ys)
    decreases |xs|
  {
    if |xs| == 0 {
      assert xs + ys == ys;
      ConcatEmpty(AppendedText(ys));
    } else {
      assert (xs + ys)[0] == xs[0] && (xs + ys)[1..] == xs[1..] + ys;
      AppendedTextConcat(xs[1..], ys);
    }
  }

  lemma LevelHeaderText(level: string, code: Option<string>, msg: string)
    ensures |LevelHeader(level, code, msg)| == 1
    ensures Text(LevelHeader(level, code, msg), 0) == level + CodeText(code) + ": " + msg
  {
    var st := LevelStyle(level);
    var es := [Appended(level, st)] + CodeEdits(code, st) + MessageEdits(msg);
    EditsText([], 0, es);
    assert Writes(es[|es| - 2]);
    LevelEditsAppend(level, code, msg, st);
    AppendsText("", es);
    ConcatEmpty(AppendedText(es));
    LevelHeaderString(level, code, msg, st, es);
  }

  /** The header's edits are all appends. */
  lemma LevelEditsAppend(level: string, code: Option<string>, msg: string, st: Style)
    ensures AllAppends([Appended(level, st)] + CodeEdits(code, st) + MessageEdits(msg))
  {
    var xs := [Appended(level, st)] + CodeEdits(code, st);
    assert AllAppends(xs);
    assert AllAppends(MessageEdits(msg));
    var es := xs + MessageEdits(msg);
    forall i | 0 <= i < |es|
      ensures es[i].Appended?
    {
      if i < |xs| {
        assert es[i] == xs[i];
      } else {
        assert es[i] == MessageEdits(msg)[i - |xs|];
      }
    }
  }

  lemma LevelHeaderString(level: string, code: Option<string>, msg: string, st: Style, es: seq<Edit>)
    requires es == [Appended(level, st)] + CodeEdits(code, st) + MessageEdits(msg)
    ensures AppendedText(es) == level + CodeText(code) + ": " + msg
  {
    AppendedTextConcat([Appended(level, st)] + CodeEdits(code, st), MessageEdits(msg));
    AppendedTextConcat([Appended(level, st)], CodeEdits(code, st));
    AppendedTextOf1([Appended(level, st)]);
    AppendedTextOf2(MessageEdits(msg));
    if code.Some? {
      AppendedTextOf3(CodeEdits(code, st));
    }
  }

  /** `file:line:col`, the column counted from 1. */
  function LocText(loc: Loc): string
  {
    loc.file.name + ":" + NatToString(loc.line) + ":" + NatToString(loc.col + 1)
  }

  /** A location row: `prefix` in front, `text` after, the whole indented
      by the gutter width. */
  function LocationEdits(prefix: string, text: string, maxLen: nat): seq<Edit>
  {
    [Prepended(prefix, LineNumber), Appended(text, LineAndColumn)] + Spaces(maxLen)
  }

  /** The primary file's location row, `--> file:line:col`, indented by the
      gutter width. */
  function PrimaryLocation(b: Buffer, loc: Loc, maxLen: nat): Buffer
  {
    Edits(b, |b|, LocationEdits("--> ", LocText(loc), maxLen))
  }

  /** A secondary file's rows: a separator row, then `::: file` indented by
      the gutter width. */
  function SecondaryLocation(b: Buffer, name: string, maxLen: nat): Buffer
  {
    Edits(DrawColSeparator(b, |b|, maxLen + 1), |b| + 1, LocationEdits("::: ", name, maxLen))
  }

  /** A location row written on a fresh row reads as the indentation, the
      prefix, the text. */
  lemma LocationText(b: Buffer, prefix: string, text: string, maxLen: nat)
    ensures var r := Edits(b, |b|, LocationEdits(prefix, text, maxLen));
            |r| == |b| + 1 && Text(r, |b|) == Repeat(' ', maxLen) + prefix + text
            && forall row: nat :: row < |b| ==> RowKept(b, r, row)
  {
    var es := LocationEdits(prefix, text, maxLen);
    EditsText(b, |b|, es);
    assert Writes(es[0]);
    assert Text(b, |b|) == "";
    LocationString(prefix, text, maxLen);
  }

  lemma LocationString(prefix: string, text: string, maxLen: nat)
    ensures Edited("", LocationEdits(prefix, text, maxLen)) == Repeat(' ', maxLen) + prefix + text
  {
    var xs := [Prepended(prefix, LineNumber), Appended(text, LineAndColumn)];
    EditedConcat("", xs, Spaces(maxLen));
    ConcatEmpty(prefix);
    assert xs[1..] == [xs[1]] && xs[1..][1..] == [];
    assert Edited(prefix + text, []) == prefix + text;
    assert Edited(prefix, [xs[1]]) == prefix + text;
    SpacesText(prefix + text, maxLen);
  }

  lemma PrimaryLocationText(b: Buffer, loc: Loc, maxLen: nat)
    ensures |PrimaryLocation(b, loc, maxLen)| == |b| + 1
    ensures Text(PrimaryLocation(b, loc, maxLen), |b|) == Repeat(' ', maxLen) + "--> " + LocText(loc)
    ensures forall row: nat :: row < |b| ==> RowKept(b, PrimaryLocation(b, loc, maxLen), row)
  {
    LocationText(b, "--> ", LocText(loc), maxLen);
  }

  lemma SecondaryLocationText(b: Buffer, name: string, maxLen: nat)
    ensures |SecondaryLocation(b, name, maxLen)| == |b| + 2
    ensures Text(SecondaryLocation(b, name, maxLen), |b|) == Repeat(' ', maxLen + 1) + "| "
    ensures Text(SecondaryLocation(b, name, maxLen), |b| + 1) == Repeat(' ', maxLen) + "::: " + name
    ensures forall row: nat :: row < |b| ==> RowKept(b, SecondaryLocation(b, name, maxLen), row)
  {
    var b0 := DrawColSeparator(b, |b|, maxLen + 1);
    PutsText(b, |b|, maxLen + 1, "| ", LineNumber);
    assert Text(b, |b|) == "";
    ConcatEmpty(Repeat(' ', maxLen + 1));
    LocationText(b0, "::: ", name, maxLen);
    var r := SecondaryLocation(b, name, maxLen);
    assert RowKept(b0, r, |b|);
    forall row: nat | row < |b|
      ensures RowKept(b, r, row)
    {
      assert RowKept(b, b0, row) && RowKept(b0, r, row);
    }
  }

  /** The `|` row between a file's location and its source lines. */
  function Spacer(b: Buffer, maxLen: nat): Buffer
  {
    DrawColSeparatorNoSpace(b, |b|, maxLen + 1)
  }

  /** The rows that introduce a file, primary or not. */
  function FileHeader(b: Buffer, name: string, primaryLo: Loc, maxLen: nat): Buffer
  {
    Spacer(if primaryLo.file.name == name then PrimaryLocation(b, primaryLo, maxLen)
           else SecondaryLocation(b, name, maxLen), maxLen)
  }

  lemma SpacerText(b: Buffer, maxLen: nat)
    ensures |Spacer(b, maxLen)| == |b| + 1
    ensures Text(Spacer(b, maxLen), |b|) == Repeat(' ', maxLen + 1) + "|"
    ensures forall row: nat :: row < |b| ==> RowKept(b, Spacer(b, maxLen), row)
  {
    PutsText(b, |b|, maxLen + 1, "|", LineNumber);
  }
}

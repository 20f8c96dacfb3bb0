/** The top of the emitter: `emit_message_default` (header, then each
    annotated file: its location rows, a spacer and its source lines),
    `emit_suggestion_default` and `emit_messages_default`.

    What a message emits is modelled as the buffers handed to the
    destination, in order; rendering them to the terminal is not part of
    this model. */
module Emit {
  import opened Common
  import opened StyledBuffer
  import opened Annotations
  import opened Render
  import opened Diagnostic
  import opened Emitter
  import opened SourceLines
  import SourceRows
  import opened FileOrder

  // ---------------------------------------------------------------------------
  // The annotated files of a message

  /** One file: its location rows, the spacer, then its source lines. */
  function FileBlock(b: Buffer, af: FileWithAnnotatedLines, primaryLo: Loc, maxLen: nat): Buffer
  {
    DrawSourceLines(FileHeader(b, af.file.name, primaryLo, maxLen), af.file, af.lines, maxLen)
  }

  /** The drawing step for a file, the primary location and the gutter
      width fixed. */
  function FileStep(primaryLo: Loc, maxLen: nat): (Buffer, FileWithAnnotatedLines) -> Buffer
  {
    (b: Buffer, af: FileWithAnnotatedLines) => FileBlock(b, af, primaryLo, maxLen)
  }

  /** The buffer after the first `k` files, each drawn by `step`. */
  function Blocks(b: Buffer, files: seq<FileWithAnnotatedLines>, step: (Buffer, FileWithAnnotatedLines) -> Buffer, k: nat): Buffer
    requires k <= |files|
    decreases k
  {
    if k == 0 then b else step(Blocks(b, files, step, k - 1), files[k - 1])
  }

  /** All the files. */
  function EmitFiles(b: Buffer, files: seq<FileWithAnnotatedLines>, primaryLo: Loc, maxLen: nat): Buffer
  {
    Blocks(b, files, FileStep(primaryLo, maxLen), |files|)
  }

  predicate IsPrimary(name: string, primaryLo: Loc)
  {
    primaryLo.file.name == name
  }

  /** Rows a file takes before its source lines: the `-->` row and the
      spacer for the primary file; a separator, the `:::` row and the
      spacer for any other. */
  function HeaderRows(name: string, primaryLo: Loc): nat
  {
    if IsPrimary(name, primaryLo) then 2 else 3
  }

  /** Rows a file takes in all. */
  function BlockRows(af: FileWithAnnotatedLines, primaryLo: Loc): nat
  {
    HeaderRows(af.file.name, primaryLo) + Offset(af.lines, Gaps(af.file, af.lines), LineRows, |af.lines|)
  }

  /** The first row of a file's block. */
  function FirstRowText(name: string, primaryLo: Loc, maxLen: nat): string
  {
    if IsPrimary(name, primaryLo) then Repeat(' ', maxLen) + "--> " + LocText(primaryLo)
    else Repeat(' ', maxLen + 1) + "| "
  }

  /** A file's location rows: the first row reads as `FirstRowText`, a
      secondary file's second row names the file, and the last is the
      `|` spacer. */
  lemma FileHeaderRows(b: Buffer, name: string, primaryLo: Loc, maxLen: nat)
    ensures Extends(b, FileHeader(b, name, primaryLo, maxLen), HeaderRows(name, primaryLo))
    ensures Text(FileHeader(b, name, primaryLo, maxLen), |b|) == FirstRowText(name, primaryLo, maxLen)
    ensures !IsPrimary(name, primaryLo) ==>
              Text(FileHeader(b, name, primaryLo, maxLen), |b| + 1) == Repeat(' ', maxLen) + "::: " + name
    ensures Text(FileHeader(b, name, primaryLo, maxLen), |b| + HeaderRows(name, primaryLo) - 1) == Repeat(' ', maxLen + 1) + "|"
  {
    var loc := if IsPrimary(name, primaryLo) then PrimaryLocation(b, primaryLo, maxLen)
               else SecondaryLocation(b, name, maxLen);
    if IsPrimary(name, primaryLo) {
      PrimaryLocationText(b, primaryLo, maxLen);
    } else {
      SecondaryLocationText(b, name, maxLen);
      ExtendsText(loc, Spacer(loc, maxLen), 1, |b| + 1);
    }
    SpacerText(loc, maxLen);
    ExtendsTrans(b, loc, Spacer(loc, maxLen), HeaderRows(name, primaryLo) - 1, 1);
    ExtendsText(loc, Spacer(loc, maxLen), 1, |b|);
  }

  /** A file's block adds `BlockRows` rows below the buffer, keeping the
      rows above, and starts with its location rows. */
  lemma FileBlockRows(b: Buffer, af: FileWithAnnotatedLines, primaryLo: Loc, maxLen: nat)
    requires LinesNumbered(af.lines)
    ensures Extends(b, FileBlock(b, af, primaryLo, maxLen), BlockRows(af, primaryLo))
    ensures Text(FileBlock(b, af, primaryLo, maxLen), |b|) == FirstRowText(af.file.name, primaryLo, maxLen)
    ensures !IsPrimary(af.file.name, primaryLo) ==>
              Text(FileBlock(b, af, primaryLo, maxLen), |b| + 1) == Repeat(' ', maxLen) + "::: " + af.file.name
  {
    var h := FileHeader(b, af.file.name, primaryLo, maxLen);
    var n := Offset(af.lines, Gaps(af.file, af.lines), LineRows, |af.lines|);
    FileHeaderRows(b, af.file.name, primaryLo, maxLen);
    SourceRows.DrawSourceLinesExtends(h, af.file, af.lines, maxLen);
    ExtendsTrans(b, h, FileBlock(b, af, primaryLo, maxLen), HeaderRows(af.file.name, primaryLo), n);
    ExtendsText(h, FileBlock(b, af, primaryLo, maxLen), n, |b|);
    if !IsPrimary(af.file.name, primaryLo) {
      ExtendsText(h, FileBlock(b, af, primaryLo, maxLen), n, |b| + 1);
    }
  }

  /** What the loop over files relies on from its step: a file adds
      `rows` rows and keeps the rows above. */
  ghost predicate FileRows(step: (Buffer, FileWithAnnotatedLines) -> Buffer, rows: FileWithAnnotatedLines -> nat)
  {
    forall b: Buffer, af: FileWithAnnotatedLines {:trigger step(b, af)} ::
      LinesNumbered(af.lines) ==> Extends(b, step(b, af), rows(af))
  }

  /** ... and starts with its location rows. */
  ghost predicate FileHeads(step: (Buffer, FileWithAnnotatedLines) -> Buffer, primaryLo: Loc, maxLen: nat)
  {
    forall b: Buffer, af: FileWithAnnotatedLines {:trigger Text(step(b, af), |b|)} :: LinesNumbered(af.lines) ==>
      && Text(step(b, af), |b|) == FirstRowText(af.file.name, primaryLo, maxLen)
      && (!IsPrimary(af.file.name, primaryLo) ==> Text(step(b, af), |b| + 1) == Repeat(' ', maxLen) + "::: " + af.file.name)
  }

  /** The rows each file takes, the primary location fixed. */
  function RowsOf(primaryLo: Loc): FileWithAnnotatedLines -> nat
  {
    (af: FileWithAnnotatedLines) => BlockRows(af, primaryLo)
  }

  /** The emitter's file step is such a step. */
  lemma FileStepDraws(primaryLo: Loc, maxLen: nat)
    ensures FileRows(FileStep(primaryLo, maxLen), RowsOf(primaryLo))
    ensures FileHeads(FileStep(primaryLo, maxLen), primaryLo, maxLen)
  {
    forall b: Buffer, af: FileWithAnnotatedLines | LinesNumbered(af.lines)
      ensures Extends(b, FileStep(primaryLo, maxLen)(b, af), RowsOf(primaryLo)(af))
      ensures Text(FileStep(primaryLo, maxLen)(b, af), |b|) == FirstRowText(af.file.name, primaryLo, maxLen)
      ensures !IsPrimary(af.file.name, primaryLo) ==>
                Text(FileStep(primaryLo, maxLen)(b, af), |b| + 1) == Repeat(' ', maxLen) + "::: " + af.file.name
    {
      FileBlockRows(b, af, primaryLo, maxLen);
    }
  }

  /** Files `j` to `k` only add rows. */
  lemma {:induction false} BlocksExtend(b: Buffer, files: seq<FileWithAnnotatedLines>, step: (Buffer, FileWithAnnotatedLines) -> Buffer,
                                        rows: FileWithAnnotatedLines -> nat, j: nat, k: nat)
    requires FileRows(step, rows) && Numbered(files) && j <= k <= |files|
    ensures |Blocks(b, files, step, j)| <= |Blocks(b, files, step, k)|
    ensures Extends(Blocks(b, files, step, j), Blocks(b, files, step, k), |Blocks(b, files, step, k)| - |Blocks(b, files, step, j)|)
    decreases k
  {
    if j == k {
      ExtendsRefl(Blocks(b, files, step, j));
    } else {
      var prev := Blocks(b, files, step, k - 1);
      BlocksExtend(b, files, step, rows, j, k - 1);
      assert LinesNumbered(files[k - 1].lines);
      assert Extends(prev, step(prev, files[k - 1]), rows(files[k - 1]));
      ExtendsTrans(Blocks(b, files, step, j), prev, Blocks(b, files, step, k),
                   |prev| - |Blocks(b, files, step, j)|, rows(files[k - 1]));
    }
  }

  /** Where file `k` sits in the finished buffer: right after the files
      before it, taking `rows` rows, its first row (and a secondary
      file's second) reading as its location rows do. */
  lemma FileAt(b: Buffer, files: seq<FileWithAnnotatedLines>, step: (Buffer, FileWithAnnotatedLines) -> Buffer,
               rows: FileWithAnnotatedLines -> nat, primaryLo: Loc, maxLen: nat, k: nat)
    requires FileRows(step, rows) && FileHeads(step, primaryLo, maxLen) && Numbered(files) && k < |files|
    ensures |Blocks(b, files, step, k + 1)| == |Blocks(b, files, step, k)| + rows(files[k])
    ensures Text(Blocks(b, files, step, |files|), |Blocks(b, files, step, k)|) == FirstRowText(files[k].file.name, primaryLo, maxLen)
    ensures !IsPrimary(files[k].file.name, primaryLo) ==>
              Text(Blocks(b, files, step, |files|), |Blocks(b, files, step, k)| + 1) == Repeat(' ', maxLen) + "::: " + files[k].file.name
  {
    var before := Blocks(b, files, step, k);
    var after := Blocks(b, files, step, k + 1);
    var all := Blocks(b, files, step, |files|);
    assert LinesNumbered(files[k].lines);
    assert Extends(before, step(before, files[k]), rows(files[k]));
    assert Text(step(before, files[k]), |before|) == FirstRowText(files[k].file.name, primaryLo, maxLen);
    BlocksExtend(b, files, step, rows, k + 1, |files|);
    ExtendsText(after, all, |all| - |after|, |before|);
    if !IsPrimary(files[k].file.name, primaryLo) {
      ExtendsText(after, all, |all| - |after|, |before| + 1);
    }
  }

  /** Below the rows it starts from, the files only add rows. */
  lemma EmitFilesExtends(b: Buffer, files: seq<FileWithAnnotatedLines>, primaryLo: Loc, maxLen: nat)
    requires Numbered(files)
    ensures |b| <= |EmitFiles(b, files, primaryLo, maxLen)|
    ensures Extends(b, EmitFiles(b, files, primaryLo, maxLen), |EmitFiles(b, files, primaryLo, maxLen)| - |b|)
  {
    FileStepDraws(primaryLo, maxLen);
    BlocksExtend(b, files, FileStep(primaryLo, maxLen), RowsOf(primaryLo), 0, |files|);
  }

  // ---------------------------------------------------------------------------
  // emit_message_default

  /** `primary_lo`: where the first primary span starts, when there is a
      code map and that span is not a sentinel. */
  function PrimaryLo(cm: Option<CodeMap>, msp: MultiSpan): Option<Loc>
  {
    match (cm, PrimarySpan(msp))
    case (Some(m), Some(sp)) => if IsSentinel(sp) then None else Some(m.lookupCharPos(sp.lo))
    case _ => None
  }

  /** A secondary message with no span information is a bare note. */
  predicate NoteOnly(msp: MultiSpan, isSecondary: bool)
  {
    |msp.primarySpans| == 0 && |msp.spanLabels| == 0 && isSecondary
  }

  /** Which emitter is drawn: the code as written, or the code with the
      two slips this model found corrected (the primary file looked up by
      name wherever it is, and the gutter sized for the children's lines
      too). */
  datatype Build = AsWritten | Corrected

  /** The files in the order they are drawn: as written, the file the
      binary search finds is swapped to the front. */
  function OrderedFiles(cm: Option<CodeMap>, msp: MultiSpan, primaryLo: Loc, build: Build): seq<FileWithAnnotatedLines>
  {
    var files := PreprocessAnnotations(cm, msp.spanLabels);
    if build.AsWritten? then PrimaryFirstAsWritten(files, primaryLo.file.name)
    else PrimaryFirst(files, primaryLo.file.name)
  }

  /** `emit_message_default`: the header row; then, when the primary span
      resolves, each annotated file in `OrderedFiles` order. The
      macro-backtrace notes drawn at the end are not part of this model. */
  function EmitMessageDefault(cm: Option<CodeMap>, msp: MultiSpan, msg: string, code: Option<string>,
                              level: string, maxLen: nat, isSecondary: bool, build: Build): Buffer
  {
    var header := Header(level, code, msg, maxLen, NoteOnly(msp, isSecondary));
    match PrimaryLo(cm, msp)
    case None => header
    case Some(lo) => EmitFiles(header, OrderedFiles(cm, msp, lo, build), lo, maxLen)
  }

  /** The drawn files are the preprocessed files, each once. */
  lemma OrderedFilesNumbered(cm: Option<CodeMap>, msp: MultiSpan, primaryLo: Loc, build: Build)
    ensures multiset(OrderedFiles(cm, msp, primaryLo, build)) == multiset(PreprocessAnnotations(cm, msp.spanLabels))
    ensures Numbered(OrderedFiles(cm, msp, primaryLo, build))
  {
    var files := PreprocessAnnotations(cm, msp.spanLabels);
    var r := OrderedFiles(cm, msp, primaryLo, build);
    forall i | 0 <= i < |r|
      ensures LinesNumbered(r[i].lines)
    {
      assert r[i] in multiset(files);
    }
  }

  /** A message's first row is its header: `level[code]: msg`, or for a
      bare note `= level: msg` past the gutter. Without a code map or a
      resolvable primary span, that row is all there is. */
  lemma EmitMessageHeader(cm: Option<CodeMap>, msp: MultiSpan, msg: string, code: Option<string>,
                          level: string, maxLen: nat, isSecondary: bool, build: Build)
    ensures |EmitMessageDefault(cm, msp, msg, code, level, maxLen, isSecondary, build)| >= 1
    ensures Text(EmitMessageDefault(cm, msp, msg, code, level, maxLen, isSecondary, build), 0)
            == if NoteOnly(msp, isSecondary) then Repeat(' ', maxLen + 1) + "= " + level + ": " + msg
               else level + CodeText(code) + ": " + msg
    ensures PrimaryLo(cm, msp).None? ==> |EmitMessageDefault(cm, msp, msg, code, level, maxLen, isSecondary, build)| == 1
  {
    var header := Header(level, code, msg, maxLen, NoteOnly(msp, isSecondary));
    HeaderText(level, code, msg, maxLen, NoteOnly(msp, isSecondary));
    if PrimaryLo(cm, msp).Some? {
      var lo := PrimaryLo(cm, msp).value;
      var r := EmitMessageDefault(cm, msp, msg, code, level, maxLen, isSecondary, build);
      OrderedFilesNumbered(cm, msp, lo, build);
      EmitFilesExtends(header, OrderedFiles(cm, msp, lo, build), lo, maxLen);
      ExtendsText(header, r, |r| - 1, 0);
    }
  }

  /** The row under the header is `--> file:line:col` of the primary
      span, indented by the gutter, whenever the file the binary search
      puts first is the primary file: always once corrected, and as
      written when the annotated files happen to be in name order. */
  lemma EmitMessagePrimaryFirst(cm: Option<CodeMap>, msp: MultiSpan, msg: string, code: Option<string>,
                                level: string, maxLen: nat, isSecondary: bool, build: Build)
    requires PrimaryLo(cm, msp).Some?
    requires HasName(PreprocessAnnotations(cm, msp.spanLabels), PrimaryLo(cm, msp).value.file.name)
    requires build.Corrected? || SortedNames(Names(PreprocessAnnotations(cm, msp.spanLabels)))
    ensures Text(EmitMessageDefault(cm, msp, msg, code, level, maxLen, isSecondary, build), 1)
            == Repeat(' ', maxLen) + "--> " + LocText(PrimaryLo(cm, msp).value)
  {
    var header := Header(level, code, msg, maxLen, NoteOnly(msp, isSecondary));
    var lo := PrimaryLo(cm, msp).value;
    var files := OrderedFiles(cm, msp, lo, build);
    if build.AsWritten? {
      PrimaryFirstAsWrittenSorted(PreprocessAnnotations(cm, msp.spanLabels), lo.file.name);
    }
    assert IsPrimary(files[0].file.name, lo);
    HeaderText(level, code, msg, maxLen, NoteOnly(msp, isSecondary));
    OrderedFilesNumbered(cm, msp, lo, build);
    FileStepDraws(lo, maxLen);
    FileAt(header, files, FileStep(lo, maxLen), RowsOf(lo), lo, maxLen, 0);
  }

  /** Files `c.rs`, `z.rs` and `b.rs`, first seen in that order, with the
      primary span in `b.rs`: as written the row under the header is the
      `|` row that opens `c.rs`, not the primary location; corrected it
      is the `-->` row. */
  lemma EmitMessagePrimaryMissed(cm: Option<CodeMap>, msp: MultiSpan, msg: string, code: Option<string>,
                                 level: string, maxLen: nat, isSecondary: bool)
    requires PrimaryLo(cm, msp).Some? && PrimaryLo(cm, msp).value.file.name == "b.rs"
    requires Names(PreprocessAnnotations(cm, msp.spanLabels)) == ["c.rs", "z.rs", "b.rs"]
    ensures Text(EmitMessageDefault(cm, msp, msg, code, level, maxLen, isSecondary, AsWritten), 1)
            == Repeat(' ', maxLen + 1) + "| "
    ensures Text(EmitMessageDefault(cm, msp, msg, code, level, maxLen, isSecondary, Corrected), 1)
            == Repeat(' ', maxLen) + "--> " + LocText(PrimaryLo(cm, msp).value)
  {
    var header := Header(level, code, msg, maxLen, NoteOnly(msp, isSecondary));
    var lo := PrimaryLo(cm, msp).value;
    var pre := PreprocessAnnotations(cm, msp.spanLabels);
    assert pre[2].file.name == Names(pre)[2];
    assert HasName(pre, "b.rs");
    var files := OrderedFiles(cm, msp, lo, AsWritten);
    PrimaryFirstAsWrittenSearchMisses(pre);
    assert files[0].file.name == "c.rs";
    HeaderText(level, code, msg, maxLen, NoteOnly(msp, isSecondary));
    OrderedFilesNumbered(cm, msp, lo, AsWritten);
    FileStepDraws(lo, maxLen);
    FileAt(header, files, FileStep(lo, maxLen), RowsOf(lo), lo, maxLen, 0);
    EmitMessagePrimaryFirst(cm, msp, msg, code, level, maxLen, isSecondary, Corrected);
  }

  /** Each drawn file starts where the files before it end, with its
      location rows, and every preprocessed file is drawn once, in either
      build. */
  lemma EmitMessageFiles(cm: Option<CodeMap>, msp: MultiSpan, msg: string, code: Option<string>,
                         level: string, maxLen: nat, isSecondary: bool, build: Build, k: nat)
    requires PrimaryLo(cm, msp).Some?
    requires k < |OrderedFiles(cm, msp, PrimaryLo(cm, msp).value, build)|
    ensures var lo := PrimaryLo(cm, msp).value;
            var files := OrderedFiles(cm, msp, lo, build);
            var header := Header(level, code, msg, maxLen, NoteOnly(msp, isSecondary));
            && multiset(files) == multiset(PreprocessAnnotations(cm, msp.spanLabels))
            && Text(EmitMessageDefault(cm, msp, msg, code, level, maxLen, isSecondary, build), |Blocks(header, files, FileStep(lo, maxLen), k)|)
               == FirstRowText(files[k].file.name, lo, maxLen)
  {
    var lo := PrimaryLo(cm, msp).value;
    var header := Header(level, code, msg, maxLen, NoteOnly(msp, isSecondary));
    OrderedFilesNumbered(cm, msp, lo, build);
    FileStepDraws(lo, maxLen);
    FileAt(header, OrderedFiles(cm, msp, lo, build), FileStep(lo, maxLen), RowsOf(lo), lo, maxLen, k);
  }

  // ---------------------------------------------------------------------------
  // emit_suggestion_default

  /** One suggestion row: the `| ` separator past the gutter on row
      `row`, then the line. */
  function SuggestionRow(b: Buffer, row: nat, line: string, maxLen: nat): Buffer
  {
    Append(DrawColSeparator(b, row, maxLen + 1), row, line, NoStyle)
  }

  /** The drawing step for a suggestion row, the gutter width fixed. */
  function RowStep(maxLen: nat): (Buffer, nat, string) -> Buffer
  {
    (b: Buffer, row: nat, line: string) => SuggestionRow(b, row, line, maxLen)
  }

  /** The first `k` suggestion rows, row `k` drawn by `step` with the
      `k`-th line of the spliced source. */
  function Highlighted(b: Buffer, lines: seq<string>, step: (Buffer, nat, string) -> Buffer, k: nat): Buffer
    requires k <= |lines|
    decreases k
  {
    if k == 0 then b else step(Highlighted(b, lines, step, k - 1), k, lines[k - 1])
  }

  /** The rows under a suggestion's header: at most `MAX_HIGHLIGHT_LINES`
      lines, then `...` when there were more. */
  function SuggestionBodyWith(b: Buffer, lines: seq<string>, step: (Buffer, nat, string) -> Buffer): Buffer
  {
    var shown := if |lines| < MaxHighlightLines then |lines| else MaxHighlightLines;
    var r := Highlighted(b, lines, step, shown);
    if |lines| > MaxHighlightLines then Append(r, shown + 1, "...", NoStyle) else r
  }

  /** The buffer a suggestion emits when it emits one. */
  function EmitSuggestionBuffer(suggestion: CodeSuggestion, level: string, msg: string, maxLen: nat): Buffer
  {
    SuggestionBodyWith(LevelHeader(level, None, msg), suggestion.splicedLines, RowStep(maxLen))
  }

  /** `emit_suggestion_default`. `spanToLines` is the code map's
      `span_to_lines`: the number of lines the span covers, or `None` for
      its error. The result is the buffer emitted, `None` when there is no
      code map; a suggestion with no primary span, a span the code map
      cannot split into lines, or one covering no line aborts. */
  function EmitSuggestionDefault(cm: Option<CodeMap>, spanToLines: Span -> Option<nat>, suggestion: CodeSuggestion,
                                 level: string, msg: string, maxLen: nat): Outcome<Option<Buffer>>
  {
    match PrimarySpan(suggestion.msp)
    case None => Panic("called `Option::unwrap()` on a `None` value")
    case Some(sp) =>
      if cm.None? then Done(None)
      else
        match spanToLines(sp)
        case None => Panic("called `Result::unwrap()` on an `Err` value")
        case Some(n) =>
          if n == 0 then Panic("assertion failed: !lines.lines.is_empty()")
          else Done(Some(EmitSuggestionBuffer(suggestion, level, msg, maxLen)))
  }

  /** What the row loop relies on from its step: drawn on the first row
      past the buffer, a row adds that row, keeps the rows above, and reads
      as the separator and the line. */
  ghost predicate AddsRows(step: (Buffer, nat, string) -> Buffer, maxLen: nat)
  {
    forall b: Buffer, line: string {:trigger step(b, |b|, line)} ::
      Extends(b, step(b, |b|, line), 1) && Text(step(b, |b|, line), |b|) == Repeat(' ', maxLen + 1) + "| " + line
  }

  /** One suggestion row on a fresh row. */
  lemma SuggestionRowText(b: Buffer, line: string, maxLen: nat)
    ensures Extends(b, SuggestionRow(b, |b|, line, maxLen), 1)
    ensures Text(SuggestionRow(b, |b|, line, maxLen), |b|) == Repeat(' ', maxLen + 1) + "| " + line
  {
    var s := DrawColSeparator(b, |b|, maxLen + 1);
    PutsText(b, |b|, maxLen + 1, "| ", LineNumber);
    assert Text(b, |b|) == "";
    ConcatEmpty(Repeat(' ', maxLen + 1));
    AppendText(s, |b|, line, NoStyle);
    var r := Append(s, |b|, line, NoStyle);
    forall row: nat | row < |b|
      ensures RowKept(b, r, row)
    {
      assert RowKept(b, s, row);
    }
  }

  lemma RowStepAdds(maxLen: nat)
    ensures AddsRows(RowStep(maxLen), maxLen)
  {
    forall b: Buffer, line: string
      ensures Extends(b, RowStep(maxLen)(b, |b|, line), 1)
      ensures Text(RowStep(maxLen)(b, |b|, line), |b|) == Repeat(' ', maxLen + 1) + "| " + line
    {
      SuggestionRowText(b, line, maxLen);
    }
  }

  /** Each suggestion row under a one-row header adds a row and keeps the
      rows above. */
  lemma {:induction false} HighlightedSize(b: Buffer, lines: seq<string>, step: (Buffer, nat, string) -> Buffer, maxLen: nat, k: nat)
    requires AddsRows(step, maxLen) && |b| == 1 && k <= |lines|
    ensures Extends(b, Highlighted(b, lines, step, k), k)
    decreases k
  {
    if k == 0 {
      ExtendsRefl(b);
    } else {
      var prev := Highlighted(b, lines, step, k - 1);
      HighlightedSize(b, lines, step, maxLen, k - 1);
      assert |prev| == k;
      assert Extends(prev, step(prev, |prev|, lines[k - 1]), 1);
      ExtendsTrans(b, prev, Highlighted(b, lines, step, k), k - 1, 1);
    }
  }

  /** After `k` suggestion rows under a one-row header, row `j` holds line
      `j`. */
  lemma {:induction false} HighlightedRows(b: Buffer, lines: seq<string>, step: (Buffer, nat, string) -> Buffer, maxLen: nat, j: nat, k: nat)
    requires AddsRows(step, maxLen) && |b| == 1 && 1 <= j <= k <= |lines|
    ensures Text(Highlighted(b, lines, step, k), j) == Repeat(' ', maxLen + 1) + "| " + lines[j - 1]
    decreases k
  {
    var prev := Highlighted(b, lines, step, k - 1);
    HighlightedSize(b, lines, step, maxLen, k - 1);
    assert |prev| == k;
    assert Extends(prev, step(prev, |prev|, lines[k - 1]), 1);
    if j < k {
      HighlightedRows(b, lines, step, maxLen, j, k - 1);
      ExtendsText(prev, Highlighted(b, lines, step, k), 1, j);
    }
  }

  /** The body under a one-row header, for any row step: the header row
      kept, the shown lines, then one more row when lines were left out. */
  lemma BodySize(h: Buffer, lines: seq<string>, step: (Buffer, nat, string) -> Buffer, maxLen: nat)
    requires AddsRows(step, maxLen) && |h| == 1
    ensures var shown := if |lines| < MaxHighlightLines then |lines| else MaxHighlightLines;
            Extends(h, SuggestionBodyWith(h, lines, step), shown + (if |lines| > MaxHighlightLines then 1 else 0))
  {
    var shown := if |lines| < MaxHighlightLines then |lines| else MaxHighlightLines;
    var hl := Highlighted(h, lines, step, shown);
    HighlightedSize(h, lines, step, maxLen, shown);
    if |lines| > MaxHighlightLines {
      SuggestionEllipsis(hl, shown + 1);
      ExtendsTrans(h, hl, SuggestionBodyWith(h, lines, step), shown, 1);
    }
  }

  /** Row `j` of the body, for a shown line `j`, holds that line. */
  lemma BodyRow(h: Buffer, lines: seq<string>, step: (Buffer, nat, string) -> Buffer, maxLen: nat, j: nat)
    requires AddsRows(step, maxLen) && |h| == 1
    requires 1 <= j <= |lines| && j <= MaxHighlightLines
    ensures Text(SuggestionBodyWith(h, lines, step), j) == Repeat(' ', maxLen + 1) + "| " + lines[j - 1]
  {
    var shown := if |lines| < MaxHighlightLines then |lines| else MaxHighlightLines;
    var hl := Highlighted(h, lines, step, shown);
    HighlightedRows(h, lines, step, maxLen, j, shown);
    if |lines| > MaxHighlightLines {
      HighlightedSize(h, lines, step, maxLen, shown);
      SuggestionEllipsis(hl, shown + 1);
      ExtendsText(hl, SuggestionBodyWith(h, lines, step), 1, j);
    }
  }

  /** When lines were left out, the row after the shown ones is `...`. */
  lemma BodyEllipsis(h: Buffer, lines: seq<string>, step: (Buffer, nat, string) -> Buffer, maxLen: nat)
    requires AddsRows(step, maxLen) && |h| == 1 && |lines| > MaxHighlightLines
    ensures Text(SuggestionBodyWith(h, lines, step), MaxHighlightLines + 1) == "..."
  {
    var hl := Highlighted(h, lines, step, MaxHighlightLines);
    HighlightedSize(h, lines, step, maxLen, MaxHighlightLines);
    SuggestionEllipsis(hl, MaxHighlightLines + 1);
  }

  /** What a suggestion shows: the header `level: msg`, then the first
      lines of the spliced source (at most `MAX_HIGHLIGHT_LINES`), each
      after the gutter and `| `, then `...` when lines were left out. */
  lemma SuggestionLayout(suggestion: CodeSuggestion, level: string, msg: string, maxLen: nat, j: nat)
    ensures var r := EmitSuggestionBuffer(suggestion, level, msg, maxLen);
            var n := |suggestion.splicedLines|;
            var shown := if n < MaxHighlightLines then n else MaxHighlightLines;
            && |r| == 1 + shown + (if n > MaxHighlightLines then 1 else 0)
            && Text(r, 0) == level + ": " + msg
            && (1 <= j <= shown ==> Text(r, j) == Repeat(' ', maxLen + 1) + "| " + suggestion.splicedLines[j - 1])
            && (n > MaxHighlightLines ==> Text(r, MaxHighlightLines + 1) == "...")
  {
    LevelHeaderText(level, None, msg);
    ConcatEmpty(level);
    assert level + CodeText(None) == level;
    RowStepAdds(maxLen);
    var h := LevelHeader(level, None, msg);
    BodySize(h, suggestion.splicedLines, RowStep(maxLen), maxLen);
    ExtendsText(h, EmitSuggestionBuffer(suggestion, level, msg, maxLen), |EmitSuggestionBuffer(suggestion, level, msg, maxLen)| - 1, 0);
    if 1 <= j <= |suggestion.splicedLines| && j <= MaxHighlightLines {
      BodyRow(h, suggestion.splicedLines, RowStep(maxLen), maxLen, j);
    }
    if |suggestion.splicedLines| > MaxHighlightLines {
      BodyEllipsis(LevelHeader(level, None, msg), suggestion.splicedLines, RowStep(maxLen), maxLen);
    }
  }

  /** The `...` row after the last shown line. */
  lemma SuggestionEllipsis(b: Buffer, row: nat)
    requires row == |b|
    ensures Extends(b, Append(b, row, "...", NoStyle), 1)
    ensures Text(Append(b, row, "...", NoStyle), row) == "..."
  {
    AppendText(b, row, "...", NoStyle);
    ConcatEmpty("...");
  }

  /** When a suggestion aborts, emits nothing, or emits its buffer. */
  lemma SuggestionOutcome(cm: Option<CodeMap>, spanToLines: Span -> Option<nat>, suggestion: CodeSuggestion,
                          level: string, msg: string, maxLen: nat)
    ensures var o := EmitSuggestionDefault(cm, spanToLines, suggestion, level, msg, maxLen);
            && (o.Panic? <==> PrimarySpan(suggestion.msp).None?
                              || (cm.Some? && spanToLines(PrimarySpan(suggestion.msp).value) in {None, Some(0)}))
            && (o == Done(None) <==> PrimarySpan(suggestion.msp).Some? && cm.None?)
            && (o.Done? && o.value.Some? ==> o.value.value == EmitSuggestionBuffer(suggestion, level, msg, maxLen))
  {
  }

  // ---------------------------------------------------------------------------
  // emit_messages_default

  /** The two ways the emitter draws one message: `emit_message_default`
      (span, message, code, level, gutter width, whether secondary) and
      `emit_suggestion_default` (suggestion, level, message, gutter
      width). */
  datatype MessageEmitter = MessageEmitter(message: (MultiSpan, string, Option<string>, string, nat, bool) -> Buffer,
                                           suggestion: (CodeSuggestion, string, string, nat) -> Outcome<Option<Buffer>>)

  /** The emitter's own drawing, given its code map. */
  function DefaultEmitter(cm: Option<CodeMap>, spanToLines: Span -> Option<nat>, build: Build): MessageEmitter
  {
    MessageEmitter((msp: MultiSpan, msg: string, code: Option<string>, level: string, maxLen: nat, isSecondary: bool) =>
                     EmitMessageDefault(cm, msp, msg, code, level, maxLen, isSecondary, build),
                   (cs: CodeSuggestion, level: string, msg: string, maxLen: nat) =>
                     EmitSuggestionDefault(cm, spanToLines, cs, level, msg, maxLen))
  }

  /** The span a message child is drawn with: the one it renders, or its
      own. */
  function ChildSpan(child: SubDiagnostic): MultiSpan
  {
    match child.renderSpan
    case Some(FullSpan(msp)) => msp
    case _ => child.span
  }

  predicate IsSuggestion(child: SubDiagnostic)
  {
    child.renderSpan.Some? && child.renderSpan.value.Suggestion?
  }

  /** What one child emits: a message child one secondary message, a
      suggestion child its buffer or nothing. */
  function EmitChild(e: MessageEmitter, child: SubDiagnostic, maxLen: nat): Outcome<seq<Buffer>>
  {
    match child.renderSpan
    case Some(Suggestion(cs)) =>
      (match e.suggestion(cs, child.level, child.message, maxLen)
       case Panic(m) => Panic(m)
       case Done(o) => Done(if o.Some? then [o.value] else []))
    case _ => Done([e.message(ChildSpan(child), child.message, None, child.level, maxLen, true)])
  }

  /** The children in order, stopping at the first that aborts. */
  function EmitChildren(e: MessageEmitter, children: seq<SubDiagnostic>, maxLen: nat): Outcome<seq<Buffer>>
    decreases |children|
  {
    if |children| == 0 then Done([])
    else
      var first :- EmitChild(e, children[0], maxLen);
      var rest :- EmitChildren(e, children[1..], maxLen);
      Done(first + rest)
  }

  /** The width of the line-number gutter for a diagnostic: the digits of
      `get_max_line_num`, as written or corrected. */
  function GutterWidth(cm: Option<CodeMap>, db: DiagnosticBuilder, build: Build): nat
  {
    |NatToString(if build.AsWritten? then GetMaxLineNumAsWritten(cm, db) else GetMaxLineNum(cm, db))|
  }

  /** The separator row between a message and its children. */
  function ChildSeparator(maxLen: nat): Buffer
  {
    DrawColSeparatorNoSpace([], 0, maxLen + 1)
  }

  /** The main message, a separator when there are children, each child,
      then an empty line. */
  function EmitMessagesWith(e: MessageEmitter, db: DiagnosticBuilder, maxLen: nat): Outcome<seq<Buffer>>
  {
    var main := e.message(db.span, db.message, db.code, db.level, maxLen, false);
    var sep: seq<Buffer> := if |db.children| == 0 then [] else [ChildSeparator(maxLen)];
    var children :- EmitChildren(e, db.children, maxLen);
    var newline: Buffer := [[]];
    Done([main] + sep + children + [newline])
  }

  /** `emit_messages_default`, the gutter sized by `GutterWidth`. Errors
      writing to the destination abort there and are not part of this
      model. */
  function EmitMessagesDefault(cm: Option<CodeMap>, spanToLines: Span -> Option<nat>, db: DiagnosticBuilder, build: Build): Outcome<seq<Buffer>>
  {
    EmitMessagesWith(DefaultEmitter(cm, spanToLines, build), db, GutterWidth(cm, db, build))
  }

  /** A child aborts exactly when it is a suggestion that aborts. */
  predicate ChildAborts(e: MessageEmitter, child: SubDiagnostic, maxLen: nat)
  {
    IsSuggestion(child) && e.suggestion(child.renderSpan.value.cs, child.level, child.message, maxLen).Panic?
  }

  /** The children abort exactly when one of them does; otherwise each
      adds at most one buffer. */
  lemma {:induction false} EmitChildrenAborts(e: MessageEmitter, children: seq<SubDiagnostic>, maxLen: nat)
    ensures EmitChildren(e, children, maxLen).Panic? <==> exists i :: 0 <= i < |children| && ChildAborts(e, children[i], maxLen)
    ensures EmitChildren(e, children, maxLen).Done? ==> |EmitChildren(e, children, maxLen).value| <= |children|
    decreases |children|
  {
    if |children| > 0 {
      EmitChildrenAborts(e, children[1..], maxLen);
      if exists i :: 1 <= i < |children| && ChildAborts(e, children[i], maxLen) {
        var i :| 1 <= i < |children| && ChildAborts(e, children[i], maxLen);
        assert children[1..][i - 1] == children[i];
      }
      if exists i :: 0 <= i < |children| - 1 && ChildAborts(e, children[1..][i], maxLen) {
        var i :| 0 <= i < |children| - 1 && ChildAborts(e, children[1..][i], maxLen);
        assert children[1..][i] == children[i + 1];
      }
    }
  }

  /** Without suggestion children, child `i` emits exactly one buffer, at
      position `i`: its secondary message, drawn with the span it
      renders. */
  lemma {:induction false} EmitChildrenPositions(e: MessageEmitter, children: seq<SubDiagnostic>, maxLen: nat, i: nat)
    requires forall j :: 0 <= j < |children| ==> !IsSuggestion(children[j])
    requires i < |children|
    ensures EmitChildren(e, children, maxLen).Done?
    ensures |EmitChildren(e, children, maxLen).value| == |children|
    ensures EmitChildren(e, children, maxLen).value[i]
            == e.message(ChildSpan(children[i]), children[i].message, None, children[i].level, maxLen, true)
    decreases |children|
  {
    assert !IsSuggestion(children[0]);
    if |children| > 1 {
      assert forall j :: 0 <= j < |children| - 1 ==> children[1..][j] == children[j + 1];
      EmitChildrenPositions(e, children[1..], maxLen, if i == 0 then 0 else i - 1);
    } else {
      assert children[1..] == [];
    }
  }

  /** `emit_messages_default` aborts exactly when a suggestion child
      does. */
  lemma EmitMessagesAborts(e: MessageEmitter, db: DiagnosticBuilder, maxLen: nat)
    ensures EmitMessagesWith(e, db, maxLen).Panic?
            <==> exists i :: 0 <= i < |db.children| && ChildAborts(e, db.children[i], maxLen)
  {
    EmitChildrenAborts(e, db.children, maxLen);
  }

  /** The buffers `emit_messages_default` hands on, in order: the main
      message, the `|` separator row when there are children, at most one
      buffer per child, then an empty line. */
  lemma EmitMessagesLayout(e: MessageEmitter, db: DiagnosticBuilder, maxLen: nat)
    requires EmitMessagesWith(e, db, maxLen).Done?
    ensures var r := EmitMessagesWith(e, db, maxLen).value;
            && 2 <= |r| <= |db.children| + (if |db.children| == 0 then 2 else 3)
            && r[0] == e.message(db.span, db.message, db.code, db.level, maxLen, false)
            && r[|r| - 1] == [[]]
            && (|db.children| > 0 ==> r[1] == ChildSeparator(maxLen))
  {
    EmitChildrenAborts(e, db.children, maxLen);
  }

  /** Without suggestion children, child `i`'s message is the buffer
      after the main message, the separator and the `i` children before
      it. */
  lemma EmitMessagesChild(e: MessageEmitter, db: DiagnosticBuilder, maxLen: nat, i: nat)
    requires forall j :: 0 <= j < |db.children| ==> !IsSuggestion(db.children[j])
    requires i < |db.children|
    ensures EmitMessagesWith(e, db, maxLen).Done?
    ensures |EmitMessagesWith(e, db, maxLen).value| == |db.children| + 3
    ensures EmitMessagesWith(e, db, maxLen).value[2 + i]
            == e.message(ChildSpan(db.children[i]), db.children[i].message, None, db.children[i].level, maxLen, true)
  {
    EmitChildrenPositions(e, db.children, maxLen, i);
  }

  /** The separator row reads as the gutter and `|`. */
  lemma ChildSeparatorText(maxLen: nat)
    ensures |ChildSeparator(maxLen)| == 1
    ensures Text(ChildSeparator(maxLen), 0) == Repeat(' ', maxLen + 1) + "|"
  {
    PutsText([], 0, maxLen + 1, "|", LineNumber);
  }

  /** With the emitter's own drawing, a child aborts exactly when its
      suggestion has no primary span, or a code map that cannot split the
      span into lines or finds none. */
  lemma DefaultChildAborts(cm: Option<CodeMap>, spanToLines: Span -> Option<nat>, build: Build, child: SubDiagnostic, maxLen: nat)
    requires IsSuggestion(child)
    ensures var msp := child.renderSpan.value.cs.msp;
            ChildAborts(DefaultEmitter(cm, spanToLines, build), child, maxLen)
            <==> PrimarySpan(msp).None? || (cm.Some? && spanToLines(PrimarySpan(msp).value) in {None, Some(0)})
  {
    SuggestionOutcome(cm, spanToLines, child.renderSpan.value.cs, child.level, child.message, maxLen);
  }

  /** Corrected, every line number the main message or any child reports
      fits the gutter. */
  lemma GutterCoversChildren(cm: Option<CodeMap>, db: DiagnosticBuilder, i: nat)
    requires i < |db.children|
    ensures |NatToString(GetMultispanMaxLineNum(cm, db.span))| <= GutterWidth(cm, db, Corrected)
    ensures |NatToString(GetMultispanMaxLineNum(cm, db.children[i].span))| <= GutterWidth(cm, db, Corrected)
  {
    GutterFits(cm, db, GetMultispanMaxLineNum(cm, db.span));
    GutterFits(cm, db, GetMultispanMaxLineNum(cm, db.children[i].span));
  }

  /** As written, the gutter is as wide as the main message's largest line
      number needs, whatever the children; a child's lines fit exactly
      when its largest line number has no more digits. */
  lemma GutterAsWritten(cm: Option<CodeMap>, db: DiagnosticBuilder, i: nat)
    requires i < |db.children|
    ensures GutterWidth(cm, db, AsWritten) == |NatToString(GetMultispanMaxLineNum(cm, db.span))|
    ensures |NatToString(GetMultispanMaxLineNum(cm, db.children[i].span))| <= GutterWidth(cm, db, AsWritten)
            <==> |NatToString(GetMultispanMaxLineNum(cm, db.children[i].span))|
                 <= |NatToString(GetMultispanMaxLineNum(cm, db.span))|
  {
    GetMaxLineNumAsWrittenIsPrimary(cm, db);
  }
}

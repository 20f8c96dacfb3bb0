# A Dafny model of pieces of an early Rust toolchain

This project models, in Dafny, several pieces of an early Rust compiler and
its core library. It proves properties of each piece:

- **Diagnostic layout** (`src/librustc_errors/emitter.rs`). This covers:
  - grouping the labelled spans of a message into files and lines
    (`preprocess_annotations`);
  - drawing one quoted source line with its underline row, inline label and
    hung labels (`render_source_line`);
  - the width of the line-number gutter (`get_max_line_num`,
    `line_num_max_digits`);
  - the message header, the `-->` and `:::` location rows, and the skipped
    and elided lines between quoted lines (`emit_message_default`);
  - suggestions (`emit_suggestion_default`);
  - the sequence of message and child buffers (`emit_messages_default`).

  The styled buffer is a sequence of rows of styled cells.
- **Call lowering** (`src/librustc/middle/trans/callee.rs`). This covers:
  - the decisions `trans_fn_ref_with_vtables` takes for a function reference:
    default methods, monomorphisation, and local or external paths;
  - how `trans_call_inner`, `trans_args` and `trans_arg_expr` build a call.
    The emitted instructions are a trace; cleanups are scheduled and revoked
    on that trace.
- **Lowering helpers** (`src/librustc/middle/trans/base.rs`). This covers:
  - the scalar comparison tables, checked against the integer and IEEE
    semantics they encode;
  - the shift-amount cast;
  - the extern-declaration caches and the unique-symbol check;
  - the parameter layout of `decl_rust_fn`;
  - the return-pointer set-up of `init_function` and `build_return_block`;
  - the block structure that `iter_structural_ty` and `with_cond` build.
- **Characters and comparison** (`src/libcore/char.rs`, `src/libcore/cmp.rs`).
  This covers digit conversion, the two escapes, the UTF-8 length, `cmp`,
  `min` and `max`.
- **Pretty printer bookkeeping** (`src/libsyntax/print/pprust.rs`). This
  covers the box stack, comma separation, visibility, the literal and
  comment cursors, and the token streams printed for generics, function
  headers, argument lists with their self argument, comments, struct
  bodies and enum variants, tuple-like or struct, each checked against the
  text a reader of the Rust expects.
- **Two test programs.** These are the `cat` class of
  `src/test/auxiliary/cci_class_4.rs` and `select` from
  `src/test/run-pass/borrowed-ptr-pattern-option.rs`.

Runtime failure is modelled the same way everywhere. A `fail!`, a compiler
`bug`, a failed `assert!` or an `unwrap` of `None` becomes the `Panic`
outcome of `Common.Outcome`. It is never a precondition. Machine integers
are unbounded in the model. They wrap explicitly where the source's width
matters: the cat's counters and the `uint` subtraction in vtable
resolution.

Two slips in `emitter.rs` are listed under Findings. The emitter is
modelled both ways: `Emit.Build` chooses between the code as written and
the code with both slips corrected. `EmitMessageDefault` and
`EmitMessagesDefault` take that choice, and the lemmas state what each
build draws.

## Model

| member | source | states |
|---|---|---|
| Chars.ToDigit | src/libcore/char.rs:146-158 | fails exactly when the radix exceeds 36; otherwise `0-9` give 0..9 and `a-z`, `A-Z` give 10..35, returned only when below the radix, and every other character gives `None` |
| Chars.FromDigit | src/libcore/char.rs:169-182 | fails exactly when the radix exceeds 36; yields a character exactly when `num` is below the radix, a decimal digit for `num < 10` and a lower-case letter otherwise, each encoding `num` |
| Chars.IsDigitRadix | src/libcore/char.rs:125-130 | holds exactly when the character is a digit, lower-case or upper-case letter whose value is below the radix; fails whenever `to_digit` fails |
| Chars.FromDigitThenToDigit | src/libcore/char.rs:146-182 | round trip: `to_digit` reads back every digit `from_digit` writes |
| Chars.ToDigitThenFromDigit | src/libcore/char.rs:146-182 | round trip: `from_digit` writes back a digit accepted by `to_digit`, as its lower-case form |
| Chars.ToDigitExamples | src/libcore/char.rs:344-357 | the unit-test answers of `to_digit`, including the `None` cases for space and `$` |
| Chars.ParseHexString | src/libcore/char.rs:193-205 | the hexadecimal text of a code point reads back as the code point |
| Chars.EscapeUnicode | src/libcore/char.rs:193-205 | a backslash, then `x`, `u` or `U` by code-point range, then exactly 2, 4 or 8 lower-case hexadecimal digits that read back as the code point |
| Chars.EscapeUnicodeParts | src/libcore/char.rs:193-205 | the unpadded hexadecimal digits never outnumber the padded width, so the source's width `assert!` never fails |
| Chars.ParseHexInjective | src/libcore/char.rs:193-205 | two lower-case digit strings of the same length that read the same value are the same string |
| Chars.EscapeUnicodeUnique | src/libcore/char.rs:193-205 | any string with the escape's prefix and width whose lower-case digits read the code point is the escape itself, so the escape is fully determined |
| Chars.EscapeUnicodeByte | src/libcore/char.rs:193-205 | a one-byte code point escapes as `\x` and its high and low hexadecimal digit |
| Chars.EscapeUnicodeByteExamples | src/libcore/char.rs:387-391 | the unit-test answers of `escape_unicode` for one-byte characters |
| Chars.EscapeUnicodeWideExample | src/libcore/char.rs:392 | the unit test for `\u011b` |
| Chars.EscapeUnicodeAstralExample | src/libcore/char.rs:393 | the unit test for `\U0001d4b6` |
| Chars.EscapeDefault | src/libcore/char.rs:219-230 | tab, CR, LF, backslash and both quotes get their two-character escapes; other printable ASCII is itself; everything else is `escape_unicode` |
| Chars.EscapeDefaultShape | src/libcore/char.rs:219-230 | the escape is one character exactly for printable ASCII other than backslash and the quotes; every longer escape starts with a backslash |
| Chars.EscapeDefaultExamples | src/libcore/char.rs:370-377 | the unit-test answers of `escape_default` for the named escapes and printable characters |
| Chars.EscapeDefaultByteExamples | src/libcore/char.rs:378-381 | the unit-test answers of `escape_default` for one-byte characters outside the printable range |
| Chars.EscapeDefaultWideExamples | src/libcore/char.rs:382-383 | the unit-test answers of `escape_default` for a four-digit and an eight-digit code point |
| Chars.LenUtf8Bytes | src/libcore/char.rs:233-245 | fails exactly at code points of 2^21 and above; otherwise between 1 and 4 bytes |
| Chars.LenUtf8IsShortestEncoding | src/libcore/char.rs:233-245 | for every character the byte count is the smallest UTF-8 length whose payload bits hold the code point |
| Cmp.Compare | src/libcore/cmp.rs:48-59 | `Less`, `Greater` and `Equal` exactly when the first integer is smaller, larger or equal |
| Cmp.CompareAntisymmetric | src/libcore/cmp.rs:48-59 | swapping the operands reverses the ordering |
| Cmp.CompareTransitive | src/libcore/cmp.rs:48-59 | two `Less` answers chain, and so do two `Greater` answers |
| Cmp.CompareExamples | src/libcore/cmp.rs:143-149 | the unit-test answers, including negative operands |
| Cmp.IntOrdAgreesWithCompare | src/libcore/cmp.rs:93-120 | on integers the free functions `lt`, `le`, `ge`, `gt`, `eq`, `ne` agree with `cmp` |
| Cmp.Min | src/libcore/cmp.rs:131-133 | returns the first operand exactly when it is strictly less than the second, else the second |
| Cmp.Max | src/libcore/cmp.rs:136-138 | returns the first operand exactly when it is strictly greater than the second, else the second |
| Cmp.IntMinMaxBounds | src/libcore/cmp.rs:131-138 | on integers `min` is a lower bound and `max` an upper bound, and together they are the two operands |
| Cmp.MinMaxTieTakesSecond | src/libcore/cmp.rs:131-138 | on a tie both `min` and `max` return the second operand |
| Kitties.NewCat | src/test/auxiliary/cci_class_4.rs:44-50 | the constructor stores its three arguments in the three fields |
| Kitties.Meow | src/test/auxiliary/cci_class_4.rs:35-41 | the meow count goes up by one, and hunger goes up by one exactly when the new count is a multiple of 5; the name is kept |
| Kitties.Speak | src/test/auxiliary/cci_class_4.rs:20 | speaking is a meow |
| Kitties.Eat | src/test/auxiliary/cci_class_4.rs:22-31 | eats, lowering hunger by 2, exactly when hunger is positive, and says so; otherwise nothing changes |
| Kitties.MeowTimesEffect | src/test/auxiliary/cci_class_4.rs:35-41 | `n` meows without wrap-around add `n` meows and one hunger for each multiple of 5 passed |
| Kitties.EatUntilFull | src/test/auxiliary/cci_class_4.rs:22-31 | a hungry cat eats `(h + 1) / 2` times; after that its hunger is 0 or -1 by parity and it refuses to eat |
| Kitties.MeowWrapsAround | src/test/auxiliary/cci_class_4.rs:13-15 | the 64-bit counters wrap around: the meow count after the largest value is 0, and hunger after the largest value is the smallest |
| OptionSelect.Select | src/test/run-pass/borrowed-ptr-pattern-option.rs:11-17 | chooses `y` exactly when `x` is `None` and `y` is `Some`, and returns the chosen option |
| OptionSelect.SelectPrefersFirstValue | src/test/run-pass/borrowed-ptr-pattern-option.rs:11-17 | the result holds a value exactly when either input does, and it is `x`'s whenever `x` has one |
| OptionSelect.Get | src/test/run-pass/borrowed-ptr-pattern-option.rs:22 | `get` returns the held value and fails exactly on `None` |
| OptionSelect.MainAssertionHolds | src/test/run-pass/borrowed-ptr-pattern-option.rs:19-23 | the program's assertion holds: `select(None, Some(3))` picks the second and `get` yields 3 |
| Common.NatToStringLength | src/librustc_errors/emitter.rs:960-968 | the decimal text of `n` has exactly as many digits as `n` needs, the quantity the gutter width is built on |
| Annotations.GetLine | src/librustc_errors/emitter.rs:212-224 | a line of the file exists exactly when its index is below the line count |
| Annotations.ToAnnotation | src/librustc_errors/emitter.rs:176-190 | a multi-line span becomes a minimized one-column annotation at its start; an empty span is widened to one column; otherwise the columns are the span's |
| Annotations.ToAnnotationNonEmpty | src/librustc_errors/emitter.rs:176-190 | every annotation of a well-ordered span covers at least one column |
| Annotations.AnnCompareLaws | src/librustc_errors/emitter.rs:250-251 | only identical annotations compare equal, and swapping the operands reverses the ordering |
| Annotations.StrCompareTransitive | src/librustc_errors/emitter.rs:250-251 | the string order used on labels is transitive, and strictly so when either step is strict |
| Annotations.AnnLeTransitive | src/librustc_errors/emitter.rs:250-251 | the annotation order is transitive |
| Annotations.AnnLeAntisymmetric | src/librustc_errors/emitter.rs:250-251 | annotations ordered both ways are the same annotation |
| Annotations.SortAnnotations | src/librustc_errors/emitter.rs:250-251 | the sorted annotations are a permutation of the input, in order |
| Annotations.SortedAnnsUnique | src/librustc_errors/emitter.rs:250-251 | two sorted sequences with the same annotations are equal |
| Annotations.SortAnnotationsUnique | src/librustc_errors/emitter.rs:250-251 | every sorted arrangement of the annotations is the one the sort returns, so the rendered order does not depend on the sort algorithm |
| Annotations.InsertLineSorted | src/librustc_errors/emitter.rs:156-162 | inserting a line with a new index keeps the lines strictly sorted |
| Annotations.SortLinesSorted | src/librustc_errors/emitter.rs:156-162 | sorting lines with distinct indices puts them in strictly ascending order |
| Annotations.AppendToLineAppends | src/librustc_errors/emitter.rs:138-152 | the annotation goes at the end of the line with that index, and every other line is unchanged |
| Annotations.AppendToLine | src/librustc_errors/emitter.rs:138-152 | keeps the number of lines and every line's index; what it appends is stated by `AppendToLineAppends` |
| Annotations.AddToLinesEffects | src/librustc_errors/emitter.rs:138-162 | adding an annotation adds exactly its entry, keeps the lines sorted, and adds a line exactly when none had that index |
| Annotations.AddAnnotationToFileEntries | src/librustc_errors/emitter.rs:131-163 | adding one annotation adds exactly its (file, line, annotation) entry and nothing else |
| Annotations.AddAnnotationToFileNames | src/librustc_errors/emitter.rs:131-163 | a file already present keeps its place; a new file goes last |
| Annotations.AddAnnotationToFileWellFormed | src/librustc_errors/emitter.rs:131-163 | one entry per file name, each with strictly sorted lines, is preserved |
| Annotations.AddAnnotationToFile | src/librustc_errors/emitter.rs:131-163 | adds at most one file record; the entries and the file order are stated by `AddAnnotationToFileEntries` and `AddAnnotationToFileNames` |
| Annotations.PreprocessAnnotations | src/librustc_errors/emitter.rs:130-205 | no code map gives no files; otherwise the entries are exactly those of the non-sentinel labels, the files appear once each in first-seen order, and every line is numbered from 1 |
| Annotations.PreprocessEntries | src/librustc_errors/emitter.rs:166-205 | the grouped entries are exactly the kept labels' entries, as a multiset |
| Annotations.PreprocessNames | src/librustc_errors/emitter.rs:166-205 | the files are the kept labels' files, each once, in the order first met |
| Annotations.PreprocessWellFormed | src/librustc_errors/emitter.rs:166-205 | every file's lines come out strictly ascending, one record per file |
| Render.OverlapsMeansSharedColumn | src/librustc_errors/emitter.rs:941-944 | two non-empty annotations overlap exactly when some column lies in both, and overlap is symmetric |
| Render.DrawColSeparator | src/librustc_errors/emitter.rs:929-931 | writes a bar and a space in the line-number style at the column and changes nothing else |
| Render.DrawColSeparatorNoSpace | src/librustc_errors/emitter.rs:933-935 | writes a lone bar in the line-number style and changes nothing else |
| Render.DrawNoteSeparator | src/librustc_errors/emitter.rs:937-939 | writes `= ` in the line-number style and changes nothing else |
| Render.PartitionIsPermutation | src/librustc_errors/emitter.rs:283-289 | the labelled and unlabelled annotations together are exactly the line's annotations |
| Render.Hanging | src/librustc_errors/emitter.rs:325-345 | every label is hung below the line except the last one, when that one is printed inline |
| Render.QuoteRowText | src/librustc_errors/emitter.rs:212-224 | the quoted source row is one new row reading the line number, padding, a bar and a space, then the source text |
| Render.QuoteRowCells | src/librustc_errors/emitter.rs:212-224 | the quoted source keeps the quotation style in every column |
| Render.UnderlineRowShape | src/librustc_errors/emitter.rs:254-279 | the underline row is one new row that reaches exactly the rightmost annotated column; earlier rows are kept |
| Render.UnderlineRowMarks | src/librustc_errors/emitter.rs:254-279 | each column covered by an annotation carries the mark of the last annotation covering it, and the gutter shows a bar |
| Render.UnderlineRowSource | src/librustc_errors/emitter.rs:254-279 | each source column takes the style of the last non-minimized annotation covering it, and the gutter is untouched |
| Render.InlineLabelEffects | src/librustc_errors/emitter.rs:325-342 | when the inline label applies, a space and the label are appended to the underline row in the label's style; otherwise nothing changes |
| Render.StackedLabelHere | src/librustc_errors/emitter.rs:345-385 | each hung label is printed on its own row below the underline, later labels higher, and stays there after the rest are hung |
| Render.RenderSourceLineRows | src/librustc_errors/emitter.rs:207-386 | a rendered source line adds exactly the rows the layout counts and keeps every earlier row |
| Render.RenderSourceLineQuote | src/librustc_errors/emitter.rs:207-224 | the first new row is the quoted source line with its number |
| Render.RenderSourceLineStyle | src/librustc_errors/emitter.rs:207-279 | each source character keeps its character and takes the style of the annotation over it |
| Render.RenderSourceLineUnderline | src/librustc_errors/emitter.rs:254-279 | the second new row holds the underline marks and the gutter bar |
| Render.RenderSourceLineInlineLabel | src/librustc_errors/emitter.rs:325-342 | the inline label follows the underline marks on the second new row |
| Render.RenderSourceLineHungLabel | src/librustc_errors/emitter.rs:345-385 | every hung label's text is at its row and at its annotation's start column |
| Render.RenderSourceLine | src/librustc_errors/emitter.rs:207-386 | one source line: the quoted row, then for an annotated line the underline row, the inline label and the hung labels; its rows, cells and labels are stated by the `RenderSourceLine*` lemmas above |
| Diagnostic.GetMultispanMaxLineNum | src/librustc_errors/emitter.rs:388-409 | with no code map 0; otherwise an upper bound on the last line of every non-sentinel primary span and label, reached by one of them |
| Diagnostic.ChildMaxes | src/librustc_errors/emitter.rs:411-422 | one per child, each the largest line of that child's span |
| Diagnostic.GetMaxLineNumAsWrittenIsPrimary | src/librustc_errors/emitter.rs:411-422 | as written, the result is always the primary span's maximum; the children are never counted |
| Diagnostic.GetMaxLineNumAsWrittenMissesChild | src/librustc_errors/emitter.rs:411-422 | a message on line 5 with a child note on line 120 gets a maximum of 5, whose digits are fewer than line 120 needs |
| Diagnostic.GetMaxLineNumAsWritten | src/librustc_errors/emitter.rs:411-422 | `get_max_line_num` as written; `GetMaxLineNumAsWrittenIsPrimary` shows it is the primary span's maximum alone |
| Diagnostic.GetMaxLineNum | src/librustc_errors/emitter.rs:411-422 | the largest line of the message and of all its children: an upper bound on each, reached by one |
| Diagnostic.GutterFits | src/librustc_errors/emitter.rs:411-422 | every line number up to that maximum fits in the gutter |
| Diagnostic.LineNumMaxDigits | src/librustc_errors/emitter.rs:960-968 | the number of decimal digits of the 1-based line number |
| FileOrder.SearchByName | src/librustc_errors/emitter.rs:478-481 | a found index holds the name searched for |
| FileOrder.SearchByNameComplete | src/librustc_errors/emitter.rs:478-481 | on names sorted ascending the search finds every present name |
| FileOrder.SwapPermutes | src/librustc_errors/emitter.rs:478-481 | the swap exchanges two files and keeps the rest |
| FileOrder.PrimaryFirstAsWritten | src/librustc_errors/emitter.rs:478-481 | as written, the files are permuted, and the first file is the primary one only when it is present |
| FileOrder.PrimaryFirstAsWrittenSorted | src/librustc_errors/emitter.rs:478-481 | on files already sorted by name the primary file is moved to the front |
| FileOrder.PrimaryFirstAsWrittenMisses | src/librustc_errors/emitter.rs:478-481 | files met in the order `c.rs`, `z.rs`, `b.rs`, primary `b.rs`: the search misses it and nothing moves |
| FileOrder.PrimaryFirstAsWrittenSearchMisses | src/librustc_errors/emitter.rs:478-481 | on files named `c.rs`, `z.rs`, `b.rs` the binary search for `b.rs` misses and the order is kept |
| FileOrder.PrimaryFirst | src/librustc_errors/emitter.rs:478-481 | the files are permuted, and the primary file comes first exactly when it is present; otherwise the order is unchanged |
| FileOrder.PrimaryFirstAgrees | src/librustc_errors/emitter.rs:478-481 | on files sorted by name the corrected and the written ordering agree |
| Emitter.HeaderText | src/librustc_errors/emitter.rs:434-455 | the header row reads `level[code]: message`, or after the gutter `= level: message` for a note without a span |
| Emitter.PrimaryLocationText | src/librustc_errors/emitter.rs:487-499 | one new row: the gutter, `--> `, then `file:line:col` |
| Emitter.SecondaryLocationText | src/librustc_errors/emitter.rs:500-515 | two new rows: a gutter bar, then the gutter, `::: ` and the file name |
| Emitter.SpacerText | src/librustc_errors/emitter.rs:518-519 | one new row: the gutter and a bar |
| Emitter.Header | src/librustc_errors/emitter.rs:434-455 | the message header; its text is stated by `HeaderText` |
| Emitter.PrimaryLocation | src/librustc_errors/emitter.rs:487-499 | the `-->` row; its text and the rows it keeps are stated by `PrimaryLocationText` |
| SourceLines.LineGap | src/librustc_errors/emitter.rs:522-555 | after each quoted line: nothing exactly when the next line is adjacent, `...` exactly when more than one line is skipped, and otherwise the one skipped line, numbered and read as `render_source_line` numbers and reads it |
| SourceLines.DrawGap | src/librustc_errors/emitter.rs:533-553 | draws a gap below the rows so far; its rows and text are stated by `DrawGapRows` and `DrawGapText` |
| SourceLines.DrawGapRows | src/librustc_errors/emitter.rs:533-553 | a gap adds no row when the lines are adjacent and one row otherwise, and keeps every row above |
| SourceLines.SkippedLineAsSource | src/librustc_errors/emitter.rs:536-553 | a single skipped line whose number fits the gutter is drawn exactly as `render_source_line` draws that line with no annotations |
| SourceLines.DrawGapText | src/librustc_errors/emitter.rs:533-553 | an elided gap reads `...`; a skipped line whose number fits the gutter reads as a quoted source row: the number, padding, a bar, a space and the text |
| SourceLines.SkippedRowWideNumber | src/librustc_errors/emitter.rs:536-553 | the number is written first and then overwritten by the separator and the text: line 12344 under a one-column gutter reads `12` followed by a bar, a space and `ab` |
| SourceLines.GapNumberFits | src/librustc_errors/emitter.rs:522-555 | in a file whose line numbers fit the gutter, the number of a skipped line fits too, so `DrawGapText` applies to every gap the loop draws |
| SourceRows.LineAt | src/librustc_errors/emitter.rs:522-555 | each annotated line is quoted on the row its predecessors' rows lead to |
| SourceRows.GapAt | src/librustc_errors/emitter.rs:522-555 | each gap is drawn on the row right after its line's rows |
| SourceRows.DrawSourceLinesExtends | src/librustc_errors/emitter.rs:522-555 | drawing a file's lines only adds rows, exactly as many as the lines and gaps use |
| SourceLines.DrawSourceLines | src/librustc_errors/emitter.rs:522-555 | each annotated line of a file, then the gap to the next; where each lands is stated by `SourceRows.LineAt`, `SourceRows.GapAt` and `SourceRows.DrawSourceLinesExtends` |
| Emit.FileBlockRows | src/librustc_errors/emitter.rs:487-555 | a file block adds its counted rows; its first row is the `-->` or `:::` location, the `:::` one after a bar row |
| Emit.FileAt | src/librustc_errors/emitter.rs:482-555 | each file's location row sits where the previous files' rows end |
| Emit.EmitMessageHeader | src/librustc_errors/emitter.rs:424-477 | the first row is the header; with no primary location the message is that row alone |
| Emit.EmitMessagePrimaryFirst | src/librustc_errors/emitter.rs:478-499 | when the primary file has annotations, the second row is its `-->` location: always for the corrected emitter, and for the emitter as written when the files happen to be sorted by name |
| Emit.EmitMessagePrimaryMissed | src/librustc_errors/emitter.rs:478-499 | files met as `c.rs`, `z.rs`, `b.rs` with the primary span in `b.rs`: as written the second row is a bare gutter bar, and corrected it is the `-->` row |
| Emit.EmitMessageFiles | src/librustc_errors/emitter.rs:478-555 | the drawn files are the grouped files, each once, each headed by its location row |
| Emit.EmitMessageDefault | src/librustc_errors/emitter.rs:424-565 | one message, built as written or corrected; its header, location rows and files are stated by `EmitMessageHeader`, `EmitMessagePrimaryFirst` and `EmitMessageFiles` |
| Emit.SuggestionLayout | src/librustc_errors/emitter.rs:567-607 | a suggestion is the header, at most the maximum number of highlighted lines each after the gutter and a bar, then `...` when lines were left out |
| Emit.SuggestionOutcome | src/librustc_errors/emitter.rs:567-607 | fails exactly without a primary span or when its lines cannot be found; with no code map it emits nothing; otherwise it emits the laid-out buffer |
| Emit.EmitSuggestionDefault | src/librustc_errors/emitter.rs:567-607 | one suggestion; its outcome and layout are stated by `SuggestionOutcome` and `SuggestionLayout` |
| Emit.EmitChildrenAborts | src/librustc_errors/emitter.rs:627-660 | the children fail exactly when one of them fails, and otherwise add at most one buffer each |
| Emit.EmitChildrenPositions | src/librustc_errors/emitter.rs:627-660 | without suggestions every child gives exactly one buffer, child `i` in place `i`, drawn as a secondary message with no code |
| Emit.EmitChildren | src/librustc_errors/emitter.rs:627-660 | the children in order, stopping at the first failure; stated by `EmitChildrenAborts` and `EmitChildrenPositions` |
| Emit.EmitMessagesAborts | src/librustc_errors/emitter.rs:608-669 | emitting fails exactly when some child suggestion fails |
| Emit.EmitMessagesLayout | src/librustc_errors/emitter.rs:608-669 | the main message first, a separator row before any children, at most one buffer per child, and an empty row last |
| Emit.EmitMessagesChild | src/librustc_errors/emitter.rs:608-669 | without suggestions, child `i` is emitted in place `i + 2` as a secondary message with no code |
| Emit.EmitMessagesDefault | src/librustc_errors/emitter.rs:608-669 | the whole diagnostic; its layout and failure are stated by `EmitMessagesLayout`, `EmitMessagesAborts` and `EmitMessagesChild` |
| Emit.GutterCoversChildren | src/librustc_errors/emitter.rs:608-610 | for the corrected emitter, the one gutter width used for all buffers fits the message's and every child's line numbers |
| Emit.GutterAsWritten | src/librustc_errors/emitter.rs:608-610 | as written, the gutter is as wide as the main message's largest line number, so a child's numbers fit exactly when they have no more digits than that |
| FnRef.GetImplResolutions | src/librustc/middle/trans/callee.rs:196-209 | a local impl's vtables come from the local table and fail when missing; an external impl gets one empty vtable list per trait type parameter |
| FnRef.TailN | src/librustc/middle/trans/callee.rs:211-245 | `tailn` drops the first `n` entries and fails when there are fewer |
| FnRef.ResolveDefaultMethodVtables | src/librustc/middle/trans/callee.rs:211-245 | the impl's resolved vtables, then the method's own vtables: the last ones passed in, or empty ones when none were passed |
| FnRef.ResolveDefaultMethodVtablesPanics | src/librustc/middle/trans/callee.rs:211-245 | fails exactly when the impl has no vtables or fewer vtables were passed than the method needs |
| FnRef.InitN | src/librustc/middle/trans/callee.rs:248-430 | `initn` drops the last `n` entries and fails when there are fewer |
| FnRef.DefaultMethodTarget | src/librustc/middle/trans/callee.rs:248-430 | a provided method is compiled as the trait's method, with the receiver's type parameters as a prefix and the composed vtables; any other item is kept |
| FnRef.PlanFor | src/librustc/middle/trans/callee.rs:248-430 | monomorphic exactly when required, and then only for local items; otherwise a local item that must exist, or an external path |
| FnRef.MonomorphiseIff | src/librustc/middle/trans/callee.rs:248-430 | a reference is monomorphised exactly when it has type parameters, names a default method, or names a local intrinsic |
| FnRef.PlainReference | src/librustc/middle/trans/callee.rs:248-430 | a non-generic non-default reference is the local item, or the external path, and fails for a missing local item |
| FnRef.DefaultMethodMonomorphic | src/librustc/middle/trans/callee.rs:211-430 | a default-method reference is monomorphised with the impl's vtables followed by the method's |
| FnRef.TransFnRefWithVtables | src/librustc/middle/trans/callee.rs:248-430 | fails whenever a type parameter still needs inference, and names the local item directly only for a non-generic reference that is not a provided method; the full decision is stated by `PlanFor`, `MonomorphiseIff`, `PlainReference` and `DefaultMethodMonomorphic` |
| Callee.RevokesCancel | src/librustc/middle/trans/callee.rs:778-780 | after revoking a list of temporaries, exactly those not in the list keep their cleanup |
| Callee.ArgDatum | src/librustc/middle/trans/callee.rs:810-839 | an argument's datum is its expression's, except that a loop body under a return flag gets a fresh slot; any other argument with a return flag fails |
| Callee.ToScratch | src/librustc/middle/trans/callee.rs:857-919 | a scratch copy allocates a slot, stores the datum in it, schedules its cleanup and records it as a temporary |
| Callee.PassValue | src/librustc/middle/trans/callee.rs:857-919 | without autoref, a by-reference receiver, a value that needs drop or a by-reference type is copied to a scratch slot (and a by-copy receiver of immediate type is loaded back from it); otherwise a by-reference datum is loaded and a by-value one passed as it is |
| Callee.TransArgExpr | src/librustc/middle/trans/callee.rs:792-932 | fails exactly in the impossible loop-body case; otherwise only adds instructions and schedules cleanups only for the new temporaries |
| Callee.TransArgExprBottom | src/librustc/middle/trans/callee.rs:846-854 | an argument of bottom type passes `undef` of the formal type and makes no temporary, cast or cleanup |
| Callee.TransArgExprCast | src/librustc/middle/trans/callee.rs:921-927 | a pointer cast to the formal type is emitted exactly when the formal and actual types differ, and it is the last instruction |
| Callee.TransArgs | src/librustc/middle/trans/callee.rs:738-783 | already-built values are appended as they are; otherwise one value is produced per argument expression after the leading ones |
| Callee.TransArgsPanics | src/librustc/middle/trans/callee.rs:738-783 | fails exactly when there are more arguments than formal types, or when, under a return flag, the last argument is not a loop body |
| Callee.TransArgsBottom | src/librustc/middle/trans/callee.rs:754-773 | each bottom-typed argument is passed as `undef` of its formal type |
| Callee.TransArgsCleanups | src/librustc/middle/trans/callee.rs:754-780 | every cleanup live after the arguments was live before them, so no temporary made for an argument keeps its cleanup; every earlier cleanup survives |
| Callee.RetSlot | src/librustc/middle/trans/callee.rs:720-736 | a `SaveIn` destination is the slot itself; otherwise an immediate result needs no slot and any other result gets a fresh alloca |
| Callee.MakeRetFlag | src/librustc/middle/trans/callee.rs:600-606 | a return flag exists exactly for a loop body that returns: a fresh boolean slot stored as false |
| Callee.FnAndEnv | src/librustc/middle/trans/callee.rs:608-628 | a plain function gets a null environment, a method its receiver, and a closure the code and box fields of its pair |
| Callee.LeadingArgs | src/librustc/middle/trans/callee.rs:630-640 | the return slot leads only for a non-immediate result, and the environment follows |
| Callee.RevokeSelf | src/librustc/middle/trans/callee.rs:645-652 | a method's receiver cleanup is revoked, and nothing else is emitted |
| Callee.SaveResult | src/librustc/middle/trans/callee.rs:669-691 | fails exactly with no destination for a non-immediate result; an ignored result is dropped exactly when it needs drop; a `SaveIn` immediate result is stored |
| Callee.CallInnerPanics | src/librustc/middle/trans/callee.rs:574-712 | a call fails exactly when it has too many arguments or no destination for a non-immediate result |
| Callee.CallInnerSlot | src/librustc/middle/trans/callee.rs:630-640 | a non-immediate call's first argument is the caller's slot, or a fresh alloca when the result is ignored |
| Callee.CallInnerEnv | src/librustc/middle/trans/callee.rs:608-640 | the environment argument and the called function are those of the callee kind |
| Callee.CallInnerArgs | src/librustc/middle/trans/callee.rs:630-666 | the call gets the leading arguments and then one value per argument |
| Callee.CallInnerCleanups | src/librustc/middle/trans/callee.rs:645-666 | at the call no cleanup is scheduled that was not live before, and a method's receiver cleanup is revoked |
| Callee.CallRest | src/librustc/middle/trans/callee.rs:639-710 | fails exactly when the arguments fail or a non-immediate result has no destination; the call is reached exactly when no argument diverges, and then it is the instruction at `callAt` with the built arguments and its value is the result; otherwise the code ends after the arguments and the result is a null byte |
| Callee.CallInner | src/librustc/middle/trans/callee.rs:574-712 | the code only grows; the call instruction is emitted exactly when no argument is bottom-typed, holding the function and argument vector, and its value is the result; otherwise nothing follows the arguments and the result is a null byte |
| Callee.CallInnerBottomArg | src/librustc/middle/trans/callee.rs:663-667 | an argument of bottom type before the last, such as a `fail!()`, leaves the call unreached: no call instruction, nothing after the arguments, and a null-byte result |
| Callee.AfterCall | src/librustc/middle/trans/callee.rs:693-709 | appends code after the call that schedules and revokes no cleanup |
| BaseCompare.ScalarClass | src/librustc/middle/trans/base.rs:580-598 | bool, pointers, unsigned integers and chars compare unsigned; int signed; float as floating point; anything else fails |
| BaseCompare.CompareScalarValues | src/librustc/middle/trans/base.rs:602-661 | fails exactly for a non-comparison operator; nil compares to a constant, float with an `fcmp`, integers with an `icmp` on the operands |
| BaseCompare.CompareScalarTypes | src/librustc/middle/trans/base.rs:580-598 | fails exactly for a non-scalar type or a non-comparison operator; otherwise compares by the type's class |
| BaseCompare.SignedCompareSound | src/librustc/middle/trans/base.rs:636-647 | the signed predicate on the two's-complement bits decides the operator on the signed values |
| BaseCompare.UnsignedCompareSound | src/librustc/middle/trans/base.rs:648-659 | the unsigned predicate decides the operator on the values |
| BaseCompare.SignedPredicateWrongForUnsigned | src/librustc/middle/trans/base.rs:648-659 | a signed predicate would order the unsigned byte 255 below 0 |
| BaseCompare.FloatCompareSound | src/librustc/middle/trans/base.rs:624-635 | the float predicates decide the operator on every pair, NaN included |
| BaseCompare.OrderedNotEqualWrongOnNaN | src/librustc/middle/trans/base.rs:624-635 | an ordered not-equal would call NaN equal to itself, so `!=` uses the unordered predicate |
| BaseCompare.NilCompareSound | src/librustc/middle/trans/base.rs:614-623 | comparing nil values is the constant answer of the operator on equal values |
| BaseCompare.CastShiftRhs | src/librustc/middle/trans/base.rs:793-821 | only shifts cast the amount: truncated when wider than the left operand, zero-extended when narrower, to the left operand's element type |
| BaseCompare.CastShiftRhsSound | src/librustc/middle/trans/base.rs:793-821 | the cast amount has the left operand's width and keeps every value that fits it |
| BaseDecl.GetExternFn | src/librustc/middle/trans/base.rs:216-226 | a known name returns its declaration unchanged; a new name is declared once and recorded |
| BaseDecl.GetExternConst | src/librustc/middle/trans/base.rs:313-326 | the same cache for global constants |
| BaseDecl.GetExternFnIdempotent | src/librustc/middle/trans/base.rs:216-226 | asking again for a name returns the same declaration and changes nothing |
| BaseDecl.GetExternConstIdempotent | src/librustc/middle/trans/base.rs:313-326 | the same for constants |
| BaseDecl.GetExternFnsTwice | src/librustc/middle/trans/base.rs:216-226 | requesting the same names again changes nothing |
| BaseDecl.NoteUniqueLlvmSymbol | src/librustc/middle/trans/base.rs:517-522 | fails exactly on a symbol already recorded, naming it; otherwise records it |
| BaseDecl.NoteAllSucceeds | src/librustc/middle/trans/base.rs:517-522 | a sequence of symbols is accepted exactly when they are distinct and new, and then all are recorded |
| BaseDecl.DeclRustFn | src/librustc/middle/trans/base.rs:244-303 | the out pointer comes first with `sret` and `noalias`, then the environment, then each argument at its offset with its attributes |
| BaseDecl.DeclRustFnRoles | src/librustc/middle/trans/base.rs:252-254 | no two parameters play the same role |
| BaseDecl.DeclRustFnNoAlias | src/librustc/middle/trans/base.rs:256-289 | `noalias` exactly for owned pointers and other non-immediate arguments, `nocapture` exactly for anonymous borrows and other non-immediate arguments, and never `sret` |
| BaseDecl.MakeReturnPointer | src/librustc/middle/trans/base.rs:1124-1135 | the return pointer is the out-pointer parameter exactly when the function uses one |
| BaseDecl.InitFunction | src/librustc/middle/trans/base.rs:1205-1241 | a return pointer exists exactly for a non-void return, unless skipped without an out pointer, and is the out-pointer parameter exactly when one is used; the entry block is allocas followed by the null load that marks the alloca insertion point, and it holds the return-pointer alloca exactly when the return pointer is a fresh slot |
| BaseDecl.AllocaBefore | src/librustc/middle/trans/base.rs:1214-1219 | a new alloca goes just before the insertion point: the earlier allocas are kept and the insertion point stays last |
| BaseDecl.BuildReturnBlock | src/librustc/middle/trans/base.rs:1333-1359 | returns void exactly without a return slot or with an out pointer; a value comes from a dominating store when there is one |
| BaseDecl.ReturnsValueIff | src/librustc/middle/trans/base.rs:1205-1359 | a function returns a value exactly when its return is non-void, uses no out pointer and keeps its slot |
| BaseBlocks.VisitFields | src/librustc/middle/trans/base.rs:676-695 | the visitor is applied to each field in declared order, each time in the block the previous visit returned; the result is code that continues: no existing block but the starting one changes, and the walk ends in the starting block or a new one |
| BaseBlocks.VariantCase | src/librustc/middle/trans/base.rs:744-762 | a variant opens a fresh case block, adds one switch case jumping to it and walks its fields from there; the branch to the join block closes the block that walk ended in; it fails exactly when the variant's case value is not a single constant |
| BaseBlocks.VariantCases | src/librustc/middle/trans/base.rs:744-763 | the variants add one case each, in order, each jumping past the blocks of the variants before it, and every variant's last block branches to the join block; fails exactly when some variant has no single case value |
| BaseBlocks.IterSwitch | src/librustc/middle/trans/base.rs:736-764 | the discriminant is visited first; the walk succeeds exactly when every variant has a single case value, and is code that continues |
| BaseBlocks.IterEnum | src/librustc/middle/trans/base.rs:720-768 | the walk of an enum succeeds exactly for a single representation with a variant 0 or a switch whose variants all have single case values, and is code that continues |
| BaseBlocks.IterStructuralTy | src/librustc/middle/trans/base.rs:666-773 | the walk succeeds exactly for structs, tuples, fixed vectors and walkable enums, and is code that continues |
| BaseBlocks.IterStructuralSwitch | src/librustc/middle/trans/base.rs:736-764 | for any visitor: the block the discriminant's visit returned closes with a switch whose default is a fresh unreachable block and which has one case per variant in order; each variant's walk ends in a block branching to a fresh join block, where the code continues |
| BaseBlocks.VisitFieldsRecorded | src/librustc/middle/trans/base.rs:699-705 | with a visitor that stays, the visits are appended to the current block in field order and nothing else changes |
| BaseBlocks.IterStructuralFieldsRecorded | src/librustc/middle/trans/base.rs:697-719 | with a visitor that stays, a struct or tuple adds its field visits to the current block and stays in it |
| BaseBlocks.IterStructuralSingleRecorded | src/librustc/middle/trans/base.rs:732-735 | with a visitor that stays, a single-variant enum adds variant 0's field visits to the current block |
| BaseBlocks.VariantCaseRecorded | src/librustc/middle/trans/base.rs:744-762 | with a visitor that stays, a variant adds exactly one block holding its field visits and the branch to the join block |
| BaseBlocks.VariantCasesRecorded | src/librustc/middle/trans/base.rs:744-763 | with a visitor that stays, the variants' blocks are consecutive, one per variant in order, and the cases jump to them |
| BaseBlocks.IterStructuralSwitchRecorded | src/librustc/middle/trans/base.rs:736-764 | with a visitor that stays, the exact layout: discriminant visit and switch in the current block, unreachable default, one block per variant in order, join block last |
| BaseBlocks.IterStructuralMoves | src/librustc/middle/trans/base.rs:699-705 | with a visitor that moves to a new block, a struct's walk continues in that block rather than the one it started in |
| BaseBlocks.VariantCaseMoves | src/librustc/middle/trans/base.rs:755-762 | with a visitor that moves, a variant's branch to the join block closes the block its walk returned, not its case block |
| BaseBlocks.WithCond | src/librustc/middle/trans/base.rs:1003-1018 | the condition branches to the conditional block or the join block, an open conditional block falls through to the join, and the whole is code that continues, in the join block |
| Pprust.Rbox | src/libsyntax/print/pprust.rs:261-267 | pushes the box kind on the stack and emits its `begin` |
| Pprust.Ibox | src/libsyntax/print/pprust.rs:81-87 | opens an inconsistent box |
| Pprust.Cbox | src/libsyntax/print/pprust.rs:252-258 | opens a consistent box |
| Pprust.EndBox | src/libsyntax/print/pprust.rs:89-95 | pops the box stack and emits `end`; fails on an empty stack |
| Pprust.InCbox | src/libsyntax/print/pprust.rs:321-326 | holds exactly when the innermost open box is consistent |
| Pprust.EndUndoesRbox | src/libsyntax/print/pprust.rs:89-95 | closing right after opening restores the stack and leaves `begin`, `end` |
| Pprust.Commasep | src/libsyntax/print/pprust.rs:357-365 | the elements inside one box, separated by commas |
| Pp.Render | src/libsyntax/print/pprust.rs:2330-2338 | the text of a token stream printed on one line: words as they are, breaks as spaces, hard breaks as newlines; `RenderAppend` shows it distributes over concatenation |
| Pp.RenderAppend | src/libsyntax/print/pprust.rs:2330-2338 | rendering two token streams one after the other gives the two texts one after the other |
| PprustText.CommaJoinRenders | src/libsyntax/print/pprust.rs:357-365 | comma-separated elements print as their texts joined by a comma and a space |
| PprustText.CommaJoinRendersJoined | src/libsyntax/print/pprust.rs:357-365 | comma-separated words print as the words joined by a comma and a space |
| Pprust.VisibilityQualified | src/libsyntax/print/pprust.rs:706-711 | `priv ` or `pub ` before the text, or nothing for inherited visibility |
| Pprust.PrintVisibilityAgreesWithQualified | src/libsyntax/print/pprust.rs:706-719 | printing the visibility and then a name gives the qualified name |
| Pprust.NextLit | src/libsyntax/print/pprust.rs:2238-2251 | moves the literal cursor past the literals before the position and returns the one there |
| Pprust.NextComment | src/libsyntax/print/pprust.rs:2340-2350 | the comment under the cursor, when there are comments left |
| Pprust.PrintComment | src/libsyntax/print/pprust.rs:2267-2309 | only adds output; a mixed comment must have exactly one line |
| PprustText.CommentLinesRender | src/libsyntax/print/pprust.rs:2277-2292 | the lines of an isolated or trailing comment print one per line, each ended by a newline |
| PprustText.PrintCommentRenders | src/libsyntax/print/pprust.rs:2267-2309 | a well-formed comment always prints, as its text for its style: a mixed comment inline, an isolated one on fresh lines, a trailing one after a space, a blank line as one newline or two after `;`, a box opening or a box closing |
| Pprust.MaybePrintComment | src/libsyntax/print/pprust.rs:2253-2265 | prints every comment before the position and moves the cursor past them; fails exactly when one of them is a malformed mixed comment |
| Pprust.PrintTupleType | src/libsyntax/print/pprust.rs:438-445 | balanced boxes, closing with `)`, and a trailing comma exactly for a one-element tuple |
| Pprust.PrintGenerics | src/libsyntax/print/pprust.rs:1902-1927 | prints nothing exactly when there are no lifetimes and no type parameters |
| PprustText.PrintGenericsRenders | src/libsyntax/print/pprust.rs:1902-1927 | prints the lifetimes with their quote and then the type parameters with their bounds, comma-separated inside angle brackets, and nothing when there are none |
| PprustText.PrintGenericsExample | src/libsyntax/print/pprust.rs:1902-1927 | one lifetime and one bounded type parameter print as `<'a, T: Copy>` |
| Pprust.Head | src/libsyntax/print/pprust.rs:279-288 | opens a consistent box for the item and an inconsistent box for its head |
| Pprust.PrintFnHeaderInfo | src/libsyntax/print/pprust.rs:2393-2415 | changes only the output; the words it writes are stated by `PprustText.PrintFnHeaderInfoRenders` |
| PprustText.PrintAbiAndPurityRenders | src/libsyntax/print/pprust.rs:2402-2412 | a non-Rust ABI prints `extern` and the ABI, and the purity after it unless the purity is `extern`; the Rust ABI prints the purity alone |
| PprustText.PrintFnHeaderInfoRenders | src/libsyntax/print/pprust.rs:2393-2415 | the visibility, the ABI and purity words, `once ` for a once function, `fn`, then the sigil |
| Pprust.PrintExplicitSelf | src/libsyntax/print/pprust.rs:1761-1783 | reports whether a self argument was printed: false exactly for a static method, which prints nothing; only the output changes |
| PprustText.PrintExplicitSelfRenders | src/libsyntax/print/pprust.rs:1761-1783 | prints `self`, `~self`, `&` with the optional lifetime before `self`, or `@self`, each with `mut ` before the word `self` for a mutable self |
| Pprust.PrintArgsTokens | src/libsyntax/print/pprust.rs:1807-1815 | the argument loop writes the arguments comma-separated, with a leading comma when the self argument came first |
| Pprust.PrintFnArgsIsCommasep | src/libsyntax/print/pprust.rs:1801-1817 | without a self argument, `print_fn_args` writes exactly what `commasep` of the arguments in an inconsistent box writes |
| PprustText.PrintFnArgsRenders | src/libsyntax/print/pprust.rs:1801-1817 | the self argument, when there is one, and then the arguments, all joined by a comma and a space |
| Pprust.PrintFnArgsAndRet | src/libsyntax/print/pprust.rs:1819-1837 | succeeds whenever no comments are left to print and leaves the box stack as it found it |
| PprustText.PrintArgListRenders | src/libsyntax/print/pprust.rs:1819-1826 | the self argument and the arguments comma-separated in parentheses, with `, ...` before the closing one for a variadic function |
| PprustText.PrintRetRenders | src/libsyntax/print/pprust.rs:1828-1835 | a non-nil return type prints as ` -> ` and the type after the closing parenthesis; nil prints nothing |
| PprustText.PrintFnArgsAndRetRenders | src/libsyntax/print/pprust.rs:1819-1836 | with no comments pending, the argument list, self argument included, followed by the return type |
| PprustText.PrintFnArgsAndRetExample | src/libsyntax/print/pprust.rs:1819-1836 | two arguments, a variadic tail and a `bool` result print as `(x: int, y: uint, ...) -> bool` |
| PprustText.PrintFnArgsAndRetSelfExample | src/libsyntax/print/pprust.rs:1761-1783 | a mutable self borrowed for `'a` before one argument prints as `(&'a mut self, x: int)` |
| Pprust.PrintFn | src/libsyntax/print/pprust.rs:1785-1799 | succeeds whenever no comments are left to print, and leaves exactly the two boxes of `head` open for the caller to close |
| Pprust.FunToStrClosesItsBoxes | src/libsyntax/print/pprust.rs:211-224 | `fun_to_str` closes every box it opens, with or without a self argument |
| Pprust.FunToStrNullary | src/libsyntax/print/pprust.rs:211-224 | a function without arguments prints as the purity prefix, `fn`, the name and `()` |
| Pprust.FunToStrExample | src/libsyntax/print/pprust.rs:2463-2478 | the unit test: `fn abba()` |
| Pprust.TupleFields | src/libsyntax/print/pprust.rs:731-739 | always fails on a named field, and with no comments left fails exactly then; otherwise only adds output and moves the comment cursor |
| Pprust.TupleFieldsAsArgs | src/libsyntax/print/pprust.rs:731-739 | with no comments left and only unnamed fields, the fields print as their types, comma-separated like function arguments |
| PprustText.TupleFieldListRenders | src/libsyntax/print/pprust.rs:729-740 | unnamed fields print as their types joined by a comma and a space in parentheses; no fields print nothing |
| PprustText.TupleStructRenders | src/libsyntax/print/pprust.rs:728-744 | the tuple-like arm prints the parenthesised fields and `;` |
| Pprust.TupleStructBody | src/libsyntax/print/pprust.rs:728-744 | fails exactly when a field is named, given no comments and the two boxes of `head`; otherwise closes both boxes and only adds output |
| Pprust.NamedFields | src/libsyntax/print/pprust.rs:750-764 | always fails on an unnamed field, and with no comments left fails exactly then; otherwise only adds output and, with any field, ends on its comma |
| PprustText.FieldLineRenders | src/libsyntax/print/pprust.rs:752-761 | a named field prints as its attributes, its visibility-qualified name, `: `, its type and `,` |
| PprustText.NamedFieldsRender | src/libsyntax/print/pprust.rs:750-764 | named fields print one per line, starting a new line first unless the printer is at the start of one |
| Pprust.BreakOffsetIfNotBol | src/libsyntax/print/pprust.rs:334-345 | adds a break when not at the start of a line; at the start of one, turns a preceding hard break into an offset hard break, or changes nothing |
| PprustText.BreakOffsetRenders | src/libsyntax/print/pprust.rs:334-345 | the break after the last field prints one space, or nothing at the start of a line |
| Pprust.Bclose | src/libsyntax/print/pprust.rs:295-307 | with no comments left, succeeds exactly when a box is open; closes one box and adds output, except for a hard break it may turn into an offset one |
| PprustText.BcloseRenders | src/libsyntax/print/pprust.rs:295-307 | `bclose` prints `}`, after a space unless at the start of a line |
| Pprust.BraceOpen | src/libsyntax/print/pprust.rs:746-748 | succeeds exactly when a box is open, closes that box, and extends the output; the text is stated by `PprustText.BraceOpenRenders` |
| PprustText.BraceOpenRenders | src/libsyntax/print/pprust.rs:746-748 | prints ` {` and a newline, ending at the start of a line |
| Pprust.FieldsThenClose | src/libsyntax/print/pprust.rs:750-766 | fails exactly when a field is unnamed, given no comments and an open box; otherwise closes one box |
| Pprust.BracedStructBody | src/libsyntax/print/pprust.rs:745-767 | fails exactly when a field is unnamed, given no comments and the two boxes of `head`; otherwise closes both boxes and only adds output |
| PprustText.BracedStructRenders | src/libsyntax/print/pprust.rs:745-767 | the arm with braces prints ` {`, the fields one per line, and the closing brace after a space when there are fields |
| Pprust.PrintStruct | src/libsyntax/print/pprust.rs:721-768 | fails exactly when a field does not match the struct's form (a named field in a tuple-like struct or an unnamed one in a struct with braces), given no comments and the two boxes of `head`; otherwise closes both boxes and only adds output |
| PprustText.PrintStructRenders | src/libsyntax/print/pprust.rs:721-768 | with no generics, prints the name and the struct body as written in Rust |
| Pprust.PrintVariantKind | src/libsyntax/print/pprust.rs:813-829 | a tuple-like variant never fails; a struct variant always fails when `print_struct` refuses a field, and with no comments left fails exactly then; only adds output |
| Pprust.PrintVariant | src/libsyntax/print/pprust.rs:811-840 | always fails on a variant `print_struct` refuses, and fails exactly then for a tuple-like variant or with no comments left; otherwise only adds output, and always some |
| PprustText.TupleVariantRenders | src/libsyntax/print/pprust.rs:814-823 | a tuple-like variant prints its name and its argument types in parentheses when there are any |
| PprustText.StructVariantRenders | src/libsyntax/print/pprust.rs:825-829 | a struct variant prints its name and its struct body, the head adding no text |
| PprustText.PrintVariantRenders | src/libsyntax/print/pprust.rs:811-840 | the visibility-qualified name, the argument types or the struct body, and ` = ` with the discriminant when there is one |
| Pprust.VariantToStr | src/libsyntax/print/pprust.rs:248-250 | fails exactly when the variant is a struct variant that `print_struct` refuses |
| PprustText.VariantToStrRenders | src/libsyntax/print/pprust.rs:248-250 | every other variant, tuple-like or struct, gives exactly its text as written in Rust |
| Pprust.VariantToStrUnit | src/libsyntax/print/pprust.rs:248-250 | a unit variant prints as its visibility-qualified name |
| Pprust.VariantToStrExample | src/libsyntax/print/pprust.rs:2481-2496 | the unit test: `pub principal_skinner` |

## Left out

- LLVM itself is not modelled: building instructions, types, attributes and linkage through the C interface. Instructions are recorded in a trace (calls) or in a list of blocks (`iter_structural_ty`, `with_cond`), and LLVM types are opaque numbers.
- The trans helpers in `adt`, `monomorphize`, `closure`, `expr`, `glue`, `meth`, `type_of`, `datum`, `tvec` and `cleanup` are not part of this model. Their answers are inputs: type tables, vtable resolution, and the "must cast" and "is intrinsic" decisions.
- Terminal output, `emit_to_destination` and colours are left out. Styles are kept as an enumeration on each cell.
- The code map is an input function from spans to locations and lines. `splice_lines` and the macro backtrace are not modelled: a suggestion's spliced lines are an input.
- `styled_buffer.rs` is not part of this model. `StyledBuffer` gives its `putc`, `puts`, `append`, `prepend` and `set_style` the semantics the emitter relies on: rows are padded with blanks and other rows are untouched.
- The old-school renderer and the short message format of `emitter.rs` are left out, as outside the default layout.
- The pretty printer's line breaking (`pp.rs`) is left out. `Pp.Render` prints the token stream as if everything fits on one line. That is exactly what the one-line examples of `fun_to_str` and `variant_to_str` need.
- Floating point is modelled only as ordered numbers plus NaN, which is enough to check the comparison table. Rounding is not modelled.
- Unicode tables, `push_ctxt`, statistics and debug logging (`error2!`, `debug!`) are left out as having no effect on the results.
- The cat's log lines are left out as output only.
- Callee.AfterCall: its contract states only that the code after the call schedules and revokes no cleanup. The `Unreachable` after a bottom-typed result and the early return of a loop body are in its body but not stated; the early return's flag stores and `cleanup_and_leave` are one `LeaveIfFlagged` instruction, since the call trace has no blocks and the cleanup code is not part of this model.
- Once a bottom-typed argument terminates the block, the source's builder emits nothing more. The model still records the code of the remaining arguments in the trace, because it does not model the builder's terminated-block check; it does model that no call, no store of the result and no code after the call follow (`Callee.CallInnerBottomArg`).
- BaseBlocks.VisitFields: the visitor, like every walk built on it, is one that changes only the block it is given and blocks it adds, and continues in one of those (`BaseBlocks.VisitorWellBehaved`). The visitors themselves live in `glue`, which is not part of this model.
- BaseBlocks.IterStructuralTy: a fixed-size string or vector records one `IterVecRaw` event in the current block and continues there. `tvec::iter_vec_raw` builds its own loop blocks, and `tvec` is not part of this model.
- `Br`, `Switch` and `CondBr` on a block that already has a terminator replace it in the model. The builder's checks for terminated and unreachable blocks (`build.rs`) are not part of this model, and the block's unreachable flag is not kept.
- PprustText.PrintFnArgsAndRetRenders: stated for a printer with no comments left to print. Comments found before the return type are printed by `maybe_print_comment`, whose effect is stated by `Pprust.MaybePrintComment` and `PprustText.PrintCommentRenders`.
- PprustText.PrintStructRenders: stated for a printer with no comments left, the two boxes of `head` open, and no generics. The generics' text is stated by `PprustText.PrintGenericsRenders`. With fewer than two boxes open, the `end` calls fail, which `Pprust.PrintStruct` states.
- PprustText.TupleStructRenders: stated for a printer with no comments left; so are `PprustText.TupleFieldListRenders` and `Pprust.TupleFieldsAsArgs`. A comment before a field is printed by `maybe_print_comment`, stated by `Pprust.MaybePrintComment`.
- PprustText.BracedStructRenders: stated for a printer with no comments left; so are `PprustText.NamedFieldsRender` and `PprustText.BcloseRenders`, for the same reason.
- PprustText.PrintVariantRenders: the struct-variant case is stated only for a printer with no comments left, and so is `PprustText.StructVariantRenders`. `variant_to_str` starts with none, so `PprustText.VariantToStrRenders` holds for every variant.
- A field's outer attributes are given as the tokens their printer writes: `print_outer_attributes` is not part of this model.
- Whether a struct definition is tuple-like is an input, `StructDef.tupleLike`: `ast_util::struct_def_is_tuple_like` is not part of this model.
- SourceLines.SkippedLineAsSource: stated only for a skipped line whose number fits the gutter, and so is `DrawGapText`. A wider number is partly overwritten, as `SourceLines.SkippedRowWideNumber` shows. `SourceLines.GapNumberFits` shows that this never happens inside a file whose line numbers fit.
- The failure message of `from_digit` prints `num` where it means `radix`. The model's failure messages are its own text.
- `trans_args` computes `len() - 1` on the argument list. It wraps around on an empty list, but the result is then never used; the model does not compute it for an empty list.
- Chars.LenUtf8Bytes: takes the code point as a natural number, so the failure above 2^21 is reachable in the model. For a real `char`, `LenUtf8IsShortestEncoding` shows it never happens.

## Findings

| source | as written | input that shows it | evidently intended | confidence | as-written member | corrected member |
|---|---|---|---|---|---|---|
| src/librustc_errors/emitter.rs:411-422 | each child's maximum is computed, but `max` is assigned the primary span's maximum again, so children are ignored | a message on line 5 with a child note on line 120: the maximum is 5, so the gutter is 1 column wide where 3 are needed | the largest line of the message and of all its children | not executed | Diagnostic.GetMaxLineNumAsWritten | Diagnostic.GetMaxLineNum |
| src/librustc_errors/emitter.rs:478-481 | binary search by file name over files kept in first-seen order, not sorted by name | files met in the order `c.rs`, `z.rs`, `b.rs` with the primary span in `b.rs`: the search reports it absent and the primary file is not moved first | move the primary file to the front whenever it is present | not executed | FileOrder.PrimaryFirstAsWritten | FileOrder.PrimaryFirst |

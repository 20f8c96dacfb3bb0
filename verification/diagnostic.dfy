/** Diagnostics as the emitter receives them, and the width of the
    line-number gutter (`get_multispan_max_line_num`, `get_max_line_num`,
    `line_num_max_digits`).

    A level is carried as the text it displays (`error`, `warning`, ...);
    the level type itself is not part of this model. */
module Diagnostic {
  import opened Common
  import opened Annotations

  /** A suggested replacement: where it applies and the lines of the
      source once spliced. Splicing itself is not part of this model. */
  datatype CodeSuggestion = CodeSuggestion(msp: MultiSpan, splicedLines: seq<string>)

  datatype RenderSpan = FullSpan(msp: MultiSpan) | Suggestion(cs: CodeSuggestion)

  datatype SubDiagnostic = SubDiagnostic(level: string, message: string, span: MultiSpan,
                                         renderSpan: Option<RenderSpan>)

  datatype DiagnosticBuilder = DiagnosticBuilder(level: string, message: string, code: Option<string>,
                                                 span: MultiSpan, children: seq<SubDiagnostic>)

  // ---------------------------------------------------------------------------
  // Largest line number

  /** The line a span ends on. */
  function HiLine(m: CodeMap, sp: Span): nat
  {
    m.lookupCharPos(sp.hi).line
  }

  function LabelSpans(labels: seq<SpanLabel>): (r: seq<Span>)
    ensures |r| == |labels| && forall i :: 0 <= i < |labels| ==> r[i] == labels[i].span
  {
    if |labels| == 0 then [] else [labels[0].span] + LabelSpans(labels[1..])
  }

  /** Some non-sentinel span of the list ends on line `n`. */
  predicate EndsOn(m: CodeMap, spans: seq<Span>, n: nat)
  {
    exists i :: 0 <= i < |spans| && !IsSentinel(spans[i]) && HiLine(m, spans[i]) == n
  }

  /** The running maximum of the end lines of the non-sentinel spans,
      starting from 0. */
  function MaxHiLine(m: CodeMap, spans: seq<Span>): (r: nat)
    ensures forall i :: 0 <= i < |spans| && !IsSentinel(spans[i]) ==> HiLine(m, spans[i]) <= r
    ensures r == 0 || EndsOn(m, spans, r)
  {
    if |spans| == 0 then 0
    else
      var init := spans[..|spans| - 1];
      var prev := MaxHiLine(m, init);
      var sp := spans[|spans| - 1];
      assert forall i :: 0 <= i < |init| ==> spans[i] == init[i];
      if !IsSentinel(sp) && HiLine(m, sp) > prev then HiLine(m, sp) else prev
  }

  /** `get_multispan_max_line_num`: the largest line any non-sentinel
      primary span or span label ends on; 0 without a code map or without
      such spans. */
  function GetMultispanMaxLineNum(cm: Option<CodeMap>, msp: MultiSpan): (r: nat)
    ensures cm.None? ==> r == 0
    ensures cm.Some? ==> forall i :: 0 <= i < |msp.primarySpans| && !IsSentinel(msp.primarySpans[i]) ==>
                           HiLine(cm.value, msp.primarySpans[i]) <= r
    ensures cm.Some? ==> forall i :: 0 <= i < |msp.spanLabels| && !IsSentinel(msp.spanLabels[i].span) ==>
                           HiLine(cm.value, msp.spanLabels[i].span) <= r
    ensures r == 0 || (cm.Some? && EndsOn(cm.value, msp.primarySpans + LabelSpans(msp.spanLabels), r))
  {
    match cm
    case None => 0
    case Some(m) =>
      var spans := msp.primarySpans + LabelSpans(msp.spanLabels);
      var r := MaxHiLine(m, spans);
      assert forall i :: 0 <= i < |msp.primarySpans| ==> spans[i] == msp.primarySpans[i];
      assert forall i :: 0 <= i < |msp.spanLabels| ==> spans[|msp.primarySpans| + i] == msp.spanLabels[i].span;
      r
  }

  /** The largest line of each child's span. */
  function ChildMaxes(cm: Option<CodeMap>, children: seq<SubDiagnostic>): (r: seq<nat>)
    ensures |r| == |children|
    ensures forall i :: 0 <= i < |children| ==> r[i] == GetMultispanMaxLineNum(cm, children[i].span)
  {
    if |children| == 0 then [] else [GetMultispanMaxLineNum(cm, children[0].span)] + ChildMaxes(cm, children[1..])
  }

  /** The child loop of `get_max_line_num` as written: whenever a child's
      maximum exceeds the running maximum, the running maximum is set to the
      primary maximum. */
  function FoldAsWritten(primary: nat, max: nat, subs: seq<nat>): nat
    decreases |subs|
  {
    if |subs| == 0 then max
    else FoldAsWritten(primary, if subs[0] > max then primary else max, subs[1..])
  }

  /** `get_max_line_num` as written. */
  function GetMaxLineNumAsWritten(cm: Option<CodeMap>, db: DiagnosticBuilder): nat
  {
    var primary := GetMultispanMaxLineNum(cm, db.span);
    var max := if primary > 0 then primary else 0;
    FoldAsWritten(primary, max, ChildMaxes(cm, db.children))
  }

  lemma {:induction false} FoldAsWrittenStays(primary: nat, subs: seq<nat>)
    ensures FoldAsWritten(primary, primary, subs) == primary
    decreases |subs|
  {
    if |subs| > 0 {
      FoldAsWrittenStays(primary, subs[1..]);
    }
  }

  /** As written, the children never change the result: it is always the
      primary span's maximum. */
  lemma GetMaxLineNumAsWrittenIsPrimary(cm: Option<CodeMap>, db: DiagnosticBuilder)
    ensures GetMaxLineNumAsWritten(cm, db) == GetMultispanMaxLineNum(cm, db.span)
  {
    FoldAsWrittenStays(GetMultispanMaxLineNum(cm, db.span), ChildMaxes(cm, db.children));
  }

  /** A code map in which byte position `p` lies on line `p + 1` of one
      file. */
  function LinePerByte(): CodeMap
  {
    CodeMap((p: nat) => Loc(FileMap("main.rs", []), p + 1, 0))
  }

  /** A one-span multi-span covering byte `p` only. */
  function SpanAt(p: nat): MultiSpan
  {
    MultiSpan([Span(p, p, 0)], [SpanLabel(Span(p, p, 0), true, None)])
  }

  /** An error on line 5 with a note on line 120: as written the gutter is
      sized for line 5, too narrow for the note's line 120. */
  lemma GetMaxLineNumAsWrittenMissesChild()
    ensures var m := Some(LinePerByte());
            var db := DiagnosticBuilder("error", "", None, SpanAt(4), [SubDiagnostic("note", "", SpanAt(119), None)]);
            GetMaxLineNumAsWritten(m, db) == 5
            && GetMultispanMaxLineNum(m, SpanAt(119)) == 120
            && |NatToString(GetMaxLineNumAsWritten(m, db))| < |NatToString(120)|
  {
    var m := Some(LinePerByte());
    var db := DiagnosticBuilder("error", "", None, SpanAt(4), [SubDiagnostic("note", "", SpanAt(119), None)]);
    SpanAtMax(4);
    SpanAtMax(119);
    GetMaxLineNumAsWrittenIsPrimary(m, db);
    assert NatToString(120) == NatToString(12) + [DigitChar(0)];
  }

  lemma SpanAtMax(p: nat)
    ensures GetMultispanMaxLineNum(Some(LinePerByte()), SpanAt(p)) == p + 1
  {
    var msp := SpanAt(p);
    var m := LinePerByte();
    var spans := msp.primarySpans + LabelSpans(msp.spanLabels);
    assert spans == [Span(p, p, 0), Span(p, p, 0)];
    assert HiLine(m, Span(p, p, 0)) == p + 1;
    assert !IsSentinel(Span(p, p, 0));
  }

  /** The child loop as evidently intended: the running maximum of all
      children's maxima. */
  function FoldMax(max: nat, subs: seq<nat>): (r: nat)
    ensures r >= max && forall i :: 0 <= i < |subs| ==> subs[i] <= r
    ensures r == max || exists i :: 0 <= i < |subs| && subs[i] == r
    decreases |subs|
  {
    if |subs| == 0 then max
    else
      var r := FoldMax(if subs[0] > max then subs[0] else max, subs[1..]);
      assert forall i :: 1 <= i < |subs| ==> subs[i] == subs[1..][i - 1];
      r
  }

  /** `get_max_line_num` with the child's own maximum kept: the largest
      line of the primary span and of every child. */
  function GetMaxLineNum(cm: Option<CodeMap>, db: DiagnosticBuilder): (r: nat)
    ensures r >= GetMultispanMaxLineNum(cm, db.span)
    ensures forall i :: 0 <= i < |db.children| ==> GetMultispanMaxLineNum(cm, db.children[i].span) <= r
    ensures r == GetMultispanMaxLineNum(cm, db.span)
            || exists i :: 0 <= i < |db.children| && GetMultispanMaxLineNum(cm, db.children[i].span) == r
  {
    var primary := GetMultispanMaxLineNum(cm, db.span);
    var subs := ChildMaxes(cm, db.children);
    FoldMax(if primary > 0 then primary else 0, subs)
  }

  // ---------------------------------------------------------------------------
  // Digits

  /** Decimal digits of smaller numbers are never more. */
  lemma {:induction false} NatToStringMonotone(a: nat, b: nat)
    requires a <= b
    ensures |NatToString(a)| <= |NatToString(b)|
    decreases b
  {
    if a >= 10 {
      NatToStringMonotone(a / 10, b / 10);
    }
  }

  /** Every line the gutter is sized for fits it: a line number up to the
      maximum has at most as many digits as the maximum. */
  lemma GutterFits(cm: Option<CodeMap>, db: DiagnosticBuilder, n: nat)
    requires n <= GetMaxLineNum(cm, db)
    ensures |NatToString(n)| <= |NatToString(GetMaxLineNum(cm, db))|
  {
    NatToStringMonotone(n, GetMaxLineNum(cm, db));
  }

  /** `line_num_max_digits`: the number of decimal digits of
      `line_index + 1`, counted by repeated division by ten. */
  method LineNumMaxDigits(lineIndex: nat) returns (digits: nat)
    ensures digits == |NatToString(lineIndex + 1)|
    ensures Pow10(digits - 1) <= lineIndex + 1 < Pow10(digits)
  {
    var maxLineNum: nat := lineIndex + 1;
    digits := 0;
    while maxLineNum > 0
      invariant maxLineNum > 0 ==> |NatToString(lineIndex + 1)| == digits + |NatToString(maxLineNum)|
      invariant maxLineNum == 0 ==> |NatToString(lineIndex + 1)| == digits
      decreases maxLineNum
    {
      if maxLineNum >= 10 {
        assert |NatToString(maxLineNum)| == |NatToString(maxLineNum / 10)| + 1;
      } else {
        assert |NatToString(maxLineNum)| == 1;
      }
      maxLineNum := maxLineNum / 10;
      digits := digits + 1;
    }
    NatToStringLength(lineIndex + 1);
  }
}

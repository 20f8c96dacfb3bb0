/** The bookkeeping of the Rust pretty-printer (`pprust`): the stack of
    open box kinds kept beside the printer, the comment and literal
    cursors, comma separation, visibility qualifiers, tuple types, and the
    `fun_to_str` / `variant_to_str` entry points.

    The printer is the token log of module `Pp`. Sub-printers this model
    does not cover (`print_type`, `print_arg`, `print_bounds`,
    `print_expr`) are represented by the tokens they write. */
module Pprust {
  import opened Common
  import opened Pp

  datatype CommentStyle = Isolated | Trailing | Mixed | BlankLine

  datatype Comment = Comment(style: CommentStyle, lines: seq<string>, pos: nat)

  datatype Lit = Lit(text: string, pos: nat)

  /** The printer state `ps`: the token log, the optional comment and
      literal lists with their cursors, and the stack of open box kinds. */
  datatype Ps = Ps(out: Log,
                   comments: Option<seq<Comment>>,
                   literals: Option<seq<Lit>>,
                   curCmnt: nat,
                   curLit: nat,
                   boxes: seq<Breaks>)

  /** `rust_printer`: a fresh printer without comments or literals. */
  const RustPrinter: Ps := Ps([], None, None, 0, 0, [])

  function Emit(ps: Ps, t: Token): Ps
  {
    ps.(out := ps.out + [t])
  }

  /** `b` is `a` with more tokens written after it. */
  ghost predicate Grows(a: Log, b: Log)
  {
    |a| <= |b| && b[..|a|] == a
  }

  lemma GrowsTrans(a: Log, b: Log, c: Log)
    requires Grows(a, b) && Grows(b, c)
    ensures Grows(a, c)
  {
    assert c[..|a|] == c[..|b|][..|a|];
  }

  /** When `c` extends `b` with its last token dropped, it extends every
      prefix of `b` with its last token dropped. */
  lemma GrowsBeforeLast(a: Log, b: Log, c: Log)
    requires |a| > 0 && Grows(a, b) && Grows(b[..|b| - 1], c)
    ensures Grows(a[..|a| - 1], c)
  {
    assert b[..|b| - 1][..|a| - 1] == a[..|a| - 1];
    GrowsTrans(a[..|a| - 1], b[..|b| - 1], c);
  }

  function Word(ps: Ps, w: string): Ps { Emit(ps, Str(w)) }
  function Space(ps: Ps): Ps { Emit(ps, SpaceTok) }
  function Zerobreak(ps: Ps): Ps { Emit(ps, ZerobreakTok) }
  function Hardbreak(ps: Ps): Ps { Emit(ps, HardbreakTok) }
  function Eof(ps: Ps): Ps { Emit(ps, Token.Eof) }

  function Nbsp(ps: Ps): Ps { Word(ps, " ") }
  function WordNbsp(ps: Ps, w: string): Ps { Nbsp(Word(ps, w)) }
  function WordSpace(ps: Ps, w: string): Ps { Space(Word(ps, w)) }
  function Popen(ps: Ps): Ps { Word(ps, "(") }
  function Pclose(ps: Ps): Ps { Word(ps, ")") }

  // ---------------------------------------------------------------------------
  // The box stack

  /** `rbox(u, b)`: pushes `b` and opens a box of that kind. */
  function Rbox(ps: Ps, u: nat, b: Breaks): (r: Ps)
    ensures |r.boxes| == |ps.boxes| + 1 && r.boxes[..|ps.boxes|] == ps.boxes
    ensures r.boxes[|ps.boxes|] == b
    ensures r.out == ps.out + [Begin(u, b)]
  {
    Emit(ps.(boxes := ps.boxes + [b]), Begin(u, b))
  }

  /** `ibox(u)`: an inconsistent box. */
  function Ibox(ps: Ps, u: nat): (r: Ps)
    ensures |r.boxes| == |ps.boxes| + 1 && r.boxes[|ps.boxes|] == Inconsistent
  {
    Rbox(ps, u, Inconsistent)
  }

  /** `cbox(u)`: a consistent box. */
  function Cbox(ps: Ps, u: nat): (r: Ps)
    ensures |r.boxes| == |ps.boxes| + 1 && r.boxes[|ps.boxes|] == Consistent
  {
    Rbox(ps, u, Consistent)
  }

  /** `end`: pops the box stack and closes the printer's box; popping an
      empty stack fails. */
  function EndBox(ps: Ps): (r: Outcome<Ps>)
    ensures r.Done? <==> |ps.boxes| > 0
    ensures r.Done? ==> r.value.boxes == ps.boxes[..|ps.boxes| - 1]
    ensures r.Done? ==> r.value.out == ps.out + [End]
  {
    if |ps.boxes| == 0 then Panic("pop: empty vector")
    else Done(Emit(ps.(boxes := ps.boxes[..|ps.boxes| - 1]), End))
  }

  /** `in_cbox`: the innermost open box is consistent. */
  function InCbox(ps: Ps): (r: bool)
    ensures r <==> |ps.boxes| > 0 && ps.boxes[|ps.boxes| - 1] == Consistent
  {
    if |ps.boxes| == 0 then false else ps.boxes[|ps.boxes| - 1] == Consistent
  }

  /** `end` undoes `rbox`: the stack returns to where it was, the log gains
      one open and one close, and `in_cbox` reports the box just opened
      until it is closed. */
  lemma EndUndoesRbox(ps: Ps, u: nat, b: Breaks)
    ensures InCbox(Rbox(ps, u, b)) <==> b == Consistent
    ensures EndBox(Rbox(ps, u, b)) == Done(ps.(out := ps.out + [Begin(u, b), End]))
  {
    assert (ps.boxes + [b])[..|ps.boxes|] == ps.boxes;
    assert ps.out + [Begin(u, b)] + [End] == ps.out + [Begin(u, b), End];
  }

  // ---------------------------------------------------------------------------
  // commasep

  /** The tokens of `elts` printed by `op`, separated by a `","` word and a
      space. */
  function CommaJoin<T>(elts: seq<T>, op: T -> Log): Log
  {
    if |elts| == 0 then []
    else if |elts| == 1 then op(elts[0])
    else CommaJoin(elts[..|elts| - 1], op) + [Str(","), SpaceTok] + op(elts[|elts| - 1])
  }

  /** `commasep(b, elts, op)`: a raw box of kind `b` around the elements,
      `word_space(",")` before every element but the first. */
  method Commasep<T>(ps: Ps, b: Breaks, elts: seq<T>, op: T -> Log) returns (r: Ps)
    ensures r == ps.(out := ps.out + [Begin(0, b)] + CommaJoin(elts, op) + [End])
  {
    r := Rbox(ps, 0, b);
    var first := true;
    var i := 0;
    while i < |elts|
      invariant 0 <= i <= |elts|
      invariant first <==> i == 0
      invariant r.boxes == ps.boxes + [b]
      invariant r == ps.(out := ps.out + [Begin(0, b)] + CommaJoin(elts[..i], op), boxes := ps.boxes + [b])
    {
      if first {
        first := false;
      } else {
        r := WordSpace(r, ",");
      }
      r := r.(out := r.out + op(elts[i]));
      assert elts[..i + 1][..i] == elts[..i];
      i := i + 1;
    }
    assert elts[..i] == elts;
    r := r.(boxes := ps.boxes + [b]);
    var e := EndBox(r);
    assert (ps.boxes + [b])[..|ps.boxes|] == ps.boxes;
    r := e.value;
  }

  /** Each element preceded by a `","` word and a space: the elements
      `commasep` prints after the first. */
  function SepEach<T>(elts: seq<T>, op: T -> Log): Log
    decreases |elts|
  {
    if |elts| == 0 then [] else [Str(","), SpaceTok] + op(elts[0]) + SepEach(elts[1..], op)
  }

  lemma {:induction false} SepEachSnoc<T>(elts: seq<T>, x: T, op: T -> Log)
    ensures SepEach(elts + [x], op) == SepEach(elts, op) + [Str(","), SpaceTok] + op(x)
    decreases |elts|
  {
    if |elts| == 0 {
      assert [x][1..] == [];
      assert SepEach([x], op) == [Str(","), SpaceTok] + op(x) + SepEach([], op);
    } else {
      assert (elts + [x])[1..] == elts[1..] + [x];
      SepEachSnoc(elts[1..], x, op);
    }
  }

  /** Comma separation read from the front: the first element, then every
      other preceded by the separator. */
  lemma {:induction false} CommaJoinFront<T>(elts: seq<T>, op: T -> Log)
    requires |elts| > 0
    ensures CommaJoin(elts, op) == op(elts[0]) + SepEach(elts[1..], op)
    decreases |elts|
  {
    if |elts| == 1 {
      assert elts[1..] == [];
    } else {
      var init := elts[..|elts| - 1];
      CommaJoinFront(init, op);
      SepEachSnoc(init[1..], elts[|elts| - 1], op);
      assert init[1..] + [elts[|elts| - 1]] == elts[1..];
    }
  }

  /** The separator-led elements are the separator and then the
      comma-separated elements. */
  lemma SepEachLeads<T>(elts: seq<T>, op: T -> Log)
    requires |elts| > 0
    ensures SepEach(elts, op) == [Str(","), SpaceTok] + CommaJoin(elts, op)
  {
    CommaJoinFront(elts, op);
    assert SepEach(elts, op) == [Str(","), SpaceTok] + op(elts[0]) + SepEach(elts[1..], op);
    ConcatAssoc([Str(","), SpaceTok], op(elts[0]), SepEach(elts[1..], op));
  }

  /** The same layout as a function, for use inside other printers. */
  function CommasepTokens<T>(b: Breaks, elts: seq<T>, op: T -> Log): Log
  {
    [Begin(0, b)] + CommaJoin(elts, op) + [End]
  }

  /** Joins strings with a separator. */
  function JoinWith(sep: string, parts: seq<string>): string
  {
    if |parts| == 0 then ""
    else if |parts| == 1 then parts[0]
    else JoinWith(sep, parts[..|parts| - 1]) + sep + parts[|parts| - 1]
  }

  function WordOp(w: string): Log { [Str(w)] }

  // ---------------------------------------------------------------------------
  // Visibility

  datatype Visibility = Private | Public | Inherited

  function VisibilityToStr(v: Visibility): string
  {
    match v
    case Private => "priv"
    case Public => "pub"
    case Inherited => ""
  }

  /** `visibility_qualified(v, s)`: the keyword and a space before `s`, or
      `s` alone for inherited visibility. */
  function VisibilityQualified(v: Visibility, s: string): (r: string)
    ensures v == Private ==> r == "priv " + s
    ensures v == Public ==> r == "pub " + s
    ensures v == Inherited ==> r == s
    ensures r[|r| - |s|..] == s
  {
    match v
    case Private | Public => VisibilityToStr(v) + " " + s
    case Inherited => s
  }

  /** `print_visibility`: the keyword followed by a non-breaking space,
      nothing for inherited visibility. */
  function PrintVisibility(ps: Ps, v: Visibility): (r: Ps)
    ensures r == ps.(out := r.out) && Grows(ps.out, r.out)
  {
    match v
    case Private | Public => WordNbsp(ps, VisibilityToStr(v))
    case Inherited => ps
  }

  /** Printing the visibility before a name renders the same text as
      `visibility_qualified` of that name. */
  lemma PrintVisibilityAgreesWithQualified(ps: Ps, v: Visibility, name: string)
    ensures Render(Word(PrintVisibility(ps, v), name).out) == Render(ps.out) + VisibilityQualified(v, name)
  {
    var toks: Log := if v == Inherited then [Str(name)] else [Str(VisibilityToStr(v)), Str(" "), Str(name)];
    assert Word(PrintVisibility(ps, v), name).out == ps.out + toks;
    RenderAppend(ps.out, toks);
    RenderShort(toks[0], Str(" "), Str(name));
    assert Render(toks) == VisibilityQualified(v, name);
  }

  // ---------------------------------------------------------------------------
  // Literal and comment cursors

  /** What `next_lit(pos)` promises about a list of literals: the cursor
      moves from `cur` to `cur'` over literals before `pos`, a literal at
      `pos` is returned and consumed, and the first literal past `pos` is
      left in place. */
  predicate NextLitSpec(lits: seq<Lit>, cur: nat, pos: nat, cur': nat, lit: Option<Lit>)
  {
    && cur <= cur'
    && (cur' == cur || cur' <= |lits|)
    && (forall k :: cur <= k < cur' && k < |lits| && !(lit.Some? && k == cur' - 1) ==> lits[k].pos < pos)
    && (lit.Some? ==> cur < cur' <= |lits| && lits[cur' - 1].pos == pos && lit.value == lits[cur' - 1])
    && (lit.None? ==> cur' >= |lits| || lits[cur'].pos > pos)
  }

  /** `next_lit(pos)`: advances the literal cursor past literals before
      `pos`; returns and consumes one at `pos`; stops at one beyond it. */
  method NextLit(ps: Ps, pos: nat) returns (r: Ps, lit: Option<Lit>)
    ensures r == ps.(curLit := r.curLit)
    ensures ps.literals.None? ==> r == ps && lit.None?
    ensures ps.literals.Some? ==> NextLitSpec(ps.literals.value, ps.curLit, pos, r.curLit, lit)
  {
    r := ps;
    lit := None;
    if ps.literals.None? {
      return;
    }
    var lits := ps.literals.value;
    while r.curLit < |lits|
      invariant r == ps.(curLit := r.curLit)
      invariant ps.curLit <= r.curLit
      invariant r.curLit == ps.curLit || r.curLit <= |lits|
      invariant forall k :: ps.curLit <= k < r.curLit && k < |lits| ==> lits[k].pos < pos
      decreases |lits| - r.curLit
    {
      var l := lits[r.curLit];
      if l.pos > pos {
        return;
      }
      r := r.(curLit := r.curLit + 1);
      if l.pos == pos {
        lit := Some(l);
        return;
      }
    }
  }

  /** `next_comment`: the comment under the cursor, if any. */
  function NextComment(ps: Ps): (r: Option<Comment>)
    ensures r.Some? <==> ps.comments.Some? && ps.curCmnt < |ps.comments.value|
    ensures r.Some? ==> r.value == ps.comments.value[ps.curCmnt]
  {
    match ps.comments
    case Some(cmnts) => if ps.curCmnt < |cmnts| then Some(cmnts[ps.curCmnt]) else None
    case None => None
  }

  /** `is_bol`: the last token is end-of-file or a hard break. */
  predicate IsBol(ps: Ps)
  {
    LastToken(ps.out).Eof? || IsHardbreakTok(LastToken(ps.out))
  }

  function HardbreakIfNotBol(ps: Ps): (r: Ps)
    ensures r == ps.(out := r.out) && Grows(ps.out, r.out)
  {
    if IsBol(ps) then ps else Hardbreak(ps)
  }

  /** The lines of an isolated or multi-line trailing comment: each
      non-empty line as a word, every line ended by a hard break. */
  function CommentLines(lines: seq<string>): Log
  {
    if |lines| == 0 then []
    else CommentLines(lines[..|lines| - 1])
         + (if |lines[|lines| - 1]| > 0 then [Str(lines[|lines| - 1])] else [])
         + [HardbreakTok]
  }

  /** `print_comment`: prints one comment according to its style. A mixed
      comment must have exactly one line; any other fails the assertion. */
  function PrintComment(ps: Ps, c: Comment): (r: Outcome<Ps>)
    ensures r.Panic? <==> c.style == Mixed && |c.lines| != 1
    ensures r.Done? ==> r.value == ps.(out := r.value.out)
    ensures r.Done? ==> |r.value.out| >= |ps.out| && r.value.out[..|ps.out|] == ps.out
  {
    match c.style
    case Mixed =>
      if |c.lines| != 1 then Panic("assertion failed: cmnt.lines.len() == 1u")
      else Done(Zerobreak(Word(Zerobreak(ps), c.lines[0])))
    case Isolated =>
      var ps1 := HardbreakIfNotBol(ps);
      Done(ps1.(out := ps1.out + CommentLines(c.lines)))
    case Trailing =>
      var ps1 := Word(ps, " ");
      if |c.lines| == 1 then Done(Hardbreak(Word(ps1, c.lines[0])))
      else
        var ps2 := Ibox(ps1, 0);
        assert ps2.boxes[..|ps1.boxes|] == ps.boxes;
        EndBox(ps2.(out := ps2.out + CommentLines(c.lines)))
    case BlankLine =>
      var last := LastToken(ps.out);
      var isSemi := last == Str(";");
      var ps1 := if isSemi || last.Begin? || last.End? then Hardbreak(ps) else ps;
      Done(Hardbreak(ps1))
  }

  /** The end of the run of comments from `cur` on that lie before `pos`. */
  function PendingEnd(cmnts: seq<Comment>, cur: nat, pos: nat): (e: nat)
    ensures cur <= e && (e == cur || e <= |cmnts|)
    ensures forall k :: cur <= k < e ==> cmnts[k].pos < pos
    ensures e >= |cmnts| || cmnts[e].pos >= pos
    decreases |cmnts| - cur
  {
    if cur < |cmnts| && cmnts[cur].pos < pos then PendingEnd(cmnts, cur + 1, pos) else cur
  }

  /** A prefix of a prefix of a log is a prefix of it. */
  lemma LogPrefixTrans(a: Log, b: Log, c: Log)
    requires |a| <= |b| && b[..|a|] == a && |b| <= |c| && c[..|b|] == b
    ensures |a| <= |c| && c[..|a|] == a
  {
    assert c[..|b|][..|a|] == c[..|a|];
  }

  /** One step of the run of pending comments: the run from `cur` is the
      comment at `cur` and the run from `cur + 1`. */
  lemma PendingStep(cmnts: seq<Comment>, cur: nat, pos: nat)
    requires cur < |cmnts| && cmnts[cur].pos < pos
    ensures PendingEnd(cmnts, cur, pos) == PendingEnd(cmnts, cur + 1, pos)
    ensures (exists k :: cur <= k < PendingEnd(cmnts, cur, pos) && BadMixed(cmnts[k]))
            <==> BadMixed(cmnts[cur]) || exists k :: cur + 1 <= k < PendingEnd(cmnts, cur + 1, pos) && BadMixed(cmnts[k])
  {
  }

  predicate BadMixed(c: Comment)
  {
    c.style == Mixed && |c.lines| != 1
  }

  function Remaining(ps: Ps): nat
  {
    if ps.comments.Some? && ps.curCmnt < |ps.comments.value| then |ps.comments.value| - ps.curCmnt else 0
  }

  /** `maybe_print_comment(pos)`: prints and consumes, in order, the
      comments under the cursor that lie before `pos`, stopping at the first
      that does not. It fails exactly when one of those is a mixed comment
      with other than one line. */
  function MaybePrintComment(ps: Ps, pos: nat): (r: Outcome<Ps>)
    ensures ps.comments.None? ==> r == Done(ps)
    ensures ps.comments.Some? ==>
              (r.Panic? <==> exists k :: ps.curCmnt <= k < PendingEnd(ps.comments.value, ps.curCmnt, pos)
                                        && BadMixed(ps.comments.value[k]))
    ensures r.Done? ==> r.value == ps.(out := r.value.out, curCmnt := r.value.curCmnt)
    ensures r.Done? ==> |r.value.out| >= |ps.out| && r.value.out[..|ps.out|] == ps.out
    ensures r.Done? && ps.comments.Some? ==>
              r.value.curCmnt == PendingEnd(ps.comments.value, ps.curCmnt, pos)
    decreases Remaining(ps)
  {
    match NextComment(ps)
    case None => Done(ps)
    case Some(c) =>
      if c.pos < pos then
        PendingStep(ps.comments.value, ps.curCmnt, pos);
        var ps1 :- PrintComment(ps, c);
        var ps2 := ps1.(curCmnt := ps1.curCmnt + 1);
        var r := MaybePrintComment(ps2, pos);
        if r.Done? then LogPrefixTrans(ps.out, ps1.out, r.value.out); r else r
      else Done(ps)
  }

  // ---------------------------------------------------------------------------
  // Types, generics and function signatures

  function IdOp(t: Log): Log { t }

  /** The tuple-type arm of `print_type`: a head `ibox(0)`, the elements
      comma-separated in an inconsistent box between parentheses, and a
      trailing `","` exactly when there is one element. */
  function PrintTupleType(ps: Ps, lo: nat, elts: seq<Log>): (r: Outcome<Ps>)
    ensures ps.comments.None? ==> r.Done?
    ensures r.Done? ==> r.value.boxes == ps.boxes
    ensures r.Done? ==> |r.value.out| >= 3 && r.value.out[|r.value.out| - 2..] == [Str(")"), End]
    ensures r.Done? ==> (r.value.out[|r.value.out| - 3] == Str(",") <==> |elts| == 1)
  {
    var ps1 :- MaybePrintComment(ps, lo);
    var ps2 := Popen(Ibox(ps1, 0));
    var ps3 := ps2.(out := ps2.out + CommasepTokens(Inconsistent, elts, IdOp));
    var ps4 := Pclose(if |elts| == 1 then Word(ps3, ",") else ps3);
    assert ps4.boxes[..|ps.boxes|] == ps.boxes;
    EndBox(ps4)
  }

  datatype TyParam = TyParam(ident: string, bounds: Log)

  datatype Generics = Generics(lifetimes: seq<string>, tyParams: seq<TyParam>)

  const EmptyGenerics: Generics := Generics([], [])

  /** One item of `print_generics`: lifetimes first as `'name`, then type
      parameters with their bounds. */
  function GenericItem(g: Generics, idx: int): Log
  {
    if idx < 0 then []
    else if idx < |g.lifetimes| then [Str("'"), Str(g.lifetimes[idx])]
    else if idx - |g.lifetimes| < |g.tyParams| then
      [Str(g.tyParams[idx - |g.lifetimes|].ident)] + g.tyParams[idx - |g.lifetimes|].bounds
    else []
  }

  /** `print_generics`: nothing when there are no parameters, else the
      items comma-separated between angle brackets. */
  function PrintGenerics(ps: Ps, g: Generics): (r: Ps)
    ensures |g.lifetimes| + |g.tyParams| == 0 <==> r == ps
    ensures r == ps.(out := r.out)
    ensures Grows(ps.out, r.out)
  {
    var total := |g.lifetimes| + |g.tyParams|;
    if total > 0 then
      var ps1 := Word(ps, "<");
      Word(ps1.(out := ps1.out + CommasepTokens(Inconsistent, Indices(total), GenericOp(g))), ">")
    else ps
  }

  /** The indices `0 .. n-1` that `print_generics` iterates over. */
  function Indices(n: nat): (r: seq<int>)
    ensures |r| == n && forall i :: 0 <= i < n ==> r[i] == i
  {
    seq(n, i => i)
  }

  /** The item printer `print_generics` passes to `commasep`. */
  function GenericOp(g: Generics): int -> Log
  {
    (i: int) => GenericItem(g, i)
  }

  datatype Purity = ImpureFn | UnsafeFn | ExternFn
  datatype Onceness = Once | Many
  datatype Sigil = BorrowedSigil | OwnedSigil | ManagedSigil

  function PurityToStr(p: Purity): string
  {
    match p
    case ImpureFn => "impure"
    case UnsafeFn => "unsafe"
    case ExternFn => "extern"
  }

  function PrintOptPurity(ps: Ps, p: Option<Purity>): (r: Ps)
    ensures r == ps.(out := r.out)
  {
    match p
    case Some(ImpureFn) => ps
    case Some(q) => WordNbsp(ps, PurityToStr(q))
    case None => ps
  }

  function PrintOptSigil(ps: Ps, s: Option<Sigil>): (r: Ps)
    ensures r == ps.(out := r.out)
  {
    match s
    case Some(BorrowedSigil) => Word(ps, "&")
    case Some(OwnedSigil) => Word(ps, "~")
    case Some(ManagedSigil) => Word(ps, "@")
    case None => ps
  }

  /** `print_fn_header_info`. `abi` is `None` for the Rust ABI set and
      otherwise the set's printed form. */
  function PrintFnHeaderInfo(ps: Ps, purity: Option<Purity>, abi: Option<string>,
                             onceness: Onceness, sigil: Option<Sigil>, vis: Visibility): (r: Ps)
    ensures r == ps.(out := r.out)
  {
    var ps1 := Word(ps, VisibilityQualified(vis, ""));
    var ps2 := PrintAbiAndPurity(ps1, purity, abi);
    var ps3 := if onceness == Once then WordNbsp(ps2, "once") else ps2;
    PrintOptSigil(Word(ps3, "fn"), sigil)
  }

  /** The ABI and purity words of `print_fn_header_info`: `extern` and the
      ABI set for a foreign ABI, then the purity unless it would repeat
      `extern`. */
  function PrintAbiAndPurity(ps: Ps, purity: Option<Purity>, abi: Option<string>): (r: Ps)
    ensures r == ps.(out := r.out)
  {
    if abi.Some? then
      var p := WordNbsp(WordNbsp(ps, "extern"), abi.value);
      if purity != Some(ExternFn) then PrintOptPurity(p, purity) else p
    else PrintOptPurity(ps, purity)
  }

  /** `head(w)`: the consistent outer box (indent 4), the inconsistent head
      box, and the keyword when there is one. */
  function Head(ps: Ps, w: string): (r: Ps)
    ensures r.boxes == ps.boxes + [Consistent, Inconsistent]
    ensures r == ps.(out := r.out, boxes := r.boxes) && Grows(ps.out, r.out)
  {
    var ps1 := Ibox(Cbox(ps, IndentUnit), |w| + 1);
    assert ps1.boxes == ps.boxes + [Consistent, Inconsistent];
    if |w| > 0 then WordNbsp(ps1, w) else ps1
  }

  const IndentUnit: nat := 4

  /** A function declaration: each argument and the return type as the
      tokens their printers write (`None` for the nil return type), the
      position the return type starts at, and the variadic flag. */
  datatype FnDecl = FnDecl(inputs: seq<Log>, output: Option<Log>, outputLo: nat, variadic: bool)

  datatype Mutability = Mutable | Immutable

  /** The explicit self of a method (`explicit_self_`): none for a static
      method, or `self` by value, owned (`~self`), borrowed with an
      optional lifetime (`&'a self`) or managed (`@self`). */
  datatype ExplicitSelf =
    | StaticSelf
    | ValueSelf(m: Mutability)
    | UniqSelf(m: Mutability)
    | RegionSelf(lifetime: Option<string>, m: Mutability)
    | BoxSelf(m: Mutability)

  /** `print_mutability`: `mut` and a non-breaking space, or nothing. */
  function PrintMutability(ps: Ps, m: Mutability): (r: Ps)
    ensures r == ps.(out := r.out)
  {
    match m
    case Mutable => WordNbsp(ps, "mut")
    case Immutable => ps
  }

  /** `print_opt_lifetime`: a quote, the lifetime's name and a
      non-breaking space, or nothing. */
  function PrintOptLifetime(ps: Ps, lifetime: Option<string>): (r: Ps)
    ensures r == ps.(out := r.out)
  {
    match lifetime
    case Some(l) => Nbsp(Word(Word(ps, "'"), l))
    case None => ps
  }

  /** `print_explicit_self`: prints the self argument and reports whether
      it printed anything, which it does for every kind but a static
      method's. */
  function PrintExplicitSelf(ps: Ps, es: ExplicitSelf): (r: (Ps, bool))
    ensures r.1 <==> !es.StaticSelf?
    ensures r.0 == ps.(out := r.0.out)
    ensures !r.1 ==> r.0 == ps
  {
    match es
    case StaticSelf => (ps, false)
    case ValueSelf(m) => (Word(PrintMutability(ps, m), "self"), true)
    case UniqSelf(m) => (Word(PrintMutability(ps, m), "~self"), true)
    case RegionSelf(lt, m) => (Word(PrintMutability(PrintOptLifetime(Word(ps, "&"), lt), m), "self"), true)
    case BoxSelf(m) => (Word(PrintMutability(Word(ps, "@"), m), "self"), true)
  }

  /** The loop over the arguments of `print_fn_args`: a `","` word and a
      space before each argument unless it is the first thing printed. */
  function PrintArgs(ps: Ps, args: seq<Log>, first: bool): (r: Ps)
    ensures r == ps.(out := r.out)
    decreases |args|
  {
    if |args| == 0 then ps
    else
      var ps1 := if first then ps else WordSpace(ps, ",");
      PrintArgs(ps1.(out := ps1.out + args[0]), args[1..], false)
  }

  /** `print_fn_args`: the explicit self, when there is one and it prints
      something, and then the arguments, all comma-separated in one
      inconsistent box. */
  function PrintFnArgs(ps: Ps, decl: FnDecl, optSelf: Option<ExplicitSelf>): (r: Ps)
    ensures r == ps.(out := r.out)
  {
    var ps1 := Rbox(ps, 0, Inconsistent);
    var (ps2, printed) := if optSelf.Some? then PrintExplicitSelf(ps1, optSelf.value) else (ps1, false);
    var ps3 := PrintArgs(ps2, decl.inputs, !printed);
    assert ps3.boxes[..|ps.boxes|] == ps.boxes;
    EndBox(ps3).value
  }

  /** The loop over the arguments writes the separator before every
      argument but the first thing printed: comma separation when nothing
      came before, and a separator before each argument otherwise. */
  lemma {:induction false} PrintArgsTokens(ps: Ps, args: seq<Log>, first: bool)
    ensures PrintArgs(ps, args, first).out
            == ps.out + (if first then CommaJoin(args, IdOp) else SepEach(args, IdOp))
    decreases |args|
  {
    if |args| > 0 {
      var ps1 := if first then ps else WordSpace(ps, ",");
      PrintArgsTokens(ps1.(out := ps1.out + args[0]), args[1..], false);
      if first {
        CommaJoinFront(args, IdOp);
      }
    }
  }

  /** `print_fn_args` as its three steps: open the box, print the explicit
      self, run the loop, close the box. */
  lemma PrintFnArgsUnfold(ps: Ps, decl: FnDecl, optSelf: Option<ExplicitSelf>)
    ensures var ps1 := Rbox(ps, 0, Inconsistent);
            var w := if optSelf.Some? then PrintExplicitSelf(ps1, optSelf.value) else (ps1, false);
            PrintFnArgs(ps, decl, optSelf).out == PrintArgs(w.0, decl.inputs, !w.1).out + [End]
  {
  }

  /** Without an explicit self that prints, `print_fn_args` lays out the
      arguments exactly as `commasep` in an inconsistent box would. */
  lemma PrintFnArgsIsCommasep(ps: Ps, decl: FnDecl, optSelf: Option<ExplicitSelf>)
    requires optSelf.None? || optSelf == Some(StaticSelf)
    ensures PrintFnArgs(ps, decl, optSelf).out == ps.out + CommasepTokens(Inconsistent, decl.inputs, IdOp)
  {
    var ps1 := Rbox(ps, 0, Inconsistent);
    PrintArgsTokens(ps1, decl.inputs, true);
  }

  /** `print_fn_args_and_ret`: the argument list, the comments before the
      return type, and the return type. */
  function PrintFnArgsAndRet(ps: Ps, decl: FnDecl, optSelf: Option<ExplicitSelf>): (r: Outcome<Ps>)
    ensures ps.comments.None? ==> r.Done?
    ensures r.Done? ==> r.value.boxes == ps.boxes
  {
    var ps3 := PrintArgList(ps, decl, optSelf);
    var ps4 :- MaybePrintComment(ps3, decl.outputLo);
    Done(PrintRet(ps4, decl.output))
  }

  /** The parenthesised argument list, with `, ...` for a variadic
      function. */
  function PrintArgList(ps: Ps, decl: FnDecl, optSelf: Option<ExplicitSelf>): (r: Ps)
    ensures r == ps.(out := r.out)
  {
    var ps2 := PrintFnArgs(Popen(ps), decl, optSelf);
    Pclose(if decl.variadic then Word(ps2, ", ...") else ps2)
  }

  /** The return type after `->`, the space before the arrow left out at
      the beginning of a line; nothing for the nil type. */
  function PrintRet(ps: Ps, output: Option<Log>): Ps
  {
    match output
    case None => ps
    case Some(toks) =>
      var ps5 := WordSpace(if IsBol(ps) then ps else Space(ps), "->");
      ps5.(out := ps5.out + toks)
  }

  /** `print_fn`: the head, the header, the name, generics, arguments and
      return type. Leaves the two head boxes open. */
  function PrintFn(ps: Ps, decl: FnDecl, purity: Option<Purity>, abi: Option<string>,
                   name: string, g: Generics, optSelf: Option<ExplicitSelf>, vis: Visibility): (r: Outcome<Ps>)
    ensures ps.comments.None? ==> r.Done?
    ensures r.Done? ==> r.value.boxes == ps.boxes + [Consistent, Inconsistent]
  {
    var ps1 := PrintFnHeaderInfo(Head(ps, ""), purity, abi, Many, None, vis);
    var ps2 := PrintGenerics(Word(Nbsp(ps1), name), g);
    PrintFnArgsAndRet(ps2, decl, optSelf)
  }

  /** `fun_to_str`: a fresh printer, `print_fn` with the Rust ABI and
      inherited visibility, both head boxes closed, end-of-file. A fresh
      printer has no comments, so nothing on the way can fail. */
  function FunToStr(decl: FnDecl, purity: Purity, name: string, optSelf: Option<ExplicitSelf>, g: Generics): (r: string)
  {
    var ps1 := PrintFn(RustPrinter, decl, Some(purity), None, name, g, optSelf, Inherited).value;
    var ps2 := EndBox(ps1).value;
    var ps3 := EndBox(ps2).value;
    Render(Eof(ps3).out)
  }

  /** Every box `fun_to_str` opens is closed again before end-of-file. */
  lemma FunToStrClosesItsBoxes(decl: FnDecl, purity: Purity, name: string, optSelf: Option<ExplicitSelf>, g: Generics)
    ensures var ps1 := PrintFn(RustPrinter, decl, Some(purity), None, name, g, optSelf, Inherited).value;
            EndBox(ps1).Done? && EndBox(EndBox(ps1).value).Done? && EndBox(EndBox(ps1).value).value.boxes == []
  {
  }

  /** The text a purity contributes before `fn`. */
  function PurityPrefix(p: Purity): string
  {
    if p == ImpureFn then "" else PurityToStr(p) + " "
  }

  /** The tokens `print_fn` writes for a nullary, nil-returning,
      non-generic function with inherited visibility. */
  function NullaryFnTokens(purity: Purity, name: string): Log
  {
    NullaryHead() + PurityTokens(purity) + NullaryTail(name)
  }

  /** The two head boxes and the empty visibility word. */
  function NullaryHead(): Log
  {
    [Begin(IndentUnit, Consistent), Begin(1, Inconsistent), Str("")]
  }

  /** `fn`, the name and the empty argument list. */
  function NullaryTail(name: string): Log
  {
    [Str("fn"), Str(" "), Str(name), Str("("), Begin(0, Inconsistent), End, Str(")")]
  }

  /** The words `print_opt_purity` writes. */
  function PurityTokens(purity: Purity): Log
  {
    if purity == ImpureFn then [] else [Str(PurityToStr(purity)), Str(" ")]
  }

  lemma RenderPurityTokens(purity: Purity)
    ensures Render(PurityTokens(purity)) == PurityPrefix(purity)
  {
    RenderShort(Str(PurityToStr(purity)), Str(" "), Token.Eof);
  }

  lemma PrintFnNullary(purity: Purity, name: string)
    ensures PrintFn(RustPrinter, FnDecl([], None, 0, false), Some(purity), None, name, EmptyGenerics, None, Inherited)
            == Done(Ps(NullaryFnTokens(purity, name), None, None, 0, 0, [Consistent, Inconsistent]))
  {
    var ps1 := PrintFnHeaderInfo(Head(RustPrinter, ""), Some(purity), None, Many, None, Inherited);
    HeaderNullary(purity);
    var ps2 := PrintGenerics(Word(Nbsp(ps1), name), EmptyGenerics);
    assert ps2 == ps1.(out := ps1.out + [Str(" "), Str(name)]);
    ArgsNullary(ps2);
    NullaryTailSplit(NullaryHead() + PurityTokens(purity), name);
  }

  lemma NullaryTailSplit(x: Log, name: string)
    ensures x + [Str("fn")] + [Str(" "), Str(name)] + [Str("("), Begin(0, Inconsistent), End, Str(")")] == x + NullaryTail(name)
  {
  }

  /** The head and header of a function with inherited visibility and the
      Rust ABI. */
  lemma HeaderNullary(purity: Purity)
    ensures PrintFnHeaderInfo(Head(RustPrinter, ""), Some(purity), None, Many, None, Inherited)
            == Ps(NullaryHead() + PurityTokens(purity) + [Str("fn")],
                  None, None, 0, 0, [Consistent, Inconsistent])
  {
    var head := Head(RustPrinter, "");
    assert head == Ps([Begin(IndentUnit, Consistent), Begin(1, Inconsistent)], None, None, 0, 0, [Consistent, Inconsistent]);
  }

  /** The argument list of a nullary function returning nil, on a printer
      without comments. */
  lemma ArgsNullary(ps: Ps)
    requires ps.comments.None?
    ensures PrintFnArgsAndRet(ps, FnDecl([], None, 0, false), None)
            == Done(ps.(out := ps.out + [Str("("), Begin(0, Inconsistent), End, Str(")")]))
  {
    var ps1 := Popen(ps);
    assert CommasepTokens(Inconsistent, [], IdOp) == [Begin(0, Inconsistent), End];
    PrintFnArgsIsCommasep(ps1, FnDecl([], None, 0, false), None);
    var ps3 := Pclose(ps1.(out := ps1.out + [Begin(0, Inconsistent), End]));
    assert ps3.out == ps.out + [Str("("), Begin(0, Inconsistent), End, Str(")")];
    assert MaybePrintComment(ps3, 0) == Done(ps3);
  }

  lemma RenderNullaryTail(name: string)
    ensures Render(NullaryTail(name)) == "fn " + name + "()"
  {
    RenderSeven(Str("fn"), Str(" "), Str(name), Str("("), Begin(0, Inconsistent), End, Str(")"));
  }

  /** Rendering a log of seven tokens. */
  lemma RenderSeven(a: Token, b: Token, c: Token, d: Token, e: Token, f: Token, g: Token)
    ensures Render([a, b, c, d, e, f, g])
            == RenderToken(a) + RenderToken(b) + RenderToken(c) + RenderToken(d)
               + RenderToken(e) + RenderToken(f) + RenderToken(g)
  {
    RenderShort(a, b, c);
    RenderSnoc([a, b, c], d);
    assert [a, b, c] + [d] == [a, b, c, d];
    RenderSnoc([a, b, c, d], e);
    assert [a, b, c, d] + [e] == [a, b, c, d, e];
    RenderSnoc([a, b, c, d, e], f);
    assert [a, b, c, d, e] + [f] == [a, b, c, d, e, f];
    RenderSnoc([a, b, c, d, e, f], g);
    assert [a, b, c, d, e, f] + [g] == [a, b, c, d, e, f, g];
  }

  lemma RenderNullaryFnTokens(purity: Purity, name: string)
    ensures Render(NullaryFnTokens(purity, name) + [End, End, Token.Eof]) == PurityPrefix(purity) + ("fn " + name + "()")
  {
    RenderAppend(NullaryFnTokens(purity, name), [End, End, Token.Eof]);
    RenderShort(End, End, Token.Eof);
    RenderNullaryFnPieces(purity, name);
  }

  lemma RenderNullaryFnPieces(purity: Purity, name: string)
    ensures Render(NullaryFnTokens(purity, name)) == PurityPrefix(purity) + ("fn " + name + "()")
  {
    var h, p, t := NullaryHead(), PurityTokens(purity), NullaryTail(name);
    assert Render(h + p + t) == Render(h) + Render(p) + Render(t) by {
      RenderThree(h, p, t);
    }
    assert Render(h) == "" by {
      RenderNullaryHead();
    }
    assert Render(p) == PurityPrefix(purity) by {
      RenderPurityTokens(purity);
    }
    assert Render(t) == "fn " + name + "()" by {
      RenderNullaryTail(name);
    }
    ConcatEmpty(Render(p));
  }

  lemma RenderNullaryHead()
    ensures Render(NullaryHead()) == ""
  {
    RenderShort(Begin(IndentUnit, Consistent), Begin(1, Inconsistent), Str(""));
  }

  lemma RenderThree(a: Log, b: Log, c: Log)
    ensures Render(a + b + c) == Render(a) + Render(b) + Render(c)
  {
    RenderAppend(a + b, c);
    RenderAppend(a, b);
  }

  /** A nullary, nil-returning, non-generic function prints as its purity
      keyword (none for an ordinary function), `fn`, its name and `()`. */
  lemma FunToStrNullary(purity: Purity, name: string)
    ensures FunToStr(FnDecl([], None, 0, false), purity, name, None, EmptyGenerics)
            == PurityPrefix(purity) + ("fn " + name + "()")
  {
    var toks := NullaryFnTokens(purity, name);
    var ps1 := Ps(toks, None, None, 0, 0, [Consistent, Inconsistent]);
    var ps3 := EndBox(EndBox(ps1).value).value;
    assert FunToStr(FnDecl([], None, 0, false), purity, name, None, EmptyGenerics) == Render(Eof(ps3).out) by {
      PrintFnNullary(purity, name);
    }
    assert Eof(ps3).out == toks + [End, End, Token.Eof] by {
      assert Eof(ps3).out == toks + [End] + [End] + [Token.Eof];
      SnocThree(toks, End, End, Token.Eof);
    }
    RenderNullaryFnTokens(purity, name);
  }

  lemma SnocThree<T>(x: seq<T>, a: T, b: T, c: T)
    ensures x + [a] + [b] + [c] == x + [a, b, c]
  {
  }

  /** The unit test of `fun_to_str`. */
  lemma FunToStrExample()
    ensures FunToStr(FnDecl([], None, 0, false), ImpureFn, "abba", None, EmptyGenerics) == "fn abba()"
  {
    FunToStrNullary(ImpureFn, "abba");
  }

  // ---------------------------------------------------------------------------
  // print_struct and print_variant

  /** A struct field's kind: unnamed, as in a tuple-like struct, or named
      with its visibility. */
  datatype FieldKind = UnnamedField | NamedField(name: string, vis: Visibility)

  /** A struct field: its kind, its type and its outer attributes as the
      tokens their printers write, and the position it starts at. */
  datatype StructField = StructField(kind: FieldKind, ty: Log, attrs: Log, lo: nat)

  /** A struct definition: whether it is tuple-like (the answer of
      `ast_util::struct_def_is_tuple_like`) and its fields. */
  datatype StructDef = StructDef(tupleLike: bool, fields: seq<StructField>)

  /** A field `print_struct` refuses: a named field in a tuple-like struct
      or an unnamed one in a struct with braces. */
  predicate FieldMismatch(def: StructDef)
  {
    exists i :: 0 <= i < |def.fields| && def.fields[i].kind.NamedField? == def.tupleLike
  }

  /** The fields of a tuple-like struct, as `commasep` prints them inside
      its box: each field's comments, then its type. */
  function TupleFields(ps: Ps, fields: seq<StructField>, first: bool): (r: Outcome<Ps>)
    ensures (exists i :: 0 <= i < |fields| && fields[i].kind.NamedField?) ==> r.Panic?
    ensures ps.comments.None? ==> (r.Panic? <==> exists i :: 0 <= i < |fields| && fields[i].kind.NamedField?)
    ensures r.Done? ==> r.value == ps.(out := r.value.out, curCmnt := r.value.curCmnt)
    ensures r.Done? ==> Grows(ps.out, r.value.out)
    decreases |fields|
  {
    if |fields| == 0 then Done(ps)
    else
      var ps1 := if first then ps else WordSpace(ps, ",");
      match fields[0].kind
      case NamedField(_, _) => Panic("unexpected named field")
      case UnnamedField =>
        var ps2 :- MaybePrintComment(ps1, fields[0].lo);
        var ps3 := ps2.(out := ps2.out + fields[0].ty);
        var r := TupleFields(ps3, fields[1..], false);
        assert forall i :: 1 <= i < |fields| ==> fields[i] == fields[1..][i - 1];
        if r.Done? then
          GrowsTrans(ps.out, ps1.out, ps2.out);
          GrowsTrans(ps.out, ps2.out, ps3.out);
          GrowsTrans(ps.out, ps3.out, r.value.out);
          r
        else r
  }

  /** The fields of a struct with braces, one per line: each field's
      comments, attributes, visibility, name, `: `, type and `,`. */
  function NamedFields(ps: Ps, fields: seq<StructField>): (r: Outcome<Ps>)
    ensures (exists i :: 0 <= i < |fields| && fields[i].kind.UnnamedField?) ==> r.Panic?
    ensures ps.comments.None? ==> (r.Panic? <==> exists i :: 0 <= i < |fields| && fields[i].kind.UnnamedField?)
    ensures r.Done? ==> r.value == ps.(out := r.value.out, curCmnt := r.value.curCmnt)
    ensures r.Done? && |fields| > 0 ==> LastToken(r.value.out) == Str(",")
    ensures |fields| == 0 ==> r == Done(ps)
    ensures r.Done? ==> Grows(ps.out, r.value.out)
    decreases |fields|
  {
    if |fields| == 0 then Done(ps)
    else
      match fields[0].kind
      case UnnamedField => Panic("unexpected unnamed field")
      case NamedField(name, vis) =>
        var ps1 := HardbreakIfNotBol(ps);
        var ps2 :- MaybePrintComment(ps1, fields[0].lo);
        var ps4 := FieldLine(ps2, fields[0], name, vis);
        var r := NamedFields(ps4, fields[1..]);
        assert forall i :: 1 <= i < |fields| ==> fields[i] == fields[1..][i - 1];
        if r.Done? then
          GrowsTrans(ps.out, ps1.out, ps2.out);
          GrowsTrans(ps.out, ps2.out, ps4.out);
          GrowsTrans(ps.out, ps4.out, r.value.out);
          r
        else r
  }

  /** One field of a struct with braces after its comments: attributes,
      visibility, name, `: `, type and `,`. */
  function FieldLine(ps: Ps, f: StructField, name: string, vis: Visibility): (r: Ps)
    ensures r == ps.(out := r.out) && Grows(ps.out, r.out)
    ensures LastToken(r.out) == Str(",")
  {
    var ps1 := WordNbsp(Word(PrintVisibility(ps.(out := ps.out + f.attrs), vis), name), ":");
    Word(ps1.(out := ps1.out + f.ty), ",")
  }

  /** The types of the fields, as the tokens their printer writes. */
  function FieldTys(fields: seq<StructField>): (r: seq<Log>)
    ensures |r| == |fields| && forall i :: 0 <= i < |fields| ==> r[i] == fields[i].ty
  {
    if |fields| == 0 then [] else [fields[0].ty] + FieldTys(fields[1..])
  }

  /** Without comments and with unnamed fields only, the fields of a
      tuple-like struct print as the argument loop of a function does. */
  lemma {:induction false} TupleFieldsAsArgs(ps: Ps, fields: seq<StructField>, first: bool)
    requires ps.comments.None?
    requires forall i :: 0 <= i < |fields| ==> fields[i].kind.UnnamedField?
    ensures TupleFields(ps, fields, first) == Done(PrintArgs(ps, FieldTys(fields), first))
    decreases |fields|
  {
    if |fields| > 0 {
      var ps1 := if first then ps else WordSpace(ps, ",");
      assert FieldTys(fields)[1..] == FieldTys(fields[1..]);
      TupleFieldsAsArgs(ps1.(out := ps1.out + fields[0].ty), fields[1..], false);
    }
  }

  /** `break_offset_if_not_bol(n, off)`: a break, unless the line is
      already fresh; then a nonzero offset is tucked into the hard break
      that ended the last line, replacing it. */
  function BreakOffsetIfNotBol(ps: Ps, n: nat, off: int): (r: Ps)
    ensures r == ps.(out := r.out)
    ensures !IsBol(ps) ==> r.out == ps.out + [Break(n, off)]
    ensures IsBol(ps) && off != 0 && IsHardbreakTok(LastToken(ps.out)) ==>
              |ps.out| > 0 && r.out == ps.out[..|ps.out| - 1] + [Break(SizeInfinity, off)]
    ensures IsBol(ps) && (off == 0 || !IsHardbreakTok(LastToken(ps.out))) ==> r == ps
    ensures |r.out| >= |ps.out| && (|ps.out| > 0 ==> Grows(ps.out[..|ps.out| - 1], r.out))
  {
    if !IsBol(ps) then Emit(ps, Break(n, off))
    else if off != 0 && IsHardbreakTok(LastToken(ps.out)) then
      ps.(out := ps.out[..|ps.out| - 1] + [Break(SizeInfinity, off)])
    else ps
  }

  /** `bclose`: the comments before the end of the item, a break back to
      the item's indentation, `}`, and the end of the outer box. */
  function Bclose(ps: Ps, hi: nat): (r: Outcome<Ps>)
    ensures ps.comments.None? ==> (r.Done? <==> |ps.boxes| > 0)
    ensures r.Done? ==> |ps.boxes| > 0 && r.value.boxes == ps.boxes[..|ps.boxes| - 1]
    ensures r.Done? ==> r.value == ps.(out := r.value.out, curCmnt := r.value.curCmnt, boxes := r.value.boxes)
    ensures r.Done? ==> |r.value.out| > |ps.out|
    ensures r.Done? && |ps.out| > 0 ==> Grows(ps.out[..|ps.out| - 1], r.value.out)
  {
    var ps1 :- MaybePrintComment(ps, hi);
    var ps2 := BreakOffsetIfNotBol(ps1, 1, -(IndentUnit as int));
    var r := EndBox(Word(ps2, "}"));
    if r.Done? && |ps.out| > 0 then
      assert ps1.out[..|ps.out| - 1] == ps.out[..|ps.out| - 1];
      GrowsTrans(ps.out[..|ps.out| - 1], ps1.out[..|ps1.out| - 1], ps2.out);
      GrowsTrans(ps.out[..|ps.out| - 1], ps2.out, r.value.out);
      r
    else r
  }

  /** `print_struct`: the name and generics, then either the fields in
      parentheses and `;` for a tuple-like struct, or the fields in braces
      one per line. Closes the two boxes of the `head` before it. */
  function PrintStruct(ps: Ps, def: StructDef, g: Generics, name: string, hi: nat): (r: Outcome<Ps>)
    ensures FieldMismatch(def) ==> r.Panic?
    ensures ps.comments.None? && |ps.boxes| >= 2 ==> (r.Panic? <==> FieldMismatch(def))
    ensures r.Done? ==> |ps.boxes| >= 2 && r.value.boxes == ps.boxes[..|ps.boxes| - 2]
    ensures r.Done? ==> r.value == ps.(out := r.value.out, curCmnt := r.value.curCmnt, boxes := r.value.boxes)
    ensures r.Done? ==> |r.value.out| > |ps.out| && Grows(ps.out, r.value.out)
  {
    var ps0 := Word(ps, name);
    var ps1 := PrintGenerics(ps0, g);
    GrowsTrans(ps.out, ps0.out, ps1.out);
    var r := if def.tupleLike then TupleStructBody(ps1, def.fields) else BracedStructBody(ps1, def.fields, hi);
    if r.Done? then
      GrowsTrans(ps.out, ps1.out, r.value.out);
      r
    else r
  }

  /** The tuple-like arm of `print_struct`: the fields in parentheses, `;`,
      and the ends of the two boxes. */
  function TupleStructBody(ps: Ps, fields: seq<StructField>): (r: Outcome<Ps>)
    ensures (exists i :: 0 <= i < |fields| && fields[i].kind.NamedField?) ==> r.Panic?
    ensures ps.comments.None? && |ps.boxes| >= 2 ==> (r.Panic? <==> exists i :: 0 <= i < |fields| && fields[i].kind.NamedField?)
    ensures r.Done? ==> |ps.boxes| >= 2 && r.value.boxes == ps.boxes[..|ps.boxes| - 2]
    ensures r.Done? ==> r.value == ps.(out := r.value.out, curCmnt := r.value.curCmnt, boxes := r.value.boxes)
    ensures r.Done? ==> |r.value.out| > |ps.out| && Grows(ps.out, r.value.out)
  {
    var ps2 :- TupleFieldList(ps, fields);
    var ps3 :- EndBox(Word(ps2, ";"));
    var r := EndBox(ps3);
    if r.Done? then
      GrowsTrans(ps.out, ps2.out, r.value.out);
      r
    else r
  }

  /** The arm of `print_struct` with braces: ` {`, the end of the head
      box, the fields one per line, and `bclose`. */
  function BracedStructBody(ps: Ps, fields: seq<StructField>, hi: nat): (r: Outcome<Ps>)
    ensures (exists i :: 0 <= i < |fields| && fields[i].kind.UnnamedField?) ==> r.Panic?
    ensures ps.comments.None? && |ps.boxes| >= 2 ==> (r.Panic? <==> exists i :: 0 <= i < |fields| && fields[i].kind.UnnamedField?)
    ensures r.Done? ==> |ps.boxes| >= 2 && r.value.boxes == ps.boxes[..|ps.boxes| - 2]
    ensures r.Done? ==> r.value == ps.(out := r.value.out, curCmnt := r.value.curCmnt, boxes := r.value.boxes)
    ensures r.Done? ==> |r.value.out| > |ps.out| && Grows(ps.out, r.value.out)
  {
    var ps3 :- BraceOpen(ps);
    var r := FieldsThenClose(ps3, fields, hi);
    if r.Done? then
      assert ps.boxes[..|ps.boxes| - 1][..|ps.boxes| - 2] == ps.boxes[..|ps.boxes| - 2];
      GrowsTrans(ps.out, ps3.out[..|ps3.out| - 1], r.value.out);
      r
    else r
  }

  /** ` {`, the end of the head box, and the break to the first field's
      line. */
  function BraceOpen(ps: Ps): (r: Outcome<Ps>)
    ensures r.Done? <==> |ps.boxes| > 0
    ensures r.Done? ==> r.value == ps.(out := r.value.out, boxes := ps.boxes[..|ps.boxes| - 1])
    ensures r.Done? ==> |r.value.out| > |ps.out| && Grows(ps.out, r.value.out[..|r.value.out| - 1])
  {
    var ps2 :- EndBox(Word(Nbsp(ps), "{"));
    var ps3 := HardbreakIfNotBol(ps2);
    assert ps3.out == ps2.out + [HardbreakTok];
    assert ps3.out[..|ps3.out| - 1] == ps2.out;
    Done(ps3)
  }

  /** The fields one per line and `bclose`, from the line after ` {`. */
  function FieldsThenClose(ps: Ps, fields: seq<StructField>, hi: nat): (r: Outcome<Ps>)
    ensures (exists i :: 0 <= i < |fields| && fields[i].kind.UnnamedField?) ==> r.Panic?
    ensures ps.comments.None? && |ps.boxes| >= 1 ==> (r.Panic? <==> exists i :: 0 <= i < |fields| && fields[i].kind.UnnamedField?)
    ensures r.Done? ==> |ps.boxes| >= 1 && r.value.boxes == ps.boxes[..|ps.boxes| - 1]
    ensures r.Done? ==> r.value == ps.(out := r.value.out, curCmnt := r.value.curCmnt, boxes := r.value.boxes)
    ensures r.Done? ==> |r.value.out| > |ps.out| && (|ps.out| > 0 ==> Grows(ps.out[..|ps.out| - 1], r.value.out))
  {
    var ps4 :- NamedFields(ps, fields);
    var r := Bclose(ps4, hi);
    if r.Done? && |ps.out| > 0 then
      GrowsBeforeLast(ps.out, ps4.out, r.value.out);
      r
    else r
  }

  /** The parenthesised fields of a tuple-like struct; nothing when it has
      no fields. */
  function TupleFieldList(ps: Ps, fields: seq<StructField>): (r: Outcome<Ps>)
    ensures (exists i :: 0 <= i < |fields| && fields[i].kind.NamedField?) ==> r.Panic?
    ensures ps.comments.None? ==> (r.Panic? <==> exists i :: 0 <= i < |fields| && fields[i].kind.NamedField?)
    ensures r.Done? ==> r.value == ps.(out := r.value.out, curCmnt := r.value.curCmnt)
    ensures r.Done? ==> Grows(ps.out, r.value.out)
  {
    if |fields| == 0 then Done(ps)
    else
      var ps1 := Rbox(Popen(ps), 0, Inconsistent);
      var ps2 :- TupleFields(ps1, fields, true);
      assert ps2.boxes[..|ps.boxes|] == ps.boxes;
      var ps3 := EndBox(ps2).value;
      GrowsTrans(ps.out, ps1.out, ps2.out);
      Done(Pclose(ps3))
  }

  datatype VariantKind = TupleVariant(args: seq<Log>) | StructVariant(def: StructDef)

  /** An enum variant: its visibility, name and kind (argument types as
      the tokens their printer writes, or a struct definition), its
      optional discriminant expression, and the position its span ends
      at. */
  datatype Variant = Variant(name: string, vis: Visibility, kind: VariantKind, disr: Option<Log>, hi: nat)

  /** The variants `print_struct` refuses. */
  predicate BadVariant(v: Variant)
  {
    v.kind.StructVariant? && FieldMismatch(v.kind.def)
  }

  /** `print_variant`: the visibility, then the name and argument types of
      a tuple-like variant or a head and `print_struct` for a struct
      variant, then ` = ` and the discriminant when there is one. */
  function PrintVariant(ps: Ps, v: Variant): (r: Outcome<Ps>)
    ensures BadVariant(v) ==> r.Panic?
    ensures ps.comments.None? || v.kind.TupleVariant? ==> (r.Panic? <==> BadVariant(v))
    ensures r.Done? ==> r.value == ps.(out := r.value.out, curCmnt := r.value.curCmnt)
    ensures r.Done? ==> |r.value.out| > |ps.out| && Grows(ps.out, r.value.out)
  {
    var ps1 := PrintVisibility(ps, v.vis);
    var ps2 :- PrintVariantKind(ps1, v);
    var ps3 := PrintDisr(ps2, v.disr);
    GrowsTrans(ps.out, ps1.out, ps2.out);
    GrowsTrans(ps.out, ps2.out, ps3.out);
    Done(ps3)
  }

  /** ` = ` and the discriminant, when the variant has one. */
  function PrintDisr(ps: Ps, disr: Option<Log>): (r: Ps)
    ensures r == ps.(out := r.out) && Grows(ps.out, r.out)
  {
    match disr
    case Some(d) =>
      var p := WordSpace(Space(ps), "=");
      assert (p.out + d)[..|ps.out|] == p.out[..|ps.out|];
      p.(out := p.out + d)
    case None => ps
  }

  /** The name and argument types of a tuple-like variant, or a head and
      `print_struct` for a struct variant. */
  function PrintVariantKind(ps: Ps, v: Variant): (r: Outcome<Ps>)
    ensures BadVariant(v) ==> r.Panic?
    ensures ps.comments.None? || v.kind.TupleVariant? ==> (r.Panic? <==> BadVariant(v))
    ensures r.Done? ==> r.value == ps.(out := r.value.out, curCmnt := r.value.curCmnt)
    ensures r.Done? ==> |r.value.out| > |ps.out| && Grows(ps.out, r.value.out)
  {
    match v.kind
    case TupleVariant(args) => Done(PrintVariantArgs(Word(ps, v.name), args))
    case StructVariant(def) =>
      var h := Head(ps, "");
      var r := PrintStruct(h, def, EmptyGenerics, v.name, v.hi);
      if r.Done? then
        GrowsTrans(ps.out, h.out, r.value.out);
        r
      else r
  }

  /** The argument types of a tuple-like variant in parentheses, when it
      has any. */
  function PrintVariantArgs(ps: Ps, args: seq<Log>): (r: Ps)
    ensures r == ps.(out := r.out)
  {
    if |args| > 0 then
      var p := Popen(ps);
      Pclose(p.(out := p.out + CommasepTokens(Consistent, args, IdOp)))
    else ps
  }

  /** `variant_to_str`: a fresh printer, `print_variant`, end-of-file. It
      fails exactly when `print_struct` refuses a field. */
  function VariantToStr(v: Variant): (r: Outcome<string>)
    ensures r.Panic? <==> BadVariant(v)
  {
    var ps :- PrintVariant(RustPrinter, v);
    Done(Render(Eof(ps).out))
  }

  /** A variant without arguments or discriminant prints as its name
      qualified by its visibility. */
  lemma VariantToStrUnit(name: string, vis: Visibility, hi: nat)
    ensures VariantToStr(Variant(name, vis, TupleVariant([]), None, hi)) == Done(VisibilityQualified(vis, name))
  {
    var v := Variant(name, vis, TupleVariant([]), None, hi);
    var pv := PrintVisibility(RustPrinter, vis);
    var ps := Word(pv, name);
    assert PrintVariantKind(pv, v) == Done(ps) by {
      assert PrintVariantArgs(ps, []) == ps;
    }
    assert PrintVariant(RustPrinter, v) == Done(ps) by {
      assert PrintDisr(ps, None) == ps;
    }
    assert VariantToStr(v) == Done(Render(Eof(ps).out));
    assert Render(Eof(ps).out) == VisibilityQualified(vis, name) by {
      PrintVisibilityAgreesWithQualified(RustPrinter, vis, name);
      RenderSnoc(ps.out, Token.Eof);
      assert Render(RustPrinter.out) == "";
      ConcatEmpty(VisibilityQualified(vis, name));
    }
  }

  /** The unit test of `variant_to_str`. */
  lemma VariantToStrExample()
    ensures VariantToStr(Variant("principal_skinner", Public, TupleVariant([]), None, 0)) == Done("pub principal_skinner")
  {
    VariantToStrUnit("principal_skinner", Public, 0);
    PubPrincipalSkinner();
  }

  lemma PubPrincipalSkinner()
    ensures "pub " + "principal_skinner" == "pub principal_skinner"
  {
  }
}

/** The text the `pprust` printers produce, stated against independent
    definitions: each printer's tokens, rendered as in module `Pp`, equal
    the string a reader of the printed Rust expects — a comma-and-space
    join of the items between the right brackets, the header keywords each
    followed by a space, and the comment lines each followed by a newline. */
module PprustText {
  import opened Common
  import opened Pp
  import opened Pprust

  // ---------------------------------------------------------------------------
  // Comma separation of arbitrary items

  /** The rendered text of each element as `op` prints it. */
  function RenderEach<T>(elts: seq<T>, op: T -> Log): (r: seq<string>)
    ensures |r| == |elts|
    ensures forall i :: 0 <= i < |elts| ==> r[i] == Render(op(elts[i]))
  {
    if |elts| == 0 then [] else RenderEach(elts[..|elts| - 1], op) + [Render(op(elts[|elts| - 1]))]
  }

  /** Comma separation renders as the elements' texts joined by `", "`. */
  lemma {:induction false} CommaJoinRenders<T>(elts: seq<T>, op: T -> Log)
    ensures Render(CommaJoin(elts, op)) == JoinWith(", ", RenderEach(elts, op))
    decreases |elts|
  {
    if |elts| > 1 {
      var init := elts[..|elts| - 1];
      CommaJoinRenders(init, op);
      var sep := [Str(","), SpaceTok];
      var last := op(elts[|elts| - 1]);
      assert CommaJoin(elts, op) == CommaJoin(init, op) + sep + last;
      RenderThree(CommaJoin(init, op), sep, last);
      RenderTwo(Str(","), SpaceTok);
      assert RenderToken(SpaceTok) == " ";
      var texts := RenderEach(elts, op);
      assert texts[..|elts| - 1] == RenderEach(init, op);
      assert JoinWith(", ", texts) == JoinWith(", ", RenderEach(init, op)) + ", " + Render(last);
    }
  }

  /** Comma separation of single words renders as the words joined by
      `", "`. */
  lemma CommaJoinRendersJoined(ws: seq<string>)
    ensures Render(CommaJoin(ws, WordOp)) == JoinWith(", ", ws)
  {
    CommaJoinRenders(ws, WordOp);
    var texts := RenderEach(ws, WordOp);
    forall i | 0 <= i < |ws|
      ensures texts[i] == ws[i]
    {
      RenderOne(Str(ws[i]));
    }
    assert texts == ws;
  }

  /** The box around a comma-separated list renders as nothing. */
  lemma CommasepTokensRender<T>(b: Breaks, elts: seq<T>, op: T -> Log)
    ensures Render(CommasepTokens(b, elts, op)) == JoinWith(", ", RenderEach(elts, op))
  {
    RenderThree([Begin(0, b)], CommaJoin(elts, op), [End]);
    RenderOne(Begin(0, b));
    RenderOne(End);
    CommaJoinRenders(elts, op);
  }

  /** A log between an opening and a closing word. */
  lemma RenderBracketed(open: string, mid: Log, close: string)
    ensures Render([Str(open)] + mid + [Str(close)]) == open + Render(mid) + close
  {
    RenderThree([Str(open)], mid, [Str(close)]);
    RenderOne(Str(open));
    RenderOne(Str(close));
  }

  lemma WordRenders(ps: Ps, w: string)
    ensures Render(Word(ps, w).out) == Render(ps.out) + w
  {
    RenderSnoc(ps.out, Str(w));
  }

  lemma WordNbspRenders(ps: Ps, w: string)
    ensures Render(WordNbsp(ps, w).out) == Render(ps.out) + (w + " ")
  {
    WordRenders(ps, w);
    WordRenders(Word(ps, w), " ");
    Extend(Render(ps.out), Render(Word(ps, w).out), Render(ps.out), "", w);
    Extend(Render(Word(ps, w).out), Render(WordNbsp(ps, w).out), Render(ps.out), w, " ");
  }

  /** Text appended to a log whose text is already `r0 + t` extends `t`:
      called with the renderings of the log before and after. */
  lemma Extend(ra: string, rb: string, r0: string, t: string, x: string)
    requires ra == r0 + t
    requires rb == ra + x
    ensures rb == r0 + (t + x)
  {
    assert r0 + t + x == r0 + (t + x);
  }

  // ---------------------------------------------------------------------------
  // print_generics

  /** The text of each generic parameter: lifetimes as `'name`, then each
      type parameter's name followed by its bounds. */
  function GenericItemTexts(g: Generics): (r: seq<string>)
    ensures |r| == |g.lifetimes| + |g.tyParams|
  {
    LifetimeTexts(g.lifetimes) + TyParamTexts(g.tyParams)
  }

  function LifetimeTexts(lts: seq<string>): (r: seq<string>)
    ensures |r| == |lts| && forall i :: 0 <= i < |lts| ==> r[i] == "'" + lts[i]
  {
    if |lts| == 0 then [] else LifetimeTexts(lts[..|lts| - 1]) + ["'" + lts[|lts| - 1]]
  }

  function TyParamTexts(tps: seq<TyParam>): (r: seq<string>)
    ensures |r| == |tps| && forall i :: 0 <= i < |tps| ==> r[i] == tps[i].ident + Render(tps[i].bounds)
  {
    if |tps| == 0 then [] else TyParamTexts(tps[..|tps| - 1]) + [tps[|tps| - 1].ident + Render(tps[|tps| - 1].bounds)]
  }

  /** The generics as written in Rust: nothing, or the parameters between
      angle brackets separated by a comma and a space. */
  function GenericsText(g: Generics): string
  {
    if |g.lifetimes| + |g.tyParams| == 0 then ""
    else "<" + JoinWith(", ", GenericItemTexts(g)) + ">"
  }

  lemma GenericItemRenders(g: Generics, k: int)
    requires 0 <= k < |g.lifetimes| + |g.tyParams|
    ensures Render(GenericItem(g, k)) == GenericItemTexts(g)[k]
  {
    if k < |g.lifetimes| {
      RenderTwo(Str("'"), Str(g.lifetimes[k]));
    } else {
      var p := g.tyParams[k - |g.lifetimes|];
      RenderAppend([Str(p.ident)], p.bounds);
      RenderOne(Str(p.ident));
    }
  }

  /** The items between the angle brackets render as their texts joined
      by `", "`. */
  lemma GenericItemsRender(g: Generics)
    ensures Render(CommasepTokens(Inconsistent, Indices(|g.lifetimes| + |g.tyParams|), GenericOp(g)))
            == JoinWith(", ", GenericItemTexts(g))
  {
    GenericTextsEach(g);
    CommasepTextsAre(Inconsistent, Indices(|g.lifetimes| + |g.tyParams|), GenericOp(g), GenericItemTexts(g));
  }

  /** Comma separation of elements whose texts are `texts`. */
  lemma CommasepTextsAre<T>(b: Breaks, elts: seq<T>, op: T -> Log, texts: seq<string>)
    requires RenderEach(elts, op) == texts
    ensures Render(CommasepTokens(b, elts, op)) == JoinWith(", ", texts)
  {
    CommasepTokensRender(b, elts, op);
  }

  lemma GenericTextsEach(g: Generics)
    ensures RenderEach(Indices(|g.lifetimes| + |g.tyParams|), GenericOp(g)) == GenericItemTexts(g)
  {
    var total := |g.lifetimes| + |g.tyParams|;
    var texts := RenderEach(Indices(total), GenericOp(g));
    forall k | 0 <= k < total
      ensures texts[k] == GenericItemTexts(g)[k]
    {
      GenericTextAt(g, k);
    }
  }

  lemma GenericTextAt(g: Generics, k: int)
    requires 0 <= k < |g.lifetimes| + |g.tyParams|
    ensures RenderEach(Indices(|g.lifetimes| + |g.tyParams|), GenericOp(g))[k] == GenericItemTexts(g)[k]
  {
    assert Indices(|g.lifetimes| + |g.tyParams|)[k] == k;
    assert GenericOp(g)(k) == GenericItem(g, k);
    GenericItemRenders(g, k);
  }

  /** `print_generics` writes the generics as they are written in Rust. */
  lemma PrintGenericsRenders(ps: Ps, g: Generics)
    ensures Render(PrintGenerics(ps, g).out) == Render(ps.out) + GenericsText(g)
  {
    var total := |g.lifetimes| + |g.tyParams|;
    if total > 0 {
      var mid := CommasepTokens(Inconsistent, Indices(total), GenericOp(g));
      var ps1 := Word(ps, "<");
      assert PrintGenerics(ps, g) == Word(ps1.(out := ps1.out + mid), ">");
      GenericItemsRender(g);
      WrapRenders(ps, "<", mid, ">");
    } else {
      assert PrintGenerics(ps, g) == ps;
      ConcatEmpty(Render(ps.out));
    }
  }

  /** Tokens between an opening and a closing word. */
  lemma WrapRenders(ps: Ps, open: string, mid: Log, close: string)
    ensures var ps1 := Word(ps, open);
            Render(Word(ps1.(out := ps1.out + mid), close).out) == Render(ps.out) + (open + Render(mid) + close)
  {
    var r0 := Render(ps.out);
    var ps1 := Word(ps, open);
    var ps2 := ps1.(out := ps1.out + mid);
    WordRenders(ps, open);
    RenderAppend(ps1.out, mid);
    Extend(Render(ps1.out), Render(ps2.out), r0, open, Render(mid));
    WordRenders(ps2, close);
    Extend(Render(ps2.out), Render(Word(ps2, close).out), r0, open + Render(mid), close);
  }

  /** One lifetime and one bounded type parameter. */
  lemma PrintGenericsExample()
    ensures Render(PrintGenerics(RustPrinter, Generics(["a"], [TyParam("T", [Str(": Copy")])])).out) == "<'a, T: Copy>"
  {
    var g := Generics(["a"], [TyParam("T", [Str(": Copy")])]);
    PrintGenericsRenders(RustPrinter, g);
    ExampleGenericItemTexts();
    ExampleGenericsJoin();
  }

  lemma ExampleGenericItemTexts()
    ensures GenericItemTexts(Generics(["a"], [TyParam("T", [Str(": Copy")])])) == ["'a", "T: Copy"]
  {
    var g := Generics(["a"], [TyParam("T", [Str(": Copy")])]);
    RenderOne(Str(": Copy"));
    var t := GenericItemTexts(g);
    assert t[0] == "'" + "a" == "'a";
    assert t[1] == "T" + ": Copy" == "T: Copy";
  }

  lemma ExampleGenericsJoin()
    ensures "<" + JoinWith(", ", ["'a", "T: Copy"]) + ">" == "<'a, T: Copy>"
  {
    assert JoinWith(", ", ["'a", "T: Copy"]) == JoinWith(", ", ["'a"]) + ", " + "T: Copy";
  }

  // ---------------------------------------------------------------------------
  // print_fn_header_info

  /** The purity keyword and a space; nothing for an ordinary function. */
  function OptPurityText(p: Option<Purity>): string
  {
    if p.Some? && p.value != ImpureFn then PurityToStr(p.value) + " " else ""
  }

  function SigilText(s: Option<Sigil>): string
  {
    match s
    case Some(BorrowedSigil) => "&"
    case Some(OwnedSigil) => "~"
    case Some(ManagedSigil) => "@"
    case None => ""
  }

  /** `extern`, the ABI set and the purity, each followed by a space; the
      purity is dropped when it would repeat `extern`. */
  function AbiAndPurityText(purity: Option<Purity>, abi: Option<string>): string
  {
    if abi.Some? then
      "extern " + abi.value + " " + (if purity == Some(ExternFn) then "" else OptPurityText(purity))
    else OptPurityText(purity)
  }

  /** The header of a function type or item as written in Rust: the
      visibility, the ABI and purity, `once`, `fn` and the sigil. */
  function FnHeaderText(purity: Option<Purity>, abi: Option<string>,
                        onceness: Onceness, sigil: Option<Sigil>, vis: Visibility): string
  {
    VisibilityQualified(vis, "") + AbiAndPurityText(purity, abi)
    + (if onceness == Once then "once " else "") + "fn" + SigilText(sigil)
  }

  lemma PrintOptPurityRenders(ps: Ps, p: Option<Purity>)
    ensures Render(PrintOptPurity(ps, p).out) == Render(ps.out) + OptPurityText(p)
  {
    if p.Some? && p.value != ImpureFn {
      WordNbspRenders(ps, PurityToStr(p.value));
    }
  }

  lemma PrintOptSigilRenders(ps: Ps, s: Option<Sigil>)
    ensures Render(PrintOptSigil(ps, s).out) == Render(ps.out) + SigilText(s)
  {
    if s.Some? {
      WordRenders(ps, SigilText(s));
    }
  }

  lemma PrintAbiAndPurityRenders(ps: Ps, purity: Option<Purity>, abi: Option<string>)
    ensures Render(PrintAbiAndPurity(ps, purity, abi).out) == Render(ps.out) + AbiAndPurityText(purity, abi)
  {
    if abi.Some? {
      var r0 := Render(ps.out);
      var p1 := WordNbsp(ps, "extern");
      var p2 := WordNbsp(p1, abi.value);
      WordNbspRenders(ps, "extern");
      assert "extern" + " " == "extern ";
      WordNbspRenders(p1, abi.value);
      Extend(Render(p1.out), Render(p2.out), r0, "extern ", abi.value + " ");
      assert "extern " + (abi.value + " ") == "extern " + abi.value + " ";
      var pt := if purity == Some(ExternFn) then "" else OptPurityText(purity);
      var p3 := if purity != Some(ExternFn) then PrintOptPurity(p2, purity) else p2;
      PrintOptPurityRenders(p2, purity);
      Extend(Render(p2.out), Render(p3.out), r0, "extern " + abi.value + " ", pt);
    } else {
      PrintOptPurityRenders(ps, purity);
    }
  }

  /** `print_fn_header_info` writes the header as it is written in Rust. */
  lemma PrintFnHeaderInfoRenders(ps: Ps, purity: Option<Purity>, abi: Option<string>,
                                 onceness: Onceness, sigil: Option<Sigil>, vis: Visibility)
    ensures Render(PrintFnHeaderInfo(ps, purity, abi, onceness, sigil, vis).out)
            == Render(ps.out) + FnHeaderText(purity, abi, onceness, sigil, vis)
  {
    var pre := VisibilityQualified(vis, "") + AbiAndPurityText(purity, abi) + (if onceness == Once then "once " else "");
    var ps3 := FnHeaderPrefix(ps, purity, abi, onceness, vis);
    var ps4 := Word(ps3, "fn");
    var sg := SigilText(sigil);
    FnHeaderPrefixRenders(ps, purity, abi, onceness, vis);
    assert Render(ps4.out) == Render(ps3.out) + "fn" by {
      WordRenders(ps3, "fn");
    }
    assert Render(PrintOptSigil(ps4, sigil).out) == Render(ps4.out) + sg by {
      PrintOptSigilRenders(ps4, sigil);
    }
    assert PrintFnHeaderInfo(ps, purity, abi, onceness, sigil, vis) == PrintOptSigil(ps4, sigil);
    assert FnHeaderText(purity, abi, onceness, sigil, vis) == pre + "fn" + sg;
    Concat3Left(Render(ps.out), pre, "fn", sg);
  }

  /** The printer after the visibility, ABI, purity and `once` words of
      `print_fn_header_info`. */
  function FnHeaderPrefix(ps: Ps, purity: Option<Purity>, abi: Option<string>, onceness: Onceness, vis: Visibility): Ps
  {
    var ps2 := PrintAbiAndPurity(Word(ps, VisibilityQualified(vis, "")), purity, abi);
    if onceness == Once then WordNbsp(ps2, "once") else ps2
  }

  /** The words before `fn` in a function header. */
  lemma FnHeaderPrefixRenders(ps: Ps, purity: Option<Purity>, abi: Option<string>, onceness: Onceness, vis: Visibility)
    ensures Render(FnHeaderPrefix(ps, purity, abi, onceness, vis).out)
            == Render(ps.out) + (VisibilityQualified(vis, "") + AbiAndPurityText(purity, abi) + (if onceness == Once then "once " else ""))
  {
    var r0 := Render(ps.out);
    var v := VisibilityQualified(vis, "");
    var ap := AbiAndPurityText(purity, abi);
    var once := if onceness == Once then "once " else "";
    var ps1 := Word(ps, v);
    var ps2 := PrintAbiAndPurity(ps1, purity, abi);
    var ps3 := FnHeaderPrefix(ps, purity, abi, onceness, vis);
    assert Render(ps1.out) == r0 + v by {
      WordRenders(ps, v);
    }
    assert Render(ps2.out) == Render(ps1.out) + ap by {
      PrintAbiAndPurityRenders(ps1, purity, abi);
    }
    assert Render(ps3.out) == Render(ps2.out) + once by {
      OnceRenders(ps2, onceness);
    }
    Concat3Left(r0, v, ap, once);
  }

  /** The `once` word of a function header, when the function is one. */
  lemma OnceRenders(ps: Ps, onceness: Onceness)
    ensures Render((if onceness == Once then WordNbsp(ps, "once") else ps).out)
            == Render(ps.out) + (if onceness == Once then "once " else "")
  {
    if onceness == Once {
      WordNbspRenders(ps, "once");
      assert "once" + " " == "once ";
    } else {
      ConcatEmpty(Render(ps.out));
    }
  }

  // ---------------------------------------------------------------------------
  // print_fn_args_and_ret

  /** `mut` and a space for a mutable self, nothing otherwise. */
  function MutabilityText(m: Mutability): string
  {
    if m == Mutable then "mut " else ""
  }

  /** An explicit self as it is written in Rust: `self`, `~self`,
      `&'a self` or `@self`, each with `mut ` before the word `self`. */
  function ExplicitSelfText(es: ExplicitSelf): string
  {
    match es
    case StaticSelf => ""
    case ValueSelf(m) => MutabilityText(m) + "self"
    case UniqSelf(m) => MutabilityText(m) + "~self"
    case RegionSelf(lt, m) => "&" + (if lt.Some? then "'" + lt.value + " " else "") + MutabilityText(m) + "self"
    case BoxSelf(m) => "@" + MutabilityText(m) + "self"
  }

  /** The self argument's text as the first item of the argument list; a
      static method has none. */
  function SelfTexts(optSelf: Option<ExplicitSelf>): (r: seq<string>)
  {
    if optSelf.Some? && !optSelf.value.StaticSelf? then [ExplicitSelfText(optSelf.value)] else []
  }

  /** The explicit self and then the arguments between parentheses,
      separated by a comma and a space, with `, ...` for a variadic
      function. */
  function ArgListText(decl: FnDecl, optSelf: Option<ExplicitSelf>): string
  {
    "(" + JoinWith(", ", SelfTexts(optSelf) + RenderEach(decl.inputs, IdOp))
    + (if decl.variadic then ", ..." else "") + ")"
  }

  /** The return type after ` -> `; nothing for the nil type. */
  function RetText(output: Option<Log>): string
  {
    if output.Some? then " -> " + Render(output.value) else ""
  }

  lemma PrintMutabilityRenders(ps: Ps, m: Mutability)
    ensures Render(PrintMutability(ps, m).out) == Render(ps.out) + MutabilityText(m)
  {
    if m == Mutable {
      WordNbspRenders(ps, "mut");
    }
  }

  /** `print_explicit_self` writes the self argument as it is written in
      Rust. */
  lemma PrintExplicitSelfRenders(ps: Ps, es: ExplicitSelf)
    ensures Render(PrintExplicitSelf(ps, es).0.out) == Render(ps.out) + ExplicitSelfText(es)
  {
    var r0 := Render(ps.out);
    match es
    case StaticSelf =>
    case ValueSelf(m) =>
      PrintMutabilityRenders(ps, m);
      WordRenders(PrintMutability(ps, m), "self");
      Extend(Render(PrintMutability(ps, m).out), Render(Word(PrintMutability(ps, m), "self").out), r0, MutabilityText(m), "self");
    case UniqSelf(m) =>
      PrintMutabilityRenders(ps, m);
      WordRenders(PrintMutability(ps, m), "~self");
      Extend(Render(PrintMutability(ps, m).out), Render(Word(PrintMutability(ps, m), "~self").out), r0, MutabilityText(m), "~self");
    case RegionSelf(lt, m) =>
      var p1 := Word(ps, "&");
      WordRenders(ps, "&");
      var lts := if lt.Some? then "'" + lt.value + " " else "";
      var p2 := PrintOptLifetime(p1, lt);
      PrintOptLifetimeRenders(p1, lt);
      Extend(Render(p1.out), Render(p2.out), r0, "&", lts);
      var p3 := PrintMutability(p2, m);
      PrintMutabilityRenders(p2, m);
      Extend(Render(p2.out), Render(p3.out), r0, "&" + lts, MutabilityText(m));
      WordRenders(p3, "self");
      Extend(Render(p3.out), Render(Word(p3, "self").out), r0, "&" + lts + MutabilityText(m), "self");
    case BoxSelf(m) =>
      var p1 := Word(ps, "@");
      WordRenders(ps, "@");
      var p3 := PrintMutability(p1, m);
      PrintMutabilityRenders(p1, m);
      Extend(Render(p1.out), Render(p3.out), r0, "@", MutabilityText(m));
      WordRenders(p3, "self");
      Extend(Render(p3.out), Render(Word(p3, "self").out), r0, "@" + MutabilityText(m), "self");
  }

  lemma PrintOptLifetimeRenders(ps: Ps, lt: Option<string>)
    ensures Render(PrintOptLifetime(ps, lt).out) == Render(ps.out) + (if lt.Some? then "'" + lt.value + " " else "")
  {
    if lt.Some? {
      var p1 := Word(ps, "'");
      WordRenders(ps, "'");
      WordRenders(p1, lt.value);
      Extend(Render(p1.out), Render(Word(p1, lt.value).out), Render(ps.out), "'", lt.value);
      WordRenders(Word(p1, lt.value), " ");
      Extend(Render(Word(p1, lt.value).out), Render(Nbsp(Word(p1, lt.value)).out), Render(ps.out), "'" + lt.value, " ");
    }
  }

  /** The separator-led elements render as a comma and a space before the
      comma-separated elements. */
  lemma SepEachRenders<T>(elts: seq<T>, op: T -> Log)
    ensures Render(SepEach(elts, op)) == if |elts| == 0 then "" else ", " + JoinWith(", ", RenderEach(elts, op))
  {
    if |elts| > 0 {
      var sep := [Str(","), SpaceTok];
      var cj := CommaJoin(elts, op);
      SepEachLeads(elts, op);
      RenderAppend(sep, cj);
      assert Render(sep) == ", " by {
        RenderTwo(Str(","), SpaceTok);
        assert RenderToken(SpaceTok) == " ";
      }
      CommaJoinRenders(elts, op);
    }
  }

  /** Joining a list that starts with `s`. */
  lemma {:induction false} JoinWithCons(sep: string, s: string, ts: seq<string>)
    ensures JoinWith(sep, [s] + ts) == s + (if |ts| == 0 then "" else sep + JoinWith(sep, ts))
    decreases |ts|
  {
    if |ts| == 1 {
      assert [s] + ts == [s, ts[0]];
      assert [s, ts[0]][..1] == [s];
    } else if |ts| > 1 {
      var init := ts[..|ts| - 1];
      JoinWithCons(sep, s, init);
      assert ([s] + ts)[..|ts|] == [s] + init;
      assert JoinWith(sep, ts) == JoinWith(sep, init) + sep + ts[|ts| - 1];
    }
  }

  /** The loop over the arguments renders as their texts separated by a
      comma and a space, led by one more separator unless they come
      first. */
  lemma PrintArgsRenders(ps: Ps, args: seq<Log>, first: bool)
    ensures Render(PrintArgs(ps, args, first).out)
            == Render(ps.out) + ((if first || |args| == 0 then "" else ", ") + JoinWith(", ", RenderEach(args, IdOp)))
  {
    PrintArgsTokens(ps, args, first);
    if first {
      RenderAppend(ps.out, CommaJoin(args, IdOp));
      CommaJoinRenders(args, IdOp);
    } else {
      RenderAppend(ps.out, SepEach(args, IdOp));
      SepEachRenders(args, IdOp);
    }
  }

  /** `print_fn_args` writes the explicit self, when it prints, and then the
      arguments, all separated by a comma and a space. */
  lemma PrintFnArgsRenders(ps: Ps, decl: FnDecl, optSelf: Option<ExplicitSelf>)
    ensures Render(PrintFnArgs(ps, decl, optSelf).out)
            == Render(ps.out) + JoinWith(", ", SelfTexts(optSelf) + RenderEach(decl.inputs, IdOp))
  {
    if optSelf.Some? && !optSelf.value.StaticSelf? {
      SelfArgsRender(ps, decl, optSelf.value);
      assert SelfTexts(optSelf) == [ExplicitSelfText(optSelf.value)];
    } else {
      NoSelfArgsRender(ps, decl, optSelf);
      assert SelfTexts(optSelf) + RenderEach(decl.inputs, IdOp) == RenderEach(decl.inputs, IdOp);
    }
  }

  lemma SelfArgsRender(ps: Ps, decl: FnDecl, es: ExplicitSelf)
    requires !es.StaticSelf?
    ensures Render(PrintFnArgs(ps, decl, Some(es)).out)
            == Render(ps.out) + JoinWith(", ", [ExplicitSelfText(es)] + RenderEach(decl.inputs, IdOp))
  {
    var ps1 := Rbox(ps, 0, Inconsistent);
    var w := PrintExplicitSelf(ps1, es);
    var t, texts := ExplicitSelfText(es), RenderEach(decl.inputs, IdOp);
    assert Render(PrintFnArgs(ps, decl, Some(es)).out) == Render(PrintArgs(w.0, decl.inputs, false).out + [End]) by {
      PrintFnArgsUnfold(ps, decl, Some(es));
    }
    assert Render(w.0.out) == Render(ps.out) + t by {
      RenderSnoc(ps.out, Begin(0, Inconsistent));
      PrintExplicitSelfRenders(ps1, es);
    }
    var tail := (if |texts| == 0 then "" else ", ") + JoinWith(", ", texts);
    assert Render(PrintArgs(w.0, decl.inputs, false).out + [End]) == Render(w.0.out) + tail by {
      ArgsAfterSelfRender(w.0, decl.inputs, false);
    }
    assert Render(ps.out) + t + tail == Render(ps.out) + JoinWith(", ", [t] + texts) by {
      SelfFirst(Render(ps.out), t, texts);
    }
  }

  lemma NoSelfArgsRender(ps: Ps, decl: FnDecl, optSelf: Option<ExplicitSelf>)
    requires optSelf.None? || optSelf.value.StaticSelf?
    ensures Render(PrintFnArgs(ps, decl, optSelf).out)
            == Render(ps.out) + JoinWith(", ", RenderEach(decl.inputs, IdOp))
  {
    var ps1 := Rbox(ps, 0, Inconsistent);
    var j := JoinWith(", ", RenderEach(decl.inputs, IdOp));
    assert Render(PrintFnArgs(ps, decl, optSelf).out) == Render(PrintArgs(ps1, decl.inputs, true).out + [End]) by {
      PrintFnArgsUnfold(ps, decl, optSelf);
    }
    assert Render(ps1.out) == Render(ps.out) by {
      RenderSnoc(ps.out, Begin(0, Inconsistent));
    }
    ArgsAfterSelfRender(ps1, decl.inputs, true);
    ConcatEmpty(j);
  }

  /** The loop over the arguments and the end of the box. */
  lemma ArgsAfterSelfRender(ps: Ps, args: seq<Log>, first: bool)
    ensures Render(PrintArgs(ps, args, first).out + [End])
            == Render(ps.out) + ((if first || |args| == 0 then "" else ", ") + JoinWith(", ", RenderEach(args, IdOp)))
  {
    RenderSnoc(PrintArgs(ps, args, first).out, End);
    PrintArgsRenders(ps, args, first);
  }

  /** The self's text, then the arguments' texts each after a separator,
      is the join of the whole list. */
  lemma SelfFirst(r0: string, t: string, texts: seq<string>)
    ensures r0 + t + ((if |texts| == 0 then "" else ", ") + JoinWith(", ", texts)) == r0 + JoinWith(", ", [t] + texts)
  {
    JoinWithCons(", ", t, texts);
    if |texts| == 0 {
      assert JoinWith(", ", texts) == "";
    }
  }

  lemma PrintArgListRenders(ps: Ps, decl: FnDecl, optSelf: Option<ExplicitSelf>)
    ensures Render(PrintArgList(ps, decl, optSelf).out) == Render(ps.out) + ArgListText(decl, optSelf)
  {
    var r0 := Render(ps.out);
    var j := JoinWith(", ", SelfTexts(optSelf) + RenderEach(decl.inputs, IdOp));
    var va := if decl.variadic then ", ..." else "";
    var ps1 := Popen(ps);
    var ps2 := PrintFnArgs(ps1, decl, optSelf);
    var ps2' := if decl.variadic then Word(ps2, ", ...") else ps2;
    WordRenders(ps, "(");
    PrintFnArgsRenders(ps1, decl, optSelf);
    Extend(Render(ps1.out), Render(ps2.out), r0, "(", j);
    WordRenders(ps2, ", ...");
    Extend(Render(ps2.out), Render(ps2'.out), r0, "(" + j, va);
    WordRenders(ps2', ")");
    Extend(Render(ps2'.out), Render(Pclose(ps2').out), r0, "(" + j + va, ")");
  }

  /** After a closing parenthesis the return type starts with a space. */
  lemma PrintRetRenders(ps: Ps, output: Option<Log>)
    requires LastToken(ps.out) == Str(")")
    ensures Render(PrintRet(ps, output).out) == Render(ps.out) + RetText(output)
  {
    if output.Some? {
      var toks := output.value;
      var arrow := [SpaceTok, Str("->"), SpaceTok];
      var ps5 := WordSpace(Space(ps), "->");
      assert ps5.out == ps.out + arrow;
      RenderAppend(ps.out, arrow);
      RenderShort(SpaceTok, Str("->"), SpaceTok);
      assert RenderToken(SpaceTok) == " ";
      assert Render(arrow) == " -> ";
      RenderAppend(ps5.out, toks);
      Extend(Render(ps5.out), Render(ps5.out + toks), Render(ps.out), " -> ", Render(toks));
    }
  }

  /** On a printer without comments, `print_fn_args_and_ret` writes the
      arguments and return type as they are written in Rust. */
  lemma PrintFnArgsAndRetRenders(ps: Ps, decl: FnDecl, optSelf: Option<ExplicitSelf>)
    requires ps.comments.None?
    ensures Render(PrintFnArgsAndRet(ps, decl, optSelf).value.out)
            == Render(ps.out) + (ArgListText(decl, optSelf) + RetText(decl.output))
  {
    var ps3 := PrintArgList(ps, decl, optSelf);
    PrintArgListRenders(ps, decl, optSelf);
    assert MaybePrintComment(ps3, decl.outputLo) == Done(ps3);
    assert LastToken(ps3.out) == Str(")");
    PrintRetRenders(ps3, decl.output);
    Extend(Render(ps3.out), Render(PrintRet(ps3, decl.output).out), Render(ps.out), ArgListText(decl, optSelf), RetText(decl.output));
  }

  /** Two arguments, a variadic tail and a return type. */
  lemma PrintFnArgsAndRetExample()
    ensures Render(PrintFnArgsAndRet(RustPrinter, FnDecl([[Str("x: int")], [Str("y: uint")]], Some([Str("bool")]), 0, true), None).value.out)
            == "(x: int, y: uint, ...) -> bool"
  {
    var decl := FnDecl([[Str("x: int")], [Str("y: uint")]], Some([Str("bool")]), 0, true);
    PrintFnArgsAndRetRenders(RustPrinter, decl, None);
    ExampleArgTexts();
    assert SelfTexts(None) + ["x: int", "y: uint"] == ["x: int", "y: uint"];
    RenderOne(Str("bool"));
    ExampleArgsJoin();
  }

  /** A method taking `&'a mut self` and one argument. */
  lemma PrintFnArgsAndRetSelfExample()
    ensures Render(PrintFnArgsAndRet(RustPrinter, FnDecl([[Str("x: int")]], None, 0, false),
                                     Some(RegionSelf(Some("a"), Mutable))).value.out)
            == "(&'a mut self, x: int)"
  {
    var decl := FnDecl([[Str("x: int")]], None, 0, false);
    PrintFnArgsAndRetRenders(RustPrinter, decl, Some(RegionSelf(Some("a"), Mutable)));
    ExampleSelfArgList();
  }

  lemma ExampleSelfArgList()
    ensures ArgListText(FnDecl([[Str("x: int")]], None, 0, false), Some(RegionSelf(Some("a"), Mutable)))
            + RetText(None) == "(&'a mut self, x: int)"
  {
    ExampleSelfArgTexts();
    ExampleSelfText();
    var texts := SelfTexts(Some(RegionSelf(Some("a"), Mutable))) + RenderEach([[Str("x: int")]], IdOp);
    assert texts == ["&'a mut self", "x: int"];
    ExampleSelfJoin();
  }

  lemma ExampleSelfText()
    ensures ExplicitSelfText(RegionSelf(Some("a"), Mutable)) == "&'a mut self"
  {
    assert MutabilityText(Mutable) == "mut ";
    assert ExplicitSelfText(RegionSelf(Some("a"), Mutable)) == "&" + ("'" + "a" + " ") + "mut " + "self";
  }

  lemma ExampleSelfJoin()
    ensures "(" + JoinWith(", ", ["&'a mut self", "x: int"]) + "" + ")" + "" == "(&'a mut self, x: int)"
  {
    assert JoinWith(", ", ["&'a mut self", "x: int"]) == JoinWith(", ", ["&'a mut self"]) + ", " + "x: int";
  }

  lemma ExampleSelfArgTexts()
    ensures RenderEach([[Str("x: int")]], IdOp) == ["x: int"]
  {
    RenderOne(Str("x: int"));
  }

  lemma ExampleArgTexts()
    ensures RenderEach([[Str("x: int")], [Str("y: uint")]], IdOp) == ["x: int", "y: uint"]
  {
    RenderOne(Str("x: int"));
    RenderOne(Str("y: uint"));
  }

  lemma ExampleArgsJoin()
    ensures "(" + JoinWith(", ", ["x: int", "y: uint"]) + ", ..." + ")" + (" -> " + "bool") == "(x: int, y: uint, ...) -> bool"
  {
    assert JoinWith(", ", ["x: int", "y: uint"]) == JoinWith(", ", ["x: int"]) + ", " + "y: uint";
  }

  // ---------------------------------------------------------------------------
  // print_comment

  /** Comment lines as they appear in the output: each on a line of its
      own. */
  function LinesText(lines: seq<string>): string
  {
    if |lines| == 0 then "" else JoinWith("\n", lines) + "\n"
  }

  lemma {:induction false} CommentLinesRender(lines: seq<string>)
    ensures Render(CommentLines(lines)) == LinesText(lines)
    decreases |lines|
  {
    if |lines| > 0 {
      var init := lines[..|lines| - 1];
      var last := lines[|lines| - 1];
      var word: Log := if |last| > 0 then [Str(last)] else [];
      CommentLinesRender(init);
      RenderThree(CommentLines(init), word, [HardbreakTok]);
      RenderOne(HardbreakTok);
      RenderOne(Str(last));
      assert Render(word) == last;
      if |init| > 0 {
        assert LinesText(lines) == LinesText(init) + (last + "\n");
      }
    }
  }

  /** The text a comment adds to a printer whose log is `before`: a mixed
      comment its one line; an isolated comment its lines, starting a new
      line first unless at the beginning of one; a trailing comment a space
      and its lines; a blank line one newline, or two after a `;` or a box
      boundary. */
  function CommentText(c: Comment, before: Log): string
    requires c.style == Mixed ==> |c.lines| == 1
  {
    match c.style
    case Mixed => c.lines[0]
    case Isolated =>
      (if LastToken(before).Eof? || IsHardbreakTok(LastToken(before)) then "" else "\n") + LinesText(c.lines)
    case Trailing => " " + LinesText(c.lines)
    case BlankLine =>
      var last := LastToken(before);
      (if last == Str(";") || last.Begin? || last.End? then "\n" else "") + "\n"
  }

  lemma MixedCommentRenders(ps: Ps, line: string)
    ensures Render(Zerobreak(Word(Zerobreak(ps), line)).out) == Render(ps.out) + line
  {
    var p1 := Zerobreak(ps);
    var p2 := Word(p1, line);
    RenderSnoc(ps.out, ZerobreakTok);
    assert RenderToken(ZerobreakTok) == "";
    WordRenders(p1, line);
    RenderSnoc(p2.out, ZerobreakTok);
  }

  lemma IsolatedCommentRenders(ps: Ps, lines: seq<string>)
    ensures var ps1 := HardbreakIfNotBol(ps);
            Render(ps1.out + CommentLines(lines))
            == Render(ps.out) + ((if IsBol(ps) then "" else "\n") + LinesText(lines))
  {
    var ps1 := HardbreakIfNotBol(ps);
    RenderSnoc(ps.out, HardbreakTok);
    RenderAppend(ps1.out, CommentLines(lines));
    CommentLinesRender(lines);
    Extend(Render(ps1.out), Render(ps1.out + CommentLines(lines)), Render(ps.out), if IsBol(ps) then "" else "\n", LinesText(lines));
  }

  lemma TrailingCommentRenders(ps: Ps, lines: seq<string>)
    ensures PrintComment(ps, Comment(Trailing, lines, 0)).Done?
    ensures Render(PrintComment(ps, Comment(Trailing, lines, 0)).value.out) == Render(ps.out) + (" " + LinesText(lines))
  {
    var r0 := Render(ps.out);
    var ps1 := Word(ps, " ");
    WordRenders(ps, " ");
    if |lines| == 1 {
      var p2 := Word(ps1, lines[0]);
      WordRenders(ps1, lines[0]);
      Extend(Render(ps1.out), Render(p2.out), r0, " ", lines[0]);
      RenderSnoc(p2.out, HardbreakTok);
      Extend(Render(p2.out), Render(Hardbreak(p2).out), r0, " " + lines[0], "\n");
      assert LinesText(lines) == lines[0] + "\n";
    } else {
      var ps2 := Ibox(ps1, 0);
      RenderSnoc(ps1.out, Begin(0, Inconsistent));
      var ps3 := ps2.(out := ps2.out + CommentLines(lines));
      RenderAppend(ps2.out, CommentLines(lines));
      CommentLinesRender(lines);
      Extend(Render(ps2.out), Render(ps3.out), r0, " ", LinesText(lines));
      RenderSnoc(ps3.out, End);
    }
  }

  lemma BlankLineRenders(ps: Ps)
    ensures var last := LastToken(ps.out);
            var ps1 := if last == Str(";") || last.Begin? || last.End? then Hardbreak(ps) else ps;
            Render(Hardbreak(ps1).out) == Render(ps.out) + ((if last == Str(";") || last.Begin? || last.End? then "\n" else "") + "\n")
  {
    var last := LastToken(ps.out);
    var ps1 := if last == Str(";") || last.Begin? || last.End? then Hardbreak(ps) else ps;
    RenderSnoc(ps.out, HardbreakTok);
    RenderSnoc(ps1.out, HardbreakTok);
    Extend(Render(ps1.out), Render(Hardbreak(ps1).out), Render(ps.out), if last == Str(";") || last.Begin? || last.End? then "\n" else "", "\n");
  }

  /** `print_comment` writes the comment's text for its style. */
  lemma PrintCommentRenders(ps: Ps, c: Comment)
    requires c.style == Mixed ==> |c.lines| == 1
    ensures PrintComment(ps, c).Done?
    ensures Render(PrintComment(ps, c).value.out) == Render(ps.out) + CommentText(c, ps.out)
  {
    match c.style
    case Mixed => MixedCommentRenders(ps, c.lines[0]);
    case Isolated => IsolatedCommentRenders(ps, c.lines);
    case Trailing =>
      TrailingCommentRenders(ps, c.lines);
      assert PrintComment(ps, c) == PrintComment(ps, Comment(Trailing, c.lines, 0));
    case BlankLine => BlankLineRenders(ps);
  }

  // ---------------------------------------------------------------------------
  // print_variant

  /** The argument types between parentheses, when there are any. */
  function VariantArgsText(args: seq<Log>): string
  {
    if |args| > 0 then "(" + JoinWith(", ", RenderEach(args, IdOp)) + ")" else ""
  }

  /** A field as written in Rust: a named field with its attributes,
      qualified name, type and comma; an unnamed field as its type. */
  function StructFieldText(f: StructField): string
  {
    match f.kind
    case NamedField(name, vis) => Render(f.attrs) + VisibilityQualified(vis, name) + ": " + Render(f.ty) + ","
    case UnnamedField => Render(f.ty)
  }

  function FieldTexts(fields: seq<StructField>): (r: seq<string>)
    ensures |r| == |fields| && forall i :: 0 <= i < |fields| ==> r[i] == StructFieldText(fields[i])
  {
    if |fields| == 0 then [] else [StructFieldText(fields[0])] + FieldTexts(fields[1..])
  }

  /** A struct body as written in Rust: the field types in parentheses
      (none when there are no fields) and `;`, or the fields in braces one
      per line, the closing brace after a space. */
  function StructText(def: StructDef): string
  {
    if def.tupleLike then
      (if |def.fields| > 0 then "(" + JoinWith(", ", FieldTexts(def.fields)) + ")" else "") + ";"
    else
      " {\n" + JoinWith("\n", FieldTexts(def.fields)) + (if |def.fields| > 0 then " " else "") + "}"
  }

  /** The argument types or the struct body of a variant. */
  function VariantBodyText(kind: VariantKind): string
  {
    match kind
    case TupleVariant(args) => VariantArgsText(args)
    case StructVariant(def) => StructText(def)
  }

  /** A variant as written in Rust: its qualified name, its argument types
      or struct body, and ` = ` before a discriminant. */
  function VariantText(v: Variant): string
  {
    VisibilityQualified(v.vis, v.name) + VariantBodyText(v.kind)
    + (if v.disr.Some? then " = " + Render(v.disr.value) else "")
  }

  lemma VariantArgsRender(ps1: Ps, args: seq<Log>)
    ensures Render(PrintVariantArgs(ps1, args).out) == Render(ps1.out) + VariantArgsText(args)
  {
    if |args| > 0 {
      var r0 := Render(ps1.out);
      var p := Popen(ps1);
      var mid := CommasepTokens(Consistent, args, IdOp);
      var p2 := p.(out := p.out + mid);
      var j := JoinWith(", ", RenderEach(args, IdOp));
      WordRenders(ps1, "(");
      RenderAppend(p.out, mid);
      CommasepTokensRender(Consistent, args, IdOp);
      Extend(Render(p.out), Render(p2.out), r0, "(", j);
      WordRenders(p2, ")");
      Extend(Render(p2.out), Render(Pclose(p2).out), r0, "(" + j, ")");
    }
  }

  lemma DisrRenders(ps2: Ps, d: Log)
    ensures var p := WordSpace(Space(ps2), "=");
            Render(p.out + d) == Render(ps2.out) + (" = " + Render(d))
  {
    var p := WordSpace(Space(ps2), "=");
    var eq := [SpaceTok, Str("="), SpaceTok];
    assert p.out == ps2.out + eq;
    RenderAppend(ps2.out, eq);
    RenderShort(SpaceTok, Str("="), SpaceTok);
    assert RenderToken(SpaceTok) == " ";
    assert Render(eq) == " = ";
    RenderAppend(p.out, d);
    Extend(Render(p.out), Render(p.out + d), Render(ps2.out), " = ", Render(d));
  }

  lemma EndRenders(ps: Ps)
    requires |ps.boxes| > 0
    ensures Render(EndBox(ps).value.out) == Render(ps.out)
  {
    RenderSnoc(ps.out, End);
  }

  /** Unnamed fields render as their types. */
  lemma UnnamedFieldTexts(fields: seq<StructField>)
    requires forall i :: 0 <= i < |fields| ==> fields[i].kind.UnnamedField?
    ensures RenderEach(FieldTys(fields), IdOp) == FieldTexts(fields)
  {
  }

  /** Without comments, the parenthesised fields of a tuple-like struct
      are the argument loop inside a box between parentheses. */
  lemma TupleFieldListIsArgs(ps: Ps, fields: seq<StructField>)
    requires ps.comments.None? && |fields| > 0
    requires forall i :: 0 <= i < |fields| ==> fields[i].kind.UnnamedField?
    ensures var ps2 := PrintArgs(Rbox(Popen(ps), 0, Inconsistent), FieldTys(fields), true);
            |ps2.boxes| > 0 && TupleFieldList(ps, fields) == Done(Pclose(EndBox(ps2).value))
  {
    TupleFieldsAsArgs(Rbox(Popen(ps), 0, Inconsistent), fields, true);
  }

  /** The fields of a tuple-like struct render as their types, separated by
      a comma and a space, in parentheses. */
  lemma TupleFieldListRenders(ps: Ps, fields: seq<StructField>)
    requires ps.comments.None?
    requires forall i :: 0 <= i < |fields| ==> fields[i].kind.UnnamedField?
    ensures TupleFieldList(ps, fields).Done?
    ensures Render(TupleFieldList(ps, fields).value.out)
            == Render(ps.out) + (if |fields| > 0 then "(" + JoinWith(", ", FieldTexts(fields)) + ")" else "")
  {
    if |fields| > 0 {
      TupleFieldListIsArgs(ps, fields);
      ArgsInParensRender(ps, FieldTys(fields));
      UnnamedFieldTexts(fields);
    }
  }

  /** The argument loop inside a box between parentheses renders as the
      arguments' texts joined by a comma and a space. */
  lemma ArgsInParensRender(ps: Ps, args: seq<Log>)
    ensures var ps2 := PrintArgs(Rbox(Popen(ps), 0, Inconsistent), args, true);
            |ps2.boxes| > 0 &&
            Render(Pclose(EndBox(ps2).value).out) == Render(ps.out) + ("(" + JoinWith(", ", RenderEach(args, IdOp)) + ")")
  {
    var r0 := Render(ps.out);
    var j := JoinWith(", ", RenderEach(args, IdOp));
    var p := Popen(ps);
    var ps1 := Rbox(p, 0, Inconsistent);
    assert Render(ps1.out) == r0 + "(" by {
      WordRenders(ps, "(");
      RenderSnoc(p.out, Begin(0, Inconsistent));
    }
    var ps2 := PrintArgs(ps1, args, true);
    assert Render(ps2.out) == Render(ps1.out) + j by {
      PrintArgsRenders(ps1, args, true);
      ConcatEmpty(j);
    }
    var ps3 := EndBox(ps2).value;
    assert Render(ps3.out) == Render(ps2.out) by {
      EndRenders(ps2);
    }
    WordRenders(ps3, ")");
    Concat3Left(r0, "(", j, ")");
  }

  /** The tuple-like arm of `print_struct` writes the struct's text. */
  lemma TupleStructRenders(ps: Ps, fields: seq<StructField>)
    requires ps.comments.None? && |ps.boxes| >= 2
    requires forall i :: 0 <= i < |fields| ==> fields[i].kind.UnnamedField?
    ensures TupleStructBody(ps, fields).Done?
    ensures Render(TupleStructBody(ps, fields).value.out) == Render(ps.out) + StructText(StructDef(true, fields))
  {
    var list := if |fields| > 0 then "(" + JoinWith(", ", FieldTexts(fields)) + ")" else "";
    TupleFieldListRenders(ps, fields);
    var ps2 := TupleFieldList(ps, fields).value;
    var ps3 := Word(ps2, ";");
    assert |ps2.boxes| >= 2;
    var ps5 := EndBox(EndBox(ps3).value).value;
    assert Render(ps5.out) == Render(ps2.out) + ";" by {
      WordRenders(ps2, ";");
      EndRenders(ps3);
      EndRenders(EndBox(ps3).value);
    }
    assert TupleStructBody(ps, fields) == Done(ps5);
    assert StructText(StructDef(true, fields)) == list + ";";
    Extend(Render(ps2.out), Render(ps5.out), Render(ps.out), list, ";");
  }

  /** One field line renders as the field's text. */
  lemma FieldLineRenders(ps: Ps, f: StructField, name: string, vis: Visibility)
    requires f.kind == NamedField(name, vis)
    ensures Render(FieldLine(ps, f, name, vis).out) == Render(ps.out) + StructFieldText(f)
  {
    var r0, a, q, t := Render(ps.out), Render(f.attrs), VisibilityQualified(vis, name), Render(f.ty);
    var pa := ps.(out := ps.out + f.attrs);
    assert Render(pa.out) == r0 + a by {
      RenderAppend(ps.out, f.attrs);
    }
    var pw := Word(PrintVisibility(pa, vis), name);
    assert Render(pw.out) == Render(pa.out) + q by {
      PrintVisibilityAgreesWithQualified(pa, vis, name);
    }
    var ps1 := WordNbsp(pw, ":");
    assert Render(ps1.out) == Render(pw.out) + ": " by {
      WordNbspRenders(pw, ":");
    }
    var pt := ps1.(out := ps1.out + f.ty);
    assert Render(pt.out) == Render(ps1.out) + t by {
      RenderAppend(ps1.out, f.ty);
    }
    assert Render(FieldLine(ps, f, name, vis).out) == Render(pt.out) + "," by {
      assert FieldLine(ps, f, name, vis) == Word(pt, ",");
      WordRenders(pt, ",");
    }
    assert StructFieldText(f) == a + q + ": " + t + ",";
    Concat5(r0, a, q, ": ", t, ",");
  }

  lemma Concat3(r0: string, a: string, b: string, c: string)
    ensures r0 + a + b + c == r0 + (a + (b + c))
  {
  }

  lemma Concat5(r0: string, a: string, b: string, c: string, d: string, e: string)
    ensures r0 + a + b + c + d + e == r0 + (a + b + c + d + e)
  {
  }

  /** The fields of a struct with braces render as their texts one per
      line, after a newline unless the line is fresh. */
  lemma {:induction false} NamedFieldsRender(ps: Ps, fields: seq<StructField>)
    requires ps.comments.None?
    requires forall i :: 0 <= i < |fields| ==> fields[i].kind.NamedField?
    ensures NamedFields(ps, fields).Done?
    ensures Render(NamedFields(ps, fields).value.out)
            == Render(ps.out) + (if |fields| == 0 then "" else (if IsBol(ps) then "" else "\n") + JoinWith("\n", FieldTexts(fields)))
    decreases |fields|
  {
    if |fields| > 0 {
      var f, rest := fields[0], fields[1..];
      var hb := if IsBol(ps) then "" else "\n";
      var ps4 := FieldLine(HardbreakIfNotBol(ps), f, f.kind.name, f.kind.vis);
      NamedFieldsStep(ps, fields, ps4);
      NamedFieldsRender(ps4, rest);
      LinesStep(Render(ps.out), hb, StructFieldText(f), FieldTexts(rest));
    }
  }

  /** Without comments, one turn of the loop over the fields of a struct
      with braces writes a field line, after a newline unless the line is
      fresh, and goes on with the rest from a line that is not fresh. */
  lemma {:induction false} NamedFieldsStep(ps: Ps, fields: seq<StructField>, ps4: Ps)
    requires ps.comments.None? && |fields| > 0
    requires forall i :: 0 <= i < |fields| ==> fields[i].kind.NamedField?
    requires ps4 == FieldLine(HardbreakIfNotBol(ps), fields[0], fields[0].kind.name, fields[0].kind.vis)
    ensures NamedFields(ps, fields) == NamedFields(ps4, fields[1..])
    ensures Render(ps4.out) == Render(ps.out) + (if IsBol(ps) then "" else "\n") + StructFieldText(fields[0])
    ensures !IsBol(ps4) && ps4.comments.None?
    ensures forall i :: 0 <= i < |fields[1..]| ==> fields[1..][i].kind.NamedField?
    ensures FieldTexts(fields) == [StructFieldText(fields[0])] + FieldTexts(fields[1..])
  {
    NamedFieldsHeadRenders(ps, fields[0]);
    assert forall i :: 0 <= i < |fields[1..]| ==> fields[1..][i] == fields[i + 1];
  }

  lemma LinesStep(r0: string, hb: string, t: string, ts: seq<string>)
    ensures r0 + hb + t + (if |ts| == 0 then "" else "\n" + JoinWith("\n", ts)) == r0 + (hb + JoinWith("\n", [t] + ts))
  {
    JoinWithCons("\n", t, ts);
  }

  lemma HardbreakIfNotBolRenders(ps: Ps)
    ensures Render(HardbreakIfNotBol(ps).out) == Render(ps.out) + (if IsBol(ps) then "" else "\n")
  {
    if !IsBol(ps) {
      RenderSnoc(ps.out, HardbreakTok);
    }
  }

  /** The first field line and the break before it: a newline unless the
      line is fresh, then the field's text. */
  lemma NamedFieldsHeadRenders(ps: Ps, f: StructField)
    requires f.kind.NamedField?
    ensures var r := FieldLine(HardbreakIfNotBol(ps), f, f.kind.name, f.kind.vis);
            Render(r.out) == Render(ps.out) + (if IsBol(ps) then "" else "\n") + StructFieldText(f)
  {
    HardbreakIfNotBolRenders(ps);
    FieldLineRenders(HardbreakIfNotBol(ps), f, f.kind.name, f.kind.vis);
  }

  /** The break before a closing brace is a space unless the line is
      fresh; replacing a hard break by the outdented one writes the same
      newline. */
  lemma BreakOffsetRenders(ps: Ps)
    ensures Render(BreakOffsetIfNotBol(ps, 1, -(IndentUnit as int)).out)
            == Render(ps.out) + (if IsBol(ps) then "" else " ")
  {
    var off := -(IndentUnit as int);
    if !IsBol(ps) {
      RenderSnoc(ps.out, Break(1, off));
      assert RenderToken(Break(1, off)) == " ";
    } else if IsHardbreakTok(LastToken(ps.out)) {
      var a := ps.out[..|ps.out| - 1];
      assert ps.out == a + [ps.out[|ps.out| - 1]];
      RenderSnoc(a, ps.out[|ps.out| - 1]);
      RenderSnoc(a, Break(SizeInfinity, off));
    }
  }

  /** `bclose` without comments writes the closing brace after a space,
      or at the start of the line when it is fresh. */
  lemma BcloseRenders(ps: Ps, hi: nat)
    requires ps.comments.None? && |ps.boxes| > 0
    ensures Bclose(ps, hi).Done?
    ensures Render(Bclose(ps, hi).value.out) == Render(ps.out) + ((if IsBol(ps) then "" else " ") + "}")
  {
    var ps2 := BreakOffsetIfNotBol(ps, 1, -(IndentUnit as int));
    BreakOffsetRenders(ps);
    WordRenders(ps2, "}");
    EndRenders(Word(ps2, "}"));
  }

  /** The opening brace of a struct with braces and the line after it. */
  lemma BraceOpenRenders(ps: Ps)
    requires |ps.boxes| > 0
    ensures BraceOpen(ps).Done?
    ensures var ps3 := BraceOpen(ps).value;
            && IsBol(ps3)
            && Render(ps3.out) == Render(ps.out) + " {\n"
            && ps3.comments == ps.comments && |ps3.boxes| == |ps.boxes| - 1
  {
    var pw := Word(Nbsp(ps), "{");
    var ps2 := EndBox(pw).value;
    var ps3 := Hardbreak(ps2);
    assert BraceOpen(ps) == Done(ps3) by {
      assert LastToken(ps2.out) == End;
    }
    assert Render(pw.out) == Render(ps.out) + " {" by {
      WordRenders(ps, " ");
      WordRenders(Nbsp(ps), "{");
    }
    assert Render(ps2.out) == Render(pw.out) by {
      EndRenders(pw);
    }
    assert Render(ps3.out) == Render(ps2.out) + "\n" by {
      RenderSnoc(ps2.out, HardbreakTok);
    }
    assert IsBol(ps3) by {
      assert LastToken(ps3.out) == HardbreakTok;
    }
  }

  /** The arm of `print_struct` with braces writes the struct's text. */
  lemma BracedStructRenders(ps: Ps, fields: seq<StructField>, hi: nat)
    requires ps.comments.None? && |ps.boxes| >= 2
    requires forall i :: 0 <= i < |fields| ==> fields[i].kind.NamedField?
    ensures BracedStructBody(ps, fields, hi).Done?
    ensures Render(BracedStructBody(ps, fields, hi).value.out) == Render(ps.out) + StructText(StructDef(false, fields))
  {
    var r0 := Render(ps.out);
    var j := JoinWith("\n", FieldTexts(fields));
    var ps3 := BraceOpen(ps).value;
    BraceOpenRenders(ps);
    NamedFieldsRenderAtBol(ps3, fields);
    var ps4 := NamedFields(ps3, fields).value;
    BcloseRenders(ps4, hi);
    BracedStructBodyUnfold(ps, fields, hi);
    var x := if |fields| > 0 then " " else "";
    assert StructText(StructDef(false, fields)) == " {\n" + j + x + "}";
    Concat4(r0, " {\n", j, x, "}");
  }

  /** From the start of a line, the fields of a struct with braces render
      as their texts one per line; the line is fresh afterwards exactly
      when there are no fields, and one box is still open. */
  lemma NamedFieldsRenderAtBol(ps: Ps, fields: seq<StructField>)
    requires ps.comments.None? && IsBol(ps) && |ps.boxes| > 0
    requires forall i :: 0 <= i < |fields| ==> fields[i].kind.NamedField?
    ensures NamedFields(ps, fields).Done?
    ensures var r := NamedFields(ps, fields).value;
            && Render(r.out) == Render(ps.out) + JoinWith("\n", FieldTexts(fields))
            && (IsBol(r) <==> |fields| == 0)
            && r.comments.None? && |r.boxes| > 0
  {
    if |fields| == 0 {
      assert NamedFields(ps, fields) == Done(ps);
      assert JoinWith("\n", FieldTexts(fields)) == "";
    } else {
      var j := JoinWith("\n", FieldTexts(fields));
      NamedFieldsRender(ps, fields);
      ConcatEmpty(j);
      var r := NamedFields(ps, fields).value;
      assert LastToken(r.out) == Str(",");
      assert r == ps.(out := r.out, curCmnt := r.curCmnt);
    }
  }

  /** The arm of `print_struct` with braces closes with `bclose` once the
      fields are written. */
  lemma BracedStructBodyUnfold(ps: Ps, fields: seq<StructField>, hi: nat)
    requires |ps.boxes| > 0
    ensures var r := NamedFields(BraceOpen(ps).value, fields);
            r.Done? ==> BracedStructBody(ps, fields, hi) == Bclose(r.value, hi)
  {
  }

  lemma Concat4(r0: string, a: string, b: string, c: string, d: string)
    ensures r0 + a + b + (c + d) == r0 + (a + b + c + d)
  {
  }

  /** `print_struct` writes the name and the struct's text when no
      generics are given. */
  lemma PrintStructRenders(ps: Ps, def: StructDef, name: string, hi: nat)
    requires ps.comments.None? && |ps.boxes| >= 2
    requires !FieldMismatch(def)
    ensures PrintStruct(ps, def, EmptyGenerics, name, hi).Done?
    ensures Render(PrintStruct(ps, def, EmptyGenerics, name, hi).value.out) == Render(ps.out) + (name + StructText(def))
  {
    var ps1 := Word(ps, name);
    WordRenders(ps, name);
    assert PrintGenerics(ps1, EmptyGenerics) == ps1;
    var body := if def.tupleLike then TupleStructBody(ps1, def.fields) else BracedStructBody(ps1, def.fields, hi);
    assert PrintStruct(ps, def, EmptyGenerics, name, hi) == body;
    if def.tupleLike {
      TupleStructRenders(ps1, def.fields);
    } else {
      BracedStructRenders(ps1, def.fields, hi);
    }
    Extend(Render(ps1.out), Render(body.value.out), Render(ps.out), name, StructText(def));
  }

  lemma HeadRendersNothing(ps: Ps)
    ensures Render(Head(ps, "").out) == Render(ps.out)
  {
    var p1 := Cbox(ps, IndentUnit);
    RenderSnoc(ps.out, Begin(IndentUnit, Consistent));
    RenderSnoc(p1.out, Begin(1, Inconsistent));
  }

  /** The name and argument types or struct body of a variant. */
  lemma PrintVariantKindRenders(ps: Ps, v: Variant)
    requires !BadVariant(v)
    requires v.kind.StructVariant? ==> ps.comments.None?
    ensures PrintVariantKind(ps, v).Done?
    ensures Render(PrintVariantKind(ps, v).value.out)
            == Render(ps.out) + (v.name + VariantBodyText(v.kind))
  {
    match v.kind
    case TupleVariant(args) => TupleVariantRenders(ps, v);
    case StructVariant(def) => StructVariantRenders(ps, v);
  }

  /** A tuple-like variant: its name and its argument types. */
  lemma TupleVariantRenders(ps: Ps, v: Variant)
    requires v.kind.TupleVariant?
    ensures PrintVariantKind(ps, v).Done?
    ensures Render(PrintVariantKind(ps, v).value.out) == Render(ps.out) + (v.name + VariantArgsText(v.kind.args))
  {
    var pw := Word(ps, v.name);
    assert PrintVariantKind(ps, v) == Done(PrintVariantArgs(pw, v.kind.args));
    WordRenders(ps, v.name);
    VariantArgsRender(pw, v.kind.args);
    Extend(Render(pw.out), Render(PrintVariantArgs(pw, v.kind.args).out), Render(ps.out), v.name, VariantArgsText(v.kind.args));
  }

  /** A struct variant: an empty head, then `print_struct` with its name. */
  lemma StructVariantRenders(ps: Ps, v: Variant)
    requires v.kind.StructVariant? && !FieldMismatch(v.kind.def) && ps.comments.None?
    ensures PrintVariantKind(ps, v).Done?
    ensures Render(PrintVariantKind(ps, v).value.out) == Render(ps.out) + (v.name + StructText(v.kind.def))
  {
    var h := Head(ps, "");
    assert PrintVariantKind(ps, v) == PrintStruct(h, v.kind.def, EmptyGenerics, v.name, v.hi);
    HeadRendersNothing(ps);
    PrintStructRenders(h, v.kind.def, v.name, v.hi);
  }

  /** `print_variant` writes the variant as it is written in Rust. */
  lemma PrintVariantRenders(ps: Ps, v: Variant)
    requires !BadVariant(v)
    requires v.kind.StructVariant? ==> ps.comments.None?
    ensures PrintVariant(ps, v).Done?
    ensures Render(PrintVariant(ps, v).value.out) == Render(ps.out) + VariantText(v)
  {
    var q := VisibilityQualified(v.vis, v.name);
    var body := VariantBodyText(v.kind);
    var d := if v.disr.Some? then " = " + Render(v.disr.value) else "";
    VariantHeadRenders(ps, v);
    VariantDisrRenders(ps, v);
    assert VariantText(v) == q + body + d;
    Concat3Left(Render(ps.out), q, body, d);
  }

  /** The qualified name and the argument types or struct body of a
      variant. */
  lemma VariantHeadRenders(ps: Ps, v: Variant)
    requires !BadVariant(v)
    requires v.kind.StructVariant? ==> ps.comments.None?
    ensures PrintVariantKind(PrintVisibility(ps, v.vis), v).Done?
    ensures Render(PrintVariantKind(PrintVisibility(ps, v.vis), v).value.out)
            == Render(ps.out) + VisibilityQualified(v.vis, v.name) + VariantBodyText(v.kind)
  {
    var pv := PrintVisibility(ps, v.vis);
    var q := VisibilityQualified(v.vis, v.name);
    var b := VariantBodyText(v.kind);
    assert pv.comments == ps.comments;
    PrintVariantKindRenders(pv, v);
    var r := PrintVariantKind(pv, v).value;
    assert Render(pv.out) + v.name == Render(ps.out) + q by {
      PrintVisibilityAgreesWithQualified(ps, v.vis, v.name);
      WordRenders(pv, v.name);
    }
    assert Render(r.out) == Render(ps.out) + q + b by {
      ConcatAssoc(Render(pv.out), v.name, b);
    }
  }

  /** The discriminant after ` = `, when there is one. */
  lemma VariantDisrRenders(ps: Ps, v: Variant)
    requires PrintVariantKind(PrintVisibility(ps, v.vis), v).Done?
    ensures PrintVariant(ps, v).Done?
    ensures Render(PrintVariant(ps, v).value.out)
            == Render(PrintVariantKind(PrintVisibility(ps, v.vis), v).value.out)
               + (if v.disr.Some? then " = " + Render(v.disr.value) else "")
  {
    if v.disr.Some? {
      DisrRenders(PrintVariantKind(PrintVisibility(ps, v.vis), v).value, v.disr.value);
    }
  }

  lemma Concat3Left(r0: string, a: string, b: string, c: string)
    ensures r0 + a + b + c == r0 + (a + b + c)
  {
  }

  /** `variant_to_str` returns the variant as it is written in Rust,
      unless `print_struct` refuses one of its fields. */
  lemma VariantToStrRenders(v: Variant)
    ensures !BadVariant(v) ==> VariantToStr(v) == Done(VariantText(v))
  {
    if !BadVariant(v) {
      PrintVariantRenders(RustPrinter, v);
      var ps := PrintVariant(RustPrinter, v).value;
      assert Render(ps.out) == VariantText(v) by {
        assert Render(RustPrinter.out) == "";
        ConcatEmpty(VariantText(v));
      }
      EofRendersNothing(ps);
    }
  }

  lemma EofRendersNothing(ps: Ps)
    ensures Render(Pprust.Eof(ps).out) == Render(ps.out)
  {
    RenderSnoc(ps.out, Token.Eof);
  }
}

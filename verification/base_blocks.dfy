/** Control flow built by `iter_structural_ty` and `with_cond` in
    `trans/base.rs`.

    A function under construction is a sequence of basic blocks; a block
    has a name, its code and, once closed, a terminator. Field pointers,
    discriminants and case values computed by the `adt` module are kept
    symbolic. The per-field visitor is a parameter, as in the source: it
    is given the function, the block to work in, a field pointer and the
    field's type, and returns the function and the block to continue in.
    The fixed-length vector loop of `tvec::iter_vec_raw` is one
    `IterVecRaw` event. */
module BaseBlocks {
  import opened Common

  /** Symbolic LLVM values. */
  datatype Value =
    | Arg(id: nat)
    | FieldOf(base: Value, discr: nat, index: nat)   // `adt::trans_field_ptr`
    | Discrim(of: Value)                             // `adt::trans_switch`
    | CaseVal(disr: nat)                             // `adt::trans_case`

  /** A field type as the visitor receives it; `IntType` is `ty::mk_int()`. */
  datatype FieldTy = FieldTy(id: nat) | IntType

  datatype Instr = Visit(v: Value, t: FieldTy) | IterVecRaw(v: Value)

  datatype Case = Case(val: Value, dest: nat)

  datatype Term =
    | Br(to: nat)
    | CondBr(cond: Value, thenTo: nat, elseTo: nat)
    | Switch(on: Value, otherwise: nat, cases: seq<Case>)
    | Unreachable

  datatype Block = Block(name: string, code: seq<Instr>, term: Option<Term>)

  type Fcx = seq<Block>

  /** `new_temp_block`: a fresh open block at the end. */
  function NewBlock(f: Fcx, name: string): (r: (Fcx, nat))
    ensures r.1 == |f| && r.0 == f + [Block(name, [], None)]
  {
    (f + [Block(name, [], None)], |f|)
  }

  function Append(f: Fcx, b: nat, i: Instr): (r: Fcx)
    requires b < |f|
    ensures |r| == |f| && r[b] == f[b].(code := f[b].code + [i])
    ensures forall k :: 0 <= k < |f| && k != b ==> r[k] == f[k]
  {
    f[b := f[b].(code := f[b].code + [i])]
  }

  function Terminate(f: Fcx, b: nat, t: Term): (r: Fcx)
    requires b < |f|
    ensures |r| == |f| && r[b] == f[b].(term := Some(t))
    ensures forall k :: 0 <= k < |f| && k != b ==> r[k] == f[k]
  {
    f[b := f[b].(term := Some(t))]
  }

  /** `AddCase` on the switch that closes block `b`. */
  function AddCase(f: Fcx, b: nat, c: Case): (r: Fcx)
    requires b < |f| && f[b].term.Some? && f[b].term.value.Switch?
    ensures |r| == |f| && r[b].code == f[b].code && r[b].name == f[b].name
    ensures r[b].term == Some(f[b].term.value.(cases := f[b].term.value.cases + [c]))
    ensures forall k :: 0 <= k < |f| && k != b ==> r[k] == f[k]
  {
    var sw := f[b].term.value;
    f[b := f[b].(term := Some(sw.(cases := sw.cases + [c])))]
  }

  // ---------------------------------------------------------------------------
  // Code that continues in a block

  /** `r` is what code started in block `b` of `g` may leave behind: `g`
      with blocks added, a block to continue in that is `b` or one of the
      added ones, and every other block of `g` as it was. */
  predicate Continues(g: Fcx, b: nat, r: (Fcx, nat))
  {
    |g| <= |r.0| && r.1 < |r.0| && (r.1 == b || |g| <= r.1)
    && forall k :: 0 <= k < |g| && k != b ==> r.0[k] == g[k]
  }

  /** Code that continues, followed by code started where it continued,
      is code that continues. */
  lemma ContinuesTrans(g: Fcx, b: nat, h: (Fcx, nat), i: (Fcx, nat))
    requires Continues(g, b, h) && Continues(h.0, h.1, i)
    ensures Continues(g, b, i)
  {
    forall k | 0 <= k < |g| && k != b
      ensures i.0[k] == g[k]
    {
      assert k != h.1;
    }
  }

  /** A field visitor (`val_and_ty_fn`): from the function built so far,
      the block to work in, a field pointer and the field's type, the
      function afterwards and the block to continue in. */
  type Visitor = (Fcx, nat, Value, FieldTy) -> (Fcx, nat)

  /** What a visitor may do: change the block it is given, add blocks, and
      continue in that block or in one it added. */
  ghost predicate VisitorWellBehaved(visit: Visitor)
  {
    forall g: Fcx, b: nat, v: Value, t: FieldTy {:trigger visit(g, b, v, t)} ::
      b < |g| ==> Continues(g, b, visit(g, b, v, t))
  }

  /** The visits of a list of fields, in declared order. */
  function FieldVisits(av: Value, discr: nat, tys: seq<FieldTy>): (r: seq<Instr>)
    ensures |r| == |tys|
  {
    seq(|tys|, i requires 0 <= i < |tys| => Visit(FieldOf(av, discr, i), tys[i]))
  }

  /** The loop over fields: the visitor on each field pointer in turn, each
      visit given the block the one before it continued in. */
  function VisitFields(visit: Visitor, f: Fcx, cx: nat, av: Value, discr: nat, tys: seq<FieldTy>, k: nat): (r: (Fcx, nat))
    requires VisitorWellBehaved(visit) && cx < |f| && k <= |tys|
    ensures Continues(f, cx, r)
    decreases k
  {
    if k == 0 then (f, cx)
    else
      var g := VisitFields(visit, f, cx, av, discr, tys, k - 1);
      var r := visit(g.0, g.1, FieldOf(av, discr, k - 1), tys[k - 1]);
      ContinuesTrans(f, cx, g, r);
      r
  }

  /** How `adt::trans_switch` treats a representation. */
  datatype SwitchShape = SingleShape | SwitchShape | OtherShape

  /** An enum variant: its discriminant value, its field types (already
      substituted) and whether `adt::trans_case` gives it a single value. */
  datatype Variant = Variant(disr: nat, args: seq<FieldTy>, singleCase: bool)

  /** The types `iter_structural_ty` looks at. */
  datatype StructTy =
    | StructOf(discr: nat, fields: seq<FieldTy>)
    | TupleOf(args: seq<FieldTy>)
    | FixedVecOf
    | EnumOf(shape: SwitchShape, variants: seq<Variant>)
    | NotStructural

  function VariantLabel(disr: nat): string
  {
    "enum-iter-variant-" + NatToString(disr)
  }

  /** Every variant up to `k` yields a single case value. */
  predicate SingleCases(variants: seq<Variant>, k: nat)
    requires k <= |variants|
  {
    forall j :: 0 <= j < k ==> variants[j].singleCase
  }

  /** `after` is `before` with `extra` cases added to its closing switch. */
  predicate SwitchExtended(before: Block, after: Block, extra: seq<Case>)
  {
    before.term.Some? && before.term.value.Switch?
    && after.name == before.name && after.code == before.code
    && after.term == Some(before.term.value.(cases := before.term.value.cases + extra))
  }

  lemma SwitchExtendedTrans(a: Block, b: Block, c: Block, x: seq<Case>, y: seq<Case>)
    requires SwitchExtended(a, b, x) && SwitchExtended(b, c, y)
    ensures SwitchExtended(a, c, x + y)
  {
    assert a.term.value.cases + x + y == a.term.value.cases + (x + y);
  }

  /** One variant: a fresh block named after it, its case on the switch
      that closes `sw`, its fields walked from that block, and a branch to
      `next` from the block the walk continues in, which the result also
      gives. */
  function VariantCase(visit: Visitor, f: Fcx, sw: nat, av: Value, v: Variant, next: nat): (r: Outcome<(Fcx, nat)>)
    requires VisitorWellBehaved(visit) && sw < |f| && f[sw].term.Some? && f[sw].term.value.Switch?
    ensures r.Done? <==> v.singleCase
    ensures r.Done? ==>
              |f| < |r.value.0| && |f| <= r.value.1 < |r.value.0|
              && r.value.0[r.value.1].term == Some(Br(next))
              && SwitchExtended(f[sw], r.value.0[sw], [Case(CaseVal(v.disr), |f|)])
              && forall j :: 0 <= j < |f| && j != sw ==> r.value.0[j] == f[j]
  {
    var (f1, vcx) := NewBlock(f, VariantLabel(v.disr));
    if !v.singleCase then Panic("value from adt::trans_case in iter_structural_ty")
    else
      var f2 := AddCase(f1, sw, Case(CaseVal(v.disr), vcx));
      var w := VisitFields(visit, f2, vcx, av, v.disr, v.args, |v.args|);
      Done((Terminate(w.0, w.1, Br(next)), w.1))
  }

  /** What the loop over variants has built: the function, the cases it
      added to the switch, and for each variant the block its walk ended
      in. */
  datatype Arms = Arms(fcx: Fcx, cases: seq<Case>, ends: seq<nat>)

  /** The arms of the first `|cs|` variants: case `j` matches variant `j`'s
      value and jumps to a block at or after `first`, added after the
      blocks of the variants before it; the walk of variant `j`'s fields
      ends in `ends[j]`, no earlier than its case block, and that block
      branches to `next`. */
  predicate VariantArms(r: Fcx, cs: seq<Case>, ends: seq<nat>, variants: seq<Variant>, first: nat, next: nat)
  {
    |cs| == |ends| <= |variants|
    && (forall j :: 0 <= j < |cs| ==>
          cs[j].val == CaseVal(variants[j].disr) && first <= cs[j].dest <= ends[j] < |r|
          && r[ends[j]].term == Some(Br(next)))
    && forall j :: 0 < j < |cs| ==> ends[j - 1] < cs[j].dest
  }

  /** The loop over variants. */
  function VariantCases(visit: Visitor, f: Fcx, sw: nat, av: Value, variants: seq<Variant>, next: nat, k: nat): (r: Outcome<Arms>)
    requires VisitorWellBehaved(visit) && sw < |f| && k <= |variants|
    requires f[sw].term.Some? && f[sw].term.value.Switch?
    ensures r.Done? <==> SingleCases(variants, k)
    ensures r.Done? ==>
              |f| + k <= |r.value.fcx| && |r.value.cases| == k
              && SwitchExtended(f[sw], r.value.fcx[sw], r.value.cases)
              && (forall j :: 0 <= j < |f| && j != sw ==> r.value.fcx[j] == f[j])
              && VariantArms(r.value.fcx, r.value.cases, r.value.ends, variants, |f|, next)
    decreases k
  {
    if k == 0 then
      assert f[sw].term.value.cases + [] == f[sw].term.value.cases;
      Done(Arms(f, [], []))
    else
      var a :- VariantCases(visit, f, sw, av, variants, next, k - 1);
      var c :- VariantCase(visit, a.fcx, sw, av, variants[k - 1], next);
      VariantCasesStep(f, a, c, sw, variants, next, k);
      Done(Arms(c.0, a.cases + [Case(CaseVal(variants[k - 1].disr), |a.fcx|)], a.ends + [c.1]))
  }

  lemma VariantCasesStep(f: Fcx, a: Arms, c: (Fcx, nat), sw: nat, variants: seq<Variant>, next: nat, k: nat)
    requires sw < |f| && 0 < k <= |variants| && |f| + k - 1 <= |a.fcx| && |a.cases| == k - 1
    requires SwitchExtended(f[sw], a.fcx[sw], a.cases)
    requires forall j :: 0 <= j < |f| && j != sw ==> a.fcx[j] == f[j]
    requires VariantArms(a.fcx, a.cases, a.ends, variants, |f|, next)
    requires |a.fcx| < |c.0| && |a.fcx| <= c.1 < |c.0| && c.0[c.1].term == Some(Br(next))
    requires SwitchExtended(a.fcx[sw], c.0[sw], [Case(CaseVal(variants[k - 1].disr), |a.fcx|)])
    requires forall j :: 0 <= j < |a.fcx| && j != sw ==> c.0[j] == a.fcx[j]
    ensures var cs := a.cases + [Case(CaseVal(variants[k - 1].disr), |a.fcx|)];
            SwitchExtended(f[sw], c.0[sw], cs)
            && (forall j :: 0 <= j < |f| && j != sw ==> c.0[j] == f[j])
            && VariantArms(c.0, cs, a.ends + [c.1], variants, |f|, next)
  {
    var one := [Case(CaseVal(variants[k - 1].disr), |a.fcx|)];
    SwitchExtendedTrans(f[sw], a.fcx[sw], c.0[sw], a.cases, one);
    var cs := a.cases + one;
    var ends := a.ends + [c.1];
    forall j | 0 <= j < |cs|
      ensures cs[j].val == CaseVal(variants[j].disr) && |f| <= cs[j].dest <= ends[j] < |c.0|
              && c.0[ends[j]].term == Some(Br(next))
    {
      if j < k - 1 {
        assert cs[j] == a.cases[j] && ends[j] == a.ends[j];
        assert c.0[ends[j]] == a.fcx[ends[j]];
      }
    }
  }

  /** The enum arms `iter_structural_ty` can walk: a single representation
      with a variant 0, or a switch whose every variant has a single case
      value. */
  predicate EnumWalkable(shape: SwitchShape, variants: seq<Variant>)
  {
    (shape.SingleShape? && |variants| > 0) || (shape.SwitchShape? && SingleCases(variants, |variants|))
  }

  /** The types `iter_structural_ty` walks without failing. */
  predicate Walkable(t: StructTy)
  {
    match t
    case NotStructural => false
    case EnumOf(shape, variants) => EnumWalkable(shape, variants)
    case _ => true
  }

  /** The blocks around the switch: a fresh unreachable default block, the
      switch on the discriminant closing `d` with no cases yet, and a
      fresh open join block. */
  function OpenSwitch(f: Fcx, d: nat, av: Value): (r: Fcx)
    requires d < |f|
    ensures |r| == |f| + 2
    ensures r[|f|] == Block("enum-iter-unr", [], Some(Unreachable))
    ensures r[|f| + 1] == Block("enum-iter-next", [], None)
    ensures r[d] == f[d].(term := Some(Switch(Discrim(av), |f|, [])))
    ensures forall k :: 0 <= k < |f| && k != d ==> r[k] == f[k]
  {
    var (f2, unr) := NewBlock(f, "enum-iter-unr");
    var f3 := Terminate(f2, unr, Unreachable);
    var f4 := Terminate(f3, d, Switch(Discrim(av), unr, []));
    var (f5, next) := NewBlock(f4, "enum-iter-next");
    f5
  }

  /** The switch arm for enums after the discriminant's visit: close the
      block `d` that visit continued in with a switch, walk each variant,
      and continue in the join block. */
  function SwitchFrom(visit: Visitor, f1: Fcx, d: nat, av: Value, variants: seq<Variant>): (r: Outcome<(Fcx, nat)>)
    requires VisitorWellBehaved(visit) && d < |f1|
    ensures r.Done? <==> SingleCases(variants, |variants|)
    ensures r.Done? ==> Continues(f1, d, r.value)
  {
    var a := VariantCases(visit, OpenSwitch(f1, d, av), d, av, variants, |f1| + 1, |variants|);
    if a.Done? then Done((a.value.fcx, |f1| + 1)) else Panic(a.message)
  }

  /** The switch arm for enums: visit the discriminant, then `SwitchFrom`
      the block that visit continues in. */
  function IterSwitch(visit: Visitor, f: Fcx, cx: nat, av: Value, variants: seq<Variant>): (r: Outcome<(Fcx, nat)>)
    requires VisitorWellBehaved(visit) && cx < |f|
    ensures r.Done? <==> SingleCases(variants, |variants|)
    ensures r.Done? ==> Continues(f, cx, r.value)
  {
    var w := visit(f, cx, Discrim(av), IntType);
    var r := SwitchFrom(visit, w.0, w.1, av, variants);
    if r.Done? then ContinuesTrans(f, cx, w, r.value); r else r
  }

  /** The enum arm of `iter_structural_ty`. The discriminant is visited
      before any field, so that a structural comparison stops when the
      discriminants differ. */
  function IterEnum(visit: Visitor, f: Fcx, cx: nat, av: Value, shape: SwitchShape, variants: seq<Variant>): (r: Outcome<(Fcx, nat)>)
    requires VisitorWellBehaved(visit) && cx < |f|
    ensures r.Done? <==> EnumWalkable(shape, variants)
    ensures r.Done? ==> Continues(f, cx, r.value)
  {
    match shape
    case SingleShape =>
      if |variants| == 0 then Panic("index out of bounds")
      else Done(VisitFields(visit, f, cx, av, variants[0].disr, variants[0].args, |variants[0].args|))
    case SwitchShape => IterSwitch(visit, f, cx, av, variants)
    case OtherShape => Panic("value from adt::trans_switch in iter_structural_ty")
  }

  /** `iter_structural_ty` with visitor `visit`. The result is the block
      the code continues in; the walk is itself code that continues. */
  function IterStructuralTy(visit: Visitor, f: Fcx, cx: nat, av: Value, t: StructTy): (r: Outcome<(Fcx, nat)>)
    requires VisitorWellBehaved(visit) && cx < |f|
    ensures r.Done? <==> Walkable(t)
    ensures r.Done? ==> Continues(f, cx, r.value)
  {
    match t
    case StructOf(discr, fields) => Done(VisitFields(visit, f, cx, av, discr, fields, |fields|))
    case TupleOf(args) => Done(VisitFields(visit, f, cx, av, 0, args, |args|))
    case FixedVecOf => Done((Append(f, cx, IterVecRaw(av)), cx))
    case EnumOf(shape, variants) => IterEnum(visit, f, cx, av, shape, variants)
    case NotStructural => Panic("type in iter_structural_ty")
  }

  /** The blocks of the switch arm after the walk `r`, when the
      discriminant's visit left the function as `f1` in block `d`: `d`
      closes with a switch on the discriminant whose default is a fresh
      unreachable block and which has one case per variant, in order; each
      variant's walk ends in a block that branches to a fresh join block,
      which is where the code continues; no other block of `f1` changes. */
  ghost predicate SwitchArms(r: (Fcx, nat), f1: Fcx, d: nat, av: Value, variants: seq<Variant>)
    requires d < |f1|
  {
    var unr := |f1|;
    var next := |f1| + 1;
    r.1 == next && |f1| + 2 + |variants| <= |r.0|
    && r.0[unr] == Block("enum-iter-unr", [], Some(Unreachable))
    && r.0[next] == Block("enum-iter-next", [], None)
    && (exists cs: seq<Case>, ends: seq<nat> {:trigger VariantArms(r.0, cs, ends, variants, next + 1, next)} ::
          VariantArms(r.0, cs, ends, variants, next + 1, next)
          && |cs| == |variants|
          && r.0[d] == f1[d].(term := Some(Switch(Discrim(av), unr, cs))))
    && forall j :: 0 <= j < |f1| && j != d ==> r.0[j] == f1[j]
  }

  /** An enum with a switch, for any visitor: the discriminant is visited
      first, and the walk succeeds exactly when every variant has a single
      case value, leaving the blocks `SwitchArms` describes. */
  lemma IterStructuralSwitch(visit: Visitor, f: Fcx, cx: nat, av: Value, variants: seq<Variant>)
    requires VisitorWellBehaved(visit) && cx < |f|
    ensures var w := visit(f, cx, Discrim(av), IntType);
            var r := IterStructuralTy(visit, f, cx, av, EnumOf(SwitchShape, variants));
            (r.Done? <==> SingleCases(variants, |variants|))
            && (r.Done? ==> SwitchArms(r.value, w.0, w.1, av, variants))
  {
    var w := visit(f, cx, Discrim(av), IntType);
    assert IterStructuralTy(visit, f, cx, av, EnumOf(SwitchShape, variants)) == SwitchFrom(visit, w.0, w.1, av, variants);
    SwitchFromArms(visit, w.0, w.1, av, variants);
  }

  /** `SwitchFrom` for any visitor leaves the blocks `SwitchArms`
      describes. */
  lemma SwitchFromArms(visit: Visitor, f1: Fcx, d: nat, av: Value, variants: seq<Variant>)
    requires VisitorWellBehaved(visit) && d < |f1|
    ensures var r := SwitchFrom(visit, f1, d, av, variants);
            r.Done? ==> SwitchArms(r.value, f1, d, av, variants)
  {
    var a := VariantCases(visit, OpenSwitch(f1, d, av), d, av, variants, |f1| + 1, |variants|);
    if a.Done? {
      SwitchLayout(f1, d, av, variants, a.value);
      assert VariantArms(a.value.fcx, a.value.cases, a.value.ends, variants, |f1| + 2, |f1| + 1);
    }
  }

  /** The switch and the blocks around it, once the variants' loop has run
      after `OpenSwitch`. */
  lemma SwitchLayout(f1: Fcx, d: nat, av: Value, variants: seq<Variant>, a: Arms)
    requires d < |f1|
    requires var f5 := OpenSwitch(f1, d, av);
             |f5| + |variants| <= |a.fcx| && |a.cases| == |variants|
             && SwitchExtended(f5[d], a.fcx[d], a.cases)
             && (forall j :: 0 <= j < |f5| && j != d ==> a.fcx[j] == f5[j])
             && VariantArms(a.fcx, a.cases, a.ends, variants, |f5|, |f1| + 1)
    ensures a.fcx[|f1|] == Block("enum-iter-unr", [], Some(Unreachable))
    ensures a.fcx[|f1| + 1] == Block("enum-iter-next", [], None)
    ensures a.fcx[d] == f1[d].(term := Some(Switch(Discrim(av), |f1|, a.cases)))
    ensures forall j :: 0 <= j < |f1| && j != d ==> a.fcx[j] == f1[j]
  {
    var f5 := OpenSwitch(f1, d, av);
    assert [] + a.cases == a.cases;
    assert a.fcx[|f1|] == f5[|f1|];
    assert a.fcx[|f1| + 1] == f5[|f1| + 1];
  }

  // ---------------------------------------------------------------------------
  // A visitor that stays: the layout in full

  /** The visitor that stays where it is: it records the visit as one event
      in the block it is given. */
  function Record(g: Fcx, b: nat, v: Value, t: FieldTy): (r: (Fcx, nat))
    ensures b < |g| ==> Continues(g, b, r) && r.1 == b && |r.0| == |g|
                        && r.0[b] == g[b].(code := g[b].code + [Visit(v, t)])
  {
    if b < |g| then (Append(g, b, Visit(v, t)), b) else (g, b)
  }

  function Recorder(): (r: Visitor)
    ensures VisitorWellBehaved(r)
  {
    Record
  }

  /** With the recording visitor, the fields' visits are appended in order
      to block `cx`, which the walk stays in. */
  lemma {:induction false} VisitFieldsRecorded(f: Fcx, cx: nat, av: Value, discr: nat, tys: seq<FieldTy>, k: nat)
    requires cx < |f| && k <= |tys|
    ensures VisitFields(Recorder(), f, cx, av, discr, tys, k)
            == (f[cx := f[cx].(code := f[cx].code + FieldVisits(av, discr, tys)[..k])], cx)
    decreases k
  {
    var fv := FieldVisits(av, discr, tys);
    if k == 0 {
      assert f[cx].code + fv[..0] == f[cx].code;
      assert f[cx := f[cx]] == f;
    } else {
      VisitFieldsRecorded(f, cx, av, discr, tys, k - 1);
      var g := VisitFields(Recorder(), f, cx, av, discr, tys, k - 1);
      var i := Visit(FieldOf(av, discr, k - 1), tys[k - 1]);
      assert Recorder()(g.0, g.1, FieldOf(av, discr, k - 1), tys[k - 1]) == (Append(g.0, cx, i), cx);
      assert fv[..k] == fv[..k - 1] + [i];
      assert f[cx].code + fv[..k - 1] + [i] == f[cx].code + fv[..k];
      var b := f[cx].(code := f[cx].code + fv[..k]);
      assert Append(g.0, cx, i) == g.0[cx := b];
      assert g.0[cx := b] == f[cx := b];
    }
  }

  /** Structs and tuples, with the recording visitor: the fields are
      visited once each, in declared order, in the block the walk started
      in, which is where it continues; nothing else changes. */
  lemma IterStructuralFieldsRecorded(f: Fcx, cx: nat, av: Value, t: StructTy)
    requires cx < |f| && (t.StructOf? || t.TupleOf?)
    ensures var r := IterStructuralTy(Recorder(), f, cx, av, t);
            var discr := if t.StructOf? then t.discr else 0;
            var tys := if t.StructOf? then t.fields else t.args;
            r.Done? && r.value.1 == cx && |r.value.0| == |f|
            && r.value.0[cx] == f[cx].(code := f[cx].code + FieldVisits(av, discr, tys))
            && forall j :: 0 <= j < |f| && j != cx ==> r.value.0[j] == f[j]
  {
    var tys := if t.StructOf? then t.fields else t.args;
    var discr := if t.StructOf? then t.discr else 0;
    VisitFieldsRecorded(f, cx, av, discr, tys, |tys|);
    assert FieldVisits(av, discr, tys)[..|tys|] == FieldVisits(av, discr, tys);
  }

  /** An enum with a single representation, with the recording visitor:
      variant 0's fields are visited in the block the walk started in, with
      no switch. */
  lemma IterStructuralSingleRecorded(f: Fcx, cx: nat, av: Value, variants: seq<Variant>)
    requires cx < |f| && |variants| > 0
    ensures var r := IterStructuralTy(Recorder(), f, cx, av, EnumOf(SingleShape, variants));
            r.Done? && r.value.1 == cx && |r.value.0| == |f|
            && r.value.0[cx] == f[cx].(code := f[cx].code + FieldVisits(av, variants[0].disr, variants[0].args))
  {
    var v := variants[0];
    VisitFieldsRecorded(f, cx, av, v.disr, v.args, |v.args|);
    assert FieldVisits(av, v.disr, v.args)[..|v.args|] == FieldVisits(av, v.disr, v.args);
  }

  /** The block a variant's case jumps to when the visitor stays: its
      fields visited in order, then a branch to the shared exit. */
  function VariantBlock(av: Value, v: Variant, next: nat): Block
  {
    Block(VariantLabel(v.disr), FieldVisits(av, v.disr, v.args), Some(Br(next)))
  }

  /** With the recording visitor, a variant adds exactly one block: its case
      block, which is also where its walk ends. */
  lemma VariantCaseRecorded(f: Fcx, sw: nat, av: Value, v: Variant, next: nat)
    requires sw < |f| && f[sw].term.Some? && f[sw].term.value.Switch?
    ensures var r := VariantCase(Recorder(), f, sw, av, v, next);
            r.Done? ==> r.value.1 == |f| && |r.value.0| == |f| + 1 && r.value.0[|f|] == VariantBlock(av, v, next)
  {
    if v.singleCase {
      var (f1, vcx) := NewBlock(f, VariantLabel(v.disr));
      var f2 := AddCase(f1, sw, Case(CaseVal(v.disr), vcx));
      VisitFieldsRecorded(f2, vcx, av, v.disr, v.args, |v.args|);
      assert FieldVisits(av, v.disr, v.args)[..|v.args|] == FieldVisits(av, v.disr, v.args);
    }
  }

  /** The cases of the first `k` variants, in order, when each variant adds
      one block. */
  function Cases(variants: seq<Variant>, first: nat, k: nat): (r: seq<Case>)
    requires k <= |variants|
    ensures |r| == k
  {
    seq(k, j requires 0 <= j < k => Case(CaseVal(variants[j].disr), first + j))
  }

  /** The blocks of the first `k` variants sit from `first` on. */
  predicate VariantBlocksAt(r: Fcx, first: nat, av: Value, variants: seq<Variant>, next: nat, k: nat)
    requires k <= |variants| && first + k <= |r|
  {
    forall j :: 0 <= j < k ==> r[first + j] == VariantBlock(av, variants[j], next)
  }

  /** One turn of the loop over variants, unfolded. */
  lemma VariantCasesUnfold(visit: Visitor, f: Fcx, sw: nat, av: Value, variants: seq<Variant>, next: nat, k: nat)
    requires VisitorWellBehaved(visit) && sw < |f| && 0 < k <= |variants|
    requires f[sw].term.Some? && f[sw].term.value.Switch?
    ensures var r := VariantCases(visit, f, sw, av, variants, next, k);
            var a := VariantCases(visit, f, sw, av, variants, next, k - 1);
            r.Done? ==>
              a.Done? && VariantCase(visit, a.value.fcx, sw, av, variants[k - 1], next).Done?
              && var c := VariantCase(visit, a.value.fcx, sw, av, variants[k - 1], next).value;
                 r.value == Arms(c.0, a.value.cases + [Case(CaseVal(variants[k - 1].disr), |a.value.fcx|)], a.value.ends + [c.1])
  {
  }

  /** One turn of the loop over variants with the recording visitor. */
  lemma RecordedStep(f: Fcx, a: Arms, c: (Fcx, nat), sw: nat, av: Value, variants: seq<Variant>, next: nat, k: nat)
    requires sw < |f| && 0 < k <= |variants|
    requires |a.fcx| == |f| + k - 1 && a.cases == Cases(variants, |f|, k - 1)
    requires VariantBlocksAt(a.fcx, |f|, av, variants, next, k - 1)
    requires |c.0| == |a.fcx| + 1 && c.0[|a.fcx|] == VariantBlock(av, variants[k - 1], next)
    requires forall j :: 0 <= j < |a.fcx| && j != sw ==> c.0[j] == a.fcx[j]
    ensures a.cases + [Case(CaseVal(variants[k - 1].disr), |a.fcx|)] == Cases(variants, |f|, k)
    ensures VariantBlocksAt(c.0, |f|, av, variants, next, k)
  {
    assert Cases(variants, |f|, k) == Cases(variants, |f|, k - 1) + [Case(CaseVal(variants[k - 1].disr), |a.fcx|)];
    forall j | 0 <= j < k
      ensures c.0[|f| + j] == VariantBlock(av, variants[j], next)
    {
      if j < k - 1 {
        assert c.0[|f| + j] == a.fcx[|f| + j];
      }
    }
  }

  /** With the recording visitor, the variants' blocks are consecutive, one
      per variant in order, and the cases jump to them. */
  lemma {:induction false} VariantCasesRecorded(f: Fcx, sw: nat, av: Value, variants: seq<Variant>, next: nat, k: nat)
    requires sw < |f| && k <= |variants| && f[sw].term.Some? && f[sw].term.value.Switch?
    ensures var r := VariantCases(Recorder(), f, sw, av, variants, next, k);
            r.Done? ==> |r.value.fcx| == |f| + k && r.value.cases == Cases(variants, |f|, k)
                        && VariantBlocksAt(r.value.fcx, |f|, av, variants, next, k)
    decreases k
  {
    var r := VariantCases(Recorder(), f, sw, av, variants, next, k);
    if k == 0 {
      assert Cases(variants, |f|, 0) == [];
    } else if r.Done? {
      VariantCasesUnfold(Recorder(), f, sw, av, variants, next, k);
      VariantCasesRecorded(f, sw, av, variants, next, k - 1);
      var a := VariantCases(Recorder(), f, sw, av, variants, next, k - 1).value;
      VariantCaseRecorded(a.fcx, sw, av, variants[k - 1], next);
      var c := VariantCase(Recorder(), a.fcx, sw, av, variants[k - 1], next).value;
      RecordedStep(f, a, c, sw, av, variants, next, k);
    }
  }

  /** An enum with a switch, with the recording visitor: the discriminant
      is visited first, then the block closes with a switch whose default
      is an unreachable block and which has one case per variant, in order;
      each case's block visits that variant's fields in order and branches
      to one shared exit block, which is where the code continues. */
  lemma IterStructuralSwitchRecorded(f: Fcx, cx: nat, av: Value, variants: seq<Variant>)
    requires cx < |f|
    ensures var r := IterStructuralTy(Recorder(), f, cx, av, EnumOf(SwitchShape, variants));
            var unr := |f|;
            var next := |f| + 1;
            (r.Done? <==> SingleCases(variants, |variants|))
            && (r.Done? ==>
                  r.value.1 == next && |r.value.0| == |f| + 2 + |variants|
                  && r.value.0[cx] == Block(f[cx].name, f[cx].code + [Visit(Discrim(av), IntType)],
                                            Some(Switch(Discrim(av), unr, Cases(variants, |f| + 2, |variants|))))
                  && r.value.0[unr] == Block("enum-iter-unr", [], Some(Unreachable))
                  && r.value.0[next] == Block("enum-iter-next", [], None)
                  && (forall j :: 0 <= j < |variants| ==> r.value.0[|f| + 2 + j] == VariantBlock(av, variants[j], next))
                  && forall j :: 0 <= j < |f| && j != cx ==> r.value.0[j] == f[j])
  {
    var f1 := Append(f, cx, Visit(Discrim(av), IntType));
    assert Recorder()(f, cx, Discrim(av), IntType) == (f1, cx);
    assert IterStructuralTy(Recorder(), f, cx, av, EnumOf(SwitchShape, variants)) == SwitchFrom(Recorder(), f1, cx, av, variants);
    var f5 := OpenSwitch(f1, cx, av);
    var r := VariantCases(Recorder(), f5, cx, av, variants, |f| + 1, |variants|);
    if r.Done? {
      VariantCasesRecorded(f5, cx, av, variants, |f| + 1, |variants|);
      RecordedSwitchLayout(f, cx, av, variants, r.value);
    }
  }

  /** The blocks of the recorded switch arm, once the variants' loop has
      run after `OpenSwitch`. */
  lemma RecordedSwitchLayout(f: Fcx, cx: nat, av: Value, variants: seq<Variant>, a: Arms)
    requires cx < |f|
    requires var f5 := OpenSwitch(Append(f, cx, Visit(Discrim(av), IntType)), cx, av);
             |a.fcx| == |f5| + |variants| && a.cases == Cases(variants, |f5|, |variants|)
             && VariantBlocksAt(a.fcx, |f5|, av, variants, |f| + 1, |variants|)
             && SwitchExtended(f5[cx], a.fcx[cx], a.cases)
             && (forall j :: 0 <= j < |f5| && j != cx ==> a.fcx[j] == f5[j])
    ensures |a.fcx| == |f| + 2 + |variants|
    ensures a.fcx[cx] == Block(f[cx].name, f[cx].code + [Visit(Discrim(av), IntType)],
                               Some(Switch(Discrim(av), |f|, Cases(variants, |f| + 2, |variants|))))
    ensures a.fcx[|f|] == Block("enum-iter-unr", [], Some(Unreachable))
    ensures a.fcx[|f| + 1] == Block("enum-iter-next", [], None)
    ensures forall j :: 0 <= j < |variants| ==> a.fcx[|f| + 2 + j] == VariantBlock(av, variants[j], |f| + 1)
    ensures forall j :: 0 <= j < |f| && j != cx ==> a.fcx[j] == f[j]
  {
    var f1 := Append(f, cx, Visit(Discrim(av), IntType));
    var f5 := OpenSwitch(f1, cx, av);
    assert f5[cx] == f1[cx].(term := Some(Switch(Discrim(av), |f|, [])));
    assert [] + a.cases == a.cases;
    forall j | 0 <= j < |f| && j != cx
      ensures a.fcx[j] == f[j]
    {
      assert a.fcx[j] == f5[j] == f1[j];
    }
  }

  // ---------------------------------------------------------------------------
  // with_cond

  /** What the conditional code may do: continue in the block it is given
      or in a block of its own, add blocks, and leave every other
      existing block alone. */
  ghost predicate WellBehaved(body: (Fcx, nat) -> (Fcx, nat))
  {
    forall g: Fcx, b: nat {:trigger body(g, b)} :: b < |g| ==> Continues(g, b, body(g, b))
  }

  /** The blocks before the conditional code runs: the exit block, the
      conditional block, and the conditional branch into them. */
  function CondOpen(f: Fcx, bcx: nat, val: Value): (r: Fcx)
    requires bcx < |f|
    ensures |r| == |f| + 2 && r[|f|] == Block("next", [], None) && r[|f| + 1] == Block("cond", [], None)
    ensures r[bcx] == f[bcx].(term := Some(CondBr(val, |f| + 1, |f|)))
    ensures forall k :: 0 <= k < |f| && k != bcx ==> r[k] == f[k]
  {
    var (f1, next) := NewBlock(f, "next");
    var (f2, cond) := NewBlock(f1, "cond");
    Terminate(f2, bcx, CondBr(val, cond, next))
  }

  /** `with_cond`: branch on `val` to the conditional code, which rejoins
      at the exit block unless it ended its last block itself. The whole
      is code that continues, in the exit block. */
  function WithCond(f: Fcx, bcx: nat, val: Value, body: (Fcx, nat) -> (Fcx, nat)): (r: (Fcx, nat))
    requires bcx < |f| && WellBehaved(body)
    ensures r.1 == |f| && r.1 < |r.0|
    ensures Continues(f, bcx, r)
    ensures r.0[bcx] == f[bcx].(term := Some(CondBr(val, |f| + 1, |f|)))
    ensures r.0[|f|] == Block("next", [], None)
    ensures var a := body(CondOpen(f, bcx, val), |f| + 1);
            a.1 < |r.0| && r.0[a.1].term.Some?
            && (a.0[a.1].term.None? ==> r.0[a.1].term == Some(Br(|f|)))
            && (a.0[a.1].term.Some? ==> r.0 == a.0)
  {
    var f3 := CondOpen(f, bcx, val);
    var (f4, after) := body(f3, |f| + 1);
    if f4[after].term.None? then (Terminate(f4, after, Br(|f|)), |f|)
    else (f4, |f|)
  }

  // ---------------------------------------------------------------------------
  // A visitor that moves

  /** The conditional code of `CondVisit`: the recording visitor. */
  function RecordBody(v: Value, t: FieldTy): (r: (Fcx, nat) -> (Fcx, nat))
    ensures WellBehaved(r)
  {
    (g: Fcx, b: nat) => Record(g, b, v, t)
  }

  /** A visitor built on `with_cond`: the visit runs only when the field
      pointer's condition holds, and the walk continues in the exit block
      `with_cond` returns. */
  function CondVisit(g: Fcx, b: nat, v: Value, t: FieldTy): (r: (Fcx, nat))
    ensures b < |g| ==> Continues(g, b, r)
  {
    if b < |g| then WithCond(g, b, v, RecordBody(v, t)) else (g, b)
  }

  function CondVisitor(): (r: Visitor)
    ensures VisitorWellBehaved(r)
  {
    CondVisit
  }

  /** With a visitor that moves, a struct's walk does not stay in the block
      it started in: it continues in the exit block of the last field's
      `with_cond`, and the starting block ends in that field's branch. */
  lemma IterStructuralMoves(f: Fcx, cx: nat, av: Value, discr: nat, t: FieldTy)
    requires cx < |f|
    ensures var r := IterStructuralTy(CondVisitor(), f, cx, av, StructOf(discr, [t]));
            r.Done? && r.value.1 == |f| && r.value.1 != cx
            && r.value.0[cx].term == Some(CondBr(FieldOf(av, discr, 0), |f| + 1, |f|))
  {
    var v := FieldOf(av, discr, 0);
    assert VisitFields(CondVisitor(), f, cx, av, discr, [t], 0) == (f, cx);
    var w := WithCond(f, cx, v, RecordBody(v, t));
    assert CondVisitor()(f, cx, v, t) == w;
    assert VisitFields(CondVisitor(), f, cx, av, discr, [t], 1) == w;
  }

  /** With a visitor that moves, a variant's branch to the join block is
      emitted from the block its walk continues in, not from the variant's
      own block, which ends in the field's conditional branch. */
  lemma VariantCaseMoves(f: Fcx, sw: nat, av: Value, disr: nat, t: FieldTy, next: nat)
    requires sw < |f| && f[sw].term.Some? && f[sw].term.value.Switch?
    ensures var r := VariantCase(CondVisitor(), f, sw, av, Variant(disr, [t], true), next);
            r.Done? && r.value.1 == |f| + 1
            && r.value.0[|f|].term == Some(CondBr(FieldOf(av, disr, 0), |f| + 2, |f| + 1))
            && r.value.0[|f| + 1].term == Some(Br(next))
  {
  }
}

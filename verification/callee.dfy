/** Call lowering in the translation pass (`middle/trans/callee.rs`).

    LLVM values and the code the lowering emits are abstract. The emitted
    code of one function is a trace of instructions; the value an
    instruction produces is named by its position in the trace. Cleanups
    are instructions of their own: `AddClean` schedules the cleanup of a
    value should the task fail, `RevokeClean` cancels it. The questions the
    lowering asks about a type (`type_is_bot`, `type_needs_drop`, the
    datum's appropriate mode, `type_is_immediate`) are answered by fields of
    `Ty`, because the type context is not part of this model. */
module Callee {
  import opened Common

  /** A type, with the answers to the queries the call lowering makes about
      it. Interned types are equal exactly when they are the same type, as
      values of this datatype are. */
  datatype Ty = Ty(id: nat, isBot: bool, needsDrop: bool, byRef: bool, immediate: bool)

  /** The LLVM types the lowering names. */
  datatype LlType =
    | TypeOf(t: Ty)          // `type_of::type_of`
    | ExplicitArgOf(t: Ty)   // `type_of::type_of_explicit_arg`
    | NilPtr                 // `Type::nil().ptr_to()`
    | OpaqueBoxPtr           // `Type::opaque_box(ccx).ptr_to()`
    | BoolType               // `Type::bool()`

  datatype Value =
    | Result(index: nat)     // the value of the instruction at this trace position
    | Undef(ty: LlType)
    | Outer(id: nat)         // a value made by code outside this model
    | BoolConst(b: bool)
    | NullByte               // `C_null(Type::i8())`

  /** Where a datum's value lives: in a register, or behind a pointer. */
  datatype Mode = ByValue | ByRef
  datatype Datum = Datum(val: Value, ty: Ty, mode: Mode)

  /** The two words of a closure pair. */
  datatype FnField = CodeField | BoxField

  datatype Instr =
    | Alloca(llty: LlType, name: string)
    | Store(v: Value, ptr: Value)
    | StoreDatum(src: Datum, dst: Value)      // `store_to_datum(INIT, ..)`
    | Load(ptr: Value)
    | SpillDatum(d: Datum)                    // `to_ref_llval` of a by-value datum
    | PointerCast(v: Value, to: LlType)
    | FieldPtr(pair: Value, field: FnField)   // `GEPi(pair, [0, field])`
    | AddClean(v: Value, cleanTy: Ty)
    | RevokeClean(v: Value)
    | LoopBodyInto(flag: Value, dst: Value)   // `closure::trans_expr_fn` saving into a slot
    | Invoke(f: Value, args: seq<Value>)
    | DropTy(v: Value, dropTy: Ty)              // `glue::drop_ty`
    | LeaveIfFlagged(flag: Value)             // the loop-body return check
    | Unreachable

  type Trace = seq<Instr>

  predicate Prefix<T(==)>(a: seq<T>, b: seq<T>)
  {
    |a| <= |b| && b[..|a|] == a
  }

  /** Emits one instruction; its value is named by its position. */
  function Emit(t: Trace, i: Instr): (r: (Trace, Value))
    ensures r.0 == t + [i] && r.1 == Result(|t|)
  {
    (t + [i], Result(|t|))
  }

  // ------------------------------------------------------------------
  // Cleanups

  /** Whether the cleanup of `v` is scheduled after `t`, when it was
      `before` at the start of `t`: the last cleanup instruction about `v`
      decides. */
  function Scheduled(t: Trace, v: Value, before: bool): bool
    decreases |t|
  {
    if |t| == 0 then before
    else
      var last := t[|t| - 1];
      if last.AddClean? && last.v == v then true
      else if last.RevokeClean? && last.v == v then false
      else Scheduled(t[..|t| - 1], v, before)
  }

  /** The cleanup of `v` is pending at the end of `t`. */
  predicate Live(t: Trace, v: Value)
  {
    Scheduled(t, v, false)
  }

  lemma {:induction false} ScheduledAppend(t: Trace, u: Trace, v: Value, before: bool)
    ensures Scheduled(t + u, v, before) == Scheduled(u, v, Scheduled(t, v, before))
    decreases |u|
  {
    if |u| == 0 {
      assert t + u == t;
    } else {
      assert (t + u)[..|t + u| - 1] == t + u[..|u| - 1];
      ScheduledAppend(t, u[..|u| - 1], v, before);
    }
  }

  /** A trace with no cleanup instruction about `v` leaves its state. */
  lemma {:induction false} ScheduledUntouched(u: Trace, v: Value, before: bool)
    requires forall i :: 0 <= i < |u| ==> !(u[i].AddClean? && u[i].v == v) && !(u[i].RevokeClean? && u[i].v == v)
    ensures Scheduled(u, v, before) == before
    decreases |u|
  {
    if |u| > 0 {
      ScheduledUntouched(u[..|u| - 1], v, before);
    }
  }

  /** A trace that schedules `v`'s cleanup and never revokes it leaves it
      scheduled. */
  lemma {:induction false} ScheduledAdded(u: Trace, v: Value, before: bool, k: nat)
    requires k < |u| && u[k].AddClean? && u[k].v == v
    requires forall i :: 0 <= i < |u| ==> !u[i].RevokeClean?
    ensures Scheduled(u, v, before)
    decreases |u|
  {
    var last := u[|u| - 1];
    if !(last.AddClean? && last.v == v) {
      ScheduledAdded(u[..|u| - 1], v, before, k);
    }
  }

  /** The instructions that revoke each of `vs`, in order. */
  function Revokes(vs: seq<Value>): (r: Trace)
    ensures |r| == |vs| && forall i :: 0 <= i < |vs| ==> r[i] == RevokeClean(vs[i])
  {
    if |vs| == 0 then [] else Revokes(vs[..|vs| - 1]) + [RevokeClean(vs[|vs| - 1])]
  }

  /** After the revocations none of `vs` is scheduled, and nothing else
      changes. */
  lemma {:induction false} RevokesCancel(vs: seq<Value>, v: Value, before: bool)
    ensures Scheduled(Revokes(vs), v, before) == (before && v !in vs)
    decreases |vs|
  {
    if |vs| > 0 {
      var init := vs[..|vs| - 1];
      var r := Revokes(vs);
      assert r[..|r| - 1] == Revokes(init);
      RevokesCancel(init, v, before);
      assert vs == init + [vs[|vs| - 1]];
    }
  }

  // ------------------------------------------------------------------
  // One argument: `trans_arg_expr`

  /** An argument expression, seen through what the lowering asks of it:
      its type, the datum `expr::trans_to_datum` makes of it, and whether
      it is a loop body (`expr_loop_body` around a `fn` block) whose body
      contains a `ret`. */
  datatype ArgExpr = ArgExpr(ty: Ty, datum: Datum, isLoopBody: bool, bodyHasRet: bool)

  /** `ty::SelfMode`. */
  datatype SelfMode = SelfByCopy | SelfByRef

  datatype AutorefArg = DontAutorefArg | DoAutorefArg

  /** The type of the datum an argument is lowered to. */
  function ActualTy(arg: ArgExpr, retFlag: Option<Value>): Ty
  {
    if retFlag.Some? then arg.ty else arg.datum.ty
  }

  /** The datum of an argument. With a return flag the argument must be a
      loop body: it is translated into a fresh slot of its own type, which
      then holds it by reference; any other expression there is an
      impossible case. */
  function ArgDatum(t: Trace, arg: ArgExpr, retFlag: Option<Value>): (r: Outcome<(Trace, Datum)>)
    ensures r.Panic? <==> retFlag.Some? && !arg.isLoopBody
    ensures r.Done? ==> Prefix(t, r.value.0) && r.value.1.ty == ActualTy(arg, retFlag)
    ensures r.Done? && retFlag.None? ==> r.value == (t, arg.datum)
    ensures r.Done? && retFlag.Some? ==>
              |r.value.0| == |t| + 2 && r.value.0[|t|] == Alloca(TypeOf(arg.ty), "__ret_flag")
              && r.value.0[|t| + 1] == LoopBodyInto(retFlag.value, Result(|t|))
              && r.value.1 == Datum(Result(|t|), arg.ty, ByRef)
  {
    match retFlag
    case None => Done((t, arg.datum))
    case Some(flag) =>
      if arg.isLoopBody then
        var (t1, scratch) := Emit(t, Alloca(TypeOf(arg.ty), "__ret_flag"));
        Done((t1 + [LoopBodyInto(flag, scratch)], Datum(scratch, arg.ty, ByRef)))
      else Panic("ret_flag with non-loop-body expr")
  }

  /** `to_ref_llval`: a by-reference datum is its own reference; a by-value
      one is spilled to memory by the datum code, an abstract step here. */
  function ToRefLlval(t: Trace, d: Datum): (r: (Trace, Value))
    ensures Prefix(t, r.0) && |r.0| <= |t| + 1
    ensures d.mode == ByRef ==> r == (t, d.val)
  {
    if d.mode == ByRef then (t, d.val) else Emit(t, SpillDatum(d))
  }

  /** The state `trans_arg_expr` threads: the code so far, the temporary
      cleanups recorded so far, and the value passed. */
  datatype ArgOut = ArgOut(trace: Trace, temps: seq<Value>, val: Value)

  /** Whether the lowering copies the argument into a scratch slot. */
  predicate UsesScratch(d: Datum, mode: SelfMode, autoref: AutorefArg)
  {
    autoref == DontAutorefArg && (mode == SelfByRef || d.ty.needsDrop || d.ty.byRef)
  }

  /** A fresh scratch slot holding `d`, with a cleanup for the slot should
      the task fail before the call, recorded as a temporary cleanup. */
  function ToScratch(t: Trace, temps: seq<Value>, d: Datum, name: string): (r: ArgOut)
    ensures r.temps == temps + [Result(|t|)] && r.val == Result(|t|)
    ensures r.trace == t + [Alloca(TypeOf(d.ty), name), StoreDatum(d, Result(|t|)), AddClean(Result(|t|), d.ty)]
  {
    var (t1, scratch) := Emit(t, Alloca(TypeOf(d.ty), name));
    ArgOut(t1 + [StoreDatum(d, scratch), AddClean(scratch, d.ty)], temps + [scratch], scratch)
  }

  /** How a non-bottom argument is passed. */
  function PassValue(t: Trace, temps: seq<Value>, d: Datum, mode: SelfMode, autoref: AutorefArg): (r: ArgOut)
    ensures UsesScratch(d, mode, autoref) ==>
              var slot := Result(|t|);
              |r.trace| >= |t| + 3 && r.trace[..|t| + 3] == ToScratch(t, temps, d, if mode == SelfByRef then "__self" else "__arg").trace
              && r.temps == temps + [slot]
              && (if mode == SelfByCopy && !d.ty.byRef
                  then r.trace == t + r.trace[|t|..|t| + 3] + [Load(slot)] && r.val == Result(|t| + 3)
                  else |r.trace| == |t| + 3 && r.val == slot)
    ensures !UsesScratch(d, mode, autoref) ==> r.temps == temps && Prefix(t, r.trace) && |r.trace| <= |t| + 1
    ensures !UsesScratch(d, mode, autoref) && autoref == DontAutorefArg ==>
              if d.mode == ByRef then r.trace == t + [Load(d.val)] && r.val == Result(|t|)
              else r.trace == t && r.val == d.val
  {
    match autoref
    case DoAutorefArg =>
      var (t1, v) := ToRefLlval(t, d);
      ArgOut(t1, temps, v)
    case DontAutorefArg =>
      match mode
      case SelfByRef => ToScratch(t, temps, d, "__self")
      case SelfByCopy =>
        if d.ty.needsDrop || d.ty.byRef then
          var s := ToScratch(t, temps, d, "__arg");
          if d.ty.byRef then s
          else
            var (t1, v) := Emit(s.trace, Load(s.val));
            ArgOut(t1, s.temps, v)
        else if d.mode == ByRef then
          var (t1, v) := Emit(t, Load(d.val));
          ArgOut(t1, temps, v)
        else ArgOut(t, temps, d.val)
  }

  /** No cleanup instruction in `t` from position `from` on. */
  predicate Quiet(t: Trace, from: nat)
  {
    forall i :: from <= i < |t| ==> !t[i].AddClean? && !t[i].RevokeClean?
  }

  /** The invariants one argument keeps: the code and the temporary
      cleanups only grow, the new temporaries are fresh values of the new
      code, each has its cleanup scheduled there, every cleanup the new
      code schedules is for a new temporary, and that code revokes
      nothing. */
  predicate ArgStepKeeps(t: Trace, temps: seq<Value>, r: ArgOut)
  {
    Prefix(t, r.trace) && Prefix(temps, r.temps)
    && (forall i :: |temps| <= i < |r.temps| ==> r.temps[i].Result? && |t| <= r.temps[i].index < |r.trace|)
    && (forall i :: |t| <= i < |r.trace| && r.trace[i].AddClean? ==> r.trace[i].v in r.temps[|temps|..])
    && (forall i :: |t| <= i < |r.trace| ==> !r.trace[i].RevokeClean?)
    && (forall j :: |temps| <= j < |r.temps| ==> CleanupAdded(r.trace, |t|, r.temps[j]))
  }

  /** The code from position `from` on schedules the cleanup of `v`. */
  predicate CleanupAdded(t: Trace, from: nat, v: Value)
  {
    exists i :: from <= i < |t| && t[i].AddClean? && t[i].v == v
  }

  lemma PassValueKeeps(t: Trace, temps: seq<Value>, d: Datum, mode: SelfMode, autoref: AutorefArg)
    ensures ArgStepKeeps(t, temps, PassValue(t, temps, d, mode, autoref))
    ensures |PassValue(t, temps, d, mode, autoref).temps| <= |temps| + 1
  {
    var p := PassValue(t, temps, d, mode, autoref);
    if UsesScratch(d, mode, autoref) {
      assert p.trace[|t| + 2] == AddClean(Result(|t|), d.ty);
      assert p.temps[|temps|..] == [Result(|t|)];
    }
  }

  /** Quiet code before and after a step keeps its invariants. */
  lemma KeepsAround(t: Trace, t1: Trace, temps: seq<Value>, p: ArgOut, tail: Trace, v: Value)
    requires Prefix(t, t1) && Quiet(t1, |t|) && ArgStepKeeps(t1, temps, p) && Quiet(tail, 0)
    ensures ArgStepKeeps(t, temps, ArgOut(p.trace + tail, p.temps, v))
  {
    var r := ArgOut(p.trace + tail, p.temps, v);
    assert forall i :: |t| <= i < |t1| ==> r.trace[i] == t1[i];
    assert forall i :: |p.trace| <= i < |r.trace| ==> r.trace[i] == tail[i - |p.trace|];
    forall j | |temps| <= j < |r.temps|
      ensures CleanupAdded(r.trace, |t|, r.temps[j])
    {
      assert CleanupAdded(p.trace, |t1|, p.temps[j]);
      var i :| |t1| <= i < |p.trace| && p.trace[i].AddClean? && p.trace[i].v == p.temps[j];
      assert r.trace[i] == p.trace[i];
    }
  }

  /** `trans_arg_expr`. */
  function TransArgExpr(t: Trace, temps: seq<Value>, formal: Ty, mode: SelfMode, arg: ArgExpr,
                        retFlag: Option<Value>, autoref: AutorefArg): (r: Outcome<ArgOut>)
    ensures r.Panic? <==> retFlag.Some? && !arg.isLoopBody
    ensures r.Done? ==> ArgStepKeeps(t, temps, r.value) && |r.value.temps| <= |temps| + 1
  {
    var (t1, d) :- ArgDatum(t, arg, retFlag);
    assert Quiet(t1, |t|);
    if d.ty.isBot then
      KeepsAround(t, t1, temps, ArgOut(t1, temps, Undef(TypeOf(formal))), [], Undef(TypeOf(formal)));
      assert t1 + [] == t1;
      Done(ArgOut(t1, temps, Undef(TypeOf(formal))))
    else
      var p := PassValue(t1, temps, d, mode, autoref);
      PassValueKeeps(t1, temps, d, mode, autoref);
      if formal != d.ty then
        var cast := [PointerCast(p.val, ExplicitArgOf(formal))];
        KeepsAround(t, t1, temps, p, cast, Result(|p.trace|));
        Done(ArgOut(p.trace + cast, p.temps, Result(|p.trace|)))
      else
        KeepsAround(t, t1, temps, p, [], p.val);
        assert p.trace + [] == p.trace;
        Done(p)
  }

  /** A bottom-typed argument is passed as an undefined value of the
      formal parameter's LLVM type: no scratch slot, no temporary cleanup
      and no cast. */
  lemma TransArgExprBottom(t: Trace, temps: seq<Value>, formal: Ty, mode: SelfMode, arg: ArgExpr,
                           retFlag: Option<Value>, autoref: AutorefArg)
    ensures var r := TransArgExpr(t, temps, formal, mode, arg, retFlag, autoref);
            r.Done? && ActualTy(arg, retFlag).isBot ==>
              r.value.val == Undef(TypeOf(formal)) && r.value.temps == temps
              && |r.value.trace| <= |t| + 2
              && forall k :: |t| <= k < |r.value.trace| ==> !r.value.trace[k].PointerCast? && !r.value.trace[k].AddClean?
  {
  }

  /** For an argument that is not bottom-typed, a pointer cast to the
      formal type is emitted exactly when the formal type differs from the
      actual one, and then the cast value is what is passed. */
  lemma TransArgExprCast(t: Trace, temps: seq<Value>, formal: Ty, mode: SelfMode, arg: ArgExpr,
                         retFlag: Option<Value>, autoref: AutorefArg)
    requires !ActualTy(arg, retFlag).isBot
    ensures var r := TransArgExpr(t, temps, formal, mode, arg, retFlag, autoref);
            r.Done? ==>
              ((exists k :: |t| <= k < |r.value.trace| && r.value.trace[k].PointerCast?) <==> formal != ActualTy(arg, retFlag))
              && (formal != ActualTy(arg, retFlag) ==>
                    r.value.trace[|r.value.trace| - 1].PointerCast?
                    && r.value.trace[|r.value.trace| - 1].to == ExplicitArgOf(formal)
                    && r.value.val == Result(|r.value.trace| - 1))
  {
    var r := TransArgExpr(t, temps, formal, mode, arg, retFlag, autoref);
    if r.Done? {
      var (t1, d) := ArgDatum(t, arg, retFlag).value;
      var p := PassValue(t1, temps, d, mode, autoref);
      ArgDatumNoCast(t, arg, retFlag);
      PassValueNoCast(t1, temps, d, mode, autoref);
      if formal == d.ty {
        assert r.value == p;
      } else {
        assert r.value.trace[|p.trace|].PointerCast?;
      }
    }
  }

  /** The datum of an argument is made without a pointer cast. */
  lemma ArgDatumNoCast(t: Trace, arg: ArgExpr, retFlag: Option<Value>)
    ensures var r := ArgDatum(t, arg, retFlag);
            r.Done? ==> forall k :: |t| <= k < |r.value.0| ==> !r.value.0[k].PointerCast?
  {
  }

  /** Passing a value emits no pointer cast. */
  lemma PassValueNoCast(t: Trace, temps: seq<Value>, d: Datum, mode: SelfMode, autoref: AutorefArg)
    ensures var p := PassValue(t, temps, d, mode, autoref);
            forall k :: |t| <= k < |p.trace| ==> !p.trace[k].PointerCast?
  {
    var p := PassValue(t, temps, d, mode, autoref);
    if UsesScratch(d, mode, autoref) && mode == SelfByCopy && !d.ty.byRef {
      assert p.trace[|t|..] == p.trace[|t|..|t| + 3] + [Load(Result(|t|))];
    }
  }

  // ------------------------------------------------------------------
  // All arguments: `trans_args`

  datatype CallArgs = ArgExprs(exprs: seq<ArgExpr>) | ArgVals(vals: seq<Value>)

  /** The state of the argument loop: the code, the temporary cleanups, and
      the argument vector. */
  datatype ArgsOut = ArgsOut(trace: Trace, temps: seq<Value>, llargs: seq<Value>)

  /** The return flag reaches only the last argument. */
  function FlagFor(exprs: seq<ArgExpr>, i: nat, retFlag: Option<Value>): Option<Value>
  {
    if i == |exprs| - 1 then retFlag else None
  }

  /** Argument `i`, lowered by copy after the ones before it. */
  function ArgStep(t: Trace, prev: ArgsOut, exprs: seq<ArgExpr>, argTys: seq<Ty>, retFlag: Option<Value>,
                   autoref: AutorefArg, i: nat): (r: Outcome<ArgsOut>)
    requires i < |exprs| && ArgStepKeeps(t, [], ArgOut(prev.trace, prev.temps, Undef(NilPtr)))
    ensures r.Panic? <==> i >= |argTys| || (FlagFor(exprs, i, retFlag).Some? && !exprs[i].isLoopBody)
    ensures r.Done? ==> ArgStepKeeps(t, [], ArgOut(r.value.trace, r.value.temps, Undef(NilPtr)))
    ensures r.Done? ==> |r.value.llargs| == |prev.llargs| + 1 && r.value.llargs[..|prev.llargs|] == prev.llargs
    ensures r.Done? && ActualTy(exprs[i], FlagFor(exprs, i, retFlag)).isBot ==>
              r.value.llargs[|prev.llargs|] == Undef(TypeOf(argTys[i]))
  {
    if i >= |argTys| then Panic("index out of bounds")
    else
      var a :- TransArgExpr(prev.trace, prev.temps, argTys[i], SelfByCopy, exprs[i], FlagFor(exprs, i, retFlag), autoref);
      KeepsCompose(t, [], ArgOut(prev.trace, prev.temps, Undef(NilPtr)), a);
      TransArgExprBottom(prev.trace, prev.temps, argTys[i], SelfByCopy, exprs[i], FlagFor(exprs, i, retFlag), autoref);
      Done(ArgsOut(a.trace, a.temps, prev.llargs + [a.val]))
  }

  /** The first `k` arguments, lowered left to right by copy. */
  function BuildArgs(t: Trace, exprs: seq<ArgExpr>, argTys: seq<Ty>, retFlag: Option<Value>,
                     autoref: AutorefArg, llargs: seq<Value>, k: nat): (r: Outcome<ArgsOut>)
    requires k <= |exprs|
    ensures r.Done? ==> ArgStepKeeps(t, [], ArgOut(r.value.trace, r.value.temps, Undef(NilPtr)))
    ensures r.Done? ==> |r.value.llargs| == |llargs| + k && Prefix(llargs, r.value.llargs)
    ensures r.Done? ==> forall i :: 0 <= i < k && ActualTy(exprs[i], FlagFor(exprs, i, retFlag)).isBot ==>
                          i < |argTys| && r.value.llargs[|llargs| + i] == Undef(TypeOf(argTys[i]))
    decreases k
  {
    if k == 0 then
      assert t[..|t|] == t;
      Done(ArgsOut(t, [], llargs))
    else
      var prev :- BuildArgs(t, exprs, argTys, retFlag, autoref, llargs, k - 1);
      ArgStep(t, prev, exprs, argTys, retFlag, autoref, k - 1)
  }

  /** Two steps in a row keep the invariants of one. */
  lemma KeepsCompose(t: Trace, temps: seq<Value>, a: ArgOut, b: ArgOut)
    requires ArgStepKeeps(t, temps, a) && ArgStepKeeps(a.trace, a.temps, b)
    ensures ArgStepKeeps(t, temps, ArgOut(b.trace, b.temps, Undef(NilPtr)))
  {
    assert b.trace[..|t|] == a.trace[..|t|];
    assert b.temps[..|temps|] == a.temps[..|temps|];
    KeepsComposeAdds(t, temps, a, b);
    KeepsComposeScheduled(t, temps, a, b);
  }

  lemma KeepsComposeAdds(t: Trace, temps: seq<Value>, a: ArgOut, b: ArgOut)
    requires ArgStepKeeps(t, temps, a) && ArgStepKeeps(a.trace, a.temps, b)
    ensures forall i :: |t| <= i < |b.trace| && b.trace[i].AddClean? ==> b.trace[i].v in b.temps[|temps|..]
  {
    forall i | |t| <= i < |b.trace| && b.trace[i].AddClean?
      ensures b.trace[i].v in b.temps[|temps|..]
    {
      if i < |a.trace| {
        assert b.trace[i] == a.trace[i];
        var x := a.trace[i].v;
        assert x in a.temps[|temps|..];
        var j :| |temps| <= j < |a.temps| && a.temps[j] == x;
        assert b.temps[j] == x;
      } else {
        assert b.trace[i].v in b.temps[|a.temps|..];
      }
    }
  }

  lemma KeepsComposeScheduled(t: Trace, temps: seq<Value>, a: ArgOut, b: ArgOut)
    requires ArgStepKeeps(t, temps, a) && ArgStepKeeps(a.trace, a.temps, b)
    ensures forall j :: |temps| <= j < |b.temps| ==> CleanupAdded(b.trace, |t|, b.temps[j])
  {
    forall j | |temps| <= j < |b.temps|
      ensures CleanupAdded(b.trace, |t|, b.temps[j])
    {
      if j < |a.temps| {
        assert b.temps[j] == a.temps[j];
        var i :| |t| <= i < |a.trace| && a.trace[i].AddClean? && a.trace[i].v == a.temps[j];
        assert b.trace[i] == a.trace[i];
      }
    }
  }

  /** `trans_args`: the arguments, then the revocation of every temporary
      cleanup recorded while building them. */
  function TransArgs(t: Trace, args: CallArgs, argTys: seq<Ty>, retFlag: Option<Value>,
                     autoref: AutorefArg, llargs: seq<Value>): (r: Outcome<(Trace, seq<Value>)>)
    ensures r.Done? ==> Prefix(t, r.value.0) && Prefix(llargs, r.value.1)
    ensures r.Done? && args.ArgVals? ==> r.value == (t, llargs + args.vals)
    ensures r.Done? && args.ArgExprs? ==> |r.value.1| == |llargs| + |args.exprs|
  {
    match args
    case ArgExprs(exprs) =>
      var b :- BuildArgs(t, exprs, argTys, retFlag, autoref, llargs, |exprs|);
      Done((b.trace + Revokes(b.temps), b.llargs))
    case ArgVals(vs) => Done((t, llargs + vs))
  }

  /** The loop fails on the first argument without a formal type, or when
      the return flag meets a last argument that is not a loop body. */
  lemma {:induction false} BuildArgsPanics(t: Trace, exprs: seq<ArgExpr>, argTys: seq<Ty>, retFlag: Option<Value>,
                                           autoref: AutorefArg, llargs: seq<Value>, k: nat)
    requires k <= |exprs|
    ensures BuildArgs(t, exprs, argTys, retFlag, autoref, llargs, k).Panic? <==>
              k > |argTys| || (k == |exprs| && k > 0 && retFlag.Some? && !exprs[k - 1].isLoopBody)
    decreases k
  {
    if k > 0 {
      BuildArgsPanics(t, exprs, argTys, retFlag, autoref, llargs, k - 1);
      var prev := BuildArgs(t, exprs, argTys, retFlag, autoref, llargs, k - 1);
      if prev.Done? {
        var step := ArgStep(t, prev.value, exprs, argTys, retFlag, autoref, k - 1);
        assert BuildArgs(t, exprs, argTys, retFlag, autoref, llargs, k) == step;
      }
    }
  }

  /** `trans_args` fails exactly when an argument has no formal type or
      the return flag is given and the last argument is not a loop body:
      the flag reaches the last argument only. */
  lemma TransArgsPanics(t: Trace, args: CallArgs, argTys: seq<Ty>, retFlag: Option<Value>,
                        autoref: AutorefArg, llargs: seq<Value>)
    requires args.ArgExprs?
    ensures var n := |args.exprs|;
            TransArgs(t, args, argTys, retFlag, autoref, llargs).Panic? <==>
              n > |argTys| || (n > 0 && retFlag.Some? && !args.exprs[n - 1].isLoopBody)
  {
    BuildArgsPanics(t, args.exprs, argTys, retFlag, autoref, llargs, |args.exprs|);
  }

  /** Argument `i` lands at position `|llargs| + i` of the vector: a
      bottom-typed one as an undefined value of its formal type. */
  lemma TransArgsBottom(t: Trace, args: CallArgs, argTys: seq<Ty>, retFlag: Option<Value>,
                        autoref: AutorefArg, llargs: seq<Value>, i: nat)
    requires args.ArgExprs? && i < |args.exprs| && i < |argTys|
    requires ActualTy(args.exprs[i], FlagFor(args.exprs, i, retFlag)).isBot
    ensures var r := TransArgs(t, args, argTys, retFlag, autoref, llargs);
            r.Done? ==> r.value.1[|llargs| + i] == Undef(TypeOf(argTys[i]))
  {
    var exprs := args.exprs;
    var r := TransArgs(t, args, argTys, retFlag, autoref, llargs);
    if r.Done? {
      var b := BuildArgs(t, exprs, argTys, retFlag, autoref, llargs, |exprs|).value;
    }
  }

  /** After `trans_args` no cleanup made while building the arguments is
      pending, and every cleanup pending before is still pending: the
      cleanup list is back at its state before the call's arguments. */
  lemma TransArgsCleanups(t: Trace, args: CallArgs, argTys: seq<Ty>, retFlag: Option<Value>,
                          autoref: AutorefArg, llargs: seq<Value>, v: Value)
    ensures var r := TransArgs(t, args, argTys, retFlag, autoref, llargs);
            r.Done? ==> (Live(r.value.0, v) ==> Live(t, v))
                        && (Live(t, v) && !(v.Result? && v.index >= |t|) ==> Live(r.value.0, v))
  {
    var r := TransArgs(t, args, argTys, retFlag, autoref, llargs);
    if r.Done? && args.ArgExprs? {
      var b := BuildArgs(t, args.exprs, argTys, retFlag, autoref, llargs, |args.exprs|).value;
      var mid := b.trace[|t|..];
      assert b.trace == t + mid;
      ScheduledAppend(t + mid, Revokes(b.temps), v, false);
      ScheduledAppend(t, mid, v, false);
      RevokesCancel(b.temps, v, Scheduled(mid, v, Live(t, v)));
      if v !in b.temps {
        assert forall i :: 0 <= i < |mid| ==> mid[i] == b.trace[|t| + i];
        ScheduledUntouched(mid, v, Live(t, v));
      }
    }
  }

  // ------------------------------------------------------------------
  // The call: `trans_call_inner` and `trans_ret_slot`

  /** Where a call's result goes. */
  datatype Dest = SaveIn(ptr: Value) | Ignore

  /** The signature of the callee's type: `ty_fn_args` and `ty_fn_ret`. */
  datatype FnTy = FnTy(inputs: seq<Ty>, output: Ty)

  /** What `get_callee` produced: a plain function, a method with its
      receiver (and perhaps a temporary cleanup for it), or a closure
      pair. */
  datatype CalleeData =
    | FnCallee(llfn: Value)
    | MethodCallee(llfn: Value, llself: Value, tempCleanup: Option<Value>)
    | ClosureCallee(pair: Datum)

  /** `trans_ret_slot`: a call saved into a destination passes that
      destination; otherwise an immediate result needs no slot and an
      undefined nil pointer stands in, and any other result gets a fresh
      stack slot of the callee's return type. */
  function RetSlot(t: Trace, fnRet: Ty, dest: Option<Dest>): (r: (Trace, Value))
    ensures Prefix(t, r.0) && Quiet(r.0, |t|)
    ensures (dest.Some? && dest.value.SaveIn?) || fnRet.immediate ==> r.0 == t
    ensures dest.Some? && dest.value.SaveIn? ==> r.1 == dest.value.ptr
    ensures !(dest.Some? && dest.value.SaveIn?) ==>
              if fnRet.immediate then r.1 == Undef(NilPtr)
              else r.1 == Result(|t|) && r.0 == t + [Alloca(TypeOf(fnRet), "__trans_ret_slot")]
  {
    match dest
    case Some(SaveIn(dst)) => (t, dst)
    case _ =>
      if fnRet.immediate then (t, Undef(NilPtr))
      else Emit(t, Alloca(TypeOf(fnRet), "__trans_ret_slot"))
  }

  /** The call passes a loop body whose body returns from the enclosing
      function: its last argument is such a loop body. */
  predicate RetInLoop(args: CallArgs)
  {
    args.ArgExprs? && |args.exprs| > 0
    && args.exprs[|args.exprs| - 1].isLoopBody && args.exprs[|args.exprs| - 1].bodyHasRet
  }

  /** The return flag: a fresh boolean slot initialised to false. */
  function MakeRetFlag(t: Trace, retInLoop: bool): (r: (Trace, Option<Value>))
    ensures Prefix(t, r.0) && Quiet(r.0, |t|)
    ensures r.1.Some? <==> retInLoop
    ensures retInLoop ==> r.1 == Some(Result(|t|)) && |r.0| == |t| + 2
                          && r.0[|t|] == Alloca(BoolType, "__ret_flag") && r.0[|t| + 1] == Store(BoolConst(false), Result(|t|))
  {
    if retInLoop then
      var (t1, flag) := Emit(t, Alloca(BoolType, "__ret_flag"));
      (t1 + [Store(BoolConst(false), flag)], Some(flag))
    else (t, None)
  }

  /** The function to call and the environment word passed with it. */
  function FnAndEnv(t: Trace, callee: CalleeData): (r: (Trace, Value, Value))
    ensures Prefix(t, r.0) && Quiet(r.0, |t|)
    ensures callee.FnCallee? ==> r == (t, callee.llfn, Undef(OpaqueBoxPtr))
    ensures callee.MethodCallee? ==> r == (t, callee.llfn, callee.llself)
    ensures callee.ClosureCallee? ==>
              var n := |r.0|;
              n >= |t| + 4 && r.1 == Result(n - 3) && r.2 == Result(n - 1)
              && r.0[n - 4].FieldPtr? && r.0[n - 4].field == CodeField && r.0[n - 3] == Load(Result(n - 4))
              && r.0[n - 2].FieldPtr? && r.0[n - 2].field == BoxField && r.0[n - 1] == Load(Result(n - 2))
              && r.0[n - 4].pair == r.0[n - 2].pair
  {
    match callee
    case FnCallee(f) => (t, f, Undef(OpaqueBoxPtr))
    case MethodCallee(f, self, _) => (t, f, self)
    case ClosureCallee(d) =>
      var (t1, pair) := ToRefLlval(t, d);
      var (t2, codePtr) := Emit(t1, FieldPtr(pair, CodeField));
      var (t3, f) := Emit(t2, Load(codePtr));
      var (t4, envPtr) := Emit(t3, FieldPtr(pair, BoxField));
      var (t5, env) := Emit(t4, Load(envPtr));
      assert Quiet(t1, |t|);
      (t5, f, env)
  }

  /** The arguments that come before the call's own: the return slot when
      the result is not immediate, then the environment. */
  function LeadingArgs(retTy: Ty, slot: Value, env: Value): (r: seq<Value>)
    ensures |r| == (if retTy.immediate then 1 else 2) && r[|r| - 1] == env
    ensures !retTy.immediate ==> r[0] == slot
  {
    (if !retTy.immediate then [slot] else []) + [env]
  }

  /** A method's receiver cleanup is revoked once the arguments are built. */
  function RevokeSelf(t: Trace, callee: CalleeData): (r: Trace)
    ensures Prefix(t, r) && |r| <= |t| + 1
    ensures callee.MethodCallee? && callee.tempCleanup.Some? ==> r == t + [RevokeClean(callee.tempCleanup.value)]
    ensures !(callee.MethodCallee? && callee.tempCleanup.Some?) ==> r == t
  {
    match callee
    case MethodCallee(_, _, Some(v)) => t + [RevokeClean(v)]
    case _ => t
  }

  /** What becomes of the result after the call. Without a destination the
      result must be immediate. An ignored result that needs dropping is
      dropped, from a fresh slot when it is immediate and from the return
      slot otherwise. An immediate result saved into a destination is
      stored there; a non-immediate one is already there. */
  function SaveResult(t: Trace, retTy: Ty, dest: Option<Dest>, result: Value, slot: Value): (r: Outcome<Trace>)
    ensures r.Panic? <==> dest.None? && !retTy.immediate
    ensures r.Done? ==> Prefix(t, r.value) && Quiet(r.value, |t|)
    ensures r.Done? && dest == Some(Ignore) ==>
              ((exists k :: |t| <= k < |r.value| && r.value[k].DropTy?) <==> retTy.needsDrop)
    ensures r.Done? && dest == Some(Ignore) && retTy.needsDrop && !retTy.immediate ==> r.value == t + [DropTy(slot, retTy)]
    ensures r.Done? && dest.Some? && dest.value.SaveIn? ==>
              r.value == if retTy.immediate then t + [Store(result, dest.value.ptr)] else t
  {
    match dest
    case None =>
      if retTy.immediate then Done(t)
      else Panic("assertion failed: ty::type_is_immediate(bcx.tcx(), ret_ty)")
    case Some(Ignore) =>
      if retTy.needsDrop then
        if retTy.immediate then
          var (t1, scratch) := Emit(t, Alloca(TypeOf(retTy), "__ret"));
          var r := t1 + [Store(result, scratch), DropTy(scratch, retTy)];
          assert r[|t| + 2].DropTy?;
          Done(r)
        else
          var r := t + [DropTy(slot, retTy)];
          assert r[|t|].DropTy?;
          Done(r)
      else Done(t)
    case Some(SaveIn(dst)) =>
      if retTy.immediate then Done(t + [Store(result, dst)]) else Done(t)
  }

  /** After the call: a bottom-typed call does not return; otherwise a
      loop body that returned makes the caller return too. */
  function AfterCall(t: Trace, retTy: Ty, retFlag: Option<Value>): (r: Trace)
    ensures Prefix(t, r) && Quiet(r, |t|)
  {
    if retTy.isBot then t + [Unreachable]
    else if retFlag.Some? then t + [LeaveIfFlagged(retFlag.value)]
    else t
  }

  /** The outcome of a call: the code, the function called, the argument
      vector, whether the call is reached, where the call instruction is
      (the end of the code when it is not reached) and the result value. */
  datatype CallOut = CallOut(trace: Trace, llfn: Value, llargs: seq<Value>, reached: bool, callAt: nat, result: Value)

  /** Some argument is bottom-typed. Such an argument diverges, so once
      the arguments are built the block is terminated: `base::invoke`
      then emits no call and returns a null byte, and the builder emits
      nothing after it. */
  predicate Diverges(args: CallArgs, retFlag: Option<Value>)
  {
    args.ArgExprs? && exists i :: 0 <= i < |args.exprs| && ActualTy(args.exprs[i], FlagFor(args.exprs, i, retFlag)).isBot
  }

  /** The code up to the argument vector's leading part. */
  datatype Prologue = Prologue(trace: Trace, retFlag: Option<Value>, llfn: Value, slot: Value, leading: seq<Value>)

  /** The callee's code, after the return flag. */
  function CalleeParts(t: Trace, callee: CalleeData, args: CallArgs): (r: (Trace, Value, Value))
    ensures Prefix(t, r.0) && Quiet(r.0, |t|)
    ensures r == FnAndEnv(MakeRetFlag(t, RetInLoop(args)).0, callee)
    ensures callee.ClosureCallee? ==> LoadsField(r.0, r.1, CodeField) && LoadsField(r.0, r.2, BoxField)
  {
    var t1 := MakeRetFlag(t, RetInLoop(args)).0;
    QuietTrans(t, t1, FnAndEnv(t1, callee).0);
    FnAndEnv(t1, callee)
  }

  function CallPrologue(t: Trace, fnTy: FnTy, retTy: Ty, callee: CalleeData, args: CallArgs, dest: Option<Dest>): (r: Prologue)
    ensures Prefix(t, r.trace) && Quiet(r.trace, |t|)
    ensures Prefix(CalleeParts(t, callee, args).0, r.trace)
    ensures r.retFlag.Some? <==> RetInLoop(args)
    ensures r.leading == LeadingArgs(retTy, r.slot, CalleeParts(t, callee, args).2)
    ensures r.llfn == CalleeParts(t, callee, args).1
    ensures r.slot == RetSlot(CalleeParts(t, callee, args).0, fnTy.output, dest).1
    ensures r.retFlag == MakeRetFlag(t, RetInLoop(args)).1
  {
    var (t1, retFlag) := MakeRetFlag(t, RetInLoop(args));
    var (t2, llfn, llenv) := CalleeParts(t, callee, args);
    var (t3, slot) := RetSlot(t2, fnTy.output, dest);
    QuietTrans(t, t2, t3);
    Prologue(t3, retFlag, llfn, slot, LeadingArgs(retTy, slot, llenv))
  }

  lemma QuietTrans(a: Trace, b: Trace, c: Trace)
    requires Prefix(a, b) && Quiet(b, |a|) && Prefix(b, c) && Quiet(c, |b|)
    ensures Prefix(a, c) && Quiet(c, |a|)
  {
    assert c[..|a|] == c[..|b|][..|a|];
    assert forall i :: |a| <= i < |b| ==> c[i] == b[i];
  }

  /** Code that schedules and revokes nothing leaves every cleanup as it was. */
  lemma QuietScheduled(a: Trace, b: Trace, v: Value, before: bool)
    requires Prefix(a, b) && Quiet(b, |a|)
    ensures Scheduled(b, v, before) == Scheduled(a, v, before)
  {
    var mid := b[|a|..];
    assert b == a + mid;
    ScheduledAppend(a, mid, v, before);
    assert forall i :: 0 <= i < |mid| ==> mid[i] == b[|a| + i];
    ScheduledUntouched(mid, v, Scheduled(a, v, before));
  }

  lemma PrefixTrans<T>(a: seq<T>, b: seq<T>, c: seq<T>)
    requires Prefix(a, b) && Prefix(b, c)
    ensures Prefix(a, c)
  {
    assert c[..|a|] == c[..|b|][..|a|];
  }

  /** `trans_call_inner` once the prologue is made: the arguments, the
      receiver's cleanup, then, unless an argument diverged, the call and
      what follows it. The `assert!` on a result with no destination runs
      either way. */
  function CallRest(p: Prologue, fnTy: FnTy, retTy: Ty, callee: CalleeData, args: CallArgs,
                    dest: Option<Dest>, autoref: AutorefArg): (r: Outcome<CallOut>)
    ensures r.Panic? <==> TransArgs(p.trace, args, fnTy.inputs, p.retFlag, autoref, p.leading).Panic?
                          || (dest.None? && !retTy.immediate)
    ensures r.Done? ==> r.value.reached == !Diverges(args, p.retFlag)
                        && Prefix(p.trace, r.value.trace) && r.value.llfn == p.llfn
    ensures r.Done? && r.value.reached ==>
              r.value.callAt < |r.value.trace|
              && r.value.trace[r.value.callAt] == Invoke(r.value.llfn, r.value.llargs)
              && r.value.result == Result(r.value.callAt)
    ensures r.Done? && !r.value.reached ==> r.value.callAt == |r.value.trace| && r.value.result == NullByte
    ensures r.Done? ==> var a := TransArgs(p.trace, args, fnTy.inputs, p.retFlag, autoref, p.leading).value;
                        r.value.callAt <= |r.value.trace|
                        && r.value.llargs == a.1 && r.value.trace[..r.value.callAt] == RevokeSelf(a.0, callee)
  {
    var built :- TransArgs(p.trace, args, fnTy.inputs, p.retFlag, autoref, p.leading);
    var (t4, llargs) := built;
    var t5 := RevokeSelf(t4, callee);
    PrefixTrans(p.trace, t4, t5);
    if Diverges(args, p.retFlag) then
      if dest.None? && !retTy.immediate then Panic("assertion failed: ty::type_is_immediate(bcx.tcx(), ret_ty)")
      else
        assert t5[..|t5|] == t5;
        Done(CallOut(t5, p.llfn, llargs, false, |t5|, NullByte))
    else
      var (t6, result) := Emit(t5, Invoke(p.llfn, llargs));
      var t7 :- SaveResult(t6, retTy, dest, result, p.slot);
      var t8 := AfterCall(t7, retTy, p.retFlag);
      assert t8[|t5|] == t7[|t5|] == t6[|t5|];
      assert t8[..|t5|] == t7[..|t5|][..|t5|];
      PrefixTrans(p.trace, t5, t6);
      PrefixTrans(p.trace, t6, t7);
      PrefixTrans(p.trace, t7, t8);
      Done(CallOut(t8, p.llfn, llargs, true, |t5|, result))
  }

  /** `trans_call_inner`, from the callee on. The call instruction is
      emitted exactly when no argument is bottom-typed; otherwise the code
      ends with the arguments and the result is a null byte. */
  function CallInner(t: Trace, fnTy: FnTy, retTy: Ty, callee: CalleeData, args: CallArgs,
                     dest: Option<Dest>, autoref: AutorefArg): (r: Outcome<CallOut>)
    ensures r.Done? ==> Prefix(t, r.value.trace) && r.value.callAt <= |r.value.trace|
                        && (r.value.reached <==> !Diverges(args, MakeRetFlag(t, RetInLoop(args)).1))
    ensures r.Done? && r.value.reached ==>
              r.value.callAt < |r.value.trace|
              && r.value.trace[r.value.callAt] == Invoke(r.value.llfn, r.value.llargs)
              && r.value.result == Result(r.value.callAt)
    ensures r.Done? && !r.value.reached ==>
              r.value.callAt == |r.value.trace| && r.value.result == NullByte
  {
    var p := CallPrologue(t, fnTy, retTy, callee, args, dest);
    var r := CallRest(p, fnTy, retTy, callee, args, dest, autoref);
    if r.Done? then PrefixTrans(t, p.trace, r.value.trace); r else r
  }

  /** An argument before the last whose datum is bottom-typed, such as a
      `fail!()`, stops the call from being emitted: the code ends with
      the arguments, with no call instruction and no store of a result. */
  lemma CallInnerBottomArg(t: Trace, fnTy: FnTy, retTy: Ty, callee: CalleeData, args: CallArgs,
                           dest: Option<Dest>, autoref: AutorefArg, i: nat)
    requires args.ArgExprs? && i + 1 < |args.exprs| && args.exprs[i].datum.ty.isBot
    ensures var r := CallInner(t, fnTy, retTy, callee, args, dest, autoref);
            r.Done? ==> !r.value.reached && r.value.callAt == |r.value.trace| && r.value.result == NullByte
  {
    var flag := MakeRetFlag(t, RetInLoop(args)).1;
    assert ActualTy(args.exprs[i], FlagFor(args.exprs, i, flag)).isBot;
  }

  /** The call fails only when an argument has no formal type or when a
      non-immediate result has nowhere to go. In particular the return
      flag is made only when the last argument is a loop body, so the
      impossible case in the argument lowering stays impossible. */
  lemma CallInnerPanics(t: Trace, fnTy: FnTy, retTy: Ty, callee: CalleeData, args: CallArgs,
                        dest: Option<Dest>, autoref: AutorefArg)
    ensures CallInner(t, fnTy, retTy, callee, args, dest, autoref).Panic? <==>
              (args.ArgExprs? && |args.exprs| > |fnTy.inputs|) || (dest.None? && !retTy.immediate)
  {
    var p := CallPrologue(t, fnTy, retTy, callee, args, dest);
    if args.ArgExprs? {
      TransArgsPanics(p.trace, args, fnTy.inputs, p.retFlag, autoref, p.leading);
    }
  }

  /** The return slot leads the argument vector exactly when the result
      is not immediate: the destination itself when the call saves into
      one, a fresh slot of the callee's return type otherwise. */
  lemma CallInnerSlot(t: Trace, fnTy: FnTy, retTy: Ty, callee: CalleeData, args: CallArgs,
                      dest: Option<Dest>, autoref: AutorefArg)
    ensures var r := CallInner(t, fnTy, retTy, callee, args, dest, autoref);
            r.Done? && !retTy.immediate ==>
              (dest.Some? && dest.value.SaveIn? ==> r.value.llargs[0] == dest.value.ptr)
              && (dest == Some(Ignore) && !fnTy.output.immediate ==>
                    r.value.llargs[0].Result? && r.value.llargs[0].index < |r.value.trace|
                    && r.value.trace[r.value.llargs[0].index] == Alloca(TypeOf(fnTy.output), "__trans_ret_slot"))
  {
    var p := CallPrologue(t, fnTy, retTy, callee, args, dest);
    var r := CallRest(p, fnTy, retTy, callee, args, dest, autoref);
    if r.Done? && !retTy.immediate {
      assert r.value.llargs[0] == p.leading[0] == p.slot;
      if dest == Some(Ignore) && !fnTy.output.immediate {
        var k := p.slot.index;
        assert r.value.trace[k] == p.trace[k];
      }
    }
  }

  /** The environment word follows the return slot, or leads when there is
      none: undefined for a plain function, the receiver for a method
      (self travels in the environment slot), and the loaded box word for
      a closure, whose code word is the function called. */
  lemma CallInnerEnv(t: Trace, fnTy: FnTy, retTy: Ty, callee: CalleeData, args: CallArgs,
                     dest: Option<Dest>, autoref: AutorefArg)
    ensures var r := CallInner(t, fnTy, retTy, callee, args, dest, autoref);
            var envAt := if retTy.immediate then 0 else 1;
            r.Done? ==>
              envAt < |r.value.llargs|
              && (callee.FnCallee? ==> r.value.llargs[envAt] == Undef(OpaqueBoxPtr) && r.value.llfn == callee.llfn)
              && (callee.MethodCallee? ==> r.value.llargs[envAt] == callee.llself && r.value.llfn == callee.llfn)
              && (callee.ClosureCallee? ==>
                    LoadsField(r.value.trace, r.value.llargs[envAt], BoxField)
                    && LoadsField(r.value.trace, r.value.llfn, CodeField))
  {
    var p := CallPrologue(t, fnTy, retTy, callee, args, dest);
    var r := CallRest(p, fnTy, retTy, callee, args, dest, autoref);
    if r.Done? {
      var envAt := if retTy.immediate then 0 else 1;
      assert r.value.llargs[envAt] == p.leading[envAt];
      if callee.ClosureCallee? {
        var f := CalleeParts(t, callee, args);
        PrefixTrans(f.0, p.trace, r.value.trace);
        LoadsFieldKept(f.0, r.value.trace, f.1, CodeField);
        LoadsFieldKept(f.0, r.value.trace, f.2, BoxField);
      }
    }
  }

  /** `v` is loaded from a field of a closure pair. */
  predicate LoadsField(t: Trace, v: Value, field: FnField)
  {
    v.Result? && 1 <= v.index < |t| && t[v.index] == Load(Result(v.index - 1))
    && t[v.index - 1].FieldPtr? && t[v.index - 1].field == field
  }

  lemma LoadsFieldKept(a: Trace, b: Trace, v: Value, field: FnField)
    requires Prefix(a, b) && LoadsField(a, v, field)
    ensures LoadsField(b, v, field)
  {
    assert b[v.index] == a[v.index] && b[v.index - 1] == a[v.index - 1];
  }

  /** The call's own arguments follow the environment word: one value per
      argument expression, or the given values verbatim. */
  lemma CallInnerArgs(t: Trace, fnTy: FnTy, retTy: Ty, callee: CalleeData, args: CallArgs,
                      dest: Option<Dest>, autoref: AutorefArg)
    ensures var r := CallInner(t, fnTy, retTy, callee, args, dest, autoref);
            var lead := if retTy.immediate then 1 else 2;
            r.Done? ==>
              |r.value.llargs| == lead + (if args.ArgExprs? then |args.exprs| else |args.vals|)
              && (args.ArgVals? ==> r.value.llargs[lead..] == args.vals)
  {
  }

  /** When the call instruction is reached no cleanup made for the call is
      pending: the argument temporaries and the method receiver's
      temporary are revoked, and nothing pending before is lost. */
  lemma CallInnerCleanups(t: Trace, fnTy: FnTy, retTy: Ty, callee: CalleeData, args: CallArgs,
                          dest: Option<Dest>, autoref: AutorefArg, v: Value)
    ensures var r := CallInner(t, fnTy, retTy, callee, args, dest, autoref);
            r.Done? ==>
              (Live(r.value.trace[..r.value.callAt], v) ==> Live(t, v))
              && (callee.MethodCallee? && callee.tempCleanup == Some(v) ==> !Live(r.value.trace[..r.value.callAt], v))
  {
    var p := CallPrologue(t, fnTy, retTy, callee, args, dest);
    CallRestCleanups(p, fnTy, retTy, callee, args, dest, autoref, v);
    QuietScheduled(t, p.trace, v, false);
  }

  /** `CallInnerCleanups` from the end of the prologue. */
  lemma CallRestCleanups(p: Prologue, fnTy: FnTy, retTy: Ty, callee: CalleeData, args: CallArgs,
                         dest: Option<Dest>, autoref: AutorefArg, v: Value)
    ensures var r := CallRest(p, fnTy, retTy, callee, args, dest, autoref);
            r.Done? ==>
              (Live(r.value.trace[..r.value.callAt], v) ==> Live(p.trace, v))
              && (callee.MethodCallee? && callee.tempCleanup == Some(v) ==> !Live(r.value.trace[..r.value.callAt], v))
  {
    var a := TransArgs(p.trace, args, fnTy.inputs, p.retFlag, autoref, p.leading);
    if a.Done? {
      TransArgsCleanups(p.trace, args, fnTy.inputs, p.retFlag, autoref, p.leading, v);
      RevokeSelfCleanups(a.value.0, callee, v);
    }
  }

  /** Revoking the receiver's cleanup schedules nothing and leaves the
      receiver's temporary with no pending cleanup. */
  lemma RevokeSelfCleanups(t: Trace, callee: CalleeData, v: Value)
    ensures Live(RevokeSelf(t, callee), v) ==> Live(t, v)
    ensures callee.MethodCallee? && callee.tempCleanup == Some(v) ==> !Live(RevokeSelf(t, callee), v)
  {
    if callee.MethodCallee? && callee.tempCleanup.Some? {
      ScheduledAppend(t, [RevokeClean(callee.tempCleanup.value)], v, false);
    }
  }
}

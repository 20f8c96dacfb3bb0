/** Declarations and function set-up in `trans/base.rs`.

    The module being built is a log of declarations; a declared value is
    its position in the log. `get_extern_fn` and `get_extern_const`
    memoise declarations by name in the crate's extern map,
    `note_unique_llvm_symbol` refuses a symbol seen before, and
    `decl_rust_fn` places the Rust arguments after the out-pointer and
    the environment and marks their aliasing. `init_function` decides
    whether the function gets a return pointer and `build_return_block`
    how it returns. */
module BaseDecl {
  import opened Common

  /** A declaration in the module. */
  datatype Decl =
    | DeclFn(name: string, callConv: nat, fnTy: nat)
    | AddGlobal(name: string, globalTy: nat)

  /** A declared value: the declaration at that position. */
  datatype Declared = Declared(index: nat)

  /** The module so far and the crate's extern map. */
  datatype Externs = Externs(decls: seq<Decl>, byName: map<string, Declared>)

  /** Every memoised name refers to a declaration of that name. */
  predicate Consistent(e: Externs)
  {
    forall n :: n in e.byName ==> e.byName[n].index < |e.decls| && e.decls[e.byName[n].index].name == n
  }

  /** Get or insert: the stored value when the name is known, otherwise
      a new declaration, remembered under the name. */
  function GetOrDeclare(e: Externs, d: Decl): (r: (Externs, Declared))
    ensures d.name in e.byName ==> r == (e, e.byName[d.name])
    ensures d.name !in e.byName ==>
              r.0.decls == e.decls + [d] && r.1 == Declared(|e.decls|)
              && r.0.byName == e.byName[d.name := r.1]
  {
    if d.name in e.byName then (e, e.byName[d.name])
    else
      var v := Declared(|e.decls|);
      (Externs(e.decls + [d], e.byName[d.name := v]), v)
  }

  /** `get_extern_fn`. */
  function GetExternFn(e: Externs, name: string, callConv: nat, fnTy: nat): (r: (Externs, Declared))
    ensures Consistent(e) ==> Consistent(r.0) && r.1.index < |r.0.decls| && r.0.decls[r.1.index].name == name
    ensures name in e.byName ==> r == (e, e.byName[name])
    ensures name !in e.byName ==> r.0.decls == e.decls + [DeclFn(name, callConv, fnTy)]
  {
    GetOrDeclare(e, DeclFn(name, callConv, fnTy))
  }

  /** `get_extern_const`. */
  function GetExternConst(e: Externs, name: string, globalTy: nat): (r: (Externs, Declared))
    ensures Consistent(e) ==> Consistent(r.0) && r.1.index < |r.0.decls| && r.0.decls[r.1.index].name == name
    ensures name in e.byName ==> r == (e, e.byName[name])
    ensures name !in e.byName ==> r.0.decls == e.decls + [AddGlobal(name, globalTy)]
  {
    GetOrDeclare(e, AddGlobal(name, globalTy))
  }

  /** Asking again for the same name returns the same value and declares
      nothing, whatever type the second request gives. */
  lemma GetExternFnIdempotent(e: Externs, name: string, cc1: nat, ty1: nat, cc2: nat, ty2: nat)
    ensures var (e1, v1) := GetExternFn(e, name, cc1, ty1);
            GetExternFn(e1, name, cc2, ty2) == (e1, v1)
  {
  }

  /** The same for constants. */
  lemma GetExternConstIdempotent(e: Externs, name: string, ty1: nat, ty2: nat)
    ensures var (e1, v1) := GetExternConst(e, name, ty1);
            GetExternConst(e1, name, ty2) == (e1, v1)
  {
  }

  /** Requesting a list of names: the log gains at most one declaration
      per name, keeps what it had, and every name is then known. */
  function GetExternFns(e: Externs, names: seq<string>, callConv: nat, fnTy: nat): (r: Externs)
    ensures Consistent(e) ==> Consistent(r)
    ensures |e.decls| <= |r.decls| <= |e.decls| + |names| && r.decls[..|e.decls|] == e.decls
    ensures forall i :: 0 <= i < |names| ==> names[i] in r.byName
    ensures forall n :: n in e.byName ==> n in r.byName && r.byName[n] == e.byName[n]
    decreases |names|
  {
    if |names| == 0 then e
    else
      var e1 := GetExternFn(e, names[0], callConv, fnTy).0;
      var r := GetExternFns(e1, names[1..], callConv, fnTy);
      assert forall i :: 1 <= i < |names| ==> names[i] == names[1..][i - 1];
      assert r.decls[..|e.decls|] == r.decls[..|e1.decls|][..|e.decls|];
      r
  }

  /** Names known already declare nothing. */
  lemma {:induction false} GetExternFnsKnown(e: Externs, names: seq<string>, callConv: nat, fnTy: nat)
    requires forall i :: 0 <= i < |names| ==> names[i] in e.byName
    ensures GetExternFns(e, names, callConv, fnTy) == e
    decreases |names|
  {
    if |names| > 0 {
      assert names[0] in e.byName;
      assert forall i :: 1 <= i < |names| ==> names[i] == names[1..][i - 1];
      GetExternFnsKnown(e, names[1..], callConv, fnTy);
    }
  }

  /** Requesting the same names a second time changes nothing. */
  lemma GetExternFnsTwice(e: Externs, names: seq<string>, callConv: nat, fnTy: nat)
    ensures var e1 := GetExternFns(e, names, callConv, fnTy);
            GetExternFns(e1, names, callConv, fnTy) == e1
  {
    GetExternFnsKnown(GetExternFns(e, names, callConv, fnTy), names, callConv, fnTy);
  }

  // ---- note_unique_llvm_symbol ----

  /** `note_unique_llvm_symbol`: a symbol declared twice is a compiler bug. */
  function NoteUniqueLlvmSymbol(symbols: set<string>, sym: string): (r: Outcome<set<string>>)
    ensures r.Panic? <==> sym in symbols
    ensures r.Panic? ==> r.message == "duplicate LLVM symbol: " + sym
    ensures r.Done? ==> r.value == symbols + {sym}
  {
    if sym in symbols then Panic("duplicate LLVM symbol: " + sym)
    else Done(symbols + {sym})
  }

  /** Noting symbols one after another. */
  function NoteAll(symbols: set<string>, syms: seq<string>): (r: Outcome<set<string>>)
    decreases |syms|
  {
    if |syms| == 0 then Done(symbols)
    else
      var s1 :- NoteUniqueLlvmSymbol(symbols, syms[0]);
      NoteAll(s1, syms[1..])
  }

  predicate Distinct(syms: seq<string>)
  {
    forall i, j :: 0 <= i < j < |syms| ==> syms[i] != syms[j]
  }

  /** A run of declarations succeeds exactly when its symbols are
      pairwise distinct and none was declared before; the set then holds
      every symbol. */
  lemma {:induction false} NoteAllSucceeds(symbols: set<string>, syms: seq<string>)
    ensures NoteAll(symbols, syms).Done? <==>
              Distinct(syms) && forall i :: 0 <= i < |syms| ==> syms[i] !in symbols
    ensures NoteAll(symbols, syms).Done? ==> NoteAll(symbols, syms).value == symbols + (set s | s in syms)
    decreases |syms|
  {
    if |syms| > 0 {
      var tail := syms[1..];
      assert forall i :: 1 <= i < |syms| ==> syms[i] == tail[i - 1];
      if syms[0] in symbols {
      } else {
        NoteAllSucceeds(symbols + {syms[0]}, tail);
        assert (set s | s in syms) == {syms[0]} + (set s | s in tail);
        if Distinct(syms) && forall i :: 0 <= i < |syms| ==> syms[i] !in symbols {
          assert forall i :: 0 <= i < |tail| ==> tail[i] != syms[0] && tail[i] !in symbols;
        }
        if !Distinct(syms) {
          var i, j :| 0 <= i < j < |syms| && syms[i] == syms[j];
          if i == 0 {
            assert tail[j - 1] in symbols + {syms[0]};
          } else {
            assert tail[i - 1] == tail[j - 1];
          }
        }
      }
    }
  }

  // ---- decl_rust_fn ----

  /** An argument type as the attribute choice sees it: an owned pointer
      (`~T`, `~[T]`, `~str`, an owned closure), a reference with an
      anonymous lifetime, or anything else, immediate or not. */
  datatype ArgTy = OwnedPtr | AnonRef | OtherArg(immediate: bool)

  datatype Attr = NoAlias | NoCapture | StructRet

  /** What a parameter of the declared function is. */
  datatype ParamRole = OutPtr | Env | RustArg(index: nat)

  datatype Param = Param(role: ParamRole, attrs: set<Attr>)

  /** Where Rust argument `i` sits among the LLVM parameters. */
  function ArgPos(usesOutptr: bool, hasEnv: bool, i: nat): nat
  {
    (if usesOutptr then 1 else 0) + (if hasEnv then 1 else 0) + i
  }

  /** The attributes `decl_rust_fn` gives an argument. */
  function ArgAttrs(t: ArgTy): set<Attr>
  {
    match t
    case OwnedPtr => {NoAlias}
    case AnonRef => {NoCapture}
    case OtherArg(immediate) => if immediate then {} else {NoAlias, NoCapture}
  }

  /** The parameters of the declared function: the out-pointer when the
      return uses one, then the environment when there is one, then the
      Rust arguments. */
  function DeclRustFn(usesOutptr: bool, hasEnv: bool, inputs: seq<ArgTy>): (r: seq<Param>)
    ensures |r| == ArgPos(usesOutptr, hasEnv, |inputs|)
    ensures forall i :: 0 <= i < |inputs| ==>
              r[ArgPos(usesOutptr, hasEnv, i)] == Param(RustArg(i), ArgAttrs(inputs[i]))
    ensures usesOutptr ==> r[0] == Param(OutPtr, {StructRet, NoAlias})
    ensures hasEnv ==> r[ArgPos(usesOutptr, false, 0)].role == Env
  {
    var lead := (if usesOutptr then [Param(OutPtr, {StructRet, NoAlias})] else [])
                + (if hasEnv then [Param(Env, {})] else []);
    lead + seq(|inputs|, i requires 0 <= i < |inputs| => Param(RustArg(i), ArgAttrs(inputs[i])))
  }

  /** Every parameter has one role: the positions of the Rust arguments
      are distinct and miss the out-pointer and the environment. */
  lemma DeclRustFnRoles(usesOutptr: bool, hasEnv: bool, inputs: seq<ArgTy>, p: nat, q: nat)
    requires p < q < |DeclRustFn(usesOutptr, hasEnv, inputs)|
    ensures DeclRustFn(usesOutptr, hasEnv, inputs)[p].role != DeclRustFn(usesOutptr, hasEnv, inputs)[q].role
  {
    var r := DeclRustFn(usesOutptr, hasEnv, inputs);
    var off := ArgPos(usesOutptr, hasEnv, 0);
    if q >= off {
      assert r[q] == Param(RustArg(q - off), ArgAttrs(inputs[q - off]));
      if p >= off {
        assert r[p] == Param(RustArg(p - off), ArgAttrs(inputs[p - off]));
      }
    }
  }

  /** Arguments that may alias: an immediate value that is neither an owned
      pointer nor an anonymous reference gets no attribute; an owned
      pointer and a non-immediate copy are never aliased. */
  lemma DeclRustFnNoAlias(usesOutptr: bool, hasEnv: bool, inputs: seq<ArgTy>, i: nat)
    requires i < |inputs|
    ensures var a := DeclRustFn(usesOutptr, hasEnv, inputs)[ArgPos(usesOutptr, hasEnv, i)].attrs;
            (NoAlias in a <==> inputs[i] == OwnedPtr || inputs[i] == OtherArg(false))
            && (NoCapture in a <==> inputs[i] == AnonRef || inputs[i] == OtherArg(false))
            && StructRet !in a
  {
  }

  // ---- init_function and build_return_block ----

  /** Where the return value goes: the caller's out-pointer (parameter 0)
      or a local slot. */
  datatype RetPtr = OutPtrParam | ReturnAlloca

  /** What the function's set-up decides. */
  datatype FnCtxt = FnCtxt(entry: seq<string>, llretptr: Option<RetPtr>, callerExpectsOutPointer: bool)

  /** `make_return_pointer`. */
  function MakeReturnPointer(usesOutptr: bool): (r: RetPtr)
    ensures r == OutPtrParam <==> usesOutptr
  {
    if usesOutptr then OutPtrParam else ReturnAlloca
  }

  /** The placeholder load `init_function` puts in the entry block: every
      alloca is inserted before it, and it is removed when the function is
      finished. */
  const AllocaInsertPt: string := "load null"

  predicate IsAlloca(inst: string)
  {
    |inst| >= 7 && inst[..7] == "alloca "
  }

  /** The entry block in block order: allocas, then the placeholder last. */
  predicate AllocasThenPlaceholder(entry: seq<string>)
  {
    && |entry| >= 1
    && entry[|entry| - 1] == AllocaInsertPt
    && forall i :: 0 <= i < |entry| - 1 ==> IsAlloca(entry[i])
  }

  /** `Alloca`: a named slot inserted at the alloca insertion point, that
      is, just before the placeholder. */
  function AllocaBefore(entry: seq<string>, name: string): (r: seq<string>)
    requires AllocasThenPlaceholder(entry)
    ensures AllocasThenPlaceholder(r)
    ensures |r| == |entry| + 1 && r[|entry| - 1] == "alloca " + name
    ensures r[..|entry| - 1] == entry[..|entry| - 1]
  {
    var r := entry[..|entry| - 1] + ["alloca " + name, AllocaInsertPt];
    assert ("alloca " + name)[..7] == "alloca ";
    r
  }

  /** `new_fn_ctxt` and `init_function`: the entry block holds the
      placeholder load the allocas go before, and the return slot's alloca
      when there is one; a return pointer exists for a non-void result
      unless the caller asked to skip it and does not pass an out-pointer.
      Whether the (substituted) output type is void and whether it is
      returned through an out-pointer are inputs. */
  function InitFunction(skipRetptr: bool, returnIsVoid: bool, usesOutptr: bool): (r: FnCtxt)
    ensures r.llretptr.Some? <==> !returnIsVoid && (!skipRetptr || usesOutptr)
    ensures r.llretptr.Some? ==> (r.llretptr.value == OutPtrParam <==> usesOutptr)
    ensures r.callerExpectsOutPointer == usesOutptr
    ensures AllocasThenPlaceholder(r.entry)
    ensures r.llretptr == Some(ReturnAlloca) <==> "alloca __make_return_pointer" in r.entry
    ensures r.llretptr != Some(ReturnAlloca) ==> r.entry == [AllocaInsertPt]
  {
    var entry := [AllocaInsertPt];
    if !returnIsVoid && (!skipRetptr || usesOutptr) then
      var p := MakeReturnPointer(usesOutptr);
      var entry := if p == ReturnAlloca then AllocaBefore(entry, "__make_return_pointer") else entry;
      assert p == ReturnAlloca ==> entry == ["alloca __make_return_pointer", AllocaInsertPt] by {
        assert "alloca " + "__make_return_pointer" == "alloca __make_return_pointer";
      }
      FnCtxt(entry, Some(p), usesOutptr)
    else FnCtxt(entry, None, usesOutptr)
  }

  /** How the function returns. */
  datatype Return =
    | RetVoid
    | RetStored(value: nat, eraseSlot: bool)   // the dominating store's value; the store is erased
    | RetLoaded                                // a load of the return pointer

  /** `build_return_block`. Whether a single store to the return pointer
      dominates the return block, and whether the pointer has other uses,
      come from LLVM and are inputs. */
  function BuildReturnBlock(fcx: FnCtxt, dominatingStore: Option<nat>, retptrUsedElsewhere: bool): (r: Return)
    ensures r.RetVoid? <==> fcx.llretptr.None? || fcx.callerExpectsOutPointer
    ensures r.RetStored? <==> !r.RetVoid? && dominatingStore.Some?
    ensures r.RetStored? ==> r.value == dominatingStore.value && (r.eraseSlot <==> !retptrUsedElsewhere)
  {
    if fcx.llretptr.None? || fcx.callerExpectsOutPointer then RetVoid
    else
      match dominatingStore
      case Some(v) => RetStored(v, !retptrUsedElsewhere)
      case None => RetLoaded
  }

  /** Put together: a function returns a value only when its result is not
      void, not returned through an out-pointer and the return pointer was
      not skipped; that value then lives in a local slot, never behind the
      caller's pointer. */
  lemma ReturnsValueIff(skipRetptr: bool, returnIsVoid: bool, usesOutptr: bool,
                        dominatingStore: Option<nat>, retptrUsedElsewhere: bool)
    ensures var fcx := InitFunction(skipRetptr, returnIsVoid, usesOutptr);
            var r := BuildReturnBlock(fcx, dominatingStore, retptrUsedElsewhere);
            (!r.RetVoid? <==> !returnIsVoid && !usesOutptr && !skipRetptr)
            && (!r.RetVoid? ==> fcx.llretptr == Some(ReturnAlloca))
  {
  }
}

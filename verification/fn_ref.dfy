/** Referring to a function item in `trans_fn_ref_with_vtables`, and the
    vtables a default method is compiled with.

    The item tables the compiler consults are inputs here: the vtables
    resolved for local impls, the trait references of impls, the default
    methods each impl provides, the local AST items, and the inliner's
    redirection of external items. The monomorphiser, the resolution of
    vtables under a substitution and the substitution algebra are not part
    of this model; they appear as function parameters or are dropped. */
module FnRef {
  import opened Common
  import Callee

  /** The crate-local marker `ast::local_crate`. */
  const LocalCrate: nat := 0

  /** Machine `uint` arithmetic wraps at 2^64. */
  const WordModulus: int := 0x1_0000_0000_0000_0000

  /** A `uint`. */
  type Word = x: nat | x < WordModulus

  datatype DefId = DefId(crate: nat, node: nat)

  /** One vtable origin; its structure does not matter here. */
  datatype Origin = Origin(id: nat)

  /** The vtables for each bound of each type parameter. */
  type VtableRes = seq<seq<Origin>>

  /** What the compiler knows about impls. */
  datatype ImplTables = ImplTables(
    localVtables: map<nat, VtableRes>,   // vtables resolved for local impls, by node
    traitTypeParams: map<DefId, nat>)    // impls with a trait reference: its type parameter count

  /** `get_impl_resolutions`: a local impl's resolved vtables, or, for an
      external impl, one empty entry per type parameter of its trait. */
  function GetImplResolutions(tables: ImplTables, implId: DefId): (r: Outcome<VtableRes>)
    ensures implId.crate == LocalCrate ==>
              (r.Done? <==> implId.node in tables.localVtables)
              && (r.Done? ==> r.value == tables.localVtables[implId.node])
    ensures implId.crate != LocalCrate ==>
              (r.Done? <==> implId in tables.traitTypeParams)
              && (r.Done? ==> |r.value| == tables.traitTypeParams[implId]
                              && forall i :: 0 <= i < |r.value| ==> r.value[i] == [])
  {
    if implId.crate == LocalCrate then
      if implId.node in tables.localVtables then Done(tables.localVtables[implId.node])
      else Panic("No entry found for key")
    else if implId in tables.traitTypeParams then Done(Repeat([], tables.traitTypeParams[implId]))
    else Panic("option::get none")
  }

  /** `vec::tailn`: everything after the first `n` entries. */
  function TailN<T>(s: seq<T>, n: nat): (r: Outcome<seq<T>>)
    ensures r.Done? <==> n <= |s|
    ensures r.Done? ==> r.value == s[n..]
  {
    if n <= |s| then Done(s[n..]) else Panic("slice out of bounds")
  }

  /** `resolve_default_method_vtables`: the trait's vtables for the impl,
      resolved under the call's substitution, followed by the vtables of
      the method's own type parameters. Those are the last
      `numMethodVtables` entries of the impl's vtables when there are
      some, and empty entries otherwise. The count of impl parameters is
      a `uint` subtraction, so it wraps when the impl has fewer vtables
      than the method has parameters, and `tailn` then fails. */
  function ResolveDefaultMethodVtables(tables: ImplTables, implId: DefId, resolve: VtableRes -> VtableRes,
                                       numMethodVtables: Word, implVtables: Option<VtableRes>): (r: Outcome<VtableRes>)
    requires implVtables.Some? ==> |implVtables.value| < WordModulus
    ensures GetImplResolutions(tables, implId).Panic? ==> r.Panic?
    ensures r.Done? ==>
              var fixed := resolve(GetImplResolutions(tables, implId).value);
              |r.value| == |fixed| + numMethodVtables && r.value[..|fixed|] == fixed
              && (implVtables.None? ==> forall i :: |fixed| <= i < |r.value| ==> r.value[i] == [])
              && (implVtables.Some? ==>
                    numMethodVtables <= |implVtables.value|
                    && r.value[|fixed|..] == implVtables.value[|implVtables.value| - numMethodVtables..])
  {
    var traitVtables :- GetImplResolutions(tables, implId);
    var fixed := resolve(traitVtables);
    var methodVtables :-
      match implVtables
      case Some(vs) =>
        var numImplTypeParams := (|vs| - numMethodVtables) % WordModulus;
        TailN(vs, numImplTypeParams)
      case None => Done(Repeat([], numMethodVtables));
    assert (fixed + methodVtables)[..|fixed|] == fixed;
    Done(fixed + methodVtables)
  }

  /** The composition fails exactly when the impl's resolutions are
      missing or the impl has fewer vtables than the method has type
      parameters. */
  lemma ResolveDefaultMethodVtablesPanics(tables: ImplTables, implId: DefId, resolve: VtableRes -> VtableRes,
                                          numMethodVtables: Word, implVtables: Option<VtableRes>)
    requires implVtables.Some? ==> |implVtables.value| < WordModulus
    ensures ResolveDefaultMethodVtables(tables, implId, resolve, numMethodVtables, implVtables).Panic? <==>
              GetImplResolutions(tables, implId).Panic?
              || (implVtables.Some? && numMethodVtables > |implVtables.value|)
  {
  }

  /** When resolution keeps one entry per parameter, the result has one
      entry per trait parameter and one per method parameter. */
  lemma ResolveDefaultMethodVtablesLength(tables: ImplTables, implId: DefId, resolve: VtableRes -> VtableRes,
                                          numMethodVtables: Word, implVtables: Option<VtableRes>)
    requires implVtables.Some? ==> |implVtables.value| < WordModulus
    requires forall v :: |resolve(v)| == |v|
    ensures var r := ResolveDefaultMethodVtables(tables, implId, resolve, numMethodVtables, implVtables);
            r.Done? ==> |r.value| == |GetImplResolutions(tables, implId).value| + numMethodVtables
  {
  }

  /** Where a default method comes from: the impl using it and the
      trait's method item. */
  datatype ProvidedSource = ProvidedSource(implId: DefId, methodId: DefId)

  /** A local AST item, as far as the rule needs it. */
  datatype ItemNode = ForeignItem(intrinsicAbi: bool) | OtherItem

  /** The compiler context `trans_fn_ref_with_vtables` reads. */
  datatype Context = Context(
    impls: ImplTables,
    provided: map<DefId, ProvidedSource>,    // `provided_method_sources`
    methodTypeParams: map<DefId, Word>,      // type parameter count of each method item
    items: map<nat, ItemNode>,               // the local AST map
    inline: DefId -> DefId,                  // `maybe_instantiate_inline`
    needsInfer: Callee.Ty -> bool,           // `type_needs_infer`
    mustCast: DefId -> bool,                 // the cast flag `monomorphic_fn` reports
    resolve: VtableRes -> VtableRes)         // `resolve_vtables_under_param_substs`

  /** `typeck::vtable_static` for the receiver of a default method. */
  datatype SelfVtable = SelfVtable(implId: DefId, receiverTypeParams: seq<Callee.Ty>, receiverVtables: VtableRes)

  /** How the reference is translated: a monomorphic instance (cast to the
      reference's type when asked), a local item's value, or a path into
      another crate. */
  datatype FnRefPlan =
    | Monomorphic(defId: DefId, implId: Option<DefId>, vtables: Option<VtableRes>,
                  selfVtable: Option<SelfVtable>, castToRef: bool)
    | LocalItem(node: nat)
    | ExternalPath(defId: DefId)

  /** `vec::initn`: everything except the last `n` entries. The length
      difference is a wrapping `uint` subtraction. */
  function InitN<T>(s: seq<T>, n: Word): (r: Outcome<seq<T>>)
    requires |s| < WordModulus
    ensures r.Done? <==> n <= |s|
    ensures r.Done? ==> r.value == s[..|s| - n]
  {
    var keep := (|s| - n) % WordModulus;
    if keep <= |s| then Done(s[..keep]) else Panic("slice out of bounds")
  }

  /** The item reference after the default-method substitution. */
  datatype Target = Target(defId: DefId, implId: Option<DefId>, selfVtable: Option<SelfVtable>, vtables: Option<VtableRes>)

  /** The default-method part of `trans_fn_ref_with_vtables`: a provided
      method is compiled as the trait's method, with the receiver's
      vtable and the composed vtables. */
  function DefaultMethodTarget(ctx: Context, defId: DefId, typeParams: seq<Callee.Ty>,
                               vtables: Option<VtableRes>): (r: Outcome<Target>)
    requires |typeParams| < WordModulus && (vtables.Some? ==> |vtables.value| < WordModulus)
    ensures defId !in ctx.provided ==> r == Done(Target(defId, None, None, vtables))
    ensures defId in ctx.provided && r.Done? ==>
              var source := ctx.provided[defId];
              r.value.defId == source.methodId && r.value.implId == Some(source.implId)
              && r.value.selfVtable.Some? && r.value.vtables.Some?
              && r.value.selfVtable.value.implId == source.implId
              && source.methodId in ctx.methodTypeParams
              && |r.value.selfVtable.value.receiverTypeParams| + ctx.methodTypeParams[source.methodId] == |typeParams|
              && r.value.selfVtable.value.receiverTypeParams <= typeParams
              && ResolveDefaultMethodVtables(ctx.impls, source.implId, ctx.resolve,
                                             ctx.methodTypeParams[source.methodId], vtables)
                 == Done(r.value.vtables.value)
  {
    if defId !in ctx.provided then Done(Target(defId, None, None, vtables))
    else
      var source := ctx.provided[defId];
      if source.implId !in ctx.impls.traitTypeParams then
        Panic("could not find trait_ref for impl with default methods")
      else if source.methodId !in ctx.methodTypeParams then
        Panic("No entry found for key")
      else
        var numParams := ctx.methodTypeParams[source.methodId];
        var receiverTypeParams :- InitN(typeParams, numParams);
        var receiverVtables :-
          match vtables
          case None => Done([])
          case Some(callVtables) => InitN(callVtables, numParams);
        var composed :- ResolveDefaultMethodVtables(ctx.impls, source.implId, ctx.resolve, numParams, vtables);
        Done(Target(source.methodId, Some(source.implId),
                    Some(SelfVtable(source.implId, receiverTypeParams, receiverVtables)), Some(composed)))
  }

  /** A local foreign item declared with the intrinsic ABI. */
  predicate LocalIntrinsic(ctx: Context, id: DefId)
  {
    id.crate == LocalCrate && id.node in ctx.items && ctx.items[id.node] == ForeignItem(true)
  }

  /** The monomorphise rule: type parameters, a default method, or a local
      foreign item with the intrinsic ABI. Rust intrinsics inlined from
      another crate are re-emitted here rather than called there. */
  predicate MustMonomorphise(ctx: Context, typeParams: seq<Callee.Ty>, target: Target)
  {
    |typeParams| > 0 || target.implId.Some? || LocalIntrinsic(ctx, target.defId)
  }

  /** An external item is redirected to its inlined copy, if there is one. */
  function Redirect(ctx: Context, id: DefId): DefId
  {
    if id.crate != LocalCrate then ctx.inline(id) else id
  }

  /** The plan for a reference once the target is known and redirected. */
  function PlanFor(ctx: Context, typeParams: seq<Callee.Ty>, target: Target, refId: nat): (r: Outcome<FnRefPlan>)
    ensures r.Panic? <==>
              (target.defId.crate == LocalCrate && target.defId.node !in ctx.items && !MustMonomorphise(ctx, typeParams, target))
              || (MustMonomorphise(ctx, typeParams, target) && target.defId.crate != LocalCrate)
    ensures r.Done? ==> (r.value.Monomorphic? <==> MustMonomorphise(ctx, typeParams, target))
    ensures r.Done? && r.value.Monomorphic? ==>
              r.value.defId == target.defId && r.value.defId.crate == LocalCrate
              && r.value.implId == target.implId && r.value.vtables == target.vtables
              && r.value.selfVtable == target.selfVtable && (r.value.castToRef <==> ctx.mustCast(target.defId) && refId != 0)
    ensures r.Done? && r.value.LocalItem? ==> target.defId == DefId(LocalCrate, r.value.node)
    ensures r.Done? && r.value.ExternalPath? ==> r.value.defId == target.defId && target.defId.crate != LocalCrate
  {
    var id := target.defId;
    if |typeParams| == 0 && target.implId.None? && id.crate == LocalCrate && id.node !in ctx.items then
      Panic("local item should be in ast map")
    else if MustMonomorphise(ctx, typeParams, target) then
      if id.crate != LocalCrate then
        Panic("assertion failed: `(left == right) && (right == left)`")
      else
        Done(Monomorphic(id, target.implId, target.vtables, target.selfVtable, ctx.mustCast(id) && refId != 0))
    else if id.crate == LocalCrate then Done(LocalItem(id.node))
    else Done(ExternalPath(id))
  }

  /** Some type parameter still holds inference variables. */
  predicate NeedsInference(ctx: Context, typeParams: seq<Callee.Ty>)
  {
    exists i :: 0 <= i < |typeParams| && ctx.needsInfer(typeParams[i])
  }

  /** `trans_fn_ref_with_vtables`. */
  function TransFnRefWithVtables(ctx: Context, defId: DefId, refId: nat, typeParams: seq<Callee.Ty>,
                                 vtables: Option<VtableRes>): (r: Outcome<FnRefPlan>)
    requires |typeParams| < WordModulus && (vtables.Some? ==> |vtables.value| < WordModulus)
    ensures NeedsInference(ctx, typeParams) ==> r.Panic?
    ensures r.Done? && r.value.LocalItem? ==> |typeParams| == 0 && defId !in ctx.provided
  {
    if NeedsInference(ctx, typeParams) then
      Panic("assertion failed: type_params.iter().all(|t| !ty::type_needs_infer(*t))")
    else
      var target :- DefaultMethodTarget(ctx, defId, typeParams, vtables);
      PlanFor(ctx, typeParams, target.(defId := Redirect(ctx, target.defId)), refId)
  }

  /** The reference is monomorphised exactly when the function has type
      parameters, is a default method, or (after inlining) is a local
      foreign intrinsic; otherwise it names the item or the external
      path. */
  lemma MonomorphiseIff(ctx: Context, defId: DefId, refId: nat, typeParams: seq<Callee.Ty>,
                        vtables: Option<VtableRes>)
    requires |typeParams| < WordModulus && (vtables.Some? ==> |vtables.value| < WordModulus)
    ensures var r := TransFnRefWithVtables(ctx, defId, refId, typeParams, vtables);
            r.Done? ==>
              (r.value.Monomorphic? <==>
                 |typeParams| > 0 || defId in ctx.provided || LocalIntrinsic(ctx, Redirect(ctx, defId)))
  {
  }

  /** A plain function without type parameters: a local one is referenced
      as its own item (it must be in the AST map), an external one whose
      inlined copy is not local becomes an external path. */
  lemma PlainReference(ctx: Context, defId: DefId, refId: nat, vtables: Option<VtableRes>)
    requires defId !in ctx.provided && (vtables.Some? ==> |vtables.value| < WordModulus)
    ensures var id := Redirect(ctx, defId);
            var r := TransFnRefWithVtables(ctx, defId, refId, [], vtables);
            (id.crate == LocalCrate && id.node in ctx.items && ctx.items[id.node] != ForeignItem(true) ==>
               r == Done(LocalItem(id.node)))
            && (id.crate != LocalCrate ==> r == Done(ExternalPath(id)))
            && (id.crate == LocalCrate && id.node !in ctx.items ==> r.Panic?)
  {
  }

  /** A default method that resolves is always monomorphised, with the
      receiver's vtable and vtables for every trait and method parameter. */
  lemma DefaultMethodMonomorphic(ctx: Context, defId: DefId, refId: nat, typeParams: seq<Callee.Ty>,
                                 vtables: Option<VtableRes>)
    requires |typeParams| < WordModulus && (vtables.Some? ==> |vtables.value| < WordModulus)
    requires defId in ctx.provided && forall v :: |ctx.resolve(v)| == |v|
    ensures var r := TransFnRefWithVtables(ctx, defId, refId, typeParams, vtables);
            var source := ctx.provided[defId];
            r.Done? ==>
              source.methodId in ctx.methodTypeParams
              && r.value.Monomorphic? && r.value.implId == Some(source.implId) && r.value.selfVtable.Some?
              && r.value.vtables.Some?
              && |r.value.vtables.value| == |GetImplResolutions(ctx.impls, source.implId).value|
                                            + ctx.methodTypeParams[source.methodId]
  {
    var source := ctx.provided[defId];
    var r := TransFnRefWithVtables(ctx, defId, refId, typeParams, vtables);
    if r.Done? {
      ResolveDefaultMethodVtablesLength(ctx.impls, source.implId, ctx.resolve,
                                        ctx.methodTypeParams[source.methodId], vtables);
    }
  }
}

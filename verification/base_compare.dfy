/** Scalar comparisons and shift operands in `trans/base.rs`.

    `compare_scalar_types` classes a scalar type, and
    `compare_scalar_values` picks the comparison for the class and the
    operator: a constant for `()`, an integer comparison with a signed or
    unsigned predicate, or a floating-point comparison that is ordered
    except for `!=`. The partner of the table is an evaluation of LLVM's
    predicates on machine encodings (two's complement for integers,
    numbers or NaN for floats), proved to agree with the language's
    operators on every value. `cast_shift_rhs` brings a shift amount to
    the width of the shifted operand's element type. */
module BaseCompare {
  import opened Common

  /** The types `compare_scalar_types` can meet, as far as it looks. */
  datatype TyKind = TyNil | TyBool | TyPtr | TyUint | TyChar | TyInt | TyFloat | TyNonScalar

  datatype ScalarType = NilType | SignedInt | UnsignedInt | FloatingPoint

  datatype BinOp =
    | BiAdd | BiSub | BiMul | BiDiv | BiRem | BiAnd | BiOr
    | BiBitXor | BiBitAnd | BiBitOr | BiShl | BiShr
    | BiEq | BiLt | BiLe | BiNe | BiGe | BiGt

  predicate IsComparison(op: BinOp)
  {
    op in {BiEq, BiLt, BiLe, BiNe, BiGe, BiGt}
  }

  datatype IntPredicate = IntEQ | IntNE | IntUGT | IntUGE | IntULT | IntULE | IntSGT | IntSGE | IntSLT | IntSLE

  datatype RealPredicate =
    | RealOEQ | RealOGT | RealOGE | RealOLT | RealOLE | RealONE | RealORD
    | RealUNO | RealUEQ | RealUGT | RealUGE | RealULT | RealULE | RealUNE

  /** An operand; what it holds is given separately when evaluating. */
  datatype Operand = Operand(id: nat)

  /** The comparison built: a constant bit or one compare instruction. */
  datatype Comparison =
    | ConstI1(b: bool)
    | ICmp(ipred: IntPredicate, lhs: Operand, rhs: Operand)
    | FCmp(rpred: RealPredicate, lhs: Operand, rhs: Operand)

  /** The class of a scalar type; booleans, raw pointers, unsigned
      integers and characters compare as unsigned integers. */
  function ScalarClass(t: TyKind): (r: Outcome<ScalarType>)
    ensures r.Panic? <==> t == TyNonScalar
    ensures r.Done? ==> (r.value == UnsignedInt <==> t in {TyBool, TyPtr, TyUint, TyChar})
    ensures r.Done? ==> (r.value == SignedInt <==> t == TyInt) && (r.value == FloatingPoint <==> t == TyFloat)
  {
    match t
    case TyNil => Done(NilType)
    case TyBool => Done(UnsignedInt)
    case TyPtr => Done(UnsignedInt)
    case TyUint => Done(UnsignedInt)
    case TyChar => Done(UnsignedInt)
    case TyInt => Done(SignedInt)
    case TyFloat => Done(FloatingPoint)
    case TyNonScalar => Panic("non-scalar type passed to compare_scalar_types")
  }

  const NotComparison := "compare_scalar_values: must be a comparison operator"

  /** `compare_scalar_values`. */
  function CompareScalarValues(lhs: Operand, rhs: Operand, nt: ScalarType, op: BinOp): (r: Outcome<Comparison>)
    ensures r.Panic? <==> !IsComparison(op)
    ensures r.Panic? ==> r.message == NotComparison
    ensures r.Done? ==> (r.value.ConstI1? <==> nt == NilType) && (r.value.FCmp? <==> nt == FloatingPoint)
    ensures r.Done? && !r.value.ConstI1? ==> r.value.lhs == lhs && r.value.rhs == rhs
  {
    match nt
    case NilType =>
      if op in {BiEq, BiLe, BiGe} then Done(ConstI1(true))
      else if op in {BiNe, BiLt, BiGt} then Done(ConstI1(false))
      else Panic(NotComparison)
    case FloatingPoint =>
      var p :- match op
               case BiEq => Done(RealOEQ)
               case BiNe => Done(RealUNE)
               case BiLt => Done(RealOLT)
               case BiLe => Done(RealOLE)
               case BiGt => Done(RealOGT)
               case BiGe => Done(RealOGE)
               case _ => Panic(NotComparison);
      Done(FCmp(p, lhs, rhs))
    case SignedInt =>
      var p :- match op
               case BiEq => Done(IntEQ)
               case BiNe => Done(IntNE)
               case BiLt => Done(IntSLT)
               case BiLe => Done(IntSLE)
               case BiGt => Done(IntSGT)
               case BiGe => Done(IntSGE)
               case _ => Panic(NotComparison);
      Done(ICmp(p, lhs, rhs))
    case UnsignedInt =>
      var p :- match op
               case BiEq => Done(IntEQ)
               case BiNe => Done(IntNE)
               case BiLt => Done(IntULT)
               case BiLe => Done(IntULE)
               case BiGt => Done(IntUGT)
               case BiGe => Done(IntUGE)
               case _ => Panic(NotComparison);
      Done(ICmp(p, lhs, rhs))
  }

  /** `compare_scalar_types`. */
  function CompareScalarTypes(lhs: Operand, rhs: Operand, t: TyKind, op: BinOp): (r: Outcome<Comparison>)
    ensures r.Panic? <==> t == TyNonScalar || !IsComparison(op)
    ensures r.Done? ==> r == CompareScalarValues(lhs, rhs, ScalarClass(t).value, op)
  {
    var nt :- ScalarClass(t);
    CompareScalarValues(lhs, rhs, nt, op)
  }

  // ---- What the operators mean ----

  /** A comparison operator applied to two mathematical values. */
  function Holds(op: BinOp, x: int, y: int): bool
    requires IsComparison(op)
  {
    match op
    case BiEq => x == y
    case BiNe => x != y
    case BiLt => x < y
    case BiLe => x <= y
    case BiGt => x > y
    case BiGe => x >= y
  }

  function Pow2(w: nat): (r: int)
    ensures r >= 1
  {
    if w == 0 then 1 else 2 * Pow2(w - 1)
  }

  /** The bits of a `w`-bit signed value, read as an unsigned number. */
  function TwosComplement(x: int, w: nat): nat
    requires w > 0 && -Pow2(w - 1) <= x < Pow2(w - 1)
  {
    if x >= 0 then x else x + Pow2(w)
  }

  /** The signed value of `w` bits. */
  function Signed(bits: nat, w: nat): int
    requires w > 0
  {
    if bits >= Pow2(w - 1) then bits - Pow2(w) else bits
  }

  lemma SignedInverts(x: int, w: nat)
    requires w > 0 && -Pow2(w - 1) <= x < Pow2(w - 1)
    ensures TwosComplement(x, w) < Pow2(w) && Signed(TwosComplement(x, w), w) == x
  {
    assert Pow2(w) == 2 * Pow2(w - 1);
  }

  /** LLVM's `icmp` on two `w`-bit patterns. */
  function EvalInt(p: IntPredicate, w: nat, a: nat, b: nat): bool
    requires w > 0
  {
    match p
    case IntEQ => a == b
    case IntNE => a != b
    case IntUGT => a > b
    case IntUGE => a >= b
    case IntULT => a < b
    case IntULE => a <= b
    case IntSGT => Signed(a, w) > Signed(b, w)
    case IntSGE => Signed(a, w) >= Signed(b, w)
    case IntSLT => Signed(a, w) < Signed(b, w)
    case IntSLE => Signed(a, w) <= Signed(b, w)
  }

  /** Comparing two signed integers of width `w` gives the operator's
      answer on their values. */
  lemma SignedCompareSound(lhs: Operand, rhs: Operand, op: BinOp, w: nat, x: int, y: int)
    requires IsComparison(op) && w > 0
    requires -Pow2(w - 1) <= x < Pow2(w - 1) && -Pow2(w - 1) <= y < Pow2(w - 1)
    ensures var r := CompareScalarValues(lhs, rhs, SignedInt, op);
            r.Done? && r.value.ICmp?
            && EvalInt(r.value.ipred, w, TwosComplement(x, w), TwosComplement(y, w)) == Holds(op, x, y)
  {
    SignedInverts(x, w);
    SignedInverts(y, w);
    var a, b := TwosComplement(x, w), TwosComplement(y, w);
    assert a == b <==> x == y;
  }

  /** Comparing two unsigned integers (or booleans, characters, pointers)
      of width `w` gives the operator's answer on their values. */
  lemma UnsignedCompareSound(lhs: Operand, rhs: Operand, op: BinOp, w: nat, x: nat, y: nat)
    requires IsComparison(op) && w > 0 && x < Pow2(w) && y < Pow2(w)
    ensures var r := CompareScalarValues(lhs, rhs, UnsignedInt, op);
            r.Done? && r.value.ICmp? && EvalInt(r.value.ipred, w, x, y) == Holds(op, x, y)
  {
  }

  /** On unsigned patterns the signed predicates can disagree with the
      operator: 255 and 0 as bytes, compared with a signed `<`. This is why
      booleans, characters and pointers take the unsigned table. */
  lemma SignedPredicateWrongForUnsigned()
    ensures EvalInt(IntSLT, 8, 255, 0) != Holds(BiLt, 255, 0)
  {
    assert Pow2(7) == 128 by {
      assert Pow2(1) == 2 && Pow2(2) == 4 && Pow2(3) == 8 && Pow2(4) == 16 && Pow2(5) == 32 && Pow2(6) == 64;
    }
    assert Pow2(8) == 256;
  }

  /** A floating-point value: a number or NaN. */
  datatype Float = Num(r: real) | NaN

  /** LLVM's `fcmp`: ordered predicates are false when either side is NaN,
      unordered ones true. */
  function EvalReal(p: RealPredicate, a: Float, b: Float): bool
  {
    var unordered := a.NaN? || b.NaN?;
    match p
    case RealOEQ => !unordered && a.r == b.r
    case RealOGT => !unordered && a.r > b.r
    case RealOGE => !unordered && a.r >= b.r
    case RealOLT => !unordered && a.r < b.r
    case RealOLE => !unordered && a.r <= b.r
    case RealONE => !unordered && a.r != b.r
    case RealORD => !unordered
    case RealUNO => unordered
    case RealUEQ => unordered || a.r == b.r
    case RealUGT => unordered || a.r > b.r
    case RealUGE => unordered || a.r >= b.r
    case RealULT => unordered || a.r < b.r
    case RealULE => unordered || a.r <= b.r
    case RealUNE => unordered || a.r != b.r
  }

  /** The language's operators on floats (IEEE 754): every comparison with
      NaN is false except `!=`, which is true. */
  function FloatHolds(op: BinOp, a: Float, b: Float): bool
    requires IsComparison(op)
  {
    if a.NaN? || b.NaN? then op == BiNe
    else match op
         case BiEq => a.r == b.r
         case BiNe => a.r != b.r
         case BiLt => a.r < b.r
         case BiLe => a.r <= b.r
         case BiGt => a.r > b.r
         case BiGe => a.r >= b.r
  }

  /** The float table is right on every pair, NaN included. */
  lemma FloatCompareSound(lhs: Operand, rhs: Operand, op: BinOp, a: Float, b: Float)
    requires IsComparison(op)
    ensures var r := CompareScalarValues(lhs, rhs, FloatingPoint, op);
            r.Done? && r.value.FCmp? && EvalReal(r.value.rpred, a, b) == FloatHolds(op, a, b)
  {
  }

  /** With an ordered `!=` the answer on NaN would be wrong. */
  lemma OrderedNotEqualWrongOnNaN()
    ensures EvalReal(RealONE, NaN, NaN) != FloatHolds(BiNe, NaN, NaN)
  {
  }

  /** `()` equals `()`: the constant is the operator's answer on equal
      values, and no instruction is built. */
  lemma NilCompareSound(lhs: Operand, rhs: Operand, op: BinOp)
    requires IsComparison(op)
    ensures CompareScalarValues(lhs, rhs, NilType, op) == Done(ConstI1(Holds(op, 0, 0)))
  {
  }

  // ---- cast_shift_rhs ----

  predicate IsShift(op: BinOp)
  {
    op == BiShl || op == BiShr
  }

  /** An integer type or a vector of integers, by bit width. */
  datatype LlTy = IntTy(width: nat) | VectorTy(elemWidth: nat, len: nat)

  /** The integer type a shift's width comparison looks at. */
  function ElementType(t: LlTy): (r: LlTy)
    ensures r.IntTy? && (t.IntTy? ==> r == t)
  {
    match t
    case IntTy(_) => t
    case VectorTy(w, _) => IntTy(w)
  }

  function Width(t: LlTy): nat
  {
    ElementType(t).width
  }

  /** What is done to the shift amount. */
  datatype ShiftCast = Keep | Trunc(to: LlTy) | ZExt(to: LlTy)

  /** `cast_shift_rhs`. As written, the cast's target is the left
      operand's element type, also when the operands are vectors. */
  function CastShiftRhs(op: BinOp, lhsTy: LlTy, rhsTy: LlTy): (r: ShiftCast)
    ensures !IsShift(op) ==> r == Keep
    ensures IsShift(op) ==> (r.Trunc? <==> Width(lhsTy) < Width(rhsTy)) && (r.ZExt? <==> Width(lhsTy) > Width(rhsTy))
    ensures !r.Keep? ==> r.to == ElementType(lhsTy)
  {
    if IsShift(op) then
      var lhsSz := Width(lhsTy);
      var rhsSz := Width(rhsTy);
      if lhsSz < rhsSz then Trunc(ElementType(lhsTy))
      else if lhsSz > rhsSz then ZExt(ElementType(lhsTy))
      else Keep
    else Keep
  }

  /** The width of the amount after the cast. */
  function CastWidth(c: ShiftCast, rhsTy: LlTy): nat
  {
    if c.Keep? then Width(rhsTy) else Width(c.to)
  }

  /** The value of an unsigned amount after the cast: truncation keeps the
      low bits, zero extension keeps the value. */
  function CastValue(c: ShiftCast, v: nat): nat
  {
    match c
    case Trunc(to) => v % Pow2(Width(to))
    case _ => v
  }

  /** After the cast a shift's amount has the shifted operand's width, and
      any amount that fits that width (every amount whose shift is
      defined) keeps its value. */
  lemma CastShiftRhsSound(op: BinOp, lhsTy: LlTy, rhsTy: LlTy, v: nat)
    requires IsShift(op) && v < Pow2(Width(rhsTy))
    ensures var c := CastShiftRhs(op, lhsTy, rhsTy);
            CastWidth(c, rhsTy) == Width(lhsTy)
            && (v < Pow2(Width(lhsTy)) ==> CastValue(c, v) == v)
  {
  }
}

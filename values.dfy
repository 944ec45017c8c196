/**
 * Resolved values and the choice of LLVM type, opcode and predicate
 * (vm_value.c).  The choices are pure functions; the Build* methods then
 * append the chosen instruction to the builder.
 */
module Values {
  import opened Failures
  import opened Ast
  import opened Llvm

  /**
   * struct vm_value: the LLVM type and value, and the source type specifier
   * and identifier ("" for temporaries and constants).
   */
  datatype VmValue = VmValue(llvmType: LlvmType, llvmValue: LlvmValue, typeSpecifier: int, identifier: string)

  /** The type specifier an LLVM type stands for. */
  function SpecifierOf(t: LlvmType): int {
    match t
    case Int32Type => TypeInt
    case FloatType => TypeFloat
  }

  predicate IsTypeSpecifier(typeSpecifier: int) {
    typeSpecifier == TypeInt || typeSpecifier == TypeFloat
  }

  /** get_llvm_type: `int` is i32 and `float` is float; any other specifier is fatal. */
  function GetLlvmType(typeSpecifier: int): (r: Result<LlvmType>)
    ensures r.Ok? <==> IsTypeSpecifier(typeSpecifier)
    ensures r.Ok? ==> SpecifierOf(r.value) == typeSpecifier
    ensures r.Err? ==> r.error == UnknownTypeSpecifier(typeSpecifier)
  {
    if typeSpecifier == TypeInt then Ok(Int32Type)
    else if typeSpecifier == TypeFloat then Ok(FloatType)
    else Err(UnknownTypeSpecifier(typeSpecifier))
  }

  /** Every LLVM type is the image of its own specifier. */
  lemma GetLlvmTypeOnto(t: LlvmType)
    ensures GetLlvmType(SpecifierOf(t)) == Ok(t)
  {
  }

  /** The LLVM type of a value agrees with its type specifier. */
  predicate Typed(v: VmValue) {
    GetLlvmType(v.typeSpecifier) == Ok(v.llvmType)
  }

  /** vm_value_new: a value with no LLVM value yet, typed by its specifier. */
  function VmValueNew(typeSpecifier: int, identifier: string): (r: Result<VmValue>)
    ensures r.Ok? <==> IsTypeSpecifier(typeSpecifier)
    ensures r.Err? ==> r.error == UnknownTypeSpecifier(typeSpecifier)
    ensures r.Ok? ==> Typed(r.value) && r.value.llvmValue == NullValue
    ensures r.Ok? ==> r.value.typeSpecifier == typeSpecifier && r.value.identifier == identifier
  {
    var llvmType :- GetLlvmType(typeSpecifier);
    Ok(VmValue(llvmType, NullValue, typeSpecifier, identifier))
  }

  /** vm_value_new_from_int_constant: an `int` constant, no instruction. */
  function VmValueNewFromIntConstant(intConstant: Int32): (r: VmValue)
    ensures Typed(r) && r.typeSpecifier == TypeInt
    ensures r.llvmValue == ConstInt(intConstant)
  {
    VmValue(GetLlvmType(TypeInt).value, ConstInt(intConstant), TypeInt, "")
  }

  /**
   * vm_value_new_from_float_constant: a `float` constant, no instruction.
   * The source builds it with LLVMConstInt, converting the literal to an
   * integer; the model keeps the literal's bits instead.
   */
  function VmValueNewFromFloatConstant(floatConstant: FloatBits): (r: VmValue)
    ensures Typed(r) && r.typeSpecifier == TypeFloat
    ensures r.llvmValue == ConstFloat(floatConstant)
  {
    VmValue(GetLlvmType(TypeFloat).value, ConstFloat(floatConstant), TypeFloat, "")
  }

  // ---------------------------------------------------------------------
  // Arithmetic

  /** The source operator an arithmetic opcode performs. */
  function OperatorOf(opcode: Opcode): int {
    match opcode
    case Add | FAdd => OpAdd
    case Sub | FSub => OpSub
    case Mul | FMul => OpMul
    case UDiv | SDiv | FDiv => OpDiv
  }

  /**
   * The opcode switch of vm_value_build_math_op: the integer opcode for an
   * `int` left operand, the float opcode otherwise; `/` is lowered to a
   * multiplication; an operator other than + - * / is fatal.
   */
  function MathOpcode(op: int, typeSpecifier: int): (r: Result<Opcode>)
    ensures r.Ok? <==> OpAdd <= op <= OpDiv
    ensures r.Err? ==> r.error == UnknownMathOperation(op)
    ensures r.Ok? ==> (IsIntegerOpcode(r.value) <==> typeSpecifier == TypeInt)
    ensures r.Ok? ==> OperatorOf(r.value) == (if op == OpDiv then OpMul else op)
    ensures r.Ok? ==> !IsDivision(r.value)
  {
    var isInt := typeSpecifier == TypeInt;
    if op == OpAdd then Ok(if isInt then Add else FAdd)
    else if op == OpSub then Ok(if isInt then Sub else FSub)
    else if op == OpMul then Ok(if isInt then Mul else FMul)
    else if op == OpDiv then Ok(if isInt then Mul else FMul)
    else Err(UnknownMathOperation(op))
  }

  /** An instruction to append and the value that names its result. */
  datatype Built = Built(instr: Instr, value: VmValue)

  /**
   * vm_value_build_math_op, with the instruction landing at position `at`:
   * the result takes the left operand's type (the right operand's type is
   * never looked at) and names a BinOp over the two operands' LLVM values.
   * The left operand's specifier is checked before the operator.
   */
  function MathOp(op: int, lhs: VmValue, rhs: VmValue, at: nat): (r: Result<Built>)
    ensures r.Ok? <==> IsTypeSpecifier(lhs.typeSpecifier) && OpAdd <= op <= OpDiv
    ensures !IsTypeSpecifier(lhs.typeSpecifier) ==> r == Err(UnknownTypeSpecifier(lhs.typeSpecifier))
    ensures IsTypeSpecifier(lhs.typeSpecifier) && r.Err? ==> r.error == UnknownMathOperation(op)
    ensures r.Ok? ==> var v := r.value.value;
      Typed(v) && v.typeSpecifier == lhs.typeSpecifier && v.llvmValue == Reg(at) && v.identifier == ""
    ensures r.Ok? ==> r.value.instr == BinOp(MathOpcode(op, lhs.typeSpecifier).value, lhs.llvmValue, rhs.llvmValue)
  {
    var res :- VmValueNew(lhs.typeSpecifier, "");
    var opcode :- MathOpcode(op, res.typeSpecifier);
    Ok(Built(BinOp(opcode, lhs.llvmValue, rhs.llvmValue), res.(llvmValue := Reg(at))))
  }

  /** vm_value_build_math_op: the chosen BinOp is appended to the builder. */
  method BuildMathOp(b: Builder, op: int, lhs: VmValue, rhs: VmValue) returns (r: Result<VmValue>)
    modifies b
    ensures var spec := MathOp(op, lhs, rhs, |old(b.log)|);
      && (spec.Ok? ==> r == Ok(spec.value.value) && b.log == old(b.log) + [spec.value.instr])
      && (spec.Err? ==> r == Err(spec.error))
  {
    var res :- VmValueNew(lhs.typeSpecifier, "");
    var opcode :- MathOpcode(op, res.typeSpecifier);
    var v := b.Emit(BinOp(opcode, lhs.llvmValue, rhs.llvmValue));
    r := Ok(res.(llvmValue := v));
  }

  // ---------------------------------------------------------------------
  // Comparisons

  /** The predicate an ICmp or FCmp instruction carries. */
  datatype Comparison = IntComparison(intPredicate: IntPredicate) | RealComparison(realPredicate: RealPredicate)

  /** Signed integer predicates (and the sign-free equalities). */
  predicate IsSignedOrEquality(p: IntPredicate) {
    p != IntUGT && p != IntUGE && p != IntULT && p != IntULE
  }

  /** Ordered float predicates: false whenever an operand is NaN. */
  predicate IsOrdered(p: RealPredicate) {
    p == RealOEQ || p == RealOGT || p == RealOGE || p == RealOLT || p == RealOLE || p == RealONE
  }

  /** The source operator a comparison tests; 0 for one the program never builds. */
  function ComparisonOperator(c: Comparison): int {
    match c
    case IntComparison(p) =>
      (match p
       case IntSGT => OpGt
       case IntSLT => OpLt
       case IntEQ => OpEq
       case IntNE => OpNe
       case IntSLE => OpLe
       case IntSGE => OpGe
       case _ => 0)
    case RealComparison(p) =>
      (match p
       case RealOGT => OpGt
       case RealOLT => OpLt
       case RealOEQ => OpEq
       case RealONE => OpNe
       case RealOLE => OpLe
       case RealOGE => OpGe
       case _ => 0)
  }

  /**
   * The predicate switch of vm_value_build_cmp_op: ICmp with a signed
   * predicate for an `int` left operand, FCmp with an ordered one otherwise;
   * an operator other than > < == != <= >= is fatal.
   */
  function CmpPredicate(op: int, typeSpecifier: int): (r: Result<Comparison>)
    ensures r.Ok? <==> OpGt <= op <= OpGe
    ensures r.Err? ==> r.error == UnknownComparisonOperation(op)
    ensures r.Ok? ==> (r.value.IntComparison? <==> typeSpecifier == TypeInt)
    ensures r.Ok? ==> ComparisonOperator(r.value) == op
    ensures r.Ok? && r.value.IntComparison? ==> IsSignedOrEquality(r.value.intPredicate)
    ensures r.Ok? && r.value.RealComparison? ==> IsOrdered(r.value.realPredicate)
  {
    var isInt := typeSpecifier == TypeInt;
    if op == OpGt then Ok(if isInt then IntComparison(IntSGT) else RealComparison(RealOGT))
    else if op == OpLt then Ok(if isInt then IntComparison(IntSLT) else RealComparison(RealOLT))
    else if op == OpEq then Ok(if isInt then IntComparison(IntEQ) else RealComparison(RealOEQ))
    else if op == OpNe then Ok(if isInt then IntComparison(IntNE) else RealComparison(RealONE))
    else if op == OpLe then Ok(if isInt then IntComparison(IntSLE) else RealComparison(RealOLE))
    else if op == OpGe then Ok(if isInt then IntComparison(IntSGE) else RealComparison(RealOGE))
    else Err(UnknownComparisonOperation(op))
  }

  /** The ICmp or FCmp instruction for a comparison. */
  function CompareInstr(c: Comparison, lhs: LlvmValue, rhs: LlvmValue): Instr {
    match c
    case IntComparison(p) => ICmp(p, lhs, rhs)
    case RealComparison(p) => FCmp(p, lhs, rhs)
  }

  /**
   * vm_value_build_cmp_op, with the instruction landing at position `at`:
   * the result carries the left operand's type specifier (not a boolean
   * type), and names an ICmp for `int` operands and an FCmp otherwise.
   */
  function CmpOp(op: int, lhs: VmValue, rhs: VmValue, at: nat): (r: Result<Built>)
    ensures r.Ok? <==> IsTypeSpecifier(lhs.typeSpecifier) && OpGt <= op <= OpGe
    ensures !IsTypeSpecifier(lhs.typeSpecifier) ==> r == Err(UnknownTypeSpecifier(lhs.typeSpecifier))
    ensures IsTypeSpecifier(lhs.typeSpecifier) && r.Err? ==> r.error == UnknownComparisonOperation(op)
    ensures r.Ok? ==> var v := r.value.value;
      Typed(v) && v.typeSpecifier == lhs.typeSpecifier && v.llvmValue == Reg(at) && v.identifier == ""
    ensures r.Ok? ==> (r.value.instr.ICmp? <==> lhs.typeSpecifier == TypeInt)
    ensures r.Ok? ==> r.value.instr == CompareInstr(CmpPredicate(op, lhs.typeSpecifier).value, lhs.llvmValue, rhs.llvmValue)
  {
    var res :- VmValueNew(lhs.typeSpecifier, "");
    var c :- CmpPredicate(op, res.typeSpecifier);
    Ok(Built(CompareInstr(c, lhs.llvmValue, rhs.llvmValue), res.(llvmValue := Reg(at))))
  }

  /** vm_value_build_cmp_op: the chosen ICmp or FCmp is appended to the builder. */
  method BuildCmpOp(b: Builder, op: int, lhs: VmValue, rhs: VmValue) returns (r: Result<VmValue>)
    modifies b
    ensures var spec := CmpOp(op, lhs, rhs, |old(b.log)|);
      && (spec.Ok? ==> r == Ok(spec.value.value) && b.log == old(b.log) + [spec.value.instr])
      && (spec.Err? ==> r == Err(spec.error))
  {
    var res :- VmValueNew(lhs.typeSpecifier, "");
    var c :- CmpPredicate(op, res.typeSpecifier);
    var v: LlvmValue;
    if c.IntComparison? {
      v := b.Emit(ICmp(c.intPredicate, lhs.llvmValue, rhs.llvmValue));
    } else {
      v := b.Emit(FCmp(c.realPredicate, lhs.llvmValue, rhs.llvmValue));
    }
    r := Ok(res.(llvmValue := v));
  }

  // ---------------------------------------------------------------------
  // Properties of the selection

  /**
   * Arithmetic never divides: `/` gives exactly the opcode `*` gives, for
   * either operand type.
   */
  lemma DivisionLoweredAsMultiplication(typeSpecifier: int)
    ensures MathOpcode(OpDiv, typeSpecifier) == MathOpcode(OpMul, typeSpecifier)
    ensures MathOpcode(OpDiv, TypeInt) == Ok(Mul) && MathOpcode(OpDiv, TypeFloat) == Ok(FMul)
  {
  }

  /**
   * The opcode is determined by the operator and whether the left operand is
   * `int`: two selections that agree on both agree, so no other input can
   * change the choice.
   */
  lemma {:induction false} MathOpcodeDeterminedByOperatorAndIntness(op: int, t1: int, t2: int)
    requires MathOpcode(op, t1).Ok? && MathOpcode(op, t2).Ok?
    requires (t1 == TypeInt) == (t2 == TypeInt)
    ensures MathOpcode(op, t1) == MathOpcode(op, t2)
  {
    var a, b := MathOpcode(op, t1).value, MathOpcode(op, t2).value;
    assert OperatorOf(a) == OperatorOf(b);
    assert IsIntegerOpcode(a) == IsIntegerOpcode(b);
  }

  /**
   * Distinct comparison operators select distinct predicates for the same
   * operand type: the selection loses no information.
   */
  lemma {:induction false} CmpPredicateInjective(op1: int, op2: int, typeSpecifier: int)
    requires CmpPredicate(op1, typeSpecifier).Ok? && CmpPredicate(op2, typeSpecifier).Ok?
    requires CmpPredicate(op1, typeSpecifier) == CmpPredicate(op2, typeSpecifier)
    ensures op1 == op2
  {
    assert ComparisonOperator(CmpPredicate(op1, typeSpecifier).value) == op1;
    assert ComparisonOperator(CmpPredicate(op2, typeSpecifier).value) == op2;
  }
}

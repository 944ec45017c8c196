/**
 * Lowering the tree to LLVM IR (driver.c).
 *
 * `LowerExpression`, `LowerNode` and `LowerList` say what each drive_*
 * routine does to the compilation state: the symbol table and the builder's
 * instruction log.  The `Drive*` methods run the routines against a
 * `VmState` and are proved to do exactly that.
 */
module Driver {
  import opened Failures
  import opened Ast
  import opened Llvm
  import opened Values
  import opened SymbolTables

  /** The compilation state: the symbol table's bindings and the instructions built so far. */
  datatype Lowered = Lowered(symbols: map<string, VmValue>, log: seq<Instr>)

  /** The instructions built so far and the value an expression produced. */
  datatype Emitted = Emitted(log: seq<Instr>, value: VmValue)

  /** The state vm_state_create starts from: no bindings, nothing built. */
  function Initial(): (st: Lowered)
    ensures st.symbols.Keys == {} && st.log == []
  {
    var empty: map<string, VmValue> := map[];
    assert empty.Keys == {};
    Lowered(empty, [])
  }

  // ---------------------------------------------------------------------
  // Which identifiers are bound where

  /**
   * Every identifier the expression reads or assigns is bound: the source
   * dereferences the table's answer without a check.
   */
  predicate ExprResolved(e: Expression, bound: set<string>)
    requires WellFormed(e)
  {
    if IsBinaryOperator(e.op) then ExprResolved(e.sub0.value, bound) && ExprResolved(e.sub1.value, bound)
    else if e.op == OpAssign then e.primary.identifier in bound && ExprResolved(e.sub0.value, bound)
    else if e.op == OpIdentifier then e.primary.identifier in bound
    else true
  }

  /**
   * The identifiers bound after driving `n` from a state binding `bound`:
   * declarations add theirs; blocks share the one table; the bodies of
   * `if` and `while` are never driven.
   */
  function BoundAfter(n: Node, bound: set<string>): set<string> {
    match n
    case Declaration(_, id) => bound + {id}
    case StatementListNode(s) => ListBoundAfter(s, bound)
    case CompoundStatement(c) => ListBoundAfter(c.statements, bound)
    case TranslationUnit(s) => ListBoundAfter(s, bound)
    case _ => bound
  }

  function ListBoundAfter(s: seq<Node>, bound: set<string>): set<string> {
    if s == [] then bound else ListBoundAfter(s[1..], BoundAfter(s[0], bound))
  }

  /** Every identifier is declared before the statement that uses it is driven. */
  predicate Resolved(n: Node, bound: set<string>)
    requires NodeWellFormed(n)
  {
    match n
    case ExpressionNode(e) => ExprResolved(e, bound)
    case StatementListNode(s) => ListResolved(s, bound)
    case CompoundStatement(c) => ListResolved(c.statements, bound)
    case TranslationUnit(s) => ListResolved(s, bound)
    case _ => true
  }

  predicate ListResolved(s: seq<Node>, bound: set<string>)
    requires ListWellFormed(s)
  {
    s == [] || (Resolved(s[0], bound) && ListResolved(s[1..], BoundAfter(s[0], bound)))
  }

  // ---------------------------------------------------------------------
  // What driving does

  /**
   * drive_expression: operands left to right, then the math or comparison
   * instruction; an assignment stores the value into the target's slot and
   * yields the target's binding (the slot, not the value stored); an
   * identifier loads from its slot; constants build nothing.
   */
  function LowerExpression(symbols: map<string, VmValue>, log: seq<Instr>, e: Expression): (r: Result<Emitted>)
    requires WellFormed(e) && ExprResolved(e, symbols.Keys)
    ensures r.Ok? ==> log <= r.value.log
    decreases e
  {
    if OpAdd <= e.op <= OpDiv then
      var lhs :- LowerExpression(symbols, log, e.sub0.value);
      var rhs :- LowerExpression(symbols, lhs.log, e.sub1.value);
      var built :- MathOp(e.op, lhs.value, rhs.value, |rhs.log|);
      Ok(Emitted(rhs.log + [built.instr], built.value))
    else if OpGt <= e.op <= OpGe then
      var lhs :- LowerExpression(symbols, log, e.sub0.value);
      var rhs :- LowerExpression(symbols, lhs.log, e.sub1.value);
      var built :- CmpOp(e.op, lhs.value, rhs.value, |rhs.log|);
      Ok(Emitted(rhs.log + [built.instr], built.value))
    else if e.op == OpAssign then
      var target := symbols[e.primary.identifier];
      var rhs :- LowerExpression(symbols, log, e.sub0.value);
      Ok(Emitted(rhs.log + [Store(rhs.value.llvmValue, target.llvmValue)], target))
    else if e.op == OpIdentifier then
      var binding := symbols[e.primary.identifier];
      Ok(Emitted(log + [Load(binding.llvmValue)], binding.(llvmValue := Reg(|log|))))
    else if e.op == OpIntConstant then
      Ok(Emitted(log, VmValueNewFromIntConstant(e.primary.intConstant)))
    else if e.op == OpFloatConstant then
      Ok(Emitted(log, VmValueNewFromFloatConstant(e.primary.floatConstant)))
    else
      Err(UnknownExpressionOperator(e.op))
  }

  /**
   * drive_node: a declaration allocates a slot named after its identifier
   * and binds it; an expression statement is driven for its instructions;
   * lists, blocks and the translation unit drive their statements in order;
   * `if` and `while` do nothing; a generic node is fatal.
   */
  function LowerNode(st: Lowered, n: Node): (r: Result<Lowered>)
    requires NodeWellFormed(n) && Resolved(n, st.symbols.Keys)
    ensures r.Ok? ==> r.value.symbols.Keys == BoundAfter(n, st.symbols.Keys)
    ensures r.Ok? ==> st.log <= r.value.log
    decreases n, 1
  {
    match n
    case GenericNode => Err(GenericNodeRequest)
    case Declaration(ts, id) =>
      var v :- VmValueNew(ts, id);
      Ok(Lowered(st.symbols[id := v.(llvmValue := Reg(|st.log|))], st.log + [Alloca(v.llvmType, id)]))
    case ExpressionNode(e) =>
      var emitted :- LowerExpression(st.symbols, st.log, e);
      Ok(Lowered(st.symbols, emitted.log))
    case StatementListNode(s) => LowerList(st, s)
    case CompoundStatement(c) => LowerList(st, c.statements)
    case SelectionStatement(_, _, _) => Ok(st)
    case WhileStatement(_, _) => Ok(st)
    case TranslationUnit(s) => LowerList(st, s)
  }

  /** drive_statement_list: the statements in index order; the first failure stops it. */
  function LowerList(st: Lowered, s: seq<Node>): (r: Result<Lowered>)
    requires ListWellFormed(s) && ListResolved(s, st.symbols.Keys)
    ensures r.Ok? ==> r.value.symbols.Keys == ListBoundAfter(s, st.symbols.Keys)
    ensures r.Ok? ==> st.log <= r.value.log
    decreases s
  {
    if s == [] then Ok(st)
    else
      assert NodeWellFormed(s[0]) && ListWellFormed(s[1..]);
      var next :- LowerNode(st, s[0]);
      LowerList(next, s[1..])
  }

  /** One turn of drive_statement_list's loop. */
  lemma LowerListStep(st: Lowered, s: seq<Node>, i: nat)
    requires ListWellFormed(s) && i < |s|
    ensures ListWellFormed(s[i..]) && ListWellFormed(s[i + 1..]) && s[0..] == s
    ensures ListResolved(s[i..], st.symbols.Keys) ==>
              Resolved(s[i], st.symbols.Keys) && ListResolved(s[i + 1..], BoundAfter(s[i], st.symbols.Keys))
    ensures ListResolved(s[i..], st.symbols.Keys) ==>
              LowerList(st, s[i..]) == (var next :- LowerNode(st, s[i]); LowerList(next, s[i + 1..]))
  {
    assert s[i..][0] == s[i] && s[i..][1..] == s[i + 1..];
  }

  /** A statement that lowers to `next`, followed by the rest of the list. */
  lemma LowerListCons(st: Lowered, x: Node, rest: seq<Node>, next: Lowered)
    requires NodeWellFormed(x) && ListWellFormed(rest) && Resolved(x, st.symbols.Keys)
    requires LowerNode(st, x) == Ok(next) && ListResolved(rest, next.symbols.Keys)
    ensures ListWellFormed([x] + rest) && ListResolved([x] + rest, st.symbols.Keys)
    ensures LowerList(st, [x] + rest) == LowerList(next, rest)
  {
    assert ([x] + rest)[0] == x && ([x] + rest)[1..] == rest;
  }

  // ---------------------------------------------------------------------
  // The routines

  /**
   * struct vm_state as the driver uses it: the IR builder and the symbol
   * table.  The LLVM module, function and entry block are not modelled.
   */
  class VmState {
    const builder: Builder
    const symtab: SymbolTable

    ghost predicate Valid()
      reads this, symtab
    {
      symtab.Valid()
    }

    /** The compilation state the object holds. */
    function State(): Lowered
      reads this, builder, symtab
    {
      Lowered(symtab.symbols, builder.log)
    }

    /** vm_state_create: an empty table and a builder with nothing built. */
    constructor ()
      ensures Valid() && fresh(builder) && fresh(symtab)
      ensures State() == Initial()
    {
      builder := new Builder();
      symtab := new SymbolTable();
    }
  }

  /** A routine's status and the state it leaves agree with what the lowering says. */
  ghost predicate Agrees(spec: Result<Lowered>, status: Outcome, now: Lowered) {
    (spec.Ok? ==> status == Pass && now == spec.value) && (spec.Err? ==> status == Fail(spec.error))
  }

  /** drive_expression. */
  method DriveExpression(vm: VmState, e: Expression) returns (r: Result<VmValue>)
    requires vm.Valid() && WellFormed(e) && ExprResolved(e, vm.symtab.symbols.Keys)
    modifies vm.builder
    ensures var spec := LowerExpression(vm.symtab.symbols, old(vm.builder.log), e);
      && (spec.Ok? ==> r == Ok(spec.value.value) && vm.builder.log == spec.value.log)
      && (spec.Err? ==> r == Err(spec.error))
    decreases e
  {
    if OpAdd <= e.op <= OpDiv {
      var lhs :- DriveExpression(vm, e.sub0.value);
      var rhs :- DriveExpression(vm, e.sub1.value);
      r := BuildMathOp(vm.builder, e.op, lhs, rhs);
    } else if OpGt <= e.op <= OpGe {
      var lhs :- DriveExpression(vm, e.sub0.value);
      var rhs :- DriveExpression(vm, e.sub1.value);
      r := BuildCmpOp(vm.builder, e.op, lhs, rhs);
    } else if e.op == OpAssign {
      var target := vm.symtab.GetValue(e.primary.identifier);
      var rhs :- DriveExpression(vm, e.sub0.value);
      var _ := vm.builder.Emit(Store(rhs.llvmValue, target.value.llvmValue));
      r := Ok(target.value);
    } else if e.op == OpIdentifier {
      var binding := vm.symtab.GetValue(e.primary.identifier);
      var loaded := vm.builder.Emit(Load(binding.value.llvmValue));
      r := Ok(binding.value.(llvmValue := loaded));
    } else if e.op == OpIntConstant {
      r := Ok(VmValueNewFromIntConstant(e.primary.intConstant));
    } else if e.op == OpFloatConstant {
      r := Ok(VmValueNewFromFloatConstant(e.primary.floatConstant));
    } else {
      r := Err(UnknownExpressionOperator(e.op));
    }
  }

  /** drive_declaration: allocate the slot, then bind it. */
  method DriveDeclaration(vm: VmState, n: Node) returns (status: Outcome)
    requires vm.Valid() && n.Declaration?
    modifies vm.builder, vm.symtab
    ensures vm.Valid()
    ensures Agrees(LowerNode(old(vm.State()), n), status, vm.State())
  {
    var v := VmValueNew(n.typeSpecifier, n.identifier);
    if v.Err? {
      return Fail(v.error);
    }
    var slot := vm.builder.Emit(Alloca(v.value.llvmType, v.value.identifier));
    vm.symtab.PutValue(v.value.(llvmValue := slot));
    status := Pass;
  }

  /** drive_statement_list: a loop over the statements in index order. */
  method DriveStatementList(vm: VmState, statements: seq<Node>) returns (status: Outcome)
    requires vm.Valid() && ListWellFormed(statements) && ListResolved(statements, vm.symtab.symbols.Keys)
    modifies vm.builder, vm.symtab
    ensures vm.Valid()
    ensures Agrees(LowerList(old(vm.State()), statements), status, vm.State())
    decreases statements
  {
    assert statements[0..] == statements;
    for i := 0 to |statements|
      invariant vm.Valid() && ListWellFormed(statements[i..])
      invariant ListResolved(statements[i..], vm.symtab.symbols.Keys)
      invariant LowerList(old(vm.State()), statements) == LowerList(vm.State(), statements[i..])
    {
      LowerListStep(vm.State(), statements, i);
      status := DriveNode(vm, statements[i]);
      if status.Fail? {
        return;
      }
    }
    status := Pass;
  }

  /** drive_compound_statement: its statement list, in the one shared table. */
  method DriveCompoundStatement(vm: VmState, c: Compound) returns (status: Outcome)
    requires vm.Valid() && ListWellFormed(c.statements) && ListResolved(c.statements, vm.symtab.symbols.Keys)
    modifies vm.builder, vm.symtab
    ensures vm.Valid()
    ensures Agrees(LowerList(old(vm.State()), c.statements), status, vm.State())
    decreases c
  {
    status := DriveStatementList(vm, c.statements);
  }

  /** drive_selection_statement: returns at once. */
  method DriveSelectionStatement(vm: VmState, n: Node) returns (status: Outcome)
    requires n.SelectionStatement?
    ensures status == Pass
  {
    status := Pass;
  }

  /** drive_while_statement: returns at once. */
  method DriveWhileStatement(vm: VmState, n: Node) returns (status: Outcome)
    requires n.WhileStatement?
    ensures status == Pass
  {
    status := Pass;
  }

  /** drive_translation_unit: the top-level statement list. */
  method DriveTranslationUnit(vm: VmState, n: Node) returns (status: Outcome)
    requires vm.Valid() && n.TranslationUnit? && NodeWellFormed(n) && Resolved(n, vm.symtab.symbols.Keys)
    modifies vm.builder, vm.symtab
    ensures vm.Valid()
    ensures Agrees(LowerNode(old(vm.State()), n), status, vm.State())
    decreases n, 0
  {
    status := DriveStatementList(vm, n.statementList);
  }

  /** drive_node: dispatch on the tag. */
  method DriveNode(vm: VmState, n: Node) returns (status: Outcome)
    requires vm.Valid() && NodeWellFormed(n) && Resolved(n, vm.symtab.symbols.Keys)
    modifies vm.builder, vm.symtab
    ensures vm.Valid()
    ensures Agrees(LowerNode(old(vm.State()), n), status, vm.State())
    decreases n, 1
  {
    match n
    case GenericNode =>
      status := Fail(GenericNodeRequest);
    case Declaration(_, _) =>
      status := DriveDeclaration(vm, n);
    case ExpressionNode(e) =>
      var r := DriveExpression(vm, e);
      status := if r.Ok? then Pass else Fail(r.error);
    case StatementListNode(s) =>
      status := DriveStatementList(vm, s);
    case CompoundStatement(c) =>
      status := DriveCompoundStatement(vm, c);
    case SelectionStatement(_, _, _) =>
      status := DriveSelectionStatement(vm, n);
    case WhileStatement(_, _) =>
      status := DriveWhileStatement(vm, n);
    case TranslationUnit(_) =>
      status := DriveTranslationUnit(vm, n);
  }

  /**
   * ast_to_llvm: a fresh state, the translation unit driven into it; the
   * instructions built, or the fatal error that stopped the driver.
   */
  method AstToLlvm(tu: Node) returns (r: Result<seq<Instr>>)
    requires tu.TranslationUnit? && NodeWellFormed(tu) && Resolved(tu, {})
    ensures var spec := LowerNode(Initial(), tu);
      && (spec.Ok? ==> r == Ok(spec.value.log))
      && (spec.Err? ==> r == Err(spec.error))
  {
    var vm := new VmState();
    var status := DriveTranslationUnit(vm, tu);
    if status.Fail? {
      return Err(status.error);
    }
    r := Ok(vm.builder.log);
  }

  // ---------------------------------------------------------------------
  // Properties of the lowering

  /**
   * The instructions an expression builds: one per arithmetic or comparison
   * operator, one store per assignment, one load per identifier, none for a
   * constant.
   */
  function Cost(e: Expression): nat
    requires WellFormed(e)
  {
    if IsBinaryOperator(e.op) then Cost(e.sub0.value) + Cost(e.sub1.value) + 1
    else if e.op == OpAssign then Cost(e.sub0.value) + 1
    else if e.op == OpIdentifier then 1
    else 0
  }

  lemma {:induction false} LowerExpressionCost(symbols: map<string, VmValue>, log: seq<Instr>, e: Expression)
    requires WellFormed(e) && ExprResolved(e, symbols.Keys)
    ensures var r := LowerExpression(symbols, log, e);
      r.Ok? ==> |r.value.log| == |log| + Cost(e)
    decreases e
  {
    if IsBinaryOperator(e.op) {
      LowerExpressionCost(symbols, log, e.sub0.value);
      var lhs := LowerExpression(symbols, log, e.sub0.value);
      if lhs.Ok? {
        LowerExpressionCost(symbols, lhs.value.log, e.sub1.value);
      }
    } else if e.op == OpAssign {
      LowerExpressionCost(symbols, log, e.sub0.value);
    }
  }

  /** Every binding's LLVM type agrees with its type specifier. */
  predicate TypedTable(symbols: map<string, VmValue>) {
    forall id :: id in symbols ==> Typed(symbols[id])
  }

  /** Every operator in the expression is one drive_expression has a case for. */
  predicate KnownOperators(e: Expression)
    requires WellFormed(e)
  {
    OpAdd <= e.op <= OpIdentifier
    && (IsBinaryOperator(e.op) ==> KnownOperators(e.sub0.value) && KnownOperators(e.sub1.value))
    && (e.op == OpAssign ==> KnownOperators(e.sub0.value))
  }

  /**
   * The type specifier of an expression's value: that of its leftmost
   * operand for an operator (comparisons included), that of the binding for
   * an assignment or identifier, that of the literal for a constant.
   */
  function StaticType(symbols: map<string, VmValue>, e: Expression): int
    requires WellFormed(e) && ExprResolved(e, symbols.Keys)
  {
    if IsBinaryOperator(e.op) then StaticType(symbols, e.sub0.value)
    else if e.op == OpAssign || e.op == OpIdentifier then symbols[e.primary.identifier].typeSpecifier
    else if e.op == OpIntConstant then TypeInt
    else if e.op == OpFloatConstant then TypeFloat
    else 0
  }

  /**
   * Over a typed table, driving an expression fails exactly when an operator
   * is unknown, and otherwise yields a typed value of the leftmost operand's
   * type: the right operand's type is never consulted.
   */
  lemma {:induction false} LowerExpressionTyped(symbols: map<string, VmValue>, log: seq<Instr>, e: Expression)
    requires WellFormed(e) && ExprResolved(e, symbols.Keys) && TypedTable(symbols)
    ensures var r := LowerExpression(symbols, log, e);
      && (r.Ok? <==> KnownOperators(e))
      && (r.Err? ==> r.error.UnknownExpressionOperator?)
      && (r.Ok? ==> Typed(r.value.value) && r.value.value.typeSpecifier == StaticType(symbols, e))
    decreases e
  {
    if IsBinaryOperator(e.op) {
      LowerExpressionTyped(symbols, log, e.sub0.value);
      var lhs := LowerExpression(symbols, log, e.sub0.value);
      if lhs.Ok? {
        LowerExpressionTyped(symbols, lhs.value.log, e.sub1.value);
      }
    } else if e.op == OpAssign {
      LowerExpressionTyped(symbols, log, e.sub0.value);
    }
  }

  /**
   * When both operands of an arithmetic expression have the same type, the
   * instruction built for it is an integer opcode exactly when that type is
   * `int`: no integer opcode over `float` operands, and no float opcode over
   * `int` operands.
   */
  lemma {:induction false} WellTypedArithmeticOpcode(symbols: map<string, VmValue>, log: seq<Instr>, e: Expression)
    requires WellFormed(e) && ExprResolved(e, symbols.Keys) && TypedTable(symbols)
    requires OpAdd <= e.op <= OpDiv
    requires StaticType(symbols, e.sub0.value) == StaticType(symbols, e.sub1.value)
    ensures var r := LowerExpression(symbols, log, e);
      r.Ok? ==>
        && |r.value.log| > |log|
        && var last := r.value.log[|r.value.log| - 1];
        && last.BinOp?
        && (IsIntegerOpcode(last.opcode) <==> StaticType(symbols, e.sub0.value) == TypeInt)
        && (IsIntegerOpcode(last.opcode) <==> StaticType(symbols, e.sub1.value) == TypeInt)
  {
    LowerExpressionTyped(symbols, log, e.sub0.value);
    var lhs := LowerExpression(symbols, log, e.sub0.value);
    if lhs.Ok? {
      LowerExpressionTyped(symbols, lhs.value.log, e.sub1.value);
    }
  }

  /**
   * The comparison counterpart: over operands of one type, the comparison
   * built is an ICmp exactly when that type is `int`, and an FCmp otherwise.
   */
  lemma {:induction false} WellTypedComparisonKind(symbols: map<string, VmValue>, log: seq<Instr>, e: Expression)
    requires WellFormed(e) && ExprResolved(e, symbols.Keys) && TypedTable(symbols)
    requires OpGt <= e.op <= OpGe
    requires StaticType(symbols, e.sub0.value) == StaticType(symbols, e.sub1.value)
    ensures var r := LowerExpression(symbols, log, e);
      r.Ok? ==>
        && |r.value.log| > |log|
        && var last := r.value.log[|r.value.log| - 1];
        && (last.ICmp? || last.FCmp?)
        && (last.ICmp? <==> StaticType(symbols, e.sub0.value) == TypeInt)
        && (last.ICmp? <==> StaticType(symbols, e.sub1.value) == TypeInt)
  {
    LowerExpressionTyped(symbols, log, e.sub0.value);
    var lhs := LowerExpression(symbols, log, e.sub0.value);
    if lhs.Ok? {
      LowerExpressionTyped(symbols, lhs.value.log, e.sub1.value);
    }
  }

  /** `v` is bound to the register of the slot allocated for `id`, under its own name. */
  predicate SlotFor(log: seq<Instr>, v: VmValue, id: string) {
    && v.identifier == id && Typed(v)
    && v.llvmValue.Reg? && v.llvmValue.index < |log|
    && log[v.llvmValue.index] == Alloca(v.llvmType, id)
  }

  /** Every binding names the slot its declaration allocated. */
  predicate Consistent(st: Lowered) {
    forall id :: id in st.symbols ==> SlotFor(st.log, st.symbols[id], id)
  }

  /** `v` can be an operand of the instruction at position `i`: a constant or an earlier result. */
  predicate Operand(v: LlvmValue, i: nat) {
    v.ConstInt? || v.ConstFloat? || (v.Reg? && v.index < i)
  }

  /** `p` is the result of an earlier Alloca. */
  predicate IsSlot(log: seq<Instr>, p: LlvmValue) {
    p.Reg? && p.index < |log| && log[p.index].Alloca?
  }

  /** `x` can follow `log`: it reads only earlier results, and loads and stores only through slots. */
  predicate Fits(log: seq<Instr>, x: Instr) {
    match x
    case Alloca(_, _) => true
    case Load(p) => IsSlot(log, p)
    case Store(v, p) => Operand(v, |log|) && IsSlot(log, p)
    case BinOp(_, a, b) => Operand(a, |log|) && Operand(b, |log|)
    case ICmp(_, a, b) => Operand(a, |log|) && Operand(b, |log|)
    case FCmp(_, a, b) => Operand(a, |log|) && Operand(b, |log|)
  }

  /** Every instruction fits the instructions before it. */
  predicate WellScoped(log: seq<Instr>) {
    forall i :: 0 <= i < |log| ==> Fits(log[..i], log[i])
  }

  /** What holds of every state the driver reaches from vm_state_create. */
  predicate Invariant(st: Lowered) {
    Consistent(st) && WellScoped(st.log)
  }

  lemma WellScopedAppend(log: seq<Instr>, x: Instr)
    requires WellScoped(log) && Fits(log, x)
    ensures WellScoped(log + [x])
  {
    var extended := log + [x];
    forall i | 0 <= i < |extended|
      ensures Fits(extended[..i], extended[i])
    {
      if i < |log| {
        assert extended[..i] == log[..i] && extended[i] == log[i];
      } else {
        assert extended[..i] == log;
      }
    }
  }

  lemma ConsistentExtends(symbols: map<string, VmValue>, log: seq<Instr>, longer: seq<Instr>)
    requires Consistent(Lowered(symbols, log)) && log <= longer
    ensures Consistent(Lowered(symbols, longer))
  {
    forall id | id in symbols
      ensures SlotFor(longer, symbols[id], id)
    {
      assert longer[symbols[id].llvmValue.index] == log[symbols[id].llvmValue.index];
    }
  }

  lemma SlotExtends(log: seq<Instr>, longer: seq<Instr>, p: LlvmValue)
    requires IsSlot(log, p) && log <= longer
    ensures IsSlot(longer, p)
  {
    assert longer[p.index] == log[p.index];
  }

  /**
   * Driving an expression keeps every binding on its slot, builds only
   * instructions that fit, and yields an operand for the next one.
   */
  lemma {:induction false} LowerExpressionScoped(symbols: map<string, VmValue>, log: seq<Instr>, e: Expression)
    requires WellFormed(e) && ExprResolved(e, symbols.Keys)
    requires Invariant(Lowered(symbols, log))
    ensures var r := LowerExpression(symbols, log, e);
      r.Ok? ==> Invariant(Lowered(symbols, r.value.log)) && Operand(r.value.value.llvmValue, |r.value.log|)
    decreases e
  {
    var r := LowerExpression(symbols, log, e);
    if IsBinaryOperator(e.op) {
      LowerExpressionScoped(symbols, log, e.sub0.value);
      var lhs := LowerExpression(symbols, log, e.sub0.value);
      if lhs.Ok? {
        LowerExpressionScoped(symbols, lhs.value.log, e.sub1.value);
        var rhs := LowerExpression(symbols, lhs.value.log, e.sub1.value);
        if r.Ok? {
          var built := if e.op <= OpDiv then MathOp(e.op, lhs.value.value, rhs.value.value, |rhs.value.log|)
                       else CmpOp(e.op, lhs.value.value, rhs.value.value, |rhs.value.log|);
          assert r.value.log == rhs.value.log + [built.value.instr];
          WellScopedAppend(rhs.value.log, built.value.instr);
          ConsistentExtends(symbols, rhs.value.log, r.value.log);
        }
      }
    } else if e.op == OpAssign {
      LowerExpressionScoped(symbols, log, e.sub0.value);
      var rhs := LowerExpression(symbols, log, e.sub0.value);
      if r.Ok? {
        var target := symbols[e.primary.identifier];
        var store := Store(rhs.value.value.llvmValue, target.llvmValue);
        assert SlotFor(rhs.value.log, target, e.primary.identifier);
        WellScopedAppend(rhs.value.log, store);
        ConsistentExtends(symbols, rhs.value.log, r.value.log);
      }
    } else if e.op == OpIdentifier {
      var binding := symbols[e.primary.identifier];
      assert SlotFor(log, binding, e.primary.identifier);
      WellScopedAppend(log, Load(binding.llvmValue));
      ConsistentExtends(symbols, log, r.value.log);
    }
  }

  /** Driving a statement keeps the invariant. */
  lemma {:induction false} LowerNodeKeepsInvariant(st: Lowered, n: Node)
    requires NodeWellFormed(n) && Resolved(n, st.symbols.Keys) && Invariant(st)
    ensures var r := LowerNode(st, n);
      r.Ok? ==> Invariant(r.value)
    decreases n, 1
  {
    match n
    case GenericNode =>
    case Declaration(ts, id) =>
      var v := VmValueNew(ts, id);
      if v.Ok? {
        var alloca := Alloca(v.value.llvmType, id);
        var log := st.log + [alloca];
        WellScopedAppend(st.log, alloca);
        ConsistentExtends(st.symbols, st.log, log);
        assert SlotFor(log, v.value.(llvmValue := Reg(|st.log|)), id);
      }
    case ExpressionNode(e) =>
      LowerExpressionScoped(st.symbols, st.log, e);
    case StatementListNode(s) =>
      LowerListKeepsInvariant(st, s);
    case CompoundStatement(c) =>
      LowerListKeepsInvariant(st, c.statements);
    case SelectionStatement(_, _, _) =>
    case WhileStatement(_, _) =>
    case TranslationUnit(s) =>
      LowerListKeepsInvariant(st, s);
  }

  lemma {:induction false} LowerListKeepsInvariant(st: Lowered, s: seq<Node>)
    requires ListWellFormed(s) && ListResolved(s, st.symbols.Keys) && Invariant(st)
    ensures var r := LowerList(st, s);
      r.Ok? ==> Invariant(r.value)
    decreases s
  {
    if s != [] {
      assert NodeWellFormed(s[0]) && ListWellFormed(s[1..]);
      LowerNodeKeepsInvariant(st, s[0]);
      var next := LowerNode(st, s[0]);
      if next.Ok? {
        LowerListKeepsInvariant(next.value, s[1..]);
      }
    }
  }

  /**
   * The code ast_to_llvm builds is well scoped: every instruction reads only
   * constants and results built before it, and every load and store goes
   * through a slot allocated before it.
   */
  lemma AstToLlvmWellScoped(tu: Node)
    requires NodeWellFormed(tu) && Resolved(tu, {})
    ensures LowerNode(Initial(), tu).Ok? ==> WellScoped(LowerNode(Initial(), tu).value.log)
  {
    LowerNodeKeepsInvariant(Initial(), tu);
  }

  /** The statements drive_node can drive to the end. */
  predicate Drivable(n: Node)
    requires NodeWellFormed(n)
  {
    match n
    case GenericNode => false
    case Declaration(ts, _) => IsTypeSpecifier(ts)
    case ExpressionNode(e) => KnownOperators(e)
    case StatementListNode(s) => ListDrivable(s)
    case CompoundStatement(c) => ListDrivable(c.statements)
    case TranslationUnit(s) => ListDrivable(s)
    case _ => true
  }

  predicate ListDrivable(s: seq<Node>)
    requires ListWellFormed(s)
  {
    forall i :: 0 <= i < |s| ==> Drivable(s[i])
  }

  /**
   * From any reachable state, driving a statement reaches its end exactly
   * when it is drivable: no generic node, no unknown type specifier and no
   * unknown operator outside the bodies of `if` and `while`.
   */
  lemma {:induction false} LowerNodeSucceedsIffDrivable(st: Lowered, n: Node)
    requires NodeWellFormed(n) && Resolved(n, st.symbols.Keys) && Invariant(st)
    ensures LowerNode(st, n).Ok? <==> Drivable(n)
    decreases n, 1
  {
    match n
    case GenericNode =>
    case Declaration(_, _) =>
    case ExpressionNode(e) =>
      LowerExpressionTyped(st.symbols, st.log, e);
    case StatementListNode(s) =>
      LowerListSucceedsIffDrivable(st, s);
    case CompoundStatement(c) =>
      LowerListSucceedsIffDrivable(st, c.statements);
    case SelectionStatement(_, _, _) =>
    case WhileStatement(_, _) =>
    case TranslationUnit(s) =>
      LowerListSucceedsIffDrivable(st, s);
  }

  lemma {:induction false} LowerListSucceedsIffDrivable(st: Lowered, s: seq<Node>)
    requires ListWellFormed(s) && ListResolved(s, st.symbols.Keys) && Invariant(st)
    ensures LowerList(st, s).Ok? <==> ListDrivable(s)
    decreases s
  {
    if s != [] {
      assert NodeWellFormed(s[0]) && ListWellFormed(s[1..]);
      assert ListDrivable(s) <==> Drivable(s[0]) && ListDrivable(s[1..]) by {
        assert forall i :: 1 <= i < |s| ==> s[i] == s[1..][i - 1];
      }
      LowerNodeSucceedsIffDrivable(st, s[0]);
      LowerNodeKeepsInvariant(st, s[0]);
      var next := LowerNode(st, s[0]);
      if next.Ok? {
        LowerListSucceedsIffDrivable(next.value, s[1..]);
      }
    }
  }

  /** Driving a statement never unbinds an identifier. */
  lemma {:induction false} BoundAfterGrows(n: Node, bound: set<string>)
    ensures bound <= BoundAfter(n, bound)
    decreases n, 1
  {
    match n
    case StatementListNode(s) => ListBoundAfterGrows(s, bound);
    case CompoundStatement(c) => ListBoundAfterGrows(c.statements, bound);
    case TranslationUnit(s) => ListBoundAfterGrows(s, bound);
    case _ =>
  }

  lemma {:induction false} ListBoundAfterGrows(s: seq<Node>, bound: set<string>)
    ensures bound <= ListBoundAfter(s, bound)
    decreases s
  {
    if s != [] {
      BoundAfterGrows(s[0], bound);
      ListBoundAfterGrows(s[1..], BoundAfter(s[0], bound));
    }
  }

  /**
   * An assignment yields the target's binding, whose LLVM value is the
   * target's slot, not the value stored; its last instruction stores the
   * right-hand side's value through that slot.
   */
  lemma AssignmentYieldsSlot(symbols: map<string, VmValue>, log: seq<Instr>, e: Expression)
    requires e.op == OpAssign && WellFormed(e) && ExprResolved(e, symbols.Keys)
    requires Consistent(Lowered(symbols, log))
    ensures var r := LowerExpression(symbols, log, e);
      r.Ok? ==>
        && r.value.value == symbols[e.primary.identifier]
        && IsSlot(r.value.log, r.value.value.llvmValue)
        && |r.value.log| > 0
        && r.value.log[|r.value.log| - 1]
           == Store(LowerExpression(symbols, log, e.sub0.value).value.value.llvmValue, r.value.value.llvmValue)
  {
    var r := LowerExpression(symbols, log, e);
    if r.Ok? {
      var target := symbols[e.primary.identifier];
      assert SlotFor(log, target, e.primary.identifier);
      SlotExtends(log, r.value.log, target.llvmValue);
    }
  }

  /** The bodies of `if` and `while` are neither lowered nor scanned for declarations. */
  lemma ControlFlowIsSkipped(st: Lowered, n: Node)
    requires (n.SelectionStatement? || n.WhileStatement?) && NodeWellFormed(n)
    ensures LowerNode(st, n) == Ok(st)
    ensures BoundAfter(n, st.symbols.Keys) == st.symbols.Keys
  {
  }

  /**
   * `x = y = 3` stores 3 into `y`, then stores `y`'s slot, not 3, into `x`:
   * the inner assignment's value is the binding of `y`.
   */
  lemma ChainedAssignmentStoresSlot(st: Lowered)
    requires "x" in st.symbols && "y" in st.symbols
    ensures var inner := Expression(OpAssign, Some(IntLiteral(3)), None, Identifier("y"));
            var outer := Expression(OpAssign, Some(inner), None, Identifier("x"));
            LowerExpression(st.symbols, st.log, outer)
            == Ok(Emitted(st.log + [Store(ConstInt(3), st.symbols["y"].llvmValue),
                                    Store(st.symbols["y"].llvmValue, st.symbols["x"].llvmValue)],
                          st.symbols["x"]))
  {
    var inner := Expression(OpAssign, Some(IntLiteral(3)), None, Identifier("y"));
    var y := st.symbols["y"];
    var first := st.log + [Store(ConstInt(3), y.llvmValue)];
    assert LowerExpression(st.symbols, st.log, IntLiteral(3)) == Ok(Emitted(st.log, VmValueNewFromIntConstant(3)));
    assert LowerExpression(st.symbols, st.log, inner) == Ok(Emitted(first, y));
    assert first + [Store(y.llvmValue, st.symbols["x"].llvmValue)]
        == st.log + [Store(ConstInt(3), y.llvmValue), Store(y.llvmValue, st.symbols["x"].llvmValue)];
  }

  /**
   * A `float` variable plus an `int` constant is accepted without a type
   * check: the float opcode is chosen from the left operand, and the integer
   * constant is used as the right operand as it is.
   */
  lemma MixedOperandsAccepted(st: Lowered)
    requires "f" in st.symbols && st.symbols["f"].typeSpecifier == TypeFloat
    ensures var sum := Expression(OpAdd, Some(Ident("f")), Some(IntLiteral(1)), Unset);
            && WellFormed(sum) && ExprResolved(sum, st.symbols.Keys)
            && var r := LowerExpression(st.symbols, st.log, sum);
            && r.Ok?
            && r.value.log == st.log + [Load(st.symbols["f"].llvmValue), BinOp(FAdd, Reg(|st.log|), ConstInt(1))]
            && r.value.value.typeSpecifier == TypeFloat
  {
    var f := st.symbols["f"];
    assert ExprResolved(Ident("f"), st.symbols.Keys) && ExprResolved(IntLiteral(1), st.symbols.Keys);
    var loaded := st.log + [Load(f.llvmValue)];
    assert LowerExpression(st.symbols, st.log, Ident("f")) == Ok(Emitted(loaded, f.(llvmValue := Reg(|st.log|))));
    assert LowerExpression(st.symbols, loaded, IntLiteral(1)) == Ok(Emitted(loaded, VmValueNewFromIntConstant(1)));
    assert MathOpcode(OpAdd, TypeFloat) == Ok(FAdd);
    assert loaded + [BinOp(FAdd, Reg(|st.log|), ConstInt(1))]
        == st.log + [Load(f.llvmValue), BinOp(FAdd, Reg(|st.log|), ConstInt(1))];
  }

  /**
   * drive_declaration for `int` or `float`: one alloca named after the
   * identifier is appended, and the identifier is bound to it, replacing
   * any earlier binding.
   */
  lemma DeclarationAllocates(st: Lowered, ts: int, id: string)
    requires IsTypeSpecifier(ts)
    ensures var t := GetLlvmType(ts).value;
            LowerNode(st, Declaration(ts, id))
            == Ok(Lowered(st.symbols[id := VmValue(t, Reg(|st.log|), ts, id)], st.log + [Alloca(t, id)]))
  {
    assert VmValueNew(ts, id) == Ok(VmValue(GetLlvmType(ts).value, NullValue, ts, id));
  }

  /**
   * Declaring a name again is not an error: the second declaration
   * allocates a new slot and the name is rebound to it.
   */
  lemma RedeclarationRebinds(st: Lowered)
    ensures var twice := [Declaration(TypeInt, "x"), Declaration(TypeFloat, "x")];
            && ListWellFormed(twice) && ListResolved(twice, st.symbols.Keys)
            && LowerList(st, twice)
               == Ok(Lowered(st.symbols["x" := VmValue(FloatType, Reg(|st.log| + 1), TypeFloat, "x")],
                             st.log + [Alloca(Int32Type, "x"), Alloca(FloatType, "x")]))
  {
    var st1 := Lowered(st.symbols["x" := VmValue(Int32Type, Reg(|st.log|), TypeInt, "x")], st.log + [Alloca(Int32Type, "x")]);
    var st2 := Lowered(st.symbols["x" := VmValue(FloatType, Reg(|st.log| + 1), TypeFloat, "x")],
                       st.log + [Alloca(Int32Type, "x"), Alloca(FloatType, "x")]);
    DeclarationAllocates(st, TypeInt, "x");
    DeclarationAllocates(st1, TypeFloat, "x");
    assert st1.symbols["x" := VmValue(FloatType, Reg(|st.log| + 1), TypeFloat, "x")] == st2.symbols;
    assert st1.log + [Alloca(FloatType, "x")] == st2.log;
    LowerListCons(st1, Declaration(TypeFloat, "x"), [], st2);
    LowerListCons(st, Declaration(TypeInt, "x"), [Declaration(TypeFloat, "x")], st1);
  }

  /** `id = c;` for a bound `id` and an `int` constant: one store of the constant through the slot. */
  lemma AssignConstantStores(st: Lowered, id: string, c: Int32)
    requires id in st.symbols
    ensures var assign := ExpressionNode(Expression(OpAssign, Some(IntLiteral(c)), None, Identifier(id)));
            LowerNode(st, assign) == Ok(Lowered(st.symbols, st.log + [Store(ConstInt(c), st.symbols[id].llvmValue)]))
  {
    assert LowerExpression(st.symbols, st.log, IntLiteral(c)) == Ok(Emitted(st.log, VmValueNewFromIntConstant(c)));
  }

  /**
   * `target = source + c;` for an `int` variable `source`: a load of
   * `source`, an integer add of the constant to the loaded register, and a
   * store of the sum through `target`'s slot.
   */
  lemma AssignSumStores(st: Lowered, target: string, source: string, c: Int32)
    requires target in st.symbols && source in st.symbols && st.symbols[source].typeSpecifier == TypeInt
    ensures var sum := Expression(OpAdd, Some(Ident(source)), Some(IntLiteral(c)), Unset);
            var assign := ExpressionNode(Expression(OpAssign, Some(sum), None, Identifier(target)));
            var n := |st.log|;
            LowerNode(st, assign)
            == Ok(Lowered(st.symbols, st.log + [Load(st.symbols[source].llvmValue),
                                                 BinOp(Add, Reg(n), ConstInt(c)),
                                                 Store(Reg(n + 1), st.symbols[target].llvmValue)]))
  {
    var sum := Expression(OpAdd, Some(Ident(source)), Some(IntLiteral(c)), Unset);
    var n := |st.log|;
    var src := st.symbols[source];
    var loaded := st.log + [Load(src.llvmValue)];
    var added := loaded + [BinOp(Add, Reg(n), ConstInt(c))];
    assert LowerExpression(st.symbols, st.log, Ident(source)) == Ok(Emitted(loaded, src.(llvmValue := Reg(n))));
    assert LowerExpression(st.symbols, loaded, IntLiteral(c)) == Ok(Emitted(loaded, VmValueNewFromIntConstant(c)));
    assert MathOpcode(OpAdd, TypeInt) == Ok(Add);
    var built := MathOp(OpAdd, src.(llvmValue := Reg(n)), VmValueNewFromIntConstant(c), n + 1);
    assert built.Ok? && built.value.instr == BinOp(Add, Reg(n), ConstInt(c)) && built.value.value.llvmValue == Reg(n + 1);
    assert LowerExpression(st.symbols, st.log, sum) == Ok(Emitted(added, built.value.value));
    assert added + [Store(Reg(n + 1), st.symbols[target].llvmValue)]
        == st.log + [Load(src.llvmValue), BinOp(Add, Reg(n), ConstInt(c)), Store(Reg(n + 1), st.symbols[target].llvmValue)];
  }

  /**
   * `int x; x = 3;` followed by any statements that may use `x`: a slot for
   * `x` at the end of the log and a store of 3 through it, and the rest is
   * driven from there.
   */
  lemma DeclareAssignPrefix(st: Lowered, rest: seq<Node>)
    requires ListWellFormed(rest) && ListResolved(rest, st.symbols.Keys + {"x"})
    ensures var assignX := ExpressionNode(Expression(OpAssign, Some(IntLiteral(3)), None, Identifier("x")));
            var program := [Declaration(TypeInt, "x"), assignX] + rest;
            var n := |st.log|;
            var after := Lowered(st.symbols["x" := VmValue(Int32Type, Reg(n), TypeInt, "x")],
                                 st.log + [Alloca(Int32Type, "x"), Store(ConstInt(3), Reg(n))]);
            && ListWellFormed(program) && ListResolved(program, st.symbols.Keys)
            && after.symbols.Keys == st.symbols.Keys + {"x"}
            && LowerList(st, program) == LowerList(after, rest)
  {
    var assignX := ExpressionNode(Expression(OpAssign, Some(IntLiteral(3)), None, Identifier("x")));
    var n := |st.log|;
    var x := VmValue(Int32Type, Reg(n), TypeInt, "x");
    var st1 := Lowered(st.symbols["x" := x], st.log + [Alloca(Int32Type, "x")]);
    var st2 := Lowered(st1.symbols, st.log + [Alloca(Int32Type, "x"), Store(ConstInt(3), Reg(n))]);
    DeclarationAllocates(st, TypeInt, "x");
    AssignConstantStores(st1, "x", 3);
    assert st1.log + [Store(ConstInt(3), Reg(n))] == st2.log;
    LowerListCons(st1, assignX, rest, st2);
    LowerListCons(st, Declaration(TypeInt, "x"), [assignX] + rest, st1);
    assert [Declaration(TypeInt, "x")] + ([assignX] + rest) == [Declaration(TypeInt, "x"), assignX] + rest;
  }
}

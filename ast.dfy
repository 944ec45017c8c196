/**
 * The abstract syntax tree of the toy language (ast.h) and its constructors
 * (ast.c).
 *
 * Node tags, expression operators and type specifiers keep the integer codes
 * of ast.h, so that a code the program does not know stays representable and
 * the fatal branches that reject it can be modelled.  A field the source
 * leaves zeroed (calloc) is `None`, `Unset`, `0`, `""` or the empty list.
 */
module Ast {
  import opened Failures

  // Node tags (ast.h).
  const TagNode: int := 1
  const TagDeclaration: int := 2
  const TagExpression: int := 3
  const TagStatementList: int := 4
  const TagCompoundStatement: int := 5
  const TagSelectionStatement: int := 6
  const TagWhileStatement: int := 7
  const TagTranslationUnit: int := 8

  // Type specifiers of a declaration (ast.h).
  const TypeInt: int := 1
  const TypeFloat: int := 2

  // Expression operators (ast.h).
  const OpAdd: int := 1            // '+'
  const OpSub: int := 2            // '-'
  const OpMul: int := 3            // '*'
  const OpDiv: int := 4            // '/'
  const OpGt: int := 5             // '>'
  const OpLt: int := 6             // '<'
  const OpEq: int := 7             // '=='
  const OpNe: int := 8             // '!='
  const OpLe: int := 9             // '<='
  const OpGe: int := 10            // '>='
  const OpAssign: int := 11        // '='
  const OpIntConstant: int := 12
  const OpFloatConstant: int := 13
  const OpIdentifier: int := 14

  /** A C `int`. */
  type Int32 = x: int | -0x8000_0000 <= x < 0x8000_0000

  /** The bits of a C `float`; no arithmetic is done on them. */
  type FloatBits = bv32

  /** The `primary_expr` union of an expression; `Unset` is the zeroed union. */
  datatype Primary =
    | Unset
    | IntConstant(intConstant: Int32)
    | FloatConstant(floatConstant: FloatBits)
    | Identifier(identifier: string)

  /**
   * struct ast_expression: an operator code, the two `subexpr` slots (NULL is
   * `None`) and the literal or identifier union.  An assignment keeps its
   * target in `primary` and its value in `sub0`.
   */
  datatype Expression = Expression(op: int, sub0: Option<Expression>, sub1: Option<Expression>, primary: Primary)

  /** struct ast_compound_statement, holding the statements of its list. */
  datatype Compound = Compound(statements: seq<Node>)

  /** The nodes the program can allocate, one variant per tag of ast.h. */
  datatype Node =
    | GenericNode
    | Declaration(typeSpecifier: int, identifier: string)
    | ExpressionNode(expression: Expression)
    | StatementListNode(statements: seq<Node>)
    | CompoundStatement(compound: Compound)
    | SelectionStatement(condition: Expression, thenBody: Compound, elseBody: Option<Compound>)
    | WhileStatement(condition: Expression, body: Compound)
    | TranslationUnit(statementList: seq<Node>)

  /** The tag field every node starts with. */
  function Tag(n: Node): (t: int)
    ensures TagNode <= t <= TagTranslationUnit
  {
    match n
    case GenericNode => TagNode
    case Declaration(_, _) => TagDeclaration
    case ExpressionNode(_) => TagExpression
    case StatementListNode(_) => TagStatementList
    case CompoundStatement(_) => TagCompoundStatement
    case SelectionStatement(_, _, _) => TagSelectionStatement
    case WhileStatement(_, _) => TagWhileStatement
    case TranslationUnit(_) => TagTranslationUnit
  }

  /** An expression whose every field is zero. */
  const ZeroExpression: Expression := Expression(0, None, None, Unset)

  /** The node calloc hands back for a known tag, before its fields are set. */
  function ZeroNode(tag: int): Node
    requires TagNode <= tag <= TagTranslationUnit
  {
    if tag == TagNode then GenericNode
    else if tag == TagDeclaration then Declaration(0, "")
    else if tag == TagExpression then ExpressionNode(ZeroExpression)
    else if tag == TagStatementList then StatementListNode([])
    else if tag == TagCompoundStatement then CompoundStatement(Compound([]))
    else if tag == TagSelectionStatement then SelectionStatement(ZeroExpression, Compound([]), None)
    else if tag == TagWhileStatement then WhileStatement(ZeroExpression, Compound([]))
    else TranslationUnit([])
  }

  /**
   * alloc_node: a zeroed node carrying exactly the requested tag; a tag
   * outside ast.h is fatal.
   */
  function AllocNode(tag: int): (r: Result<Node>)
    ensures r.Ok? <==> TagNode <= tag <= TagTranslationUnit
    ensures r.Ok? ==> Tag(r.value) == tag
    ensures r.Err? ==> r.error == UnknownNodeType(tag)
  {
    if TagNode <= tag <= TagTranslationUnit then Ok(ZeroNode(tag)) else Err(UnknownNodeType(tag))
  }

  /** create_expression: the operator and both sub-expression slots as given. */
  function CreateExpression(op: int, lhs: Option<Expression>, rhs: Option<Expression>): (r: Expression)
    ensures r.op == op && r.sub0 == lhs && r.sub1 == rhs
    ensures r.primary == Unset
  {
    var node := AllocNode(TagExpression).value;
    node.expression.(op := op, sub0 := lhs, sub1 := rhs)
  }

  /** create_declaration: a declaration node with the type specifier and identifier as given. */
  function CreateDeclaration(typeSpecifier: int, identifier: string): (r: Node)
    ensures Tag(r) == TagDeclaration
    ensures r.typeSpecifier == typeSpecifier && r.identifier == identifier
  {
    var node := AllocNode(TagDeclaration).value;
    node.(typeSpecifier := typeSpecifier, identifier := identifier)
  }

  /**
   * struct ast_statement_list: a buffer of `numberOfStatements` statements
   * that every append grows by one element (realloc).  The model always
   * copies into a new buffer; its contract does not promise a fresh one,
   * since realloc may grow the buffer where it is.
   */
  class StatementList {
    var statement: array<Node>
    var numberOfStatements: nat

    ghost predicate Valid()
      reads this
    {
      numberOfStatements == statement.Length
    }

    /** The statements in list order. */
    function Statements(): (s: seq<Node>)
      reads this, statement
      requires Valid()
      ensures |s| == numberOfStatements
    {
      statement[..numberOfStatements]
    }

    /** create_statement_list: a list whose only element is `first`. */
    constructor (first: Node)
      ensures Valid() && fresh(statement)
      ensures numberOfStatements == 1
      ensures Statements() == [first]
    {
      statement := new Node[1](_ => first);
      numberOfStatements := 1;
    }

    /**
     * statement_list_add_statement: one more statement, at the last index;
     * every earlier statement keeps its index.
     */
    method AddStatement(s: Node)
      requires Valid()
      modifies this
      ensures Valid()
      ensures numberOfStatements == old(numberOfStatements) + 1
      ensures Statements()[numberOfStatements - 1] == s
      ensures forall i :: 0 <= i < old(numberOfStatements) ==> Statements()[i] == old(Statements()[i])
      ensures Statements() == old(Statements()) + [s]
    {
      var nstmts := numberOfStatements + 1;
      var previous := statement;
      statement := new Node[nstmts](i reads previous => if 0 <= i < previous.Length then previous[i] else s);
      numberOfStatements := numberOfStatements + 1;
    }
  }

  /** create_compound_statement: a block over the list's statements. */
  function CreateCompoundStatement(list: StatementList): (r: Compound)
    reads list, list.statement
    requires list.Valid()
    ensures r.statements == list.Statements()
  {
    var node := AllocNode(TagCompoundStatement).value;
    node.compound.(statements := list.Statements())
  }

  /** create_selection_statement: condition, then-body and (possibly absent) else-body as given. */
  function CreateSelectionStatement(condition: Expression, thenBody: Compound, elseBody: Option<Compound>): (r: Node)
    ensures Tag(r) == TagSelectionStatement
    ensures r.condition == condition && r.thenBody == thenBody && r.elseBody == elseBody
  {
    var node := AllocNode(TagSelectionStatement).value;
    node.(condition := condition, thenBody := thenBody, elseBody := elseBody)
  }

  /** create_while_statement: condition and body as given. */
  function CreateWhileStatement(condition: Expression, body: Compound): (r: Node)
    ensures Tag(r) == TagWhileStatement
    ensures r.condition == condition && r.body == body
  {
    var node := AllocNode(TagWhileStatement).value;
    node.(condition := condition, body := body)
  }

  /** create_translation_unit: the root over the list's statements. */
  function CreateTranslationUnit(list: StatementList): (r: Node)
    reads list, list.statement
    requires list.Valid()
    ensures Tag(r) == TagTranslationUnit
    ensures r.statementList == list.Statements()
  {
    var node := AllocNode(TagTranslationUnit).value;
    node.(statementList := list.Statements())
  }

  // ---------------------------------------------------------------------
  // The parser's structural guarantee

  /** The operators with two operand sub-expressions. */
  predicate IsBinaryOperator(op: int) {
    OpAdd <= op <= OpGe
  }

  /**
   * The shape the parser gives every expression: the sub-expressions and the
   * union member its operator uses are present.  Printing and lowering read
   * them without checking; an unknown operator constrains nothing, since both
   * stop at it.
   */
  predicate WellFormed(e: Expression) {
    if IsBinaryOperator(e.op) then
      e.sub0.Some? && e.sub1.Some? && WellFormed(e.sub0.value) && WellFormed(e.sub1.value)
    else if e.op == OpAssign then
      e.primary.Identifier? && e.sub0.Some? && WellFormed(e.sub0.value)
    else if e.op == OpIntConstant then
      e.primary.IntConstant?
    else if e.op == OpFloatConstant then
      e.primary.FloatConstant?
    else if e.op == OpIdentifier then
      e.primary.Identifier?
    else
      true
  }

  /** Every expression in the tree is well formed. */
  predicate NodeWellFormed(n: Node) {
    match n
    case ExpressionNode(e) => WellFormed(e)
    case StatementListNode(s) => ListWellFormed(s)
    case CompoundStatement(c) => ListWellFormed(c.statements)
    case SelectionStatement(cond, t, e) =>
      WellFormed(cond) && ListWellFormed(t.statements) && (e.Some? ==> ListWellFormed(e.value.statements))
    case WhileStatement(cond, b) => WellFormed(cond) && ListWellFormed(b.statements)
    case TranslationUnit(s) => ListWellFormed(s)
    case _ => true
  }

  predicate ListWellFormed(s: seq<Node>) {
    forall i :: 0 <= i < |s| ==> NodeWellFormed(s[i])
  }

  // ---------------------------------------------------------------------
  // Building a tree with the constructors

  /** The leaf the parser builds for an identifier. */
  function Ident(name: string): Expression {
    Expression(OpIdentifier, None, None, Identifier(name))
  }

  /** The leaf the parser builds for an integer constant. */
  function IntLiteral(value: Int32): Expression {
    Expression(OpIntConstant, None, None, IntConstant(value))
  }

  /**
   * The parser's order of calls for a block of two statements: the list is
   * created with the first, the second is appended, and the block wraps the
   * list in source order.
   */
  method BuildBlock(first: Node, second: Node) returns (c: Compound)
    ensures c.statements == [first, second]
  {
    var list := new StatementList(first);
    list.AddStatement(second);
    c := CreateCompoundStatement(list);
  }
}

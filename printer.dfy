/**
 * The pretty-printer (print.c).
 *
 * The `*Text` functions say what each print_* routine writes, as a function
 * of the node and the indentation depth; the `Printer` class runs the
 * routines themselves against the process-wide counter `ntabs` and the
 * output stream.  printf's `%f` conversion of a float constant is a
 * parameter (`formatFloat`).
 */
module Printer {
  import opened Failures
  import opened Ast

  // ---------------------------------------------------------------------
  // What is written

  /** print_tabs at depth `n`: `n` tab characters. */
  function Tabs(n: nat): (s: string)
    ensures |s| == n
  {
    if n == 0 then "" else Tabs(n - 1) + "\t"
  }

  /** The indentation at depth `n` is `n` tab characters and nothing else. */
  lemma {:induction false} TabsAreTabs(n: nat)
    ensures forall i :: 0 <= i < n ==> Tabs(n)[i] == '\t'
  {
    if n > 0 {
      TabsAreTabs(n - 1);
    }
  }

  function DigitChar(d: nat): (c: char)
    requires d < 10
    ensures '0' <= c <= '9' && c as int - '0' as int == d
  {
    "0123456789"[d]
  }

  /** The decimal digits of a natural number, without leading zeros. */
  function NatText(n: nat): (s: string)
    ensures |s| >= 1
    ensures forall i :: 0 <= i < |s| ==> '0' <= s[i] <= '9'
    ensures s[0] == '0' ==> n == 0
  {
    if n < 10 then [DigitChar(n)] else NatText(n / 10) + [DigitChar(n % 10)]
  }

  /** printf("%d"): an optional minus sign, then the decimal digits. */
  function IntText(i: int): string {
    if i < 0 then "-" + NatText(-i) else NatText(i)
  }

  /** The keyword of a type specifier; any other specifier is fatal. */
  function TypeKeyword(typeSpecifier: int): (r: Result<string>)
    ensures r.Ok? <==> typeSpecifier == TypeInt || typeSpecifier == TypeFloat
    ensures r.Err? ==> r.error == UnknownTypeSpecifier(typeSpecifier)
  {
    if typeSpecifier == TypeInt then Ok("int")
    else if typeSpecifier == TypeFloat then Ok("float")
    else Err(UnknownTypeSpecifier(typeSpecifier))
  }

  /** print_declaration: `int <id>;` or `float <id>;`. */
  function DeclarationText(typeSpecifier: int, identifier: string): Result<string> {
    var keyword :- TypeKeyword(typeSpecifier);
    Ok(keyword + " " + identifier + ";")
  }

  /**
   * What print_expression writes between the operands of the binary
   * operators it has a case for; `<=` and `>=` have none.
   */
  function InfixText(op: int): Option<string> {
    if op == OpAdd then Some(" + ")
    else if op == OpSub then Some(" - ")
    else if op == OpMul then Some(" * ")
    else if op == OpDiv then Some(" / ")
    else if op == OpGt then Some(" > ")
    else if op == OpLt then Some(" < ")
    else if op == OpEq then Some(" == ")
    else if op == OpNe then Some(" != ")
    else None
  }

  /** The expressions print_expression can print to the end: every operator has a case. */
  predicate Printable(e: Expression)
    requires WellFormed(e)
  {
    if InfixText(e.op).Some? then Printable(e.sub0.value) && Printable(e.sub1.value)
    else if e.op == OpAssign then Printable(e.sub0.value)
    else e.op == OpIntConstant || e.op == OpFloatConstant || e.op == OpIdentifier
  }

  /**
   * print_expression: infix without parentheses, binary operators padded
   * with one space on each side, `<id> = <expr>` for an assignment, literals
   * and identifiers as they are.  An operator with no case is fatal.
   */
  function ExpressionText(e: Expression, formatFloat: FloatBits -> string): (r: Result<string>)
    requires WellFormed(e)
  {
    var infix := InfixText(e.op);
    if infix.Some? then
      var lhs :- ExpressionText(e.sub0.value, formatFloat);
      var rhs :- ExpressionText(e.sub1.value, formatFloat);
      Ok(lhs + infix.value + rhs)
    else if e.op == OpAssign then
      var value :- ExpressionText(e.sub0.value, formatFloat);
      Ok((e.primary.identifier + " = ") + value)
    else if e.op == OpIntConstant then
      Ok(IntText(e.primary.intConstant))
    else if e.op == OpFloatConstant then
      Ok(formatFloat(e.primary.floatConstant))
    else if e.op == OpIdentifier then
      Ok(e.primary.identifier)
    else
      Err(UnknownExpressionOperator(e.op))
  }

  /** The trees print_node can print to the end. */
  predicate NodePrintable(n: Node)
    requires NodeWellFormed(n)
  {
    match n
    case GenericNode => false
    case Declaration(ts, _) => ts == TypeInt || ts == TypeFloat
    case ExpressionNode(e) => Printable(e)
    case StatementListNode(s) => ListPrintable(s)
    case CompoundStatement(c) => ListPrintable(c.statements)
    case SelectionStatement(cond, t, e) =>
      Printable(cond) && ListPrintable(t.statements) && (e.Some? ==> ListPrintable(e.value.statements))
    case WhileStatement(cond, b) => Printable(cond) && ListPrintable(b.statements)
    case TranslationUnit(s) => ListPrintable(s)
  }

  predicate ListPrintable(s: seq<Node>)
    requires ListWellFormed(s)
  {
    forall i :: 0 <= i < |s| ==> NodePrintable(s[i])
  }

  /** `r` with `prefix` written before its text. */
  function Prefixed(prefix: string, r: Result<string>): Result<string> {
    match r
    case Ok(text) => Ok(prefix + text)
    case Err(e) => Err(e)
  }

  /**
   * One turn of print_statement_list's loop: the text still to be written
   * from index `i` on is the line of statement `i` followed by the text from
   * `i + 1` on; the whole list is the text from index 0.
   */
  lemma ListTextStep(s: seq<Node>, i: nat, depth: nat, formatFloat: FloatBits -> string)
    requires ListWellFormed(s) && i < |s|
    ensures ListWellFormed(s[i..]) && ListWellFormed(s[i + 1..])
    ensures s[0..] == s
    ensures ListText(s[i..], depth, formatFloat)
         == (var line :- NodeText(s[i], depth, formatFloat);
             Prefixed(Tabs(depth) + line + "\n", ListText(s[i + 1..], depth, formatFloat)))
  {
    assert s[i..][0] == s[i] && s[i..][1..] == s[i + 1..];
  }

  lemma AppendAssoc(a: string, b: string, c: string)
    ensures (a + b) + c == a + (b + c)
  {
  }

  lemma PrefixedEmpty(r: Result<string>)
    ensures Prefixed("", r) == r
  {
    if r.Ok? {
      assert "" + r.value == r.value;
    }
  }

  lemma PrefixedTwice(p: string, q: string, r: Result<string>)
    ensures Prefixed(p, Prefixed(q, r)) == Prefixed(p + q, r)
  {
    if r.Ok? {
      assert p + (q + r.value) == (p + q) + r.value;
    }
  }

  /**
   * print_node at depth `depth`: an expression statement gets one trailing
   * `;`; a generic node is fatal.
   */
  function NodeText(n: Node, depth: nat, formatFloat: FloatBits -> string): (r: Result<string>)
    requires NodeWellFormed(n)
    decreases n, 1
  {
    match n
    case GenericNode => Err(GenericNodeRequest)
    case Declaration(ts, id) => DeclarationText(ts, id)
    case ExpressionNode(e) =>
      var text :- ExpressionText(e, formatFloat);
      Ok(text + ";")
    case StatementListNode(s) => ListText(s, depth, formatFloat)
    case CompoundStatement(c) => CompoundText(c, depth, formatFloat)
    case SelectionStatement(_, _, _) => SelectionText(n, depth, formatFloat)
    case WhileStatement(_, _) => WhileText(n, depth, formatFloat)
    case TranslationUnit(s) => ListText(s, depth, formatFloat)
  }

  /**
   * print_statement_list: each statement in list order, after `depth` tabs
   * and before one newline.
   */
  function ListText(s: seq<Node>, depth: nat, formatFloat: FloatBits -> string): (r: Result<string>)
    requires ListWellFormed(s)
  {
    if s == [] then Ok("")
    else
      assert NodeWellFormed(s[0]) && ListWellFormed(s[1..]);
      var first :- NodeText(s[0], depth, formatFloat);
      Prefixed(Tabs(depth) + first + "\n", ListText(s[1..], depth, formatFloat))
  }

  /**
   * print_compound_statement: `{` and `}` on lines of their own at `depth`,
   * the statements between them one level deeper.
   */
  function CompoundText(c: Compound, depth: nat, formatFloat: FloatBits -> string): (r: Result<string>)
    requires ListWellFormed(c.statements)
  {
    var body :- ListText(c.statements, depth + 1, formatFloat);
    Ok(Tabs(depth) + "{\n" + body + Tabs(depth) + "}\n")
  }

  /**
   * print_selection_statement: a newline, `if (<cond>)`, the then-block, and
   * only when there is an else-body the `else` line, the else-block and a
   * newline.
   */
  function SelectionText(n: Node, depth: nat, formatFloat: FloatBits -> string): (r: Result<string>)
    requires n.SelectionStatement? && NodeWellFormed(n)
    decreases n, 0
  {
    var cond :- ExpressionText(n.condition, formatFloat);
    var thenText :- CompoundText(n.thenBody, depth, formatFloat);
    var head := "\n" + Tabs(depth) + "if (" + cond + ")\n" + thenText;
    if n.elseBody.None? then Ok(head)
    else
      var elseText :- CompoundText(n.elseBody.value, depth, formatFloat);
      Ok(head + Tabs(depth) + "else\n" + elseText + "\n")
  }

  /** print_while_statement: a newline, `while (<cond>)`, the block, a newline. */
  function WhileText(n: Node, depth: nat, formatFloat: FloatBits -> string): (r: Result<string>)
    requires n.WhileStatement? && NodeWellFormed(n)
    decreases n, 0
  {
    var cond :- ExpressionText(n.condition, formatFloat);
    var block :- CompoundText(n.body, depth, formatFloat);
    Ok("\n" + Tabs(depth) + "while (" + cond + ")\n" + block + "\n")
  }

  /**
   * print_expression reaches the end of an expression exactly when every
   * operator in it has a case; otherwise it stops at an unknown operator.
   */
  lemma {:induction false} ExpressionTextSucceedsIffPrintable(e: Expression, formatFloat: FloatBits -> string)
    requires WellFormed(e)
    ensures ExpressionText(e, formatFloat).Ok? <==> Printable(e)
    ensures ExpressionText(e, formatFloat).Err? ==> ExpressionText(e, formatFloat).error.UnknownExpressionOperator?
  {
    if InfixText(e.op).Some? {
      ExpressionTextSucceedsIffPrintable(e.sub0.value, formatFloat);
      ExpressionTextSucceedsIffPrintable(e.sub1.value, formatFloat);
    } else if e.op == OpAssign {
      ExpressionTextSucceedsIffPrintable(e.sub0.value, formatFloat);
    }
  }

  /** print_node reaches the end of a tree exactly when the tree is printable. */
  lemma {:induction false} NodeTextSucceedsIffPrintable(n: Node, depth: nat, formatFloat: FloatBits -> string)
    requires NodeWellFormed(n)
    ensures NodeText(n, depth, formatFloat).Ok? <==> NodePrintable(n)
    decreases n, 1
  {
    match n
    case GenericNode =>
    case Declaration(_, _) =>
    case ExpressionNode(e) =>
      ExpressionTextSucceedsIffPrintable(e, formatFloat);
    case StatementListNode(s) =>
      ListTextSucceedsIffPrintable(s, depth, formatFloat);
    case CompoundStatement(c) =>
      CompoundTextSucceedsIffPrintable(c, depth, formatFloat);
    case SelectionStatement(cond, t, e) =>
      ExpressionTextSucceedsIffPrintable(cond, formatFloat);
      CompoundTextSucceedsIffPrintable(t, depth, formatFloat);
      if e.Some? {
        CompoundTextSucceedsIffPrintable(e.value, depth, formatFloat);
      }
      assert NodeText(n, depth, formatFloat) == SelectionText(n, depth, formatFloat);
    case WhileStatement(cond, b) =>
      ExpressionTextSucceedsIffPrintable(cond, formatFloat);
      CompoundTextSucceedsIffPrintable(b, depth, formatFloat);
      assert NodeText(n, depth, formatFloat) == WhileText(n, depth, formatFloat);
    case TranslationUnit(s) =>
      ListTextSucceedsIffPrintable(s, depth, formatFloat);
  }

  lemma {:induction false} CompoundTextSucceedsIffPrintable(c: Compound, depth: nat, formatFloat: FloatBits -> string)
    requires ListWellFormed(c.statements)
    ensures CompoundText(c, depth, formatFloat).Ok? <==> ListPrintable(c.statements)
    decreases c, 1
  {
    ListTextSucceedsIffPrintable(c.statements, depth + 1, formatFloat);
  }

  /** print_statement_list reaches the end of a list exactly when every statement is printable. */
  lemma {:induction false} ListTextSucceedsIffPrintable(s: seq<Node>, depth: nat, formatFloat: FloatBits -> string)
    requires ListWellFormed(s)
    ensures ListText(s, depth, formatFloat).Ok? <==> ListPrintable(s)
    decreases s
  {
    if s != [] {
      assert forall i :: 1 <= i < |s| ==> s[i] == s[1..][i - 1];
      NodeTextSucceedsIffPrintable(s[0], depth, formatFloat);
      ListTextSucceedsIffPrintable(s[1..], depth, formatFloat);
    }
  }

  // ---------------------------------------------------------------------
  // The routines

  /**
   * The state print.c keeps: the indentation counter `ntabs` (static, 0 at
   * start) and everything printf has written so far.
   */
  class Printer {
    var ntabs: nat
    var output: string
    const formatFloat: FloatBits -> string

    constructor (formatFloat: FloatBits -> string)
      ensures ntabs == 0 && output == []
      ensures this.formatFloat == formatFloat
    {
      ntabs := 0;
      output := [];
      this.formatFloat := formatFloat;
    }

    /** print_tabs. */
    method PrintTabs()
      modifies this
      ensures ntabs == old(ntabs)
      ensures output == old(output) + Tabs(ntabs)
    {
      for i := 0 to ntabs
        invariant ntabs == old(ntabs)
        invariant output == old(output) + Tabs(i)
      {
        output := output + "\t";
      }
    }

    /** print_declaration. */
    method PrintDeclaration(n: Node) returns (status: Outcome)
      requires n.Declaration?
      modifies this
      ensures ntabs == old(ntabs)
      ensures status == DeclarationText(n.typeSpecifier, n.identifier).ToOutcome()
      ensures status.Pass? ==> output == old(output) + DeclarationText(n.typeSpecifier, n.identifier).value
    {
      if n.typeSpecifier == TypeInt {
        output := output + "int";
      } else if n.typeSpecifier == TypeFloat {
        output := output + "float";
      } else {
        return Fail(UnknownTypeSpecifier(n.typeSpecifier));
      }
      output := output + " " + n.identifier + ";";
      status := Pass;
    }

    /** print_expression. */
    method PrintExpression(e: Expression) returns (status: Outcome)
      requires WellFormed(e)
      modifies this
      ensures ntabs == old(ntabs)
      ensures status == ExpressionText(e, formatFloat).ToOutcome()
      ensures status.Pass? ==> output == old(output) + ExpressionText(e, formatFloat).value
      decreases e
    {
      var infix := InfixText(e.op);
      if infix.Some? {
        status := PrintExpression(e.sub0.value);
        if status.Fail? {
          return;
        }
        ghost var lhs := ExpressionText(e.sub0.value, formatFloat).value;
        output := output + infix.value;
        AppendAssoc(old(output), lhs, infix.value);
        status := PrintExpression(e.sub1.value);
        if status.Pass? {
          AppendAssoc(old(output), lhs + infix.value, ExpressionText(e.sub1.value, formatFloat).value);
        }
      } else if e.op == OpAssign {
        output := output + (e.primary.identifier + " = ");
        status := PrintExpression(e.sub0.value);
        if status.Pass? {
          AppendAssoc(old(output), e.primary.identifier + " = ", ExpressionText(e.sub0.value, formatFloat).value);
        }
      } else if e.op == OpIntConstant {
        output := output + IntText(e.primary.intConstant);
        status := Pass;
      } else if e.op == OpFloatConstant {
        output := output + formatFloat(e.primary.floatConstant);
        status := Pass;
      } else if e.op == OpIdentifier {
        output := output + e.primary.identifier;
        status := Pass;
      } else {
        status := Fail(UnknownExpressionOperator(e.op));
      }
    }

    /** print_statement_list: a loop over the statements in index order. */
    method PrintStatementList(statements: seq<Node>) returns (status: Outcome)
      requires ListWellFormed(statements)
      modifies this
      ensures status == ListText(statements, old(ntabs), formatFloat).ToOutcome()
      ensures status.Pass? ==> ntabs == old(ntabs)
      ensures status.Pass? ==> output == old(output) + ListText(statements, old(ntabs), formatFloat).value
      decreases statements
    {
      ghost var depth := ntabs;
      ghost var done := "";
      assert statements[0..] == statements;
      PrefixedEmpty(ListText(statements, depth, formatFloat));
      for i := 0 to |statements|
        invariant ntabs == depth
        invariant output == old(output) + done
        invariant ListWellFormed(statements[i..])
        invariant ListText(statements, depth, formatFloat) == Prefixed(done, ListText(statements[i..], depth, formatFloat))
      {
        ListTextStep(statements, i, depth, formatFloat);
        PrintTabs();
        status := PrintNode(statements[i]);
        if status.Fail? {
          return;
        }
        output := output + "\n";
        ghost var line := Tabs(depth) + NodeText(statements[i], depth, formatFloat).value + "\n";
        PrefixedTwice(done, line, ListText(statements[i + 1..], depth, formatFloat));
        AppendAssoc(old(output) + done, Tabs(depth), NodeText(statements[i], depth, formatFloat).value);
        done := done + line;
      }
      status := Pass;
    }

    /** print_compound_statement: `ntabs` goes up once around the statements and back down once. */
    method PrintCompoundStatement(c: Compound) returns (status: Outcome)
      requires ListWellFormed(c.statements)
      modifies this
      ensures status == CompoundText(c, old(ntabs), formatFloat).ToOutcome()
      ensures status.Pass? ==> ntabs == old(ntabs)
      ensures status.Pass? ==> output == old(output) + CompoundText(c, old(ntabs), formatFloat).value
      decreases c
    {
      ghost var depth := ntabs;
      PrintTabs();
      output := output + "{\n";
      ghost var w := Tabs(depth) + "{\n";
      AppendAssoc(old(output), Tabs(depth), "{\n");
      ntabs := ntabs + 1;
      status := PrintStatementList(c.statements);
      if status.Fail? {
        return;
      }
      AppendAssoc(old(output), w, ListText(c.statements, depth + 1, formatFloat).value);
      w := w + ListText(c.statements, depth + 1, formatFloat).value;
      ntabs := ntabs - 1;
      PrintTabs();
      AppendAssoc(old(output), w, Tabs(depth));
      w := w + Tabs(depth);
      output := output + "}\n";
      AppendAssoc(old(output), w, "}\n");
    }

    /** print_selection_statement. */
    method PrintSelectionStatement(n: Node) returns (status: Outcome)
      requires n.SelectionStatement? && NodeWellFormed(n)
      modifies this
      ensures status == SelectionText(n, old(ntabs), formatFloat).ToOutcome()
      ensures status.Pass? ==> ntabs == old(ntabs)
      ensures status.Pass? ==> output == old(output) + SelectionText(n, old(ntabs), formatFloat).value
      decreases n, 0
    {
      ghost var depth := ntabs;
      output := output + "\n";
      PrintTabs();
      AppendAssoc(old(output), "\n", Tabs(depth));
      ghost var w := "\n" + Tabs(depth);
      output := output + "if (";
      AppendAssoc(old(output), w, "if (");
      w := w + "if (";
      status := PrintExpression(n.condition);
      if status.Fail? {
        return;
      }
      AppendAssoc(old(output), w, ExpressionText(n.condition, formatFloat).value);
      w := w + ExpressionText(n.condition, formatFloat).value;
      output := output + ")\n";
      AppendAssoc(old(output), w, ")\n");
      w := w + ")\n";
      status := PrintCompoundStatement(n.thenBody);
      if status.Fail? {
        return;
      }
      AppendAssoc(old(output), w, CompoundText(n.thenBody, depth, formatFloat).value);
      w := w + CompoundText(n.thenBody, depth, formatFloat).value;
      if n.elseBody.Some? {
        PrintTabs();
        AppendAssoc(old(output), w, Tabs(depth));
        w := w + Tabs(depth);
        output := output + "else\n";
        AppendAssoc(old(output), w, "else\n");
        w := w + "else\n";
        status := PrintCompoundStatement(n.elseBody.value);
        if status.Fail? {
          return;
        }
        AppendAssoc(old(output), w, CompoundText(n.elseBody.value, depth, formatFloat).value);
        w := w + CompoundText(n.elseBody.value, depth, formatFloat).value;
        output := output + "\n";
        AppendAssoc(old(output), w, "\n");
      }
    }

    /** print_while_statement. */
    method PrintWhileStatement(n: Node) returns (status: Outcome)
      requires n.WhileStatement? && NodeWellFormed(n)
      modifies this
      ensures status == WhileText(n, old(ntabs), formatFloat).ToOutcome()
      ensures status.Pass? ==> ntabs == old(ntabs)
      ensures status.Pass? ==> output == old(output) + WhileText(n, old(ntabs), formatFloat).value
      decreases n, 0
    {
      ghost var depth := ntabs;
      output := output + "\n";
      PrintTabs();
      AppendAssoc(old(output), "\n", Tabs(depth));
      ghost var w := "\n" + Tabs(depth);
      output := output + "while (";
      AppendAssoc(old(output), w, "while (");
      w := w + "while (";
      status := PrintExpression(n.condition);
      if status.Fail? {
        return;
      }
      AppendAssoc(old(output), w, ExpressionText(n.condition, formatFloat).value);
      w := w + ExpressionText(n.condition, formatFloat).value;
      output := output + ")\n";
      AppendAssoc(old(output), w, ")\n");
      w := w + ")\n";
      status := PrintCompoundStatement(n.body);
      if status.Fail? {
        return;
      }
      AppendAssoc(old(output), w, CompoundText(n.body, depth, formatFloat).value);
      w := w + CompoundText(n.body, depth, formatFloat).value;
      output := output + "\n";
      AppendAssoc(old(output), w, "\n");
    }

    /** print_translation_unit: the top-level statement list. */
    method PrintTranslationUnit(n: Node) returns (status: Outcome)
      requires n.TranslationUnit? && NodeWellFormed(n)
      modifies this
      ensures status == NodeText(n, old(ntabs), formatFloat).ToOutcome()
      ensures status.Pass? ==> ntabs == old(ntabs)
      ensures status.Pass? ==> output == old(output) + NodeText(n, old(ntabs), formatFloat).value
      decreases n, 0
    {
      status := PrintStatementList(n.statementList);
    }

    /** print_node: dispatch on the tag; an expression statement gets its `;`. */
    method PrintNode(n: Node) returns (status: Outcome)
      requires NodeWellFormed(n)
      modifies this
      ensures status == NodeText(n, old(ntabs), formatFloat).ToOutcome()
      ensures status.Pass? ==> ntabs == old(ntabs)
      ensures status.Pass? ==> output == old(output) + NodeText(n, old(ntabs), formatFloat).value
      decreases n, 1
    {
      match n
      case GenericNode =>
        status := Fail(GenericNodeRequest);
      case Declaration(_, _) =>
        status := PrintDeclaration(n);
      case ExpressionNode(e) =>
        status := PrintExpression(e);
        if status.Pass? {
          output := output + ";";
        }
      case StatementListNode(s) =>
        status := PrintStatementList(s);
      case CompoundStatement(c) =>
        status := PrintCompoundStatement(c);
      case SelectionStatement(_, _, _) =>
        status := PrintSelectionStatement(n);
      case WhileStatement(_, _) =>
        status := PrintWhileStatement(n);
      case TranslationUnit(_) =>
        status := PrintTranslationUnit(n);
    }
  }

  // ---------------------------------------------------------------------
  // Properties of what is written

  predicate IsDigits(s: string) {
    forall i :: 0 <= i < |s| ==> '0' <= s[i] <= '9'
  }

  /** The value of a string of decimal digits. */
  function DigitsValue(s: string): nat
    requires IsDigits(s)
  {
    if s == [] then 0 else DigitsValue(s[..|s| - 1]) * 10 + (s[|s| - 1] as int - '0' as int)
  }

  /** What `%d` can write: digits, with a minus sign in front or not. */
  predicate IsDecimal(s: string) {
    (|s| >= 1 && IsDigits(s)) || (|s| >= 2 && s[0] == '-' && IsDigits(s[1..]))
  }

  /** Reading a decimal back, as scanf("%d") would. */
  function ParseInt(s: string): int
    requires IsDecimal(s)
  {
    if s[0] == '-' then -(DigitsValue(s[1..]) as int) else DigitsValue(s)
  }

  lemma {:induction false} NatTextRoundTrip(n: nat)
    ensures DigitsValue(NatText(n)) == n
    ensures IsDecimal(NatText(n)) && NatText(n)[0] != '-'
  {
    if n >= 10 {
      NatTextRoundTrip(n / 10);
      var s := NatText(n);
      assert s[..|s| - 1] == NatText(n / 10);
    }
  }

  lemma ParseNegative(digits: string)
    requires |digits| >= 1 && IsDigits(digits)
    ensures IsDecimal("-" + digits)
    ensures ParseInt("-" + digits) == -(DigitsValue(digits) as int)
  {
    assert ("-" + digits)[1..] == digits;
  }

  /** An integer constant is printed as a decimal that reads back as the same integer. */
  lemma IntTextRoundTrip(i: int)
    ensures IsDecimal(IntText(i))
    ensures ParseInt(IntText(i)) == i
  {
    if i < 0 {
      var n: nat := -i;
      var digits := NatText(n);
      NatTextRoundTrip(n);
      ParseNegative(digits);
      assert IntText(i) == "-" + digits;
    } else {
      NatTextRoundTrip(i);
    }
  }

  /**
   * Appending a statement to a list appends its line to the list's text:
   * the list's old lines come first and are unchanged.  A failure in the
   * old list is still the failure reported.
   */
  lemma {:induction false} ListTextAppend(s: seq<Node>, x: Node, depth: nat, formatFloat: FloatBits -> string)
    requires ListWellFormed(s) && NodeWellFormed(x)
    ensures ListWellFormed(s + [x])
    ensures ListText(s + [x], depth, formatFloat)
         == (var text :- ListText(s, depth, formatFloat);
             var line :- NodeText(x, depth, formatFloat);
             Ok(text + (Tabs(depth) + line + "\n")))
    decreases s
  {
    var t := s + [x];
    assert forall i :: 0 <= i < |s| ==> t[i] == s[i];
    assert t[|s|] == x;
    if s == [] {
      assert t[1..] == [];
      match NodeText(x, depth, formatFloat)
      case Ok(line) => assert "" + (Tabs(depth) + line + "\n") == Tabs(depth) + line + "\n" + "";
      case Err(_) =>
    } else {
      assert t[0] == s[0] && t[1..] == s[1..] + [x];
      ListTextAppend(s[1..], x, depth, formatFloat);
      match NodeText(s[0], depth, formatFloat)
      case Err(_) =>
      case Ok(first) =>
        match ListText(s[1..], depth, formatFloat)
        case Err(_) =>
        case Ok(rest) =>
          match NodeText(x, depth, formatFloat)
          case Err(_) =>
          case Ok(line) =>
            AppendAssoc(Tabs(depth) + first + "\n", rest, Tabs(depth) + line + "\n");
    }
  }

  predicate NoSemicolon(t: string) {
    forall i :: 0 <= i < |t| ==> t[i] != ';'
  }

  /** Every identifier in the expression is free of `;`, as the lexer's identifiers are. */
  predicate IdentifiersWithoutSemicolon(e: Expression)
    requires WellFormed(e)
  {
    (e.primary.Identifier? ==> NoSemicolon(e.primary.identifier))
    && (InfixText(e.op).Some? ==> IdentifiersWithoutSemicolon(e.sub0.value) && IdentifiersWithoutSemicolon(e.sub1.value))
    && (e.op == OpAssign ==> IdentifiersWithoutSemicolon(e.sub0.value))
  }

  lemma {:induction false} ExpressionTextWithoutSemicolon(e: Expression, formatFloat: FloatBits -> string)
    requires WellFormed(e) && IdentifiersWithoutSemicolon(e)
    requires forall b :: NoSemicolon(formatFloat(b))
    ensures ExpressionText(e, formatFloat).Ok? ==> NoSemicolon(ExpressionText(e, formatFloat).value)
  {
    var infix := InfixText(e.op);
    if infix.Some? {
      ExpressionTextWithoutSemicolon(e.sub0.value, formatFloat);
      ExpressionTextWithoutSemicolon(e.sub1.value, formatFloat);
    } else if e.op == OpAssign {
      ExpressionTextWithoutSemicolon(e.sub0.value, formatFloat);
    }
  }

  /**
   * An expression statement ends in exactly one `;`: print_node adds it
   * after the whole expression, and print_expression writes none for the
   * sub-expressions.
   */
  lemma ExpressionStatementHasOneSemicolon(e: Expression, depth: nat, formatFloat: FloatBits -> string)
    requires WellFormed(e) && IdentifiersWithoutSemicolon(e)
    requires forall b :: NoSemicolon(formatFloat(b))
    ensures NodeText(ExpressionNode(e), depth, formatFloat).Ok? ==>
              var t := NodeText(ExpressionNode(e), depth, formatFloat).value;
              |t| >= 1 && t[|t| - 1] == ';' && NoSemicolon(t[..|t| - 1])
  {
    ExpressionTextWithoutSemicolon(e, formatFloat);
    if ExpressionText(e, formatFloat).Ok? {
      var t := NodeText(ExpressionNode(e), depth, formatFloat).value;
      assert t[..|t| - 1] == ExpressionText(e, formatFloat).value;
    }
  }

  /** `<=` and `>=` parse, but print_expression has no case for them. */
  lemma LessOrGreaterEqualIsFatal(e: Expression, formatFloat: FloatBits -> string)
    requires WellFormed(e) && (e.op == OpLe || e.op == OpGe)
    ensures ExpressionText(e, formatFloat) == Err(UnknownExpressionOperator(e.op))
  {
  }

  /**
   * No parentheses are written, so `a - (b - c)` and `(a - b) - c` print
   * alike.
   */
  lemma PrintingDropsGrouping(formatFloat: FloatBits -> string)
    ensures var right := Expression(OpSub, Some(Ident("a")), Some(Expression(OpSub, Some(Ident("b")), Some(Ident("c")), Unset)), Unset);
            var left := Expression(OpSub, Some(Expression(OpSub, Some(Ident("a")), Some(Ident("b")), Unset)), Some(Ident("c")), Unset);
            right != left
            && ExpressionText(right, formatFloat) == ExpressionText(left, formatFloat) == Ok("a - b - c")
  {
    var right := Expression(OpSub, Some(Ident("a")), Some(Expression(OpSub, Some(Ident("b")), Some(Ident("c")), Unset)), Unset);
    var left := Expression(OpSub, Some(Expression(OpSub, Some(Ident("a")), Some(Ident("b")), Unset)), Some(Ident("c")), Unset);
    assert InfixText(OpSub) == Some(" - ");
    assert ExpressionText(Ident("a"), formatFloat) == Ok("a");
    assert ExpressionText(Ident("b"), formatFloat) == Ok("b");
    assert ExpressionText(Ident("c"), formatFloat) == Ok("c");
    assert "b" + " - " + "c" == "b - c";
    assert ExpressionText(right.sub1.value, formatFloat) == Ok("b - c");
    assert "a" + " - " + "b - c" == "a - b - c";
    assert "a" + " - " + "b" == "a - b";
    assert ExpressionText(left.sub0.value, formatFloat) == Ok("a - b");
    assert "a - b" + " - " + "c" == "a - b - c";
  }

  function Increment(): Expression {
    var one := IntLiteral(1);
    Expression(OpAssign, Some(Expression(OpAdd, Some(Ident("x")), Some(one), Unset)), None, Identifier("x"))
  }

  function LessThanTen(): Expression {
    Expression(OpLt, Some(Ident("x")), Some(IntLiteral(10)), Unset)
  }

  lemma IncrementText(formatFloat: FloatBits -> string)
    ensures ExpressionText(Increment(), formatFloat) == Ok("x = x + 1")
  {
    var one := IntLiteral(1);
    var sum := Expression(OpAdd, Some(Ident("x")), Some(one), Unset);
    assert NatText(1) == "1";
    assert ExpressionText(one, formatFloat) == Ok("1");
    assert ExpressionText(Ident("x"), formatFloat) == Ok("x");
    assert InfixText(OpAdd) == Some(" + ");
    assert "x" + " + " + "1" == "x + 1";
    assert ExpressionText(sum, formatFloat) == Ok("x + 1");
    assert ("x" + " = ") + "x + 1" == "x = x + 1";
  }

  lemma LessThanTenText(formatFloat: FloatBits -> string)
    ensures ExpressionText(LessThanTen(), formatFloat) == Ok("x < 10")
  {
    var ten := IntLiteral(10);
    assert NatText(1) == "1";
    assert NatText(10) == "1" + "0" == "10";
    assert ExpressionText(ten, formatFloat) == Ok("10");
    assert ExpressionText(Ident("x"), formatFloat) == Ok("x");
    assert InfixText(OpLt) == Some(" < ");
    assert "x" + " < " + "10" == "x < 10";
  }

  lemma IncrementBlockText(formatFloat: FloatBits -> string)
    ensures CompoundText(Compound([ExpressionNode(Increment())]), 0, formatFloat) == Ok("{\n" + "\tx = x + 1;\n" + "}\n")
  {
    var stmt := ExpressionNode(Increment());
    IncrementText(formatFloat);
    var line := "\tx = x + 1;\n";
    assert NodeText(stmt, 1, formatFloat) == Ok("x = x + 1" + ";");
    assert Tabs(1) == "\t" && Tabs(0) == "";
    assert Tabs(1) + ("x = x + 1" + ";") + "\n" == line;
    assert [stmt][1..] == [];
    assert ListText([stmt][1..], 1, formatFloat) == Ok("");
    assert ListText([stmt], 1, formatFloat) == Prefixed(line, Ok(""));
    assert line + "" == line;
    assert "" + "{\n" + line + "" + "}\n" == "{\n" + line + "}\n";
  }

  /**
   * `while (x < 10) { x = x + 1; }` at the outermost level: a blank line, the
   * header, the block with its statement one tab in, and a blank line.
   */
  lemma WhileLoopText(formatFloat: FloatBits -> string)
    ensures NodeText(WhileStatement(LessThanTen(), Compound([ExpressionNode(Increment())])), 0, formatFloat)
         == Ok("\n" + "while (" + "x < 10" + ")\n" + ("{\n" + "\tx = x + 1;\n" + "}\n") + "\n")
  {
    var n := WhileStatement(LessThanTen(), Compound([ExpressionNode(Increment())]));
    LessThanTenText(formatFloat);
    IncrementBlockText(formatFloat);
    assert "\n" + Tabs(0) == "\n";
    assert NodeText(n, 0, formatFloat) == WhileText(n, 0, formatFloat);
  }
}

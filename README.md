# toy compiler front end: a Dafny model

This project models the core of `toy`, a small C compiler front end for a
C-like language of `int`/`float` declarations, arithmetic, comparisons,
assignments, blocks, `if` and `while`. The parser builds an abstract syntax
tree. The program then does two things with the tree:

- it pretty-prints the tree back as source text (`print.c`);
- it lowers the tree to LLVM IR through the LLVM C API (`driver.c`, with
  `vm_value.c` and the symbol table of `symtab.c`).

The model has these modules:

- `Failures` (`failures.dfy`): the fatal conditions of the program. Each one
  is a `Fatal` value carrying the operator, tag or type specifier that was
  rejected, where the source prints a message and calls `exit`. It also
  holds the `Result` and `Outcome` types that carry them.
- `Ast` (`ast.dfy`): the tree of `ast.h` and the constructors of `ast.c`.
  Tags, operators and type specifiers keep their integer codes, so an
  unknown code can still be represented. The statement list is a class over
  an array that every append grows by one element. The model always copies
  into a new buffer; `realloc` may instead grow the buffer where it is, so
  the contract of `AddStatement` does not promise a new buffer.
- `Llvm` (`llvm.dfy`): the LLVM builder as an instruction log. Each
  `LLVMBuild*` call appends one instruction. The value it returns is the
  register that names that position in the log.
- `Values` (`values.dfy`): `vm_value.c`, the mapping from type specifiers to
  LLVM types and the choice of opcodes and predicates.
- `SymbolTables` (`symtab.dfy`): the identifier-to-value hash table.
- `Printer` (`printer.dfy`): the `*Text` functions say what each `print_*`
  routine writes. The `Printer` class runs the routines against the
  `ntabs` counter and the output stream. Each method is proved to write
  exactly that text when it succeeds; on a fatal error its contract says
  nothing about what was written before the exit.
- `Driver` (`driver.dfy`): `LowerExpression`, `LowerNode` and `LowerList`
  say what each `drive_*` routine does to the symbol table and the
  instruction log. The `Drive*` methods run the routines against a
  `VmState` and are proved to do exactly that.

The proved properties include:

- printing succeeds exactly on the trees with no generic `AST_NODE`, no
  unknown type specifier and no operator without a printing case;
- an integer constant prints as a decimal that reads back as the same
  integer;
- the code the driver builds is well scoped: every operand was built
  earlier, and every load and store goes through an allocated slot;
- driving succeeds exactly on the trees with no generic `AST_NODE`, no
  unknown type specifier and no unknown operator, the bodies of `if` and
  `while` excepted, since they are never driven;
- every value has the type of its leftmost operand;
- when both operands of an arithmetic or comparison operator have the same
  type, an integer opcode or an ICmp is built exactly for `int` operands and
  a float opcode or an FCmp exactly for `float` operands.

## Behaviour of the code worth knowing

- `/` is lowered as a multiplication (`LLVMMul`/`LLVMFMul`), not a division
  (vm_value.c:112-113). See `Values.DivisionLoweredAsMultiplication`.
- Operand types are not compared: the opcode comes from the left operand's
  type alone. The driver accepts a `float` plus an `int` with no
  type-mismatch error and builds an FAdd over an i32 operand. That
  instruction is ill-typed LLVM, as is the store of a slot pointer built for
  a chained assignment (`Driver.ChainedAssignmentStoresSlot`). The module
  verification in `vm_state_destroy` (vm_state.c:54, with
  `LLVMAbortProcessAction`) would then abort the program; that step is not
  part of this model. See `Driver.MixedOperandsAccepted` and
  `Driver.LowerExpressionTyped`.
- A float constant is built with `LLVMConstInt` on the float type
  (vm_value.c:74): C converts the `float` argument to an unsigned integer
  first, so `2.5` would become `2` and a negative literal is undefined
  behaviour. The model keeps the literal's bits; see the `Left out` line of
  `Values.VmValueNewFromFloatConstant`.
- A comparison's value has the left operand's type specifier, not a boolean
  type (vm_value.c:135).
- Redeclaring a name is not an error: the table's insert replaces the
  binding (symtab.c:34). See `Driver.RedeclarationRebinds`.
- `if` and `while` are not lowered at all: `drive_selection_statement` and
  `drive_while_statement` return at once. So no blocks or branches are
  built, and declarations in their bodies are never bound. See
  `Driver.ControlFlowIsSkipped`.
- The pretty-printer has no case for `<=` and `>=` and exits on them
  (print.c:117-120), while the driver lowers them. See
  `Printer.LessOrGreaterEqualIsFatal`.
- An identifier that was never declared is not reported. The table returns
  NULL and the driver dereferences it. The model makes declaration before
  use (`Resolved`) a precondition of lowering.

## Model

| member | source | states |
|---|---|---|
| Ast.Tag | ast.c:47 | every node carries one of the eight tags of ast.h |
| Ast.AllocNode | ast.c:5-49 | a node is allocated exactly for the eight known tags and carries the requested tag; any other tag is the fatal `UnknownNodeType(tag)` |
| Ast.CreateExpression | ast.c:51-63 | the expression has the given operator and both sub-expression slots as given, with the literal union zeroed |
| Ast.CreateDeclaration | ast.c:65-75 | a declaration node with the given type specifier and identifier |
| Ast.StatementList.constructor | ast.c:77-94 | a new list holds exactly the one given statement |
| Ast.StatementList.AddStatement | ast.c:96-116 | the list grows by one; the new statement is last and every earlier statement keeps its index |
| Ast.CreateCompoundStatement | ast.c:118-127 | the block holds the list's statements in order |
| Ast.CreateSelectionStatement | ast.c:129-143 | an `if` node with the given condition, then-body and optional else-body |
| Ast.CreateWhileStatement | ast.c:145-157 | a `while` node with the given condition and body |
| Ast.CreateTranslationUnit | ast.c:159-168 | the root node holds the list's statements in order |
| Ast.BuildBlock | ast.c:77-127 | creating a list with one statement, appending a second and wrapping it gives a block of the two in source order |
| Llvm.Builder.constructor | vm_state.c:22-28 | a builder starts with no instructions |
| Llvm.Builder.Emit | vm_value.c:120-121 | a build call appends exactly its instruction and returns the register of that position |
| Values.GetLlvmType | vm_value.c:9-23 | `int` maps to i32 and `float` to float, and back; any other specifier is the fatal `UnknownTypeSpecifier` |
| Values.GetLlvmTypeOnto | vm_value.c:9-23 | every LLVM type the program uses is reached from its own specifier |
| Values.VmValueNew | vm_value.c:25-41 | succeeds exactly for `int` and `float`, with a typed value under the given specifier and identifier and no LLVM value yet |
| Values.VmValueNewFromIntConstant | vm_value.c:43-59 | an `int`, i32-typed value whose LLVM value is the constant |
| Values.VmValueNewFromFloatConstant | vm_value.c:61-77 | a `float`-typed value whose LLVM value stands for the literal (the `LLVMConstInt` conversion is left out), with no instruction built |
| Values.MathOpcode | vm_value.c:102-118 | an opcode exists exactly for + - * /; it is an integer opcode iff the left operand is `int`; it performs the source operator, with `/` mapped to `*`; it is never a division |
| Values.MathOp | vm_value.c:92-123 | succeeds iff the left operand's specifier is known and the operator is arithmetic, with the specifier checked first; the result has the left operand's type and names a BinOp over the two operands |
| Values.BuildMathOp | vm_value.c:92-123 | appends exactly the BinOp that `MathOp` selects and returns its value, or reports its error |
| Values.CmpPredicate | vm_value.c:137-179 | a predicate exists exactly for the six comparisons; it is ICmp iff `int`, signed for `int`, ordered for `float`, and tests the source operator |
| Values.CmpOp | vm_value.c:125-192 | succeeds iff the left specifier is known and the operator is a comparison; the result has the left operand's type specifier and names an ICmp for `int` and an FCmp otherwise |
| Values.BuildCmpOp | vm_value.c:181-191 | appends exactly the comparison that `CmpOp` selects and returns its value, or reports its error |
| Values.DivisionLoweredAsMultiplication | vm_value.c:112-113 | `/` selects the same opcode as `*` (Mul for `int`, FMul for `float`) |
| Values.MathOpcodeDeterminedByOperatorAndIntness | vm_value.c:102-114 | the opcode depends only on the operator and whether the left operand is `int` |
| Values.CmpPredicateInjective | vm_value.c:139-175 | distinct comparison operators select distinct predicates for the same type |
| SymbolTables.SymbolTable.constructor | symtab.c:6-19 | a new table binds no identifier |
| SymbolTables.SymbolTable.PutValue | symtab.c:27-35 | the value is bound under its own identifier, replacing any earlier binding of it, and no other binding changes |
| SymbolTables.SymbolTable.GetValue | symtab.c:37-42 | the bound value iff the identifier is bound, and NULL otherwise |
| Printer.Tabs | print.c:28-35 | the indentation at depth n has length n |
| Printer.TabsAreTabs | print.c:33-34 | the indentation is made of tab characters only |
| Printer.NatText | print.c:107-108 | the decimal digits of a number, at least one, with no leading zero |
| Printer.TypeKeyword | print.c:40-51 | a keyword exists exactly for `int` and `float`; any other specifier is the fatal `UnknownTypeSpecifier` |
| Printer.ExpressionTextSucceedsIffPrintable | print.c:56-122 | an expression prints to the end iff every operator in it has a case; otherwise the error is an unknown expression operator |
| Printer.NodeTextSucceedsIffPrintable | print.c:188-225 | a tree prints to the end iff it has no generic node, no unknown type specifier and no operator without a case |
| Printer.CompoundTextSucceedsIffPrintable | print.c:136-148 | a block prints to the end iff each of its statements does |
| Printer.ListTextSucceedsIffPrintable | print.c:124-134 | a list prints to the end iff each of its statements does |
| Printer.Printer.constructor | print.c:26 | printing starts at depth 0 with nothing written |
| Printer.Printer.PrintTabs | print.c:28-35 | writes exactly `ntabs` tabs and leaves `ntabs` alone |
| Printer.Printer.PrintDeclaration | print.c:37-54 | writes `int <id>;` or `float <id>;`, and fails on any other specifier |
| Printer.Printer.PrintExpression | print.c:56-122 | writes exactly the expression's text and fails exactly where that text does |
| Printer.Printer.PrintStatementList | print.c:124-134 | writes each statement on its own line at the current depth, in list order, and keeps the depth |
| Printer.Printer.PrintCompoundStatement | print.c:136-148 | writes `{`, the statements one level deeper and `}`, and restores the depth |
| Printer.Printer.PrintSelectionStatement | print.c:150-167 | writes a blank line, `if (<cond>)` and the then-block; only with an else-body, the `else` line, the else-block and a newline |
| Printer.Printer.PrintWhileStatement | print.c:169-180 | writes a blank line, `while (<cond>)`, the block and a newline |
| Printer.Printer.PrintTranslationUnit | print.c:182-186 | writes the top-level statement list |
| Printer.Printer.PrintNode | print.c:188-225 | writes the node's text, with one `;` after an expression statement; a generic node is fatal |
| Printer.NatTextRoundTrip | print.c:107-108 | the digits of a number read back as that number |
| Printer.IntTextRoundTrip | print.c:107-108 | `%d` of an integer is a decimal that reads back as the same integer |
| Printer.ListTextAppend | print.c:124-134 | appending a statement to a list appends its line to the list's text, and the earlier lines do not change |
| Printer.ExpressionTextWithoutSemicolon | print.c:56-122 | an expression's text contains no `;` |
| Printer.ExpressionStatementHasOneSemicolon | print.c:202-204 | an expression statement's text ends in its only `;` |
| Printer.LessOrGreaterEqualIsFatal | print.c:117-120 | `<=` and `>=` have no printing case and are fatal |
| Printer.PrintingDropsGrouping | print.c:65-69 | no parentheses are written, so `a - (b - c)` and `(a - b) - c` both print as `a - b - c` |
| Printer.IncrementText | print.c:60-64 | `x = x + 1` prints as `x = x + 1` |
| Printer.LessThanTenText | print.c:86-90 | `x < 10` prints as `x < 10` |
| Printer.IncrementBlockText | print.c:136-148 | a block holding `x = x + 1;` at depth 0 prints as `{`, a tab-indented `x = x + 1;` and `}`, each on its own line |
| Printer.WhileLoopText | print.c:169-180 | `while (x < 10) { x = x + 1; }` prints as a blank line, the header, the block and a newline |
| Driver.Initial | vm_state.c:6-32 | the state lowering starts from binds nothing and has built nothing |
| Driver.LowerExpression | driver.c:81-138 | lowering an expression only appends to the instruction log |
| Driver.LowerNode | driver.c:30-79 | lowering a statement binds exactly the identifiers it declares, outside `if`/`while` bodies, and only appends to the log |
| Driver.LowerList | driver.c:140-148 | lowering a list binds exactly the identifiers its statements declare, and only appends to the log |
| Driver.VmState.constructor | vm_state.c:6-32 | a fresh compilation state binds nothing and has built nothing |
| Driver.DriveExpression | driver.c:81-138 | builds exactly what `LowerExpression` says and returns its value, or its error |
| Driver.DriveDeclaration | driver.c:66-79 | allocates the slot and binds the identifier to it as `LowerNode` says, or fails on an unknown specifier |
| Driver.DriveStatementList | driver.c:140-148 | drives the statements in index order and stops at the first failure, as `LowerList` says |
| Driver.DriveCompoundStatement | driver.c:164-169 | drives the block's statements in the one shared table |
| Driver.DriveSelectionStatement | driver.c:150-155 | returns at once and succeeds |
| Driver.DriveWhileStatement | driver.c:157-162 | returns at once and succeeds |
| Driver.DriveTranslationUnit | driver.c:171-176 | drives the top-level statement list |
| Driver.DriveNode | driver.c:30-64 | dispatches on the tag and leaves the state `LowerNode` says; a generic node is fatal |
| Driver.AstToLlvm | driver.c:178-186 | from a fresh state, the instructions that lowering the unit builds, or the fatal error that stops it |
| Driver.LowerExpressionCost | driver.c:81-138 | an expression builds one instruction per operator and assignment and one load per identifier, and none for constants |
| Driver.LowerExpressionTyped | driver.c:81-138 | over a typed table, lowering fails iff an operator is unknown; otherwise the value is typed with the leftmost operand's specifier |
| Driver.WellTypedArithmeticOpcode | vm_value.c:92-123 | when both operands have the same type, the arithmetic instruction built is a BinOp whose opcode is an integer opcode iff that type is `int` |
| Driver.WellTypedComparisonKind | vm_value.c:125-192 | when both operands have the same type, the comparison built is an ICmp iff that type is `int`, and an FCmp otherwise |
| Driver.LowerExpressionScoped | driver.c:81-138 | lowering an expression keeps every binding on its slot, builds only well-scoped instructions, and yields a usable operand |
| Driver.LowerNodeKeepsInvariant | driver.c:30-79 | lowering a statement keeps every binding on its slot and the log well scoped |
| Driver.LowerListKeepsInvariant | driver.c:140-148 | lowering a list keeps the same invariant |
| Driver.AstToLlvmWellScoped | driver.c:178-186 | every instruction built for a unit reads only constants and earlier results, and loads and stores only through allocated slots |
| Driver.LowerNodeSucceedsIffDrivable | driver.c:30-79 | a statement lowers to the end iff it has no generic node, unknown specifier or unknown operator outside `if`/`while` bodies |
| Driver.LowerListSucceedsIffDrivable | driver.c:140-148 | a list lowers to the end iff each statement is drivable |
| Driver.BoundAfterGrows | driver.c:66-79 | driving a statement never unbinds an identifier |
| Driver.ListBoundAfterGrows | driver.c:140-148 | driving a list never unbinds an identifier |
| Driver.AssignmentYieldsSlot | driver.c:105-115 | an assignment yields the target's binding, which is a slot, and its last instruction stores the right-hand value through it |
| Driver.ControlFlowIsSkipped | driver.c:150-162 | `if` and `while` change neither the table nor the log |
| Driver.ChainedAssignmentStoresSlot | driver.c:105-115 | `x = y = 3` stores 3 into `y`, then stores `y`'s slot, not 3, into `x` |
| Driver.MixedOperandsAccepted | vm_value.c:100-104 | a `float` variable plus an `int` constant builds an FAdd with a `float` result and no type check |
| Driver.DeclarationAllocates | driver.c:66-79 | a declaration appends one alloca named after the identifier and binds the identifier to it |
| Driver.RedeclarationRebinds | symtab.c:27-35 | declaring a name twice is not an error; the name ends up bound to the second slot |
| Driver.AssignConstantStores | driver.c:105-115 | `id = c;` builds exactly one store of the constant through `id`'s slot |
| Driver.AssignSumStores | driver.c:86-115 | `y = x + c;` builds a load of `x`, an integer add and a store of the sum through `y`'s slot |
| Driver.DeclareAssignPrefix | driver.c:140-148 | `int x; x = 3;` allocates `x`, stores 3 through it, and the rest of the list continues from there |

## Left out

- vm_state.c is not part of this model, apart from what the driver needs of
  it: the builder and the symbol table. Not modelled: the LLVM module, the
  `main` function and its entry block, `vm_state_dump`, verification,
  `vm_state_destroy`, and the forwarding functions `vm_state_put_value` and
  `vm_state_get_value`.
- `vm_value_alloca`: no routine of the core calls it.
- `symbol_table_destroy`: memory release has no counterpart in the model.
- `vm_value_dup`: copies are values, so the copy is the value itself.
- Allocation failures (`calloc`, `realloc` and `malloc` returning NULL):
  the model assumes memory is always available.
- printf's `%f` conversion of a float constant is the parameter
  `formatFloat`.
- Values.VmValueNewFromFloatConstant: the source passes the `float` to
  `LLVMConstInt` on the float type (vm_value.c:74), which converts it to
  `unsigned long long` and truncates its fraction. The model keeps the
  literal's 32 bits as an opaque `ConstFloat` and does not model that
  conversion, since it needs floating-point arithmetic.
- Standard output is the `output` string of `Printer`. The printer's
  messages on standard error are the `Fatal` values.
- After a fatal error the process exits. The model reports the error and
  says nothing about the state that was left.
- A tag outside ast.h cannot occur in a tree: `alloc_node` refuses it. So
  the `default:` branches of `print_node` and `drive_node` cannot be
  reached and are not modelled.
- A zeroed (NULL) identifier is modelled as the empty string.
- A block or translation unit holds the statements its list had when it was
  created. Later appends to the same list object are not seen through the
  node, unlike the shared pointer in C.
- Driver.LowerExpression: an identifier that was never declared makes the
  source dereference NULL. This is a precondition (`ExprResolved`), not a
  modelled error.
- Driver.AstToLlvm: returns the instructions the driver builds. The closing
  branch and `ret void` that `vm_state_destroy` appends, the module dump and
  the module verification are not modelled.

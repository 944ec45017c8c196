/**
 * The fatal exits of the compiler front end and the failure-compatible
 * wrappers the rest of the model returns them in.
 *
 * Every `fprintf(stderr, ...); exit(EXIT_FAILURE);` of the source becomes a
 * `Fatal` value: the program stops there, so a member that returns `Err` or
 * `Fail` says nothing about the state left behind.
 */
module Failures {

  /** One variant per kind of fatal message. */
  datatype Fatal =
    | UnknownNodeType(tag: int)                      // alloc_node
    | GenericNodeRequest                             // print_node, drive_node on AST_NODE
    | UnknownTypeSpecifier(typeSpecifier: int)       // print_declaration, get_llvm_type
    | UnknownExpressionOperator(operator: int)       // print_expression, drive_expression
    | UnknownMathOperation(operation: int)           // vm_value_build_math_op
    | UnknownComparisonOperation(operation: int)     // vm_value_build_cmp_op

  /** A NULL pointer or a present one. */
  datatype Option<+T> = None | Some(value: T)

  /** A value, or the fatal exit that replaced it. */
  datatype Result<+T> = Ok(value: T) | Err(error: Fatal) {

    predicate IsFailure() {
      Err?
    }

    function PropagateFailure<U>(): Result<U>
      requires Err?
    {
      Err(error)
    }

    function Extract(): T
      requires Ok?
    {
      value
    }

    /** Forgets the value, keeping only whether the program went on. */
    function ToOutcome(): Outcome {
      match this
      case Ok(_) => Pass
      case Err(e) => Fail(e)
    }
  }

  /** The status of a step that returns no value. */
  datatype Outcome = Pass | Fail(error: Fatal) {

    predicate IsFailure() {
      Fail?
    }

    function PropagateFailure(): Outcome
      requires Fail?
    {
      this
    }
  }
}

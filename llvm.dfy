/**
 * The part of the LLVM C API the compiler calls, as an abstract instruction
 * log: every builder call appends one instruction, and the value it returns
 * is a register naming that instruction's position in the log.
 */
module Llvm {
  import opened Ast

  /** LLVMInt32Type and LLVMFloatType. */
  datatype LlvmType = Int32Type | FloatType

  /** The arithmetic opcodes of LLVMOpcode. */
  datatype Opcode = Add | FAdd | Sub | FSub | Mul | FMul | UDiv | SDiv | FDiv

  /** LLVMIntPredicate. */
  datatype IntPredicate =
    | IntEQ | IntNE
    | IntUGT | IntUGE | IntULT | IntULE
    | IntSGT | IntSGE | IntSLT | IntSLE

  /** LLVMRealPredicate. */
  datatype RealPredicate =
    | RealPredicateFalse | RealPredicateTrue
    | RealOEQ | RealOGT | RealOGE | RealOLT | RealOLE | RealONE | RealORD
    | RealUNO | RealUEQ | RealUGT | RealUGE | RealULT | RealULE | RealUNE

  /**
   * An LLVMValueRef: NULL, the result of the instruction at `index` in the
   * log, or a constant.
   */
  datatype LlvmValue =
    | NullValue
    | Reg(index: nat)
    | ConstInt(intValue: Int32)
    | ConstFloat(floatBits: FloatBits)

  /** One builder call. */
  datatype Instr =
    | Alloca(ty: LlvmType, name: string)
    | Load(pointer: LlvmValue)
    | Store(stored: LlvmValue, pointer: LlvmValue)
    | BinOp(opcode: Opcode, lhs: LlvmValue, rhs: LlvmValue)
    | ICmp(intPredicate: IntPredicate, lhs: LlvmValue, rhs: LlvmValue)
    | FCmp(realPredicate: RealPredicate, lhs: LlvmValue, rhs: LlvmValue)

  predicate IsIntegerOpcode(opcode: Opcode) {
    opcode == Add || opcode == Sub || opcode == Mul || opcode == UDiv || opcode == SDiv
  }

  predicate IsDivision(opcode: Opcode) {
    opcode == UDiv || opcode == SDiv || opcode == FDiv
  }

  /** An LLVMBuilderRef positioned at the end of the current block. */
  class Builder {
    var log: seq<Instr>

    constructor ()
      ensures log == []
    {
      log := [];
    }

    /** Any LLVMBuild* call: the instruction is appended and its register returned. */
    method Emit(instr: Instr) returns (v: LlvmValue)
      modifies this
      ensures log == old(log) + [instr]
      ensures v == Reg(|old(log)|)
    {
      v := Reg(|log|);
      log := log + [instr];
    }
  }
}

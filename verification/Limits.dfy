/** The limits that the compiler is built with. */
module Limits {
  const MAX_PARAMS_PER_FUNCTION: nat := 32
  const MAX_FUNCTION_COUNT: nat := 256
  const MAX_CALL_SITES: nat := 1024
  const MAX_LABELS: nat := 512
  const MAX_BLOCK_STATEMENTS: nat := 512
  const MAX_EXPRESSION_DEPTH: nat := 128
  const MAX_VREGS: nat := 65536
  const MAX_IR_INSTRUCTIONS: nat := 65536
}

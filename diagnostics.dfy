/**
 * The fatal errors of the IPPcode24 front end. Every error stops the whole
 * run; the process exit status distinguishes a header problem (21) from any
 * other lexical or syntactic error (23).
 */
module Diagnostics {

  /** One constructor per place where the front end gives up. */
  datatype Error =
    | MissingHeader        // no `.IPPcode24` line before the first instruction
    | MissingInstruction   // an instruction line with no opcode word
    | UnknownInstruction   // opcode not in the signature table
    | OperandCount         // operand count differs from the signature
    | InvalidOperand       // a token no classifier accepts for its slot
    | OperandTypeMismatch  // a token that resolved to a kind its slot refuses

  datatype Result<T> = Ok(value: T) | Err(error: Error)

  /** The exit status the front end terminates with. */
  function ExitCode(e: Error): (code: int)
    ensures code == 21 || code == 23
    ensures code == 21 <==> e == MissingHeader
  {
    if e == MissingHeader then 21 else 23
  }
}

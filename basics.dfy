/** Small shared vocabulary: bytes, optional values, and the exceptions the
    marshaller can raise, carried as values. */
module Basics {

  /** One byte of a Python 2 byte string. */
  newtype byte = x: int | 0 <= x < 256

  datatype Option<+T> = None | Some(value: T)

  /** The exceptions that abort a rendering. A Python exception is a value here. */
  datatype Failure =
    | NoHandler        // RuntimeError("No handler found for type ...") from the dispatcher
    | AttributeError   // an attribute the renderer reads is missing on a node
    | IndexError       // a subscript past the end of a sequence
    | TypeError        // hex() applied to something that is not an integer
    | RecursionLimit   // the interpreter's recursion limit was reached
    | Diverges         // a loop that never ends (a cyclic superclass chain)

  datatype Result<+T> = Ok(value: T) | Err(failure: Failure)
}

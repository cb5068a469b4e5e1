/** Option and Result wrappers, and the failures the annotator can raise. */
module Wrappers {

  datatype Option<+T> = None | Some(value: T)

  datatype Result<+T, +E> = Ok(value: T) | Err(error: E)

  /** Each failure is named after the Python exception it stands for. Every one of them
      is caught by the top-level handler, which restores the original file. */
  datatype Error =
    | EmptyMax     // ValueError: max() of an empty list
    | NoneSpan     // AttributeError: `.span()` called on a failed search (None)
    | Unpack       // ValueError: too many / not enough values to unpack
    | MissingKey   // KeyError: a named replacement field, or a key absent from a dict
    | UnboundArg   // UnboundLocalError: `arg1` read before any assignment
    | IndexOut     // IndexError: list or tuple index out of range
    | StrayBrace   // ValueError: a single `{` or `}` in a format string
}

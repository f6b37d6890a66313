/** Failure-carrying values shared by the conversion engine and the unit-cell formulas. */
module Wrappers {

  /** A value that may be absent: convert_unit returns None when it cannot convert. */
  datatype Option<+T> = None | Some(value: T)

  /** A value, or the exception the Python code would raise instead of returning. */
  datatype Result<+T, +E> = Ok(value: T) | Err(error: E)

  /** The Python exceptions the core can raise on its own inputs. */
  datatype PyError =
    | IndexError          // `unit[0]` on an empty unit string
    | ZeroDivisionError   // a division by a zero float
    | UnboundLocalError   // `vol` returned without having been assigned
}

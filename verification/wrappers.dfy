/** Outcome types shared by the model: an optional value, and a value or the
    Python exception the modelled code raises instead of producing it. */
module Wrappers {

  datatype Option<+T> = None | Some(value: T)

  /** The built-in Python exceptions that the modelled code raises on its own inputs. */
  datatype PyError =
    | ZeroDivisionError  // a true division by a zero extent
    | KeyError           // a label missing from the remapping dictionary
    | IndexError         // indexing past the end of a list, tuple or shape
    | ValueError         // an array of zero, negative or mismatched shape where data was expected

  datatype Result<+T> = Ok(value: T) | Err(error: PyError)
}

/** Option and Result values shared by every module of the model.
    An `Err` carries the name of the Python exception the source raises
    on that path (for example "KeyError" or "AssertionError"). */
module Wrappers {

  datatype Option<+T> = None | Some(value: T)

  datatype Result<+T> = Ok(value: T) | Err(error: string)
}

/** Option and Result types shared by the rest of the model. JavaScript's
    `null`/`undefined` become `None`; a thrown query error becomes `Err`. */
module Wrappers {

  datatype Option<+T> = None | Some(value: T)

  datatype Result<+T, +E> = Ok(value: T) | Err(error: E)
}

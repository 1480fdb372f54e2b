/** The result types the components share. */
module Options {

  datatype Option<+T> = None | Some(value: T)

  /** Success, or an exception whose text is not part of the model. */
  datatype Result<+T> = Ok(value: T) | Raised
}

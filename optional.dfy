/** The usual optional-value datatype, shared by every module of the model. */
module Optional {

  datatype Option<+T> = None | Some(value: T)
}

/** The optional-value type shared by the readers of the model: a reader
    returns `Some` of what it recovered, or `None` when the text does not
    have the expected shape. */
module Options {

  datatype Option<+T> = None | Some(value: T)
}

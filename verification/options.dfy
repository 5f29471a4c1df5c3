/** The missing-value wrapper: a pandas NaN or NaT cell is `None`. */
module Options {

  datatype Option<+T> = None | Some(value: T)
}

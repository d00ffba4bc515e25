/** The null-or-value wrapper used for columns that may hold NaT. */
module Optional {

  datatype Option<+T> = None | Some(value: T)
}

/** The optional value used for a lookup that may find nothing and for a
    header line that may not parse. */
module Optional {

  datatype Option<+T> = None | Some(value: T)
}

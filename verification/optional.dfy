/** The optional value the Swift code writes as `Double?`: either nothing or one value. */
module Optional {

  datatype Option<+T> = None | Some(value: T)
}

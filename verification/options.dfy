/** The optional value used for C# nullable references: a header that may be
    missing, a configuration value that may be unset, a payload that may not
    have been parsed. */
module Options {

  datatype Option<+T> = None | Some(value: T)
}

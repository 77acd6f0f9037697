/** A value that may be missing: TypeScript's optional fields and the
    `null`/`undefined` results of lookups. */
module Optional {

  datatype Option<+T> = None | Some(value: T)
}

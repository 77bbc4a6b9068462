/** Optional values, results and the exceptions the batch operations raise. */
module Results {

  /** A value that may be absent; `None` also stands for pandas' NaN. */
  datatype Option<+T> = None | Some(value: T)

  /** The exceptions raised by the batch operations, named after their cause. */
  datatype Error =
    | RegistryUnavailable        // ValueError: observatory codes could not be retrieved
    | WrongTableType             // ValueError: the table is not of the expected class
    | UnsupportedFrame           // NotImplementedError: frame other than "J2000"
    | MissingColumns             // ValueError: a mandatory column is absent
    | ObservatoriesNotText       // AssertionError: `observatories` given as an int
    | IncludeAndExclude          // ValueError: include and exclude lists both given
    | BodyMissing(name: string)  // lookup failure of a body in the system of bodies
    | ExcludedLinkTarget         // bare Exception: an excluded telescope reached the link loop
    | NoSuchColumn(column: string) // AttributeError: the table has no such column

  /** Success with a value, or the exception that was raised. */
  datatype Result<+T> = Ok(value: T) | Err(error: Error)
}

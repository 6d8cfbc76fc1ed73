/** The two failure-carrying datatypes the services share. */
module Results {

  /** A nullable column, a dictionary lookup or a query that may find no row. */
  datatype Option<+T> = None | Some(value: T)

  /** A call that returns a value or raises. */
  datatype Result<+T, +E> = Ok(value: T) | Err(error: E)
}

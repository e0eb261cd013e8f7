/** Values standing in for .NET's nullable values and thrown exceptions. */
module Results {

  /** A possibly absent value: a nullable `int?` or `string?` of the analysers. */
  datatype Option<T> = None | Some(value: T)

  /** The exceptions the analysers can throw on malformed input. */
  datatype Fault =
    | OutOfRange                     // an index or substring start outside the string or list
    | ArgumentNull(paramName: string) // ArgumentNullException naming the null parameter

  /** Either the value an operation returns or the exception that ends it. */
  datatype Result<T> = Ok(value: T) | Err(fault: Fault)
}

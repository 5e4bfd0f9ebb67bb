/** Absent values and failed operations. */
module Results {

  datatype Option<+T> = None | Some(value: T)

  /** What a command, a file read or a socket call gives back. */
  datatype Result<+T> = Ok(value: T) | Err(error: string)
}

// The two stock result types the other modules share.
module Results {
  datatype Option<+T> = None | Some(value: T)

  // Ok(value) is a normal return, Err(error) is a thrown exception.
  datatype Result<+T, +E> = Ok(value: T) | Err(error: E)
}

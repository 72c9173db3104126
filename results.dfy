/** Error values and the result type used where the engine throws. */
module Results {

  /** The errors the engine raises. */
  datatype Error =
    | WrongBoardFormat  // a board string that is not 16 characters over b, w, _
    | WrongMoveFormat   // a move string that does not follow the move grammar
    | WrongBoardIndex   // a cell index in a move string above 15
    | IllegalMove       // a well-formed move that the position does not allow

  datatype Result<T> = Ok(value: T) | Err(error: Error)

  datatype Option<T> = None | Some(value: T)

  /** The outcome of an operation that returns nothing but may throw. */
  datatype Outcome = Pass | Fail(error: Error)
}

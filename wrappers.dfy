/** Option and Result values shared by the schedule modules. */
module Wrappers {

  datatype Option<+T> = None | Some(value: T)

  /** Why an extraction attempt produced no schedule. */
  datatype Failure =
    | EndOfInput   // the line iterator ran dry: get_rooms_and_sessions returns None
    | MissingRoom  // a titled block has no room text: `'Morgen' in None` raises

  datatype Result<+T> = Ok(value: T) | Err(error: Failure)
}

/** Option and Result types used for the error paths of the hex-grid engine. */
module Wrappers {

  datatype Option<+T> = None | Some(value: T)

  /** The exceptions the engine raises, one constructor per kind. */
  datatype Error =
    | NotZeroSum            // cube coordinates that do not sum up to 0
    | UnknownStep(name: string)   // a step name never recorded (KeyError)
    | MissingColor(color: int)    // a colour that the recolouring map lacks (KeyError)
    | InvalidIndex(lind: int)     // a linear index outside the board
    | EmptyShape            // a reduction (mean, amax, amin) over no cells
    | NoDirection           // a displacement that is not a multiple of a unit direction
    | ZeroShift             // a grid step of length zero, which would repeat for ever

  datatype Result<+T> = Ok(value: T) | Err(error: Error)
}

/** Option and Result, the two shapes the TypeScript code uses for "maybe absent"
    (`undefined`/`null`) and for "computed or thrown". */
module Wrappers {

  datatype Option<+T> = None | Some(value: T)

  datatype Result<+R, +E> = Success(value: R) | Failure(error: E)
}

/** Optional values, and results of operations that may be refused. */
module Outcomes {

  datatype Option<+T> = None | Some(value: T)

  /** A refused operation carries no diagnostic text: wording is not part of the model. */
  datatype Result<+T> = Failure | Success(value: T)
}

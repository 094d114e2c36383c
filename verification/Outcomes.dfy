/** Values or errors, for the source's paired error returns. */
module Outcomes {
  datatype Option<+T> = None | Some(value: T) {
    predicate IsFailure() {
      None?
    }

    function PropagateFailure<U>(): Option<U>
      requires None?
    {
      None
    }

    function Extract(): T
      requires Some?
    {
      value
    }
  }

  datatype Error =
    | CandidateOutOfRange(id: int)
    | MaxDegreeNotPositive
    | NegativeCapacity
    | NeighbourOutOfRange(id: int)
    | EmptyVectors
    | BadDimension
    | MisalignedStorage
    | ZeroVector
    | KNotPositive
    | EfNotPositive
    | EfBelowK
    | SearchEfBelowCandidateK
    | CandidateCountMismatch
    | BadConfig
    | IndexNotBuilt

  datatype Outcome<+T> = Ok(value: T) | Err(error: Error)
}

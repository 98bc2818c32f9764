/** Failure-compatible wrappers shared by every module of the poker evaluator.
    The evaluator reports problems by throwing; here each exception it can raise
    becomes an `Error` value carried by `Failure`. */
module Results {

  /** The exceptions the evaluator can raise, one constructor each. */
  datatype Error =
    | InvalidCard        // a card token that is not exactly two characters long
    | InvalidCardValue   // a rank character whose value falls outside 2..14
    | InvalidCardSuit    // a suit character other than D, H, S or C
    | InvalidHand        // a hand handed to the classifier that does not hold five cards
    | InvalidRank        // a tie-break asked to settle a category outside 1..10
    | IndexOutOfRange    // a list indexed past its end
    | NullReference      // the value of a card that a search did not find

  datatype Option<+T> = None | Some(value: T)

  datatype Result<+T> = Success(value: T) | Failure(error: Error) {

    predicate IsFailure() {
      Failure?
    }

    function PropagateFailure<U>(): Result<U>
      requires Failure?
    {
      Failure(error)
    }

    function Extract(): T
      requires Success?
    {
      value
    }
  }
}

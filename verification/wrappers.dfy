/** Failure-carrying results used in place of the C++ exceptions. */
module Wrappers {

  datatype Option<+T> = None | Some(value: T)

  /** `Failure` stands for a thrown `std::invalid_argument`. */
  datatype Result<+R, +E> = Success(value: R) | Failure(error: E)

  /** The distinct `std::invalid_argument` throw sites of the processor. */
  datatype Error =
    | NotAGMove           // the line does not start with "G0" or "G1"
    | NoParameter         // no X, Y, Z or E word after the command
    | NonVerticalSegment  // the two endpoints of a spray line differ in X
    | OddRowLength        // a pattern row with an odd number of bytes
}

/** The error kinds reported while reading checkers notation. `error.rs` and
    `position.rs` each declare this same three-variant enum. */
module Errors {

  datatype NotationError =
    | InvalidFormat  // the text does not follow the notation
    | OutOfRange     // a number outside the squares 1..32
    | Idle           // a move whose destination is its source
}

/** The exceptions `NumberToString.transform` (numbers.py) can raise on a well-typed number. */
module Errors {

  datatype Error =
      /** The magnitude is 10^21 or more; carries the largest value allowed, 10^21 - 1. */
    | MaxNumberExceeded(maximum: nat)
      /**
       * The last non-zero fractional digit lies so far right that the
       * denominator 10^(pos + 1) has no spelling: `_int_to_str` returns `None`
       * and calling `replace` on it fails.
       */
    | NoFractionName
}

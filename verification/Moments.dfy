/** A time that may not have come yet. */
module Moments {
  datatype When = Never | At(t: int)
}

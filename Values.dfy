/** `BooleanValue`: a variable or function value, with a "don't care" third value. */
module Values {
  datatype BooleanValue = TRUE | FALSE | DONT_CARE
}

/** `MaskValue`: one position of a mask. */
module MaskValues {
  datatype MaskValue = ZERO | ONE | DONT_CARE
}

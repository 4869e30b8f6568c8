/** Failure outcomes of the polynomial core, and the result type that carries them. */
module Errors {

  /** The ways an operation of the polynomial object can fail. */
  datatype PolyError =
    | ShapeMismatch    // a point matrix or coefficient vector of the wrong width or length
    | EmptyBasis       // the maximum degree of a basis with no rows was asked for
    | NotFitted        // coefficients were read before any were set
    | NoDefaultRule    // no quadrature option given and no default applies
    | NoTensorColumns  // a tensor rule over zero dimensions cannot drop its seed column

  datatype Result<+T> = Ok(value: T) | Err(error: PolyError)

  datatype Option<+T> = None | Some(value: T)
}

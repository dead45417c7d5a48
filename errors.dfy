/**
 * The error report shared by the API functions. A call that fails returns a
 * distinguished value (typically -1) and records what went wrong here; a call
 * that succeeds leaves the record alone.
 */
module YicesErrors {
  import opened YicesTypes

  /** The error codes the modelled operations can report. */
  datatype ErrorCode =
    | NoError
    | InvalidTerm               // INVALID_TERM
    | InvalidType               // INVALID_TYPE
    | TypeMismatch              // TYPE_MISMATCH
    | CtxInvalidOperation       // CTX_INVALID_OPERATION
    | CtxOperationNotSupported  // CTX_OPERATION_NOT_SUPPORTED
    | CtxOutsideLogic           // any of the codes for a formula outside the context's logic

  class ErrorReport {
    var code: ErrorCode
    var term1: int   // the offending term or type, for the codes that concern one

    constructor ()
      ensures code == NoError && term1 == NULL_TERM
    {
      code := NoError;
      term1 := NULL_TERM;
    }

    /** Clears the report: the last error code becomes NoError. */
    method Clear()
      modifies this
      ensures code == NoError && term1 == NULL_TERM
    {
      code := NoError;
      term1 := NULL_TERM;
    }

    /** Records a failure about the term or type id. */
    method Set(c: ErrorCode, id: int)
      requires c != NoError
      modifies this
      ensures code == c && term1 == id
    {
      code := c;
      term1 := id;
    }
  }
}

/** The exceptions the web layer raises, and a result that carries one. */
module Errors {

  datatype Error =
    | AccessDenied                       // the @PreAuthorize expression evaluated to false
    | GuardEvaluationFailed              // the lookup inside the @PreAuthorize expression raised
    | BadRequestAlert(errorKey: string)  // BadRequestAlertException with its error key
    | ConstraintViolation                // a @NotNull field of the entity was null when saved
    | IllegalArgument                    // a null id was passed to findById or deleteById
    | EmptyResult                        // deleteById of an id that has no row
    | IncorrectResultSize                // a single-result query matched several rows
    | InvalidPassword
    | EmailAlreadyUsed
    | LoginAlreadyUsed
    | EmailNotFound
    | AccountResourceFailure(message: string)
    | NotFound                           // an empty Optional wrapped into a 404 response

  datatype Result<+T> = Ok(value: T) | Err(error: Error)
}

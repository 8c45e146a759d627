/** The application's exception types. The concrete classes of core/exceptions are not part of this
    model apart from ValidationException; each is represented by its kind and the code and message
    passed to its constructor. */
module Exceptions {

  datatype ErrorKind = NotFound | AlreadyExists | InvalidArgument | NotAuthorized

  /** An AppGenericException subclass instance. */
  datatype AppError = AppError(kind: ErrorKind, code: string, message: string)

  /** One field error of a Spring BindingResult: the field and its default message. */
  datatype FieldError = FieldError(field: string, message: string)

  /** Whatever a handler or service call throws. */
  datatype Thrown =
    | App(error: AppError)                        // an AppGenericException
    | Validation(fieldErrors: seq<FieldError>)    // a ValidationException over a BindingResult
    | Runtime(exception: string)                  // any other (library or runtime) exception

  /** The code and message ValidationException hands to its super constructor. */
  const ValidationCode: string := "Validation error"
  const ValidationMessage: string := "validation failed"
}

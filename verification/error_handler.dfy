/** The Express error handler: the reply for an error that reaches it. Named errors are
    matched first, then PostgreSQL error codes, then the error's own status. */
module ErrorHandler {
  import opened Common

  /** The fields of a thrown error the handler looks at; None stands for a missing field.
      A missing or zero `status` and a missing or empty `message` are falsy in JavaScript. */
  datatype JsError = JsError(name: Option<string>, code: Option<string>, message: Option<string>, status: Option<int>, stack: string)

  /** The JSON reply: `error` always, and `details`, `message` or `stack` when present. */
  datatype ErrorReply = ErrorReply(status: int, error: string, details: Option<string>, message: Option<string>, stack: Option<string>)

  predicate Truthy(s: Option<string>)
  {
    s.Some? && s.value != []
  }

  function HandleError(err: JsError, nodeEnv: Option<string>): ErrorReply
  {
    if err.name == Some("ValidationError") then
      ErrorReply(400, "Validation Error", err.message, None, None)
    else if err.name == Some("UnauthorizedError") then
      ErrorReply(401, "Unauthorized", None, Some("Invalid or missing authentication"), None)
    else if err.code == Some("23505") then
      ErrorReply(409, "Duplicate Entry", None, Some("This record already exists"), None)
    else if err.code == Some("23503") then
      ErrorReply(400, "Invalid Reference", None, Some("Referenced record does not exist"), None)
    else
      ErrorReply(
        if err.status.Some? && err.status.value != 0 then err.status.value else 500,
        if Truthy(err.message) then err.message.value else "Internal Server Error",
        None, None,
        if nodeEnv == Some("development") then Some(err.stack) else None)
  }

  /** Whether one of the four specific rules applies. */
  predicate Recognised(err: JsError)
  {
    err.name == Some("ValidationError") || err.name == Some("UnauthorizedError") ||
    err.code == Some("23505") || err.code == Some("23503")
  }

  /** The error name decides before the code does: a validation or authentication error
      gets 400 or 401 whatever its code. */
  lemma NameBeforeCode(err: JsError, nodeEnv: Option<string>)
    ensures err.name == Some("ValidationError") ==>
      HandleError(err, nodeEnv).status == 400 && HandleError(err, nodeEnv).details == err.message
    ensures err.name == Some("UnauthorizedError") ==> HandleError(err, nodeEnv).status == 401
    ensures err.name != Some("ValidationError") && err.name != Some("UnauthorizedError") ==>
      (err.code == Some("23505") ==> HandleError(err, nodeEnv).status == 409) &&
      (err.code == Some("23503") ==> HandleError(err, nodeEnv).error == "Invalid Reference" && HandleError(err, nodeEnv).status == 400)
  {
  }

  /** An error no rule recognises keeps its own non-zero status, or gets 500, and its own
      message, or a generic one; every reply has a non-empty error text. */
  lemma Fallback(err: JsError, nodeEnv: Option<string>)
    ensures HandleError(err, nodeEnv).error != []
    ensures !Recognised(err) ==>
      HandleError(err, nodeEnv).status == (if err.status.Some? && err.status.value != 0 then err.status.value else 500)
    ensures !Recognised(err) && Truthy(err.message) ==> HandleError(err, nodeEnv).error == err.message.value
    ensures !Recognised(err) && !Truthy(err.message) ==> HandleError(err, nodeEnv).error == "Internal Server Error"
  {
  }

  /** The stack trace is sent only in development, and only for an error no rule
      recognises; what is sent is the error's own stack. */
  lemma StackOnlyInDevelopment(err: JsError, nodeEnv: Option<string>)
    ensures HandleError(err, nodeEnv).stack.Some? <==> !Recognised(err) && nodeEnv == Some("development")
    ensures HandleError(err, nodeEnv).stack.Some? ==> HandleError(err, nodeEnv).stack == Some(err.stack)
  {
  }
}

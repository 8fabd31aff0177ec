/** The error objects the backend throws, and the outcome of an operation
    that may throw one.  `HttpError` is the application error of
    src/error.ts; error.ts is an older copy of it whose class is called
    `httpError`.  Both constructors only assign fields, and nothing assigns
    them afterwards, so an error is modelled as a value. */
module Errors {

  datatype Option<+T> = None | Some(value: T)

  /** A JavaScript `Error` object that the code receives from elsewhere
      (a library, or `new jwt.JsonWebTokenError(..)`): its class name,
      message, and the runtime-dependent `stack` text. */
  datatype Cause = Cause(name: string, message: string, stack: string)

  /** The fields of an `HttpError` (or `httpError`) instance. */
  datatype HttpError = HttpError(name: string, code: int, message: string, additionalInfo: Option<string>)

  /** Everything an operation of the model can throw. */
  datatype Failure =
    | Http(error: HttpError)          // an HttpError / httpError object
    | Raised(cause: Cause)            // a foreign Error object thrown as it is
    | PlainError(message: string)     // `new Error(message)`
    | QueryFailed(message: string)    // the database rejected the query
    | EntityNotFound                  // TypeORM's `findOneOrFail` found nothing
    | UndefinedProperty(property: string)  // the TypeError of reading `property` of `undefined`

  /** The value a call resolves to, or what it throws. */
  datatype Result<+T> = Ok(value: T) | Err(failure: Failure)

  /** `error.code == 404` in a catch block: only an HttpError carries a
      numeric code. */
  predicate IsNotFound(f: Failure)
  {
    f.Http? && f.error.code == 404
  }

  /** `error && error.message + error.stack`: undefined without an error. */
  function InfoOf(error: Option<Cause>): (info: Option<string>)
    ensures info.None? <==> error.None?
    ensures error.Some? ==> info.value == error.value.message + error.value.stack
  {
    match error
    case None => None
    case Some(e) => Some(e.message + e.stack)
  }

  /** `new HttpError(code, message, error)` of src/error.ts. */
  function NewHttpError(code: int, message: string, error: Option<Cause>): (e: HttpError)
    ensures e.name == "HttpError"
    ensures e.code == code && e.message == message
    ensures e.additionalInfo.Some? <==> error.Some?
    ensures error.Some? ==> e.additionalInfo == Some(error.value.message + error.value.stack)
  {
    HttpError("HttpError", code, message, InfoOf(error))
  }

  /** `formatError(httpCode, message, error)` of src/error.ts. */
  function FormatError(httpCode: int, message: string, error: Option<Cause>): (e: HttpError)
    ensures e.name == "HttpError"
    ensures e.code == httpCode && e.message == message
    ensures e.additionalInfo == InfoOf(error)
    ensures e == NewHttpError(httpCode, message, error)
  {
    NewHttpError(httpCode, message, error)
  }

  /** `new httpError(code, message, error)` of error.ts: the same fields,
      but the class name written in lower camel case. */
  function NewLowerHttpError(code: int, message: string, error: Option<Cause>): (e: HttpError)
    ensures e.name == "httpError"
    ensures e.code == code && e.message == message
    ensures e.additionalInfo.Some? <==> error.Some?
    ensures error.Some? ==> e.additionalInfo == Some(error.value.message + error.value.stack)
  {
    HttpError("httpError", code, message, InfoOf(error))
  }

  /** `formatError(httpCode, message, error)` of error.ts. */
  function FormatLowerError(httpCode: int, message: string, error: Option<Cause>): (e: HttpError)
    ensures e.name == "httpError"
    ensures e.code == httpCode && e.message == message
    ensures e.additionalInfo == InfoOf(error)
    ensures e == NewLowerHttpError(httpCode, message, error)
  {
    NewLowerHttpError(httpCode, message, error)
  }

  /** The two revisions of the class build the same error up to its name. */
  lemma RevisionsDifferOnlyInName(code: int, message: string, error: Option<Cause>)
    ensures NewLowerHttpError(code, message, error) == NewHttpError(code, message, error).(name := "httpError")
    ensures NewLowerHttpError(code, message, error) != NewHttpError(code, message, error)
  {
  }

  /** An `HttpError` (or `httpError`) object as its constructor builds it:
      `super()` first, then the four fields assigned one after the other. */
  class HttpErrorObject {
    var name: string
    var code: int
    var message: string
    var additionalInfo: Option<string>

    /** The fields as a value, the form in which the rest of the model
        throws them. */
    function Fields(): (e: HttpError)
      reads this
      ensures e.name == name && e.code == code && e.message == message && e.additionalInfo == additionalInfo
    {
      HttpError(name, code, message, additionalInfo)
    }

    /** `new HttpError(code, message, error)` of src/error.ts. */
    constructor (code: int, message: string, error: Option<Cause>)
      ensures Fields() == NewHttpError(code, message, error)
    {
      // `super()` gives the inherited `name` and `message` their defaults
      this.name := "Error";
      this.message := "";
      this.name := "HttpError";
      this.code := code;
      this.message := message;
      this.additionalInfo := InfoOf(error);
    }

    /** `new httpError(code, message, error)` of error.ts. */
    constructor Lower(code: int, message: string, error: Option<Cause>)
      ensures Fields() == NewLowerHttpError(code, message, error)
    {
      this.name := "Error";
      this.message := "";
      this.name := "httpError";
      this.code := code;
      this.message := message;
      this.additionalInfo := InfoOf(error);
    }
  }

  /** `formatError(httpCode, message, error)` of src/error.ts, returning
      the object `new HttpError(..)` builds. */
  method FormatErrorObject(httpCode: int, message: string, error: Option<Cause>) returns (e: HttpErrorObject)
    ensures fresh(e)
    ensures e.Fields() == FormatError(httpCode, message, error)
  {
    e := new HttpErrorObject(httpCode, message, error);
  }

  /** `formatError(httpCode, message, error)` of error.ts. */
  method FormatLowerErrorObject(httpCode: int, message: string, error: Option<Cause>) returns (e: HttpErrorObject)
    ensures fresh(e)
    ensures e.Fields() == FormatLowerError(httpCode, message, error)
  {
    e := new HttpErrorObject.Lower(httpCode, message, error);
  }

  /** An error thrown as `new HttpError(code, message)`, wrapped as a failure. */
  function HttpFailure(code: int, message: string): (f: Failure)
    ensures f.Http? && f.error.code == code && f.error.message == message
    ensures f.error.name == "HttpError" && f.error.additionalInfo.None?
  {
    Http(NewHttpError(code, message, None))
  }
}

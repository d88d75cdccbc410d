/** The error values that flow through the service: instances of the CustomError class,
    errors made by the http-errors package, errors raised by axios, and any other
    `Error`; plus the result types the repositories and services return instead of
    throwing. Two identical copies of the class exist, src/shared/utils/customError/index.ts
    and src/shared/utils/customError.ts, and `instanceof` tells them apart. Each chain of
    calls modelled here makes and tests errors of one class only (the controllers'
    services and repositories use customError.ts, and their data-access layer is taken
    to throw that class too), so `Custom` stands for whichever class the chain uses. */
module Errors {
  import opened JsSemantics

  /** An instance of CustomError. `message` already ends with the status-code suffix. */
  datatype CustomError = CustomError(message: string, statusCode: int, isOperational: bool)

  /** The text the constructor appends to the caller's message. */
  function StatusSuffix(statusCode: int): string
  {
    " (Status Code: " + IntToString(statusCode) + ")"
  }

  /** `new CustomError(message, statusCode, isOperational = true)`. */
  function NewCustomError(message: string, statusCode: int, isOperational: bool := true): (e: CustomError)
    ensures e.statusCode == statusCode && e.isOperational == isOperational
    ensures |e.message| > |message| && e.message[..|message|] == message
    ensures e.message[|message|..] == StatusSuffix(statusCode)
  {
    CustomError(message + StatusSuffix(statusCode), statusCode, isOperational)
  }

  /** Two constructions that give the same error were given the same arguments:
      the formatted message keeps the caller's message recoverable. */
  lemma NewCustomErrorInjective(m1: string, c1: int, o1: bool, m2: string, c2: int, o2: bool)
    requires NewCustomError(m1, c1, o1) == NewCustomError(m2, c2, o2)
    ensures m1 == m2 && c1 == c2 && o1 == o2
  {
    var e := NewCustomError(m1, c1, o1);
    assert |e.message| == |m1| + |StatusSuffix(c1)|;
    assert |e.message| == |m2| + |StatusSuffix(c2)|;
    assert m1 == e.message[..|m1|];
    assert m2 == e.message[..|m2|];
  }

  /** The response of a third-party call that axios turned into an error. */
  datatype AxiosResponse = AxiosResponse(status: int, data: Json)

  /** The request details axios keeps on an error (`error.config`). */
  datatype RequestConfig = RequestConfig(
    headers: Json, params: Json, body: Json,
    baseURL: Option<string>, url: Option<string>, httpMethod: Option<string>)

  /** Anything the service may throw. */
  datatype Thrown =
    | Custom(err: CustomError)                               // new CustomError(...)
    | Http(status: int, message: string)                     // http-errors, e.g. createError.UnprocessableEntity
    | Axios(response: Option<AxiosResponse>, config: RequestConfig)
    | Plain(name: string, message: string)                   // any other Error, by its `name`

  /** A thrown CustomError built from `message` and `statusCode`. */
  function Raise(message: string, statusCode: int): (t: Thrown)
    ensures t.Custom? && t.err.statusCode == statusCode && t.err.isOperational
  {
    Custom(NewCustomError(message, statusCode))
  }

  /** A value, or the error the operation threw. */
  datatype Result<+T> = Ok(value: T) | Fail(error: Thrown) {
    predicate IsFailure() { Fail? }
    function PropagateFailure<U>(): Result<U> requires Fail? { Fail(error) }
    function Extract(): T requires Ok? { value }
  }

  /** Completion, or the error the operation threw. */
  datatype Outcome = Done | Failed(error: Thrown) {
    predicate IsFailure() { Failed? }
    function PropagateFailure<U>(): Result<U> requires Failed? { Fail(error) }
  }

  /** The services' `catch` block: a CustomError is rethrown as it is, anything else
      becomes a 500 CustomError carrying the operation's message. */
  function Rewrap(e: Thrown, operationMessage: string): (r: Thrown)
    ensures r.Custom?
    ensures e.Custom? ==> r == e
    ensures !e.Custom? ==> r.err.statusCode == 500 && r.err == NewCustomError(operationMessage, 500)
  {
    if e.Custom? then e else Raise(operationMessage, 500)
  }

  /** `Rewrap` applied to a Result. */
  function RewrapResult<T>(r: Result<T>, operationMessage: string): (w: Result<T>)
    ensures r.Ok? <==> w.Ok?
    ensures r.Ok? ==> w == r
    ensures r.Fail? ==> w.error == Rewrap(r.error, operationMessage)
  {
    match r
    case Ok(v) => Ok(v)
    case Fail(e) => Fail(Rewrap(e, operationMessage))
  }

  /** Rewrapping twice, even with another message, is the same as rewrapping once:
      a service calling another service keeps the inner message. */
  lemma RewrapIdempotent(e: Thrown, m1: string, m2: string)
    ensures Rewrap(Rewrap(e, m1), m2) == Rewrap(e, m1)
  {
  }
}

/** src/shared/utils/httpResponse/index.ts: the JSON envelope every handler sends. */
module HttpResponses {
  import opened JsSemantics

  /** The argument object; absent fields take the defaults. */
  datatype ResponsePayload = ResponsePayload(status: Option<int>, message: Option<string>, data: Option<Json>)

  /** The envelope: exactly status, message and data. */
  datatype ResponseObject = ResponseObject(status: int, message: string, data: Json)

  const DEFAULT_STATUS: int := 200
  const DEFAULT_MESSAGE: string := "Success"

  function OrDefault<T>(x: Option<T>, d: T): T
  {
    match x
    case Some(v) => v
    case None => d
  }

  /** `httpResponse({status = 200, message = 'Success', data = null})`. */
  function HttpResponse(p: ResponsePayload): (r: ResponseObject)
    ensures p.status.Some? ==> r.status == p.status.value
    ensures p.status.None? ==> r.status == 200
    ensures p.message.Some? ==> r.message == p.message.value
    ensures p.message.None? ==> r.message == "Success"
    ensures p.data.Some? ==> r.data == p.data.value
    ensures p.data.None? ==> r.data == JNull
  {
    ResponseObject(OrDefault(p.status, DEFAULT_STATUS), OrDefault(p.message, DEFAULT_MESSAGE), OrDefault(p.data, JNull))
  }

  /** Every envelope is produced by the payload that spells it out: supplied fields pass through unchanged. */
  lemma HttpResponseRoundTrip(r: ResponseObject)
    ensures HttpResponse(ResponsePayload(Some(r.status), Some(r.message), Some(r.data))) == r
  {
  }
}

/** src/middlewares/exceptionhandler/index.ts: the last Express middleware, which turns
    whatever was thrown into a status and a JSON body. Logging is left out. `NODE_ENV`
    is a parameter; the stack trace of the error is a parameter too. */
module ExceptionHandler {
  import opened JsSemantics
  import opened Errors
  import ApiKeyValidator

  const PREFIX := "Error from: "
  const INTERNAL := "Internal server error"
  const DB_CONNECTION := "Database connection error"
  const REDIS := "Redis error"

  /** The JSON sent back. A `ThirdParty` body with no config is sent with `config: {}`. */
  datatype Body =
    | ThirdParty(status: int, message: string, data: Json, config: Option<RequestConfig>)
    | Brief(status: int, message: string)
    | Detailed(status: int, message: string, stack: string)

  datatype Reply = Reply(status: int, body: Body)

  /** `err.name`: errors built by the CustomError class keep the name `Error`. */
  function Name(err: Thrown): string
  {
    match err
    case Custom(_) => "Error"
    case Http(_, _) => "HttpError"
    case Axios(_, _) => "AxiosError"
    case Plain(name, _) => name
  }

  /** `err.message`. */
  function Message(err: Thrown): string
  {
    match err
    case Custom(e) => e.message
    case Http(_, m) => m
    case Axios(_, _) => ""
    case Plain(_, m) => m
  }

  /** The message taken from a third-party response body: `data.message`, else
      `data.msg`, else the generic text. `None` when `in` is applied to something that
      is neither an object nor an array, which throws inside the handler. */
  function ThirdPartyMessage(data: Json): (m: Option<Json>)
    ensures data.JObj? && "message" in data.fields ==> m == Some(data.fields["message"])
    ensures data.JObj? && "message" !in data.fields && "msg" in data.fields ==> m == Some(data.fields["msg"])
    ensures data.JObj? && "message" !in data.fields && "msg" !in data.fields ==> m == Some(JStr(INTERNAL))
    ensures data.JArr? ==> m == Some(JStr(INTERNAL))
    ensures !data.JObj? && !data.JArr? ==> m.None?
  {
    match data
    case JObj(fields) =>
      if "message" in fields then Some(fields["message"])
      else if "msg" in fields then Some(fields["msg"])
      else Some(JStr(INTERNAL))
    case JArr(_) => Some(JStr(INTERNAL))
    case _ => None
  }

  predicate IsLocal(nodeEnv: Option<string>)
  {
    nodeEnv == Some("local")
  }

  /** The Axios branch: a response is mirrored, with the message prefixed in local mode
      and stripped of its first `Error from: ` elsewhere; no response is a 500. `None`
      when the handler itself throws (`in` on a scalar body, `replace` on a non-string
      message). */
  function AxiosReply(response: Option<AxiosResponse>, config: RequestConfig, nodeEnv: Option<string>): (r: Option<Reply>)
    ensures response.None? ==> r == Some(Reply(500, Brief(500, INTERNAL)))
    ensures response.Some? && r.Some? ==>
      r.value.status == response.value.status && r.value.body.ThirdParty? &&
      r.value.body.status == response.value.status && r.value.body.data == response.value.data &&
      (r.value.body.config.Some? <==> IsLocal(nodeEnv)) &&
      (r.value.body.config.Some? ==> r.value.body.config.value == config)
  {
    match response
    case None => Some(Reply(500, Brief(500, INTERNAL)))
    case Some(resp) =>
      match ThirdPartyMessage(resp.data)
      case None => None
      case Some(m) =>
        if IsLocal(nodeEnv) then
          var text := "Error from third-party API: " + ApiKeyValidator.ToJsString(m);
          Some(Reply(resp.status, ThirdParty(resp.status, text, resp.data, Some(config))))
        else if m.JStr? then
          Some(Reply(resp.status, ThirdParty(resp.status, ReplaceFirst(m.s, PREFIX, ""), resp.data, None)))
        else None
  }

  /** The JavaScript `statusCode || 500` after mapping 200 to 500. */
  function DefaultStatus(resStatus: int): (s: int)
    ensures s != 0 && s != 200
    ensures resStatus != 200 && resStatus != 0 ==> s == resStatus
  {
    var statusCode := if resStatus == 200 then 500 else resStatus;
    if statusCode == 0 then 500 else statusCode
  }

  /** The last branch: the status already on the response (500 in place of 200), the
      message stripped of its first `Error from: `, and the stack outside production. */
  function Fallback(err: Thrown, status: int, nodeEnv: Option<string>, stack: string): Reply
  {
    Reply(status, Detailed(status, ReplaceFirst(Message(err), PREFIX, ""),
                           if nodeEnv == Some("production") then "" else stack))
  }

  /** `exceptionHandler(err, req, res, next)` as written: `resStatus` is `res.statusCode`
      when the error arrives. A CustomError's own status code is never consulted. */
  function HandleAsWritten(err: Thrown, resStatus: int, nodeEnv: Option<string>, stack: string): (r: Option<Reply>)
    ensures !err.Axios? ==> r.Some?
    ensures err.Http? ==> r == Some(Reply(err.status, Brief(err.status, ReplaceFirst(err.message, PREFIX, ""))))
    ensures err.Plain? && err.name == "DatabaseConnectionError" ==> r == Some(Reply(500, Brief(500, DB_CONNECTION)))
    ensures err.Plain? && err.name == "RedisError" ==> r == Some(Reply(500, Brief(500, REDIS)))
    ensures err.Custom? ==> r == Some(Fallback(err, DefaultStatus(resStatus), nodeEnv, stack))
  {
    match err
    case Axios(response, config) => AxiosReply(response, config, nodeEnv)
    case Http(status, message) => Some(Reply(status, Brief(status, ReplaceFirst(message, PREFIX, ""))))
    case _ =>
      if Name(err) == "DatabaseConnectionError" then Some(Reply(500, Brief(500, DB_CONNECTION)))
      else if Name(err) == "RedisError" then Some(Reply(500, Brief(500, REDIS)))
      else Some(Fallback(err, DefaultStatus(resStatus), nodeEnv, stack))
  }

  /** The handler as evidently intended: a CustomError is answered with its own status
      code; every other error as written. */
  function Handle(err: Thrown, resStatus: int, nodeEnv: Option<string>, stack: string): (r: Option<Reply>)
    ensures err.Custom? ==> r == Some(Fallback(err, err.err.statusCode, nodeEnv, stack))
    ensures !err.Custom? ==> r == HandleAsWritten(err, resStatus, nodeEnv, stack)
  {
    if err.Custom? then Some(Fallback(err, err.err.statusCode, nodeEnv, stack))
    else HandleAsWritten(err, resStatus, nodeEnv, stack)
  }

  /** As written, the 401 raised for a request without an API key reaches the client as
      a 500. */
  lemma CustomStatusIgnored(stack: string)
    ensures var r := HandleAsWritten(Raise("API key is required", 401), 200, None, stack);
      r.Some? && r.value.status == 500
  {
  }

  /** With the correction, every status a repository or service raises (400, 401, 403,
      404, 409, 500) reaches the client unchanged, whatever status the response held. */
  lemma RaisedStatusReachesClient(message: string, statusCode: int, resStatus: int, nodeEnv: Option<string>, stack: string)
    ensures var r := Handle(Raise(message, statusCode), resStatus, nodeEnv, stack);
      r.Some? && r.value.status == statusCode && r.value.body.status == statusCode
  {
  }

  /** The stack is never sent in production, and is sent unchanged otherwise. */
  lemma StackOnlyOutsideProduction(err: Thrown, resStatus: int, nodeEnv: Option<string>, stack: string)
    requires !err.Axios? && !err.Http?
    requires Name(err) != "DatabaseConnectionError" && Name(err) != "RedisError"
    ensures var r := Handle(err, resStatus, nodeEnv, stack);
      r.Some? && r.value.body.Detailed? &&
      (nodeEnv == Some("production") ==> r.value.body.stack == "") &&
      (nodeEnv != Some("production") ==> r.value.body.stack == stack)
  {
  }

  /** An error from a third-party call with a response keeps that response's status;
      request details are sent only in local mode. */
  lemma ThirdPartyMirrored(resp: AxiosResponse, config: RequestConfig, nodeEnv: Option<string>, resStatus: int, stack: string)
    requires resp.data.JObj? && "message" in resp.data.fields && resp.data.fields["message"].JStr?
    ensures var r := Handle(Axios(Some(resp), config), resStatus, nodeEnv, stack);
      r.Some? && r.value.status == resp.status &&
      (r.value.body.config == (if IsLocal(nodeEnv) then Some(config) else None))
  {
  }

  /** A message without the prefix is sent as it is. */
  lemma UnprefixedMessageKept(status: int, message: string, resStatus: int, nodeEnv: Option<string>, stack: string)
    requires forall j :: !OccursAt(message, PREFIX, j)
    ensures Handle(Http(status, message), resStatus, nodeEnv, stack) == Some(Reply(status, Brief(status, message)))
  {
    ReplaceFirstAbsent(message, PREFIX, "");
  }

  /** Only the first `Error from: ` of a message is removed. */
  lemma OnlyFirstPrefixRemoved(status: int, rest: string, resStatus: int, nodeEnv: Option<string>, stack: string)
    ensures Handle(Http(status, PREFIX + PREFIX + rest), resStatus, nodeEnv, stack) ==
            Some(Reply(status, Brief(status, PREFIX + rest)))
  {
    assert PREFIX + PREFIX + rest == [] + PREFIX + (PREFIX + rest);
    ReplaceFirstAt([], PREFIX, PREFIX + rest, "");
    assert [] + "" + (PREFIX + rest) == PREFIX + rest;
  }
}

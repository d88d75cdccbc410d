/** src/shared/validators/resultValidator.ts: the step that ends a validation chain,
    and the way the chains of express-validator run one after the other. */
module ResultValidator {
  import opened JsSemantics
  import opened Errors

  /** The status of `createError.UnprocessableEntity`. */
  const UNPROCESSABLE: int := 422

  /** `validateResult`: `next()` when no check failed; otherwise a 422 whose message is
      every failure message, in order, joined by ", ". */
  function ValidateResult(errors: seq<string>): (r: Outcome)
    ensures r.Done? <==> errors == []
    ensures r.Failed? ==> r.error == Http(UNPROCESSABLE, Join(errors, ", "))
  {
    if errors == [] then Done else Failed(Http(UNPROCESSABLE, Join(errors, ", ")))
  }

  /** A lone failure is reported verbatim. */
  lemma SingleFailureVerbatim(m: string)
    ensures ValidateResult([m]) == Failed(Http(UNPROCESSABLE, m))
  {
  }

  /** A further failure is appended to the message after ", ": the message lists the
      failures in the order of the checks. */
  lemma {:induction false} FailuresInOrder(errors: seq<string>, m: string)
    requires errors != []
    ensures Join(errors + [m], ", ") == Join(errors, ", ") + ", " + m
    decreases |errors|
  {
    if |errors| == 1 {
      assert errors + [m] == [errors[0], m];
    } else {
      assert (errors + [m])[1..] == errors[1..] + [m];
      FailuresInOrder(errors[1..], m);
    }
  }

  /** One element of a middleware array: a field's checks, which record the messages
      of the checks that fail and always continue, or `validateResult`. */
  datatype Step = Checks(errors: seq<string>) | ResultCheck

  /** Runs the middleware array in order with the failure messages recorded so far:
      `validateResult` stops the request when there are any, otherwise the array ends
      with `next()`. */
  function RunChain(steps: seq<Step>, recorded: seq<string>): (r: Outcome)
    ensures (forall i :: 0 <= i < |steps| ==> steps[i].Checks?) ==> r == Done
    decreases |steps|
  {
    if steps == [] then Done
    else match steps[0]
      case Checks(errs) => RunChain(steps[1..], recorded + errs)
      case ResultCheck => if recorded != [] then ValidateResult(recorded) else RunChain(steps[1..], recorded)
  }

  /** Every message the field checks record, in order. */
  function Recorded(steps: seq<Step>): (errors: seq<string>)
    ensures steps == [] ==> errors == []
  {
    if steps == [] then []
    else (if steps[0].Checks? then steps[0].errors else []) + Recorded(steps[1..])
  }

  /** A chain of field checks closed by `validateResult` stops the request exactly when
      some check failed, with all the messages; without it, the request always goes on. */
  lemma {:induction false} ChainEndingInResult(steps: seq<Step>, recorded: seq<string>)
    requires forall i :: 0 <= i < |steps| ==> steps[i].Checks?
    ensures RunChain(steps + [ResultCheck], recorded) == ValidateResult(recorded + Recorded(steps))
    decreases |steps|
  {
    if steps == [] {
      assert steps + [ResultCheck] == [ResultCheck];
      assert recorded + Recorded(steps) == recorded;
    } else {
      assert (steps + [ResultCheck])[0] == steps[0];
      assert (steps + [ResultCheck])[1..] == steps[1..] + [ResultCheck];
      ChainEndingInResult(steps[1..], recorded + steps[0].errors);
      assert recorded + steps[0].errors + Recorded(steps[1..]) == recorded + Recorded(steps);
    }
  }

  /** A message recorded by any field check is in the final list. */
  lemma {:induction false} RecordedKeeps(steps: seq<Step>, i: nat, m: string)
    requires i < |steps| && steps[i].Checks? && m in steps[i].errors
    ensures m in Recorded(steps)
    decreases i
  {
    if i > 0 {
      RecordedKeeps(steps[1..], i - 1, m);
    }
  }
}

/** src/shared/validators/analyticsValidator.ts: the express-validator chains of the
    analytics routes. A standard validator looks at the field's text (`toString` of the
    value: absent and null give "") and at each element of an array value, adding its
    message once per failing element; `isString`, `isObject`, `exists` and the custom
    rule look at the whole value; `optional()` skips an absent field. The library
    predicates `isURL`, `isIP`, `isISO8601`, `isInt`, `isDate` and `isUUID` are
    parameters. */
module AnalyticsValidator {
  import opened JsSemantics
  import opened Errors
  import opened ResultValidator
  import ApiKeyValidator

  const MAX_URL_LENGTH: int := 2048

  const EVENT_REQUIRED := "Event name is required"
  const EVENT_STRING := "Event name must be a string"
  const URL_REQUIRED := "URL is required"
  const URL_VALID := "URL must be valid"
  const URL_LENGTH := "URL must not exceed 2048 characters"
  const REFERRER_VALID := "Referrer must be a valid URL"
  const REFERRER_LENGTH := "Referrer must not exceed 2048 characters"
  const DEVICE_STRING := "Device must be a string"
  const IP_VALID := "IP address must be valid"
  const TIMESTAMP_REQUIRED := "Timestamp is required"
  const TIMESTAMP_VALID := "Timestamp must be a valid ISO 8601 date"
  const TRACKING_STRING := "Tracking user ID must be a string"
  const SESSION_STRING := "Session ID must be a string"
  const TITLE_STRING := "Page title must be a string"
  const LOAD_TIME_INT := "Page load time must be an integer"
  const METADATA_OBJECT := "Metadata must be an object"
  const BROWSER_STRING := "Browser must be a string"
  const OS_STRING := "OS must be a string"
  const SCREEN_STRING := "Screen size must be a string"
  /** The TypeError of reading `browser` on a null metadata value. */
  const NULL_METADATA := "Cannot read properties of null (reading 'browser')"
  const KEY_HEADER_REQUIRED := "API key is required in X-API-Key header"
  const KEY_HEADER_STRING := "API key must be a string"
  const SUMMARY_EVENT_REQUIRED := "Event type is required"
  const START_DATE_VALID := "Invalid start date format"
  const END_DATE_VALID := "Invalid end date format"
  const APP_ID_VALID := "Invalid app ID format"
  const USER_ID_REQUIRED := "User ID is required"
  const USER_ID_STRING := "User ID must be a string"

  /** The validator.js predicates the chains call. */
  datatype Library = Library(
    isUrl: string -> bool,
    isIp: string -> bool,
    isIso8601: string -> bool,
    isInt: string -> bool,
    isDate: string -> bool,
    isUuid: string -> bool)

  /** The request body of `POST /analytics/collect`, field by field. */
  datatype EventBody = EventBody(
    event: Option<Json>,
    url: Option<Json>,
    referrer: Option<Json>,
    device: Option<Json>,
    ipAddress: Option<Json>,
    timestamp: Option<Json>,
    trackingUserId: Option<Json>,
    sessionId: Option<Json>,
    pageTitle: Option<Json>,
    pageLoadTime: Option<Json>,
    metadata: Option<Json>)

  /** The text a standard validator is given for a value. */
  function Text(v: Json): string
  {
    match v
    case JNull => ""
    case JBool(b) => if b then "true" else "false"
    case JNum(n) => IntToString(n)
    case JStr(s) => s
    case JObj(_) => "[object Object]"
    case JArr(items) => ApiKeyValidator.ElementsText(items)
  }

  /** One message per element whose text `ok` refuses. */
  function ElementErrors(items: seq<Json>, ok: string -> bool, msg: string): (errs: seq<string>)
    ensures |errs| <= |items|
    ensures forall k :: 0 <= k < |errs| ==> errs[k] == msg
    ensures errs == [] <==> forall i :: 0 <= i < |items| ==> ok(Text(items[i]))
  {
    if items == [] then []
    else
      assert forall i :: 1 <= i < |items| ==> items[i] == items[1..][i - 1];
      (if ok(Text(items[0])) then [] else [msg]) + ElementErrors(items[1..], ok, msg)
  }

  /** A standard validator with its message. */
  function Standard(v: Option<Json>, ok: string -> bool, msg: string): (errs: seq<string>)
    ensures forall k :: 0 <= k < |errs| ==> errs[k] == msg
    ensures v.None? ==> (errs == [] <==> ok(""))
    ensures v.Some? && !v.value.JArr? ==> (errs == [] <==> ok(Text(v.value))) && |errs| <= 1
    ensures v.Some? && v.value.JArr? ==> (errs == [] <==> forall i :: 0 <= i < |v.value.items| ==> ok(Text(v.value.items[i])))
  {
    match v
    case None => if ok("") then [] else [msg]
    case Some(JArr(items)) => ElementErrors(items, ok, msg)
    case Some(x) => if ok(Text(x)) then [] else [msg]
  }

  /** `notEmpty()`. */
  function NotEmpty(v: Option<Json>, msg: string): seq<string>
  {
    Standard(v, (s: string) => s != "", msg)
  }

  /** `isLength({ max: 2048 })`, counting characters. */
  function AtMost2048(v: Option<Json>, msg: string): seq<string>
  {
    Standard(v, (s: string) => |s| <= MAX_URL_LENGTH, msg)
  }

  /** `isString()`: the whole value must be a string. */
  function IsString(v: Option<Json>, msg: string): (errs: seq<string>)
    ensures errs == [] <==> v.Some? && v.value.JStr?
    ensures errs != [] ==> errs == [msg]
  {
    if v.Some? && v.value.JStr? then [] else [msg]
  }

  /** `optional()` in front of a chain. */
  function Optional(v: Option<Json>, errs: seq<string>): (out: seq<string>)
    ensures v.None? ==> out == []
    ensures v.Some? ==> out == errs
  {
    if v.None? then [] else errs
  }

  /** `value.name` on a value that is not null: only an object has such a property. */
  function Property(v: Json, name: string): (p: Option<Json>)
    ensures p.Some? <==> v.JObj? && name in v.fields
    ensures p.Some? ==> p.value == v.fields[name]
  {
    if v.JObj? && name in v.fields then Some(v.fields[name]) else None
  }

  /** The custom metadata rule's test of one property: present, truthy and not a string. */
  predicate Misfit(v: Json, name: string)
  {
    var p := Property(v, name);
    p.Some? && Truthy(p.value) && !p.value.JStr?
  }

  /** The custom metadata rule: the message it throws, or `None` when it returns true.
      The properties are examined in the order browser, os, screenSize, and the first
      misfit decides; reading a property of null throws a TypeError. */
  function MetadataRule(v: Json): (failure: Option<string>)
    ensures v.JNull? ==> failure == Some(NULL_METADATA)
    ensures !v.JNull? ==> (failure.None? <==> !Misfit(v, "browser") && !Misfit(v, "os") && !Misfit(v, "screenSize"))
    ensures !v.JNull? ==> (failure == Some(BROWSER_STRING) <==> Misfit(v, "browser"))
    ensures !v.JNull? ==> (failure == Some(OS_STRING) <==> !Misfit(v, "browser") && Misfit(v, "os"))
    ensures !v.JNull? ==> (failure == Some(SCREEN_STRING) <==> !Misfit(v, "browser") && !Misfit(v, "os") && Misfit(v, "screenSize"))
  {
    if v.JNull? then Some(NULL_METADATA)
    else if Misfit(v, "browser") then Some(BROWSER_STRING)
    else if Misfit(v, "os") then Some(OS_STRING)
    else if Misfit(v, "screenSize") then Some(SCREEN_STRING)
    else None
  }

  /** The `metadata` chain: `optional().isObject().custom(...)`; the custom rule runs even
      when `isObject` fails. */
  function MetadataErrors(m: Option<Json>): (errs: seq<string>)
    ensures m.None? ==> errs == []
    ensures m.Some? && m.value.JObj? ==> (errs == [] <==> MetadataRule(m.value).None?)
    ensures m.Some? && !m.value.JObj? ==> |errs| >= 1 && errs[0] == METADATA_OBJECT
  {
    match m
    case None => []
    case Some(v) =>
      (if v.JObj? then [] else [METADATA_OBJECT]) +
      (match MetadataRule(v) case None => [] case Some(msg) => [msg])
  }

  /** The `url` chain: required, a URL, at most 2048 characters. */
  function UrlErrors(url: Option<Json>, lib: Library): (errs: seq<string>)
    ensures url.Some? && url.value.JStr? ==>
      var s := url.value.s;
      (errs == [] <==> s != "" && lib.isUrl(s) && |s| <= MAX_URL_LENGTH) &&
      (URL_LENGTH in errs <==> |s| > MAX_URL_LENGTH)
    ensures url.None? ==> URL_REQUIRED in errs
  {
    NotEmpty(url, URL_REQUIRED) + Standard(url, lib.isUrl, URL_VALID) + AtMost2048(url, URL_LENGTH)
  }

  /** The `referrer` chain: optional, a URL, at most 2048 characters. */
  function ReferrerErrors(referrer: Option<Json>, lib: Library): (errs: seq<string>)
    ensures referrer.None? ==> errs == []
    ensures referrer.Some? && referrer.value.JStr? ==>
      var s := referrer.value.s;
      (errs == [] <==> lib.isUrl(s) && |s| <= MAX_URL_LENGTH) &&
      (REFERRER_LENGTH in errs <==> |s| > MAX_URL_LENGTH)
  {
    Optional(referrer, Standard(referrer, lib.isUrl, REFERRER_VALID) + AtMost2048(referrer, REFERRER_LENGTH))
  }

  /** The eleven field chains of `validateAnalyticsEvent`, in order. */
  function EventFieldChecks(b: EventBody, lib: Library): (steps: seq<Step>)
    ensures |steps| == 11 && forall i :: 0 <= i < 11 ==> steps[i].Checks?
  {
    [ Checks(NotEmpty(b.event, EVENT_REQUIRED) + IsString(b.event, EVENT_STRING)),
      Checks(UrlErrors(b.url, lib)),
      Checks(ReferrerErrors(b.referrer, lib)),
      Checks(Optional(b.device, IsString(b.device, DEVICE_STRING))),
      Checks(Optional(b.ipAddress, Standard(b.ipAddress, lib.isIp, IP_VALID))),
      Checks(NotEmpty(b.timestamp, TIMESTAMP_REQUIRED) + Standard(b.timestamp, lib.isIso8601, TIMESTAMP_VALID)),
      Checks(Optional(b.trackingUserId, IsString(b.trackingUserId, TRACKING_STRING))),
      Checks(Optional(b.sessionId, IsString(b.sessionId, SESSION_STRING))),
      Checks(Optional(b.pageTitle, IsString(b.pageTitle, TITLE_STRING))),
      Checks(Optional(b.pageLoadTime, Standard(b.pageLoadTime, lib.isInt, LOAD_TIME_INT))),
      Checks(MetadataErrors(b.metadata)) ]
  }

  /** `validateAnalyticsEvent`: the field chains, then `validateResult`. The request
      goes on exactly when no field check failed; otherwise it is stopped with 422 and
      every failure's message. */
  function ValidateAnalyticsEvent(b: EventBody, lib: Library): (o: Outcome)
    ensures o.Done? <==> Recorded(EventFieldChecks(b, lib)) == []
    ensures o.Failed? ==> o.error == Http(UNPROCESSABLE, Join(Recorded(EventFieldChecks(b, lib)), ", "))
  {
    var steps := EventFieldChecks(b, lib);
    ChainEndingInResult(steps, []);
    assert [] + Recorded(steps) == Recorded(steps);
    RunChain(steps + [ResultCheck], [])
  }

  /** The request was stopped with 422. */
  predicate Unprocessable(o: Outcome)
  {
    o.Failed? && o.error.Http? && o.error.status == UNPROCESSABLE
  }

  /** The event chain stops the request with 422 exactly when some field check failed,
      and its message lists every failure in field order. */
  lemma EventChainStopsOnFailure(b: EventBody, lib: Library)
    ensures ValidateAnalyticsEvent(b, lib) == ValidateResult(Recorded(EventFieldChecks(b, lib)))
  {
    ChainEndingInResult(EventFieldChecks(b, lib), []);
    assert [] + Recorded(EventFieldChecks(b, lib)) == Recorded(EventFieldChecks(b, lib));
  }

  /** A URL of more than 2048 characters is refused with 422, whatever the other fields hold. */
  lemma LongUrlRefused(b: EventBody, lib: Library)
    requires b.url.Some? && b.url.value.JStr? && |b.url.value.s| > MAX_URL_LENGTH
    ensures Unprocessable(ValidateAnalyticsEvent(b, lib))
  {
    EventChainStopsOnFailure(b, lib);
    RecordedKeeps(EventFieldChecks(b, lib), 1, URL_LENGTH);
  }

  /** The metadata rule reports only the first misfit: a non-string browser hides a
      non-string OS. */
  lemma BrowserCheckedFirst()
    ensures MetadataRule(JObj(map["browser" := JNum(1), "os" := JBool(true)])) == Some(BROWSER_STRING)
  {
    assert Misfit(JObj(map["browser" := JNum(1), "os" := JBool(true)]), "browser");
  }

  /** Falsy metadata properties skip the type test: `{ browser: 0, os: "" }` passes. */
  lemma FalsyPropertiesSkipped()
    ensures MetadataRule(JObj(map["browser" := JNum(0), "os" := JStr(""), "screenSize" := JNull])).None?
  {
    var v := JObj(map["browser" := JNum(0), "os" := JStr(""), "screenSize" := JNull]);
    assert !Misfit(v, "browser") && !Misfit(v, "os") && !Misfit(v, "screenSize");
  }

  /** `validateApiKeyHeader`: the header must exist and be a string, then `validateResult`. */
  function ApiKeyHeaderChain(header: Option<Json>): (steps: seq<Step>)
    ensures |steps| == 2 && steps[0].Checks? && steps[1] == ResultCheck
  {
    [Checks((if header.Some? then [] else [KEY_HEADER_REQUIRED]) + IsString(header, KEY_HEADER_STRING)), ResultCheck]
  }

  /** A missing header is refused with both messages. */
  lemma MissingHeaderRefused()
    ensures RunChain(ApiKeyHeaderChain(None), []) ==
            Failed(Http(UNPROCESSABLE, KEY_HEADER_REQUIRED + ", " + KEY_HEADER_STRING))
  {
    var errs := [KEY_HEADER_REQUIRED] + [KEY_HEADER_STRING];
    var steps := [Checks(errs)];
    assert ApiKeyHeaderChain(None) == steps + [ResultCheck];
    ChainEndingInResult(steps, []);
    assert [] + Recorded(steps) == errs;
    assert Join(errs, ", ") == KEY_HEADER_REQUIRED + ", " + Join([KEY_HEADER_STRING], ", ");
  }

  /** The query of the event-summary route. */
  datatype SummaryQuery = SummaryQuery(event: Option<Json>, startDate: Option<Json>, endDate: Option<Json>, appId: Option<Json>)

  /** `validateEventSummaryRequest`: four field chains and no `validateResult`. */
  function EventSummaryChain(q: SummaryQuery, lib: Library): (steps: seq<Step>)
    ensures forall i :: 0 <= i < |steps| ==> steps[i].Checks?
  {
    [ Checks(NotEmpty(q.event, SUMMARY_EVENT_REQUIRED)),
      Checks(Optional(q.startDate, Standard(q.startDate, lib.isDate, START_DATE_VALID))),
      Checks(Optional(q.endDate, Standard(q.endDate, lib.isDate, END_DATE_VALID))),
      Checks(Optional(q.appId, Standard(q.appId, lib.isUuid, APP_ID_VALID))) ]
  }

  /** `validateUserStatsRequest`: one field chain and no `validateResult`. */
  function UserStatsChain(userId: Option<Json>): (steps: seq<Step>)
    ensures forall i :: 0 <= i < |steps| ==> steps[i].Checks?
  {
    [Checks(NotEmpty(userId, USER_ID_REQUIRED) + IsString(userId, USER_ID_STRING))]
  }

  /** Without `validateResult`, the summary and user-stats chains never stop a request:
      a query with no event type still reaches the handler, while the event chain
      refuses a body with no event name. */
  lemma ChainsWithoutResultNeverStop(q: SummaryQuery, userId: Option<Json>, b: EventBody, lib: Library)
    requires q.event.None? && b.event.None?
    ensures SUMMARY_EVENT_REQUIRED in Recorded(EventSummaryChain(q, lib))
    ensures RunChain(EventSummaryChain(q, lib), []) == Done
    ensures RunChain(UserStatsChain(userId), []) == Done
    ensures Unprocessable(ValidateAnalyticsEvent(b, lib))
  {
    EventChainStopsOnFailure(b, lib);
    RecordedKeeps(EventFieldChecks(b, lib), 0, EVENT_REQUIRED);
    RecordedKeeps(EventSummaryChain(q, lib), 0, SUMMARY_EVENT_REQUIRED);
  }
}

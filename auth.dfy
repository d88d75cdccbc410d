/** The authentication middlewares (src/middlewares/authMiddleware/index.ts): the session
    guard, and the API-key guard that reads `x-api-key`, picks the client address and
    hands the outcome of the key validation to `next`. */
module AuthMiddleware {
  import opened JsSemantics
  import opened Errors
  import opened ApiKeyStore
  import Repo = ApiKeyRepository

  const NOT_AUTHENTICATED := "Not authenticated"
  const KEY_REQUIRED := "API key is required"

  /** The parts of an Express request the middlewares read and write. Each element of
      `nextCalls` is one call of `next`: `None` for `next()`, `Some(e)` for `next(e)`. */
  class Request {
    const apiKeyHeader: Option<string>
    const forwardedFor: Option<string>
    const remoteAddress: Option<string>
    /** What the session's `req.isAuthenticated()` answers. */
    const authenticated: bool
    var apiKey: Option<ApiKey>
    var nextCalls: seq<Option<Thrown>>

    constructor (apiKeyHeader: Option<string>, forwardedFor: Option<string>, remoteAddress: Option<string>,
                 authenticated: bool)
      ensures this.apiKeyHeader == apiKeyHeader && this.forwardedFor == forwardedFor
      ensures this.remoteAddress == remoteAddress && this.authenticated == authenticated
      ensures this.apiKey.None? && this.nextCalls == []
    {
      this.apiKeyHeader := apiKeyHeader;
      this.forwardedFor := forwardedFor;
      this.remoteAddress := remoteAddress;
      this.authenticated := authenticated;
      this.apiKey := None;
      this.nextCalls := [];
    }
  }

  /** `isAuthenticated`: a signed-in session passes on with `next()`; otherwise the
      middleware throws a 401 itself and does not call `next`. */
  method IsAuthenticated(req: Request) returns (r: Outcome)
    modifies req
    ensures req.apiKey == old(req.apiKey)
    ensures req.authenticated ==> r == Done && req.nextCalls == old(req.nextCalls) + [None]
    ensures !req.authenticated ==> r == Failed(Raise(NOT_AUTHENTICATED, 401)) && req.nextCalls == old(req.nextCalls)
  {
    if req.authenticated {
      req.nextCalls := req.nextCalls + [None];
      return Done;
    }
    r := Failed(Raise(NOT_AUTHENTICATED, 401));
  }

  /** `(forwardedFor || remoteAddress)?.split(',')[0].trim()`: the first hop of a
      non-empty `x-forwarded-for`, else the socket address, or nothing when neither is
      there. */
  function ClientIp(forwardedFor: Option<string>, remoteAddress: Option<string>): (ip: Option<string>)
    ensures ip.None? <==> (forwardedFor.None? || forwardedFor.value == "") && remoteAddress.None?
    ensures ip.Some? ==> ',' !in ip.value
  {
    var chosen := if forwardedFor.Some? && forwardedFor.value != "" then forwardedFor else remoteAddress;
    if chosen.None? then None
    else
      var first := Split(chosen.value, ',')[0];
      TrimKeepsAbsent(first, ',');
      Some(Trim(first))
  }

  /** Trimming never brings in a character. */
  lemma TrimKeepsAbsent(s: string, c: char)
    requires c !in s
    ensures c !in Trim(s)
  {
    var u := TrimStart(s);
    SliceKeepsAbsent(s, |s| - |u|, |s|, c);
    SliceKeepsAbsent(u, 0, |TrimEnd(u)|, c);
  }

  lemma SliceKeepsAbsent(s: string, i: nat, j: nat, c: char)
    requires i <= j <= |s| && c !in s
    ensures c !in s[i..j]
  {
    assert forall k :: 0 <= k < j - i ==> s[i..j][k] == s[i + k];
  }

  /** Behind proxies the client is the first address of the forwarded list, trimmed,
      whatever follows and whatever the socket says. */
  lemma ClientIpFirstHop(first: string, rest: string, remoteAddress: Option<string>)
    requires ',' !in first
    ensures ClientIp(Some(first + "," + rest), remoteAddress) == Some(Trim(first))
  {
    SplitCons(first, ',', rest);
    assert first + "," + rest == first + [','] + rest;
  }

  /** A forwarded header with one address yields that address, trimmed. */
  lemma ClientIpSingle(forwarded: string, remoteAddress: Option<string>)
    requires forwarded != "" && ',' !in forwarded
    ensures ClientIp(Some(forwarded), remoteAddress) == Some(Trim(forwarded))
  {
  }

  /** Without a usable forwarded header the socket address decides: an empty header is
      falsy like a missing one. */
  lemma ClientIpFallback(forwardedFor: Option<string>, remote: string)
    requires forwardedFor.None? || forwardedFor.value == ""
    requires ',' !in remote
    ensures ClientIp(forwardedFor, Some(remote)) == Some(Trim(remote))
  {
  }

  /** What `validateApiKey` passes on: the 401 for a missing or empty key, otherwise the
      outcome of the repository's validation for the client address. */
  function Admission(apiKeyHeader: Option<string>, forwardedFor: Option<string>, remoteAddress: Option<string>,
                     rows: seq<ApiKey>, readable: bool, writable: bool, now: int): Result<ApiKey>
  {
    if apiKeyHeader.None? || apiKeyHeader.value == "" then Fail(Raise(KEY_REQUIRED, 401))
    else Repo.Validated(rows, readable, writable, apiKeyHeader.value, ClientIp(forwardedFor, remoteAddress), now)
  }

  /** The table after the guard: untouched when no key was sent. */
  function AdmissionRows(apiKeyHeader: Option<string>, forwardedFor: Option<string>, remoteAddress: Option<string>,
                         rows: seq<ApiKey>, readable: bool, writable: bool, now: int): seq<ApiKey>
  {
    if apiKeyHeader.None? || apiKeyHeader.value == "" then rows
    else Repo.AfterValidation(rows, readable, writable, apiKeyHeader.value, ClientIp(forwardedFor, remoteAddress), now)
  }

  /** A request passes the guard only with the key it sent, and only when that key is
      active, unexpired and allowed for the client address. */
  lemma AdmittedKeyIsLive(apiKeyHeader: Option<string>, forwardedFor: Option<string>, remoteAddress: Option<string>,
                          rows: seq<ApiKey>, readable: bool, writable: bool, now: int)
    requires Admission(apiKeyHeader, forwardedFor, remoteAddress, rows, readable, writable, now).Ok?
    ensures var k := Admission(apiKeyHeader, forwardedFor, remoteAddress, rows, readable, writable, now).value;
      apiKeyHeader.Some? && k.key == apiKeyHeader.value && k in rows && k.isActive && now <= k.expiresAt &&
      Repo.IpAllowed(k.ipRestrictions, ClientIp(forwardedFor, remoteAddress))
  {
    var ip := ClientIp(forwardedFor, remoteAddress);
    Repo.ValidatedIff(rows, readable, writable, apiKeyHeader.value, ip, now);
    Repo.AcceptedIsLiveAndAllowed(rows, apiKeyHeader.value, ip, now);
  }

  /** Without a key nothing is looked up and nothing is written. */
  lemma MissingKeyTouchesNothing(forwardedFor: Option<string>, remoteAddress: Option<string>,
                                 rows: seq<ApiKey>, readable: bool, writable: bool, now: int)
    ensures Admission(None, forwardedFor, remoteAddress, rows, readable, writable, now) == Fail(Raise(KEY_REQUIRED, 401))
    ensures Admission(Some(""), forwardedFor, remoteAddress, rows, readable, writable, now) == Fail(Raise(KEY_REQUIRED, 401))
    ensures AdmissionRows(None, forwardedFor, remoteAddress, rows, readable, writable, now) == rows
    ensures AdmissionRows(Some(""), forwardedFor, remoteAddress, rows, readable, writable, now) == rows
  {
  }

  /** `validateApiKey`: calls `next` exactly once, with the error when the key is
      refused, and with nothing after attaching the validated key to the request. */
  method ValidateApiKey(req: Request, t: ApiKeyTable, now: int)
    requires t.Valid()
    modifies req, t
    ensures t.Valid() && t.readable == old(t.readable) && t.writable == old(t.writable)
    ensures var a := Admission(req.apiKeyHeader, req.forwardedFor, req.remoteAddress,
                               old(t.rows), t.readable, t.writable, now);
      (a.Ok? ==> req.apiKey == Some(a.value) && req.nextCalls == old(req.nextCalls) + [None]) &&
      (a.Fail? ==> req.apiKey == old(req.apiKey) && req.nextCalls == old(req.nextCalls) + [Some(a.error)])
    ensures t.rows == AdmissionRows(req.apiKeyHeader, req.forwardedFor, req.remoteAddress,
                                    old(t.rows), t.readable, t.writable, now)
  {
    if req.apiKeyHeader.None? || req.apiKeyHeader.value == "" {
      req.nextCalls := req.nextCalls + [Some(Raise(KEY_REQUIRED, 401))];
      return;
    }
    var ip := ClientIp(req.forwardedFor, req.remoteAddress);
    var valid := Repo.ValidateApiKey(t, req.apiKeyHeader.value, ip, now);
    if valid.Fail? {
      req.nextCalls := req.nextCalls + [Some(valid.error)];
      return;
    }
    req.apiKey := Some(valid.value);
    req.nextCalls := req.nextCalls + [None];
  }
}

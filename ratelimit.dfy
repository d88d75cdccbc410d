/** src/middlewares/rateLimitter/interfaces/index.ts: the limit tiers. */
module RateLimitTiers {
  import opened JsSemantics

  /** One tier: the window length in milliseconds, the requests allowed per window
      and the message sent with a rejection. */
  datatype RateLimitConfig = RateLimitConfig(windowMs: int, maxRequests: int, message: string)

  const WINDOW_MS: int := 60 * 1000

  const DEFAULT_TIER: RateLimitConfig :=
    RateLimitConfig(WINDOW_MS, 100, "Too many requests, please try again later.")
  const COLLECTION_TIER: RateLimitConfig :=
    RateLimitConfig(WINDOW_MS, 300, "Too many data collection requests, please try again later.")
  const ANALYTICS_TIER: RateLimitConfig :=
    RateLimitConfig(WINDOW_MS, 30, "Too many analytics requests, please try again later.")

  /** `limits[type]`: the three named tiers; any other name is undefined. */
  function Limits(tier: string): (c: Option<RateLimitConfig>)
    ensures c.Some? <==> tier == "default" || tier == "collection" || tier == "analytics"
    ensures c.Some? ==> c.value.windowMs == 60000 && c.value.maxRequests > 0 && c.value.windowMs > 0
  {
    if tier == "default" then Some(DEFAULT_TIER)
    else if tier == "collection" then Some(COLLECTION_TIER)
    else if tier == "analytics" then Some(ANALYTICS_TIER)
    else None
  }

  /** The tiers share one window, and analytics < default < collection in requests
      allowed; each tier has a message of its own. */
  lemma TierOrdering()
    ensures Limits("default") == Some(RateLimitConfig(60000, 100, "Too many requests, please try again later."))
    ensures Limits("collection") == Some(RateLimitConfig(60000, 300, "Too many data collection requests, please try again later."))
    ensures Limits("analytics") == Some(RateLimitConfig(60000, 30, "Too many analytics requests, please try again later."))
    ensures Limits("analytics").value.maxRequests < Limits("default").value.maxRequests < Limits("collection").value.maxRequests
    ensures Limits("default").value.message != Limits("collection").value.message
    ensures Limits("default").value.message != Limits("analytics").value.message
    ensures Limits("collection").value.message != Limits("analytics").value.message
  {
  }
}

/** src/middlewares/rateLimitter/index.ts: a fixed-window limiter over a hash per client
    stored in Redis. */
module RateLimiter {
  import opened JsSemantics
  import opened RateLimitTiers
  import opened HttpResponses

  /** The tier `rateLimiter(type = 'default')` applies: an omitted argument is the
      default tier, and a given name is used as it is. */
  function TierName(tierArg: Option<string>): (tier: string)
    ensures tierArg.None? ==> tier == "default" && Limits(tier) == Some(DEFAULT_TIER)
    ensures tierArg.Some? ==> tier == tierArg.value
  {
    if tierArg.Some? then tierArg.value else "default"
  }

  /** The hash stored under a rate-limit key: `windowStart` and `requestCount`. */
  datatype Window = Window(windowStart: int, requestCount: int)

  /** The values of the X-RateLimit-Limit, X-RateLimit-Remaining, X-RateLimit-Reset and
      Retry-After headers. */
  datatype RateHeaders = RateHeaders(limit: int, remaining: int, reset: int, retryAfter: Option<int>)

  /** What the middleware does with the request: `next()` (with the headers it set, if
      any), or a 429 reply with its JSON body. */
  datatype Verdict =
    | Pass(headers: Option<RateHeaders>)
    | Reject(limits: RateHeaders, body: ResponseObject)

  /** A verdict and the hash written back, if one is. */
  datatype Decision = Decision(verdict: Verdict, write: Option<Window>)

  /** `req.apiKey?.id || req.user?.id || req.ip || 'unknown'`. */
  function Identifier(apiKeyId: Option<string>, userId: Option<string>, ip: Option<string>): (id: string)
    ensures id != ""
    ensures apiKeyId.Some? && apiKeyId.value != "" ==> id == apiKeyId.value
    ensures (apiKeyId.None? || apiKeyId.value == "") && userId.Some? && userId.value != "" ==> id == userId.value
    ensures (apiKeyId.None? || apiKeyId.value == "") && (userId.None? || userId.value == "") ==>
              id == OrElse(ip, "unknown")
  {
    OrElse(apiKeyId, OrElse(userId, OrElse(ip, "unknown")))
  }

  /** `ratelimit:<tier>:<identifier>`. */
  function Key(tier: string, identifier: string): string
  {
    "ratelimit:" + tier + ":" + identifier
  }

  /** Distinct (tier, identifier) pairs get distinct keys, as long as tier names have no colon. */
  lemma KeyInjective(t1: string, i1: string, t2: string, i2: string)
    requires ':' !in t1 && ':' !in t2
    requires Key(t1, i1) == Key(t2, i2)
    ensures t1 == t2 && i1 == i2
  {
    var s1 := t1 + ":" + i1;
    var s2 := t2 + ":" + i2;
    assert Key(t1, i1) == "ratelimit:" + s1;
    assert Key(t2, i2) == "ratelimit:" + s2;
    assert s1 == Key(t1, i1)[10..] == s2;
    assert s1[..|t1|] == t1 && s2[..|t2|] == t2;
    IndexOfFirst(s1, ':', |t1|);
    IndexOfFirst(s2, ':', |t2|);
    assert t1 == s1[..|t1|] == s2[..|t2|] == t2;
    assert i1 == s1[|t1| + 1..] == s2[|t2| + 1..] == i2;
  }

  /** `Number(data.windowStart) || now` and `Number(data.requestCount) || 0` on the stored hash
      (absent when the key is missing). */
  function ReadWindow(stored: Option<Window>, now: int): (w: Window)
    ensures stored.None? ==> w == Window(now, 0)
    ensures stored.Some? && stored.value.windowStart == 0 ==> w == Window(now, stored.value.requestCount)
    ensures stored.Some? && stored.value.windowStart != 0 ==> w == stored.value
  {
    match stored
    case None => Window(now, 0)
    case Some(s) => Window(if s.windowStart == 0 then now else s.windowStart, s.requestCount)
  }

  /** The rollover as written: when the window has passed, only the count is reset and the
      old window start is kept. */
  function Rollover(w: Window, now: int, windowMs: int): (r: Window)
    ensures r.windowStart == w.windowStart
    ensures now > w.windowStart + windowMs ==> r.requestCount == 0
    ensures now <= w.windowStart + windowMs ==> r == w
  {
    if now > w.windowStart + windowMs then Window(w.windowStart, 0) else w
  }

  /** The rollover the comment at the reset describes: a passed window restarts at `now`. */
  function RolloverCorrected(w: Window, now: int, windowMs: int): (r: Window)
    ensures now > w.windowStart + windowMs ==> r == Window(now, 0)
    ensures now <= w.windowStart + windowMs ==> r == w
  {
    if now > w.windowStart + windowMs then Window(now, 0) else w
  }

  /** `Math.ceil(ms / 1000)` for a whole number of milliseconds. */
  function CeilSeconds(ms: int): (s: int)
    ensures 1000 * (s - 1) < ms <= 1000 * s
  {
    -((-ms) / 1000)
  }

  /** `Math.floor(ms / 1000)` for a whole number of milliseconds. */
  function FloorSeconds(ms: int): (s: int)
    ensures 1000 * s <= ms < 1000 * (s + 1)
  {
    ms / 1000
  }

  /** The expiry set on the key after an admission: `Math.floor(windowMs / 1000) + 10`. */
  function ExpireSeconds(cfg: RateLimitConfig): int
  {
    FloorSeconds(cfg.windowMs) + 10
  }

  /** The 429 body: `httpResponse({status: 429, message: config.message})`. */
  function RejectionBody(cfg: RateLimitConfig): (b: ResponseObject)
    ensures b == ResponseObject(429, cfg.message, JNull)
  {
    HttpResponse(ResponsePayload(Some(429), Some(cfg.message), None))
  }

  /** Admit or deny against the window `w` that the rollover left. */
  function Judge(cfg: RateLimitConfig, w: Window, now: int): (d: Decision)
    ensures d.verdict.Reject? <==> w.requestCount >= cfg.maxRequests
    ensures d.verdict.Reject? ==>
              d.write.None? && d.verdict.body == RejectionBody(cfg) &&
              var retry := CeilSeconds(w.windowStart + cfg.windowMs - now);
              d.verdict.limits == RateHeaders(cfg.maxRequests, 0, FloorSeconds(now + retry * 1000), Some(retry))
    ensures d.verdict.Pass? ==>
              d.write == Some(Window(w.windowStart, w.requestCount + 1)) &&
              d.verdict.headers == Some(RateHeaders(cfg.maxRequests, cfg.maxRequests - (w.requestCount + 1),
                                                    FloorSeconds(w.windowStart + cfg.windowMs), None)) &&
              d.verdict.headers.value.remaining >= 0
  {
    if w.requestCount >= cfg.maxRequests then
      var retry := CeilSeconds(w.windowStart + cfg.windowMs - now);
      Decision(Reject(RateHeaders(cfg.maxRequests, 0, FloorSeconds(now + retry * 1000), Some(retry)), RejectionBody(cfg)), None)
    else
      var count := w.requestCount + 1;
      Decision(Pass(Some(RateHeaders(cfg.maxRequests, cfg.maxRequests - count, FloorSeconds(w.windowStart + cfg.windowMs), None))),
               Some(Window(w.windowStart, count)))
  }

  /** The limiter's work for a known tier once the store has answered: read the
      stored hash, roll the window over (as written, or corrected), then judge. */
  function Consider(cfg: RateLimitConfig, stored: Option<Window>, now: int, corrected: bool): Decision
  {
    var w := ReadWindow(stored, now);
    Judge(cfg, if corrected then RolloverCorrected(w, now, cfg.windowMs) else Rollover(w, now, cfg.windowMs), now)
  }

  /** One request as the middleware handles it. A store that cannot be reached, and a
      tier name with no configuration (reading `config.windowMs` throws), both end in the
      `catch`, which calls `next()` with no headers and writes nothing. */
  function Decide(tier: string, stored: Option<Window>, now: int, available: bool): (d: Decision)
  {
    if !available then Decision(Pass(None), None)
    else match Limits(tier)
      case None => Decision(Pass(None), None)
      case Some(cfg) => Consider(cfg, stored, now, false)
  }

  /** `Decide` with the corrected rollover. */
  function DecideCorrected(tier: string, stored: Option<Window>, now: int, available: bool): (d: Decision)
  {
    if !available then Decision(Pass(None), None)
    else match Limits(tier)
      case None => Decision(Pass(None), None)
      case Some(cfg) => Consider(cfg, stored, now, true)
  }

  /** A reachable store and a known tier: the decision is the tier's configuration applied
      to the stored window. */
  lemma DecideKnownTier(tier: string, stored: Option<Window>, now: int)
    requires Limits(tier).Some?
    ensures Decide(tier, stored, now, true) == Consider(Limits(tier).value, stored, now, false)
    ensures DecideCorrected(tier, stored, now, true) == Consider(Limits(tier).value, stored, now, true)
  {
  }

  /** The limiter fails open: an unreachable store or an unknown tier admits the request
      without headers and leaves the store unchanged. */
  lemma FailOpen(tier: string, stored: Option<Window>, now: int, available: bool)
    requires !available || Limits(tier).None?
    ensures Decide(tier, stored, now, available) == Decision(Pass(None), None)
    ensures DecideCorrected(tier, stored, now, available) == Decision(Pass(None), None)
  {
  }

  /** A request is denied iff the store is reachable, the tier is known and the count left
      by the rollover has reached `maxRequests`; a denial writes nothing, answers 429 with
      the tier's message, and its Retry-After is the whole seconds left in the window, never
      negative. */
  lemma DenyIff(tier: string, stored: Option<Window>, now: int, available: bool)
    ensures var d := Decide(tier, stored, now, available);
            d.verdict.Reject? <==>
              available && Limits(tier).Some? &&
              Rollover(ReadWindow(stored, now), now, Limits(tier).value.windowMs).requestCount >= Limits(tier).value.maxRequests
    ensures var d := Decide(tier, stored, now, available);
            d.verdict.Reject? ==>
              var cfg := Limits(tier).value;
              var w := ReadWindow(stored, now);
              d.write.None? && d.verdict.body.status == 429 && d.verdict.body.message == cfg.message &&
              d.verdict.limits.remaining == 0 &&
              d.verdict.limits.retryAfter == Some(CeilSeconds(w.windowStart + cfg.windowMs - now)) &&
              0 <= d.verdict.limits.retryAfter.value
  {
    var d := Decide(tier, stored, now, available);
    if d.verdict.Reject? {
      var cfg := Limits(tier).value;
      var w := ReadWindow(stored, now);
      assert now <= w.windowStart + cfg.windowMs;
    }
  }

  /** An admission of a known tier stores the count left by the rollover plus one, keeps
      the window start, and reports Remaining = maxRequests - count >= 0 and
      Reset = floor((windowStart + windowMs) / 1000). */
  lemma AdmitWrites(tier: string, stored: Option<Window>, now: int)
    requires Limits(tier).Some?
    ensures var d := Decide(tier, stored, now, true);
            var cfg := Limits(tier).value;
            var w := Rollover(ReadWindow(stored, now), now, cfg.windowMs);
            d.verdict.Pass? ==>
              d.write == Some(Window(w.windowStart, w.requestCount + 1)) &&
              d.verdict.headers.value.remaining == cfg.maxRequests - (w.requestCount + 1) >= 0 &&
              d.verdict.headers.value.reset == FloorSeconds(w.windowStart + cfg.windowMs)
  {
  }

  /** The entry after a decision. */
  function After(entry: Option<Window>, d: Decision): Option<Window>
  {
    if d.write.Some? then d.write else entry
  }

  /** Which of a run of requests on one key, at the given times, are admitted under the
      tier configuration `cfg` (DecideKnownTier), with the rollover as written or corrected. */
  function Run(cfg: RateLimitConfig, entry: Option<Window>, times: seq<int>, corrected: bool): (admitted: seq<bool>)
    ensures |admitted| == |times|
    decreases |times|
  {
    if times == [] then []
    else
      var d := Consider(cfg, entry, times[0], corrected);
      [d.verdict.Pass?] + Run(cfg, After(entry, d), times[1..], corrected)
  }

  /** A request inside an open window holding `count` requests: admitted iff the count is
      below the limit, and an admission adds one to the count. */
  lemma StepWithinWindow(cfg: RateLimitConfig, start: int, count: int, now: int, corrected: bool)
    requires start != 0 && now <= start + cfg.windowMs
    ensures var d := Consider(cfg, Some(Window(start, count)), now, corrected);
            (d.verdict.Pass? <==> count < cfg.maxRequests) &&
            After(Some(Window(start, count)), d) == Some(Window(start, if count < cfg.maxRequests then count + 1 else count))
  {
    assert ReadWindow(Some(Window(start, count)), now) == Window(start, count);
  }

  /** Within an open window that already holds `count` requests, the next
      `maxRequests - count` requests are admitted and every later one is denied. */
  lemma {:induction false} RunWithinWindow(cfg: RateLimitConfig, start: int, count: int, times: seq<int>, corrected: bool)
    requires start != 0
    requires forall i :: 0 <= i < |times| ==> times[i] <= start + cfg.windowMs
    ensures forall i :: 0 <= i < |times| ==> (Run(cfg, Some(Window(start, count)), times, corrected)[i] <==> i < cfg.maxRequests - count)
    decreases |times|
  {
    if times != [] {
      var entry := Some(Window(start, count));
      var d := Consider(cfg, entry, times[0], corrected);
      StepWithinWindow(cfg, start, count, times[0], corrected);
      var next := if count < cfg.maxRequests then count + 1 else count;
      RunWithinWindow(cfg, start, next, times[1..], corrected);
      var r := Run(cfg, entry, times, corrected);
      var rest := Run(cfg, Some(Window(start, next)), times[1..], corrected);
      assert r == [d.verdict.Pass?] + rest;
      forall i | 0 <= i < |times|
        ensures r[i] <==> i < cfg.maxRequests - count
      {
        if i > 0 {
          assert r[i] == rest[i - 1];
        }
      }
    }
  }

  /** The first request on a missing key opens a window at its own time holding one request. */
  lemma FirstRequest(cfg: RateLimitConfig, now: int, corrected: bool)
    requires cfg.maxRequests > 0 && cfg.windowMs >= 0
    ensures var d := Consider(cfg, None, now, corrected);
            d.verdict.Pass? && d.write == Some(Window(now, 1))
  {
  }

  /** Starting from a missing key, when every request falls within the first request's
      window, exactly the first `maxRequests` requests are admitted and the rest denied. */
  lemma ExactlyMaxAdmitted(cfg: RateLimitConfig, times: seq<int>)
    requires cfg.maxRequests > 0 && cfg.windowMs >= 0
    requires times != [] && times[0] != 0
    requires forall i :: 0 <= i < |times| ==> times[i] <= times[0] + cfg.windowMs
    ensures forall i :: 0 <= i < |times| ==> (Run(cfg, None, times, false)[i] <==> i < cfg.maxRequests)
  {
    FirstRequest(cfg, times[0], false);
    RunWithinWindow(cfg, times[0], 1, times[1..], false);
    var r := Run(cfg, None, times, false);
    var rest := Run(cfg, Some(Window(times[0], 1)), times[1..], false);
    assert r == [true] + rest;
    forall i | 0 <= i < |times|
      ensures r[i] <==> i < cfg.maxRequests
    {
      if i > 0 {
        assert r[i] == rest[i - 1];
      }
    }
  }

  /** As written: a request after the stored window has passed resets the count, is
      admitted, and writes the stale start back. */
  lemma StaleStep(cfg: RateLimitConfig, start: int, count: int, now: int)
    requires cfg.maxRequests > 0 && start != 0 && now > start + cfg.windowMs
    ensures var d := Consider(cfg, Some(Window(start, count)), now, false);
            d.verdict.Pass? && d.write == Some(Window(start, 1))
  {
    assert ReadWindow(Some(Window(start, count)), now) == Window(start, count);
  }

  /** As written: once the stored window has passed, every request resets the count and is
      admitted, and the stale start is written back, so the key does not deny again
      until it expires. */
  lemma {:induction false} StaleWindowAlwaysAdmits(cfg: RateLimitConfig, start: int, count: int, times: seq<int>)
    requires cfg.maxRequests > 0 && start != 0
    requires forall i :: 0 <= i < |times| ==> times[i] > start + cfg.windowMs
    ensures forall i :: 0 <= i < |times| ==> Run(cfg, Some(Window(start, count)), times, false)[i]
    decreases |times|
  {
    if times != [] {
      var entry := Some(Window(start, count));
      StaleStep(cfg, start, count, times[0]);
      StaleWindowAlwaysAdmits(cfg, start, 1, times[1..]);
      assert Run(cfg, entry, times, false) == [true] + Run(cfg, Some(Window(start, 1)), times[1..], false);
    }
  }

  /** A concrete instance: 101 requests in one second to the `default` tier (100 per
      minute), sent after a window that started at 1000 ms and is full, are all admitted. */
  lemma StaleWindowExample()
    ensures Limits("default") == Some(DEFAULT_TIER)
    ensures var times := seq(101, i => 62001 + i);
            var r := Run(DEFAULT_TIER, Some(Window(1000, 100)), times, false);
            |r| == 101 && forall i :: 0 <= i < 101 ==> r[i]
  {
    var times := seq(101, i => 62001 + i);
    StaleWindowAlwaysAdmits(DEFAULT_TIER, 1000, 100, times);
  }

  /** Corrected: after a passed window the first request opens a new window at its own time. */
  lemma CorrectedRestart(cfg: RateLimitConfig, start: int, count: int, now: int)
    requires cfg.maxRequests > 0 && start != 0 && now > start + cfg.windowMs
    ensures var d := Consider(cfg, Some(Window(start, count)), now, true);
            d.verdict.Pass? && d.write == Some(Window(now, 1))
  {
    assert ReadWindow(Some(Window(start, count)), now) == Window(start, count);
  }

  /** Corrected: after a passed window the first request starts a new one, and of the
      requests within that new window exactly `maxRequests` are admitted. */
  lemma CorrectedWindowRestarts(cfg: RateLimitConfig, start: int, count: int, times: seq<int>)
    requires cfg.maxRequests > 0 && start != 0
    requires times != [] && times[0] != 0 && times[0] > start + cfg.windowMs
    requires forall i :: 0 <= i < |times| ==> times[i] <= times[0] + cfg.windowMs
    ensures forall i :: 0 <= i < |times| ==> (Run(cfg, Some(Window(start, count)), times, true)[i] <==> i < cfg.maxRequests)
  {
    var entry := Some(Window(start, count));
    CorrectedRestart(cfg, start, count, times[0]);
    RunWithinWindow(cfg, times[0], 1, times[1..], true);
    var r := Run(cfg, entry, times, true);
    var rest := Run(cfg, Some(Window(times[0], 1)), times[1..], true);
    assert r == [true] + rest;
    forall i | 0 <= i < |times|
      ensures r[i] <==> i < cfg.maxRequests
    {
      if i > 0 {
        assert r[i] == rest[i - 1];
      }
    }
  }

  function Lookup(m: map<string, Window>, key: string): Option<Window>
  {
    if key in m then Some(m[key]) else None
  }

  /** The Redis hashes the limiter reads and writes, with the expiry last set on each key. */
  class RateLimitStore {
    var windows: map<string, Window>
    var expiry: map<string, int>
    var available: bool

    constructor (available: bool)
      ensures windows == map[] && expiry == map[] && this.available == available
    {
      windows := map[];
      expiry := map[];
      this.available := available;
    }

    /** `rateLimiter(tier)` applied to one request at time `now`. */
    method Admit(tier: string, apiKeyId: Option<string>, userId: Option<string>, ip: Option<string>, now: int)
      returns (v: Verdict)
      modifies this
      ensures available == old(available)
      ensures !old(available) || Limits(tier).None? ==>
                v == Pass(None) && windows == old(windows) && expiry == old(expiry)
      ensures old(available) && Limits(tier).Some? ==>
                var key := Key(tier, Identifier(apiKeyId, userId, ip));
                var cfg := Limits(tier).value;
                var d := Consider(cfg, Lookup(old(windows), key), now, false);
                v == d.verdict &&
                windows == (if d.write.Some? then old(windows)[key := d.write.value] else old(windows)) &&
                expiry == (if d.write.Some? then old(expiry)[key := ExpireSeconds(cfg)] else old(expiry))
    {
      var identifier := Identifier(apiKeyId, userId, ip);
      var key := Key(tier, identifier);
      if !available {
        return Pass(None);
      }
      var data := Lookup(windows, key);
      var windowStart := if data.Some? && data.value.windowStart != 0 then data.value.windowStart else now;
      var requestCount := if data.Some? then data.value.requestCount else 0;
      var config := Limits(tier);
      if config.None? {
        return Pass(None);
      }
      var cfg := config.value;
      assert ReadWindow(data, now) == Window(windowStart, requestCount);
      if now > windowStart + cfg.windowMs {
        requestCount := 0;
      }
      ghost var w := Rollover(ReadWindow(data, now), now, cfg.windowMs);
      assert w == Window(windowStart, requestCount);
      if requestCount >= cfg.maxRequests {
        var windowExpireSeconds := CeilSeconds(windowStart + cfg.windowMs - now);
        var reset := FloorSeconds(now + windowExpireSeconds * 1000);
        return Reject(RateHeaders(cfg.maxRequests, 0, reset, Some(windowExpireSeconds)), RejectionBody(cfg));
      }
      requestCount := requestCount + 1;
      windows := windows[key := Window(windowStart, requestCount)];
      expiry := expiry[key := FloorSeconds(cfg.windowMs) + 10];
      v := Pass(Some(RateHeaders(cfg.maxRequests, cfg.maxRequests - requestCount, FloorSeconds(windowStart + cfg.windowMs), None)));
    }
  }
}

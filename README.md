# Event analytics engine: a Dafny model of its request rules

This project models the rules of the Event Analytics Engine's TypeScript back end:
- the fixed-window rate limiter and its tier table;
- IPv4 and CIDR arithmetic (prefix notation as in section 3.1 of RFC 4632);
- API-key creation, revocation, regeneration and validation;
- the Redis cache and counter helpers;
- date-range defaulting for analytics queries;
- construction of analytics event records;
- the user and app registries;
- the helpers for validators, environment variables, errors and responses.

**Conventions**
- Time (`now`), fresh UUIDs and fresh key values are parameters.
- Database tables are classes holding a `seq` of rows. Their methods model the data-access layer's `findById`, `findOne`, `findAll`, `count`, `create` and `update`.
  - An `update ... where` changes every row satisfying the conjunction and reports the count. An update that gives no attribute reports 0 and changes nothing: Sequelize's static `update` drops undefined values and sends no query when only `updatedAt` is left.
  - Unique indexes are a `Consistent` predicate that every method preserves.
  - Database failures are the data-access layer's 500 errors, selected by `readable` and `writable` flags. Each message ends with the model's `name`, which is the `modelName` it is initialised with: `api_keys`, `apps`, `users` or `events`.
  - The `users` email column's `isEmail` validator is a function field of the user table. `create` runs it on the email, and `update` runs it on an email it writes.
- The Redis keyspace is a class holding a map from keys to JSON blobs or member sets, plus a map of recorded TTLs.
- JSON serialisation is the identity on a JSON value datatype.
- JavaScript semantics used by the code are written out in module `JsSemantics`: truthiness, `parseInt`, `ToInt32` and `ToUint32`, `split`, `trim`, `String.prototype.replace` with a string pattern, and number-to-string.
- Errors are values. `Result<T>` is `Ok(value)` or `Fail(Thrown)`; `Outcome` is `Done` or `Failed(Thrown)`. `Thrown` distinguishes a `CustomError`, an `HttpError`, an Axios error and any other named error.

**Layout**
- One module per core source file. Module `JsSemantics` is in `js.dfy`; modules `Errors` and `HttpResponses` are in `errors.dfy`.
- `ordering.dfy` defines the `ORDER BY createdAt DESC` used by two listing queries.
- The tables are `apikeystore.dfy`, `userstore.dfy` and `appstore.dfy`.

## Model

| member | source | states |
|---|---|---|
| RateLimitTiers.Limits | src/middlewares/rateLimitter/interfaces/index.ts:8-29 | `default` allows 100, `collection` 300 and `analytics` 30 requests per 60000 ms, each with its own message; any other tier name has no configuration |
| RateLimitTiers.TierOrdering | src/middlewares/rateLimitter/interfaces/index.ts:8-29 | the tiers share one 60000 ms window; analytics < default < collection in requests allowed; the three messages differ |
| RateLimiter.TierName | src/middlewares/rateLimitter/index.ts:11-12 | an omitted tier argument selects `default` and its configuration; a given name is looked up as it is |
| RateLimiter.Identifier | src/middlewares/rateLimitter/index.ts:18 | the API-key id, else the user id, else the IP, else `unknown`; empty strings count as absent |
| RateLimiter.KeyInjective | src/middlewares/rateLimitter/index.ts:21 | tiers without `:` get distinct keys `ratelimit:<tier>:<id>` for distinct (tier, identifier) pairs |
| RateLimiter.ReadWindow | src/middlewares/rateLimitter/index.ts:24-27 | a missing or zero `windowStart` reads as `now`, and a missing count as 0 |
| RateLimiter.Rollover | src/middlewares/rateLimitter/index.ts:30-32 | as written: after the window has passed, the count becomes 0 and the old start is kept |
| RateLimiter.RolloverCorrected | src/middlewares/rateLimitter/index.ts:30-32 | corrected: a window that has passed restarts at `now` with count 0 |
| RateLimiter.Judge | src/middlewares/rateLimitter/index.ts:35-77 | deny when the count has reached `maxRequests`; otherwise admit with count + 1 and the limit headers |
| RateLimiter.DecideKnownTier | src/middlewares/rateLimitter/index.ts:11-87 | with a reachable store and a known tier, the decision is that tier's configuration applied to the stored window |
| RateLimiter.FailOpen | src/middlewares/rateLimitter/index.ts:12-84 | an unreachable store or an unknown tier admits the request, with no headers, and writes nothing |
| RateLimiter.DenyIff | src/middlewares/rateLimitter/index.ts:35-56 | denied iff the store is reachable, the tier is known and the rolled-over count is at least `maxRequests`; a denial is 429 with Remaining 0, Retry-After = ceil((start + windowMs − now)/1000) and the tier message, and it writes nothing |
| RateLimiter.AdmitWrites | src/middlewares/rateLimitter/index.ts:59-77 | an admission stores count + 1 under the same start; Remaining = max − count ≥ 0; Reset = floor((start + windowMs)/1000); the key expires after floor(windowMs/1000) + 10 s |
| RateLimiter.RunWithinWindow | src/middlewares/rateLimitter/index.ts:26-59 | in an open window holding `count` requests, the next `max − count` requests are admitted and every later one is denied |
| RateLimiter.FirstRequest | src/middlewares/rateLimitter/index.ts:26-66 | the first request on a missing key opens a window at its own time, holding one request |
| RateLimiter.ExactlyMaxAdmitted | src/middlewares/rateLimitter/index.ts:26-59 | from a missing key, when every request is within the first one's window, exactly the first `maxRequests` are admitted |
| RateLimiter.StaleWindowAlwaysAdmits | src/middlewares/rateLimitter/index.ts:30-65 | as written: once the stored window has passed, every later request is admitted and the stale start is written back |
| RateLimiter.StaleWindowExample | src/middlewares/rateLimitter/index.ts:30-65 | 101 requests at 62001..62101 ms to the `default` tier (100 per minute), after a full window that started at 1000 ms, are all admitted |
| RateLimiter.CorrectedRestart | src/middlewares/rateLimitter/index.ts:30-32 | corrected: the first request after a passed window opens a new window at its own time |
| RateLimiter.CorrectedWindowRestarts | src/middlewares/rateLimitter/index.ts:30-59 | corrected: after a passed window, exactly `maxRequests` of the requests within the new window are admitted |
| RateLimiter.RateLimitStore.Admit | src/middlewares/rateLimitter/index.ts:11-87 | one request: the stored entry becomes what the decision writes, and the headers and response are the decision's |
| IpHelpers.IpToInt | src/shared/helper/ipHelpers.ts:26-28 | the reduce `(acc << 8) + parseInt(octet)` then `>>> 0`, with JavaScript's 32-bit shift and NaN semantics, gives a value in [0, 2^32) for every string |
| IpHelpers.IpToIntQuad | src/shared/helper/ipHelpers.ts:26-28 | a dotted quad of bytes a.b.c.d gives a·2^24 + b·2^16 + c·2^8 + d |
| IpHelpers.IpToIntOfIntToIp | src/shared/helper/ipHelpers.ts:26-28 | every 32-bit address written in dotted decimal reads back as itself |
| IpHelpers.IsIpInCidr | src/shared/helper/ipHelpers.ts:5-21 | a range without `/` is refused, even one equal to the IP |
| IpHelpers.CidrUnfold | src/shared/helper/ipHelpers.ts:7-20 | for `range/bits` with no other `/`, the result compares the two addresses with their low (32 − bits) mod 32 bits cleared |
| IpHelpers.CidrPrefixMatch | src/shared/helper/ipHelpers.ts:17-20 | for p in 1..32, inside iff the top p bits of the IP and the range agree |
| IpHelpers.CidrExactMatch | src/shared/helper/ipHelpers.ts:17-20 | `/32`, `/0` and an unreadable prefix all match iff the two addresses are equal |
| IpHelpers.CidrReflexive | src/shared/helper/ipHelpers.ts:20 | an address without `/` is inside `address/bits`, whatever `bits` is |
| IpHelpers.ZeroPrefixIsExact | src/shared/helper/ipHelpers.ts:17 | as written: `/0` behaves like `/32`, an exact match |
| IpHelpers.ZeroPrefixCounterexample | src/shared/helper/ipHelpers.ts:17 | as written: no address is inside `/0` of a different address (for instance 10.0.0.1 and `0.0.0.0/0`), while the corrected check admits it |
| IpHelpers.IsIpInCidrCorrected | src/shared/helper/ipHelpers.ts:5-21 | corrected: a range without `/` is refused; a prefix is compared on its top bits, so `/0` uses an empty mask |
| IpHelpers.CorrectedPrefixMatch | src/shared/helper/ipHelpers.ts:17-20 | corrected: for p in 0..32, inside iff the top p bits agree |
| IpHelpers.CorrectedZeroPrefix | src/shared/helper/ipHelpers.ts:17 | corrected: every address is inside `/0` |
| IpHelpers.CorrectedAgreesOnProperPrefixes | src/shared/helper/ipHelpers.ts:17-20 | for prefixes 1..32 the correction changes nothing |
| ApiKeyValidator.OctetIff | src/shared/validators/apiKeyValidator.ts:24 | an octet of the pattern is exactly a numeral of 1 to 3 digits, leading zeros allowed, of value at most 255 |
| ApiKeyValidator.PrefixIff | src/shared/validators/apiKeyValidator.ts:24 | a prefix is exactly a numeral of value 0..32 without leading zero |
| ApiKeyValidator.PlainEntry | src/shared/validators/apiKeyValidator.ts:24 | a dotted quad without suffix matches iff its four parts are octets |
| ApiKeyValidator.PrefixedEntry | src/shared/validators/apiKeyValidator.ts:24 | a dotted quad with `/p` matches iff its parts are octets and p is a prefix |
| ApiKeyValidator.IpPatternShape | src/shared/validators/apiKeyValidator.ts:24 | every accepted entry is four octets, optionally followed by `/` and a prefix |
| ApiKeyValidator.Prefixes | src/shared/validators/apiKeyValidator.ts:24 | `/33`, `/05` and `/` are refused; `/0` and `/32` are accepted |
| ApiKeyValidator.RefusedPrefixes | src/shared/validators/apiKeyValidator.ts:24 | after any four octets, an out-of-range prefix, a leading-zero prefix or a bare `/` is refused |
| ApiKeyValidator.AnchoredMatch | src/shared/validators/apiKeyValidator.ts:24 | a space before or after a valid quad refuses it |
| ApiKeyValidator.NoFifthPart | src/shared/validators/apiKeyValidator.ts:24 | a fifth part on either side refuses an accepted entry |
| ApiKeyValidator.IpRestrictionsErrors | src/shared/validators/apiKeyValidator.ts:17-25 | an absent field gives no error; a non-array gives only the `isArray` message, since the custom rule returns true; an array gives the custom message iff some entry fails the pattern |
| ApiKeyValidator.EmptyListValid | src/shared/validators/apiKeyValidator.ts:25 | the empty list is accepted |
| ApiKeyValidator.ListExtension | src/shared/validators/apiKeyValidator.ts:25 | adding an entry keeps a list valid iff the entry is valid |
| ApiKeyValidator.CoercedEntries | src/shared/validators/apiKeyValidator.ts:24-25 | entries are matched as text: a number never matches, and a one-element array holding an address does |
| ApiKeyValidator.AcceptedAddress | src/shared/validators/apiKeyValidator.ts:24 | an accepted quad names the address a·2^24 + b·2^16 + c·2^8 + d, leading zeros notwithstanding |
| ApiKeyValidator.AcceptedRange | src/shared/validators/apiKeyValidator.ts:24 | an accepted range `/p` makes `isIpInCidr` a match on the top p bits, except that `/0` compares the whole address |
| AnalyticsEvents.NewEvent | src/controllers/analytics/repositories/index.ts:11-29 | id, key id, event and url copied; the six optional strings kept iff truthy, else null; pageLoadTime 0 or absent becomes null; absent metadata becomes `{}`; timestamp and both stamps are the module-load time |
| AnalyticsEvents.ClientTimestampIgnored | src/controllers/analytics/repositories/index.ts:7-20 | the client's timestamp never reaches the record |
| AnalyticsEvents.SameStampForAll | src/controllers/analytics/repositories/index.ts:7-27 | every event recorded by one loaded module carries the same timestamp |
| AnalyticsEvents.FullEventStoredAsGiven | src/controllers/analytics/repositories/index.ts:13-25 | an event whose optional fields are all present and non-empty is stored as given |
| AnalyticsEvents.BareEventDefaults | src/controllers/analytics/repositories/index.ts:17-25 | an event with only its required fields gets nulls and empty metadata |
| AnalyticsEvents.EventLog.CreateEvent | src/controllers/analytics/repositories/index.ts:11-29 | the record is appended, unless the database refuses it (down, id clash, a value too wide for its column), which gives 500 `Failed to create record in events` |
| AnalyticsEvents.RecordEvent | src/controllers/analytics/services/index.ts:10-17 | every failure becomes the 500 `Failed to record event` |
| AnalyticsEvents.IsIpAllowed | src/controllers/analytics/services/index.ts:22-32 | no list or an empty list allows every IP; otherwise allowed iff the IP equals one of the entries |
| AnalyticsEvents.RangesNotInterpreted | src/controllers/analytics/services/index.ts:31 | a list of CIDR ranges never admits a plain address, even one inside a range |
| AnalyticsEvents.AllowListMonotone | src/controllers/analytics/services/index.ts:22-32 | adding an entry to a non-empty list never removes an allowed IP |
| AuthMiddleware.IsAuthenticated | src/middlewares/authMiddleware/index.ts:9-15 | `next()` iff the session is authenticated, otherwise a thrown 401 |
| AuthMiddleware.ClientIp | src/middlewares/authMiddleware/index.ts:33-35 | the first comma-separated hop of a non-empty `x-forwarded-for`, trimmed, else the socket address |
| AuthMiddleware.ClientIpFirstHop | src/middlewares/authMiddleware/index.ts:33-35 | behind proxies, the first hop decides, whatever follows and whatever the socket says |
| AuthMiddleware.ClientIpFallback | src/middlewares/authMiddleware/index.ts:33-35 | a missing or empty forwarded header falls back to the socket address |
| AuthMiddleware.AdmittedKeyIsLive | src/middlewares/authMiddleware/index.ts:20-47 | a request passes only with the key it sent, and only when that key is active, unexpired and allowed for the client IP |
| AuthMiddleware.MissingKeyTouchesNothing | src/middlewares/authMiddleware/index.ts:26-30 | without a key the result is 401 and nothing is read or written |
| AuthMiddleware.ValidateApiKey | src/middlewares/authMiddleware/index.ts:20-47 | `next` is called exactly once: with the error when refused, otherwise with nothing after `req.apiKey` is set to the validated key |
| ApiKeyStore.ApiKeyTable.FindById | src/services/db/databaseService.ts:20-31 | the row with that primary key, or 500 `Failed to find record by ID in api_keys` |
| ApiKeyStore.ApiKeyTable.FindOne | src/services/db/databaseService.ts:36-46 | the first matching row, or 500 `Failed to find record in api_keys` |
| ApiKeyStore.ApiKeyTable.FindAll | src/services/db/databaseService.ts:51-61 | exactly the matching rows, or 500 `Failed to find records in api_keys` |
| ApiKeyStore.ApiKeyTable.Count | src/services/db/databaseService.ts:66-76 | the number of matching rows, or 500 `Failed to count records in api_keys` |
| ApiKeyStore.ApiKeyTable.Create | src/services/db/databaseService.ts:81-92 | one row appended, or 500 `Failed to create record in api_keys` when the database is down, the app is missing, or a primary or unique key clashes |
| ApiKeyStore.ApiKeyTable.Update | src/services/db/databaseService.ts:97-109 | the selected rows changed in place and their count, or 500 `Failed to update records in api_keys` when down or when a unique index would break |
| ApiKeyStore.KeyPreservingUpdateConsistent | src/shared/models/ApiKey.ts:104-108 | deactivating or stamping rows never breaks an index |
| ApiKeyStore.RowByIdAfterUpdate | src/services/db/databaseService.ts:20-109 | after an update by id, `findById` finds the changed row |
| ApiKeyStore.DeactivatedKeyNotFound | src/repositories/apiKey/index.ts:28-33 | once a key's row is deactivated, no active row holds that key |
| ApiKeyStore.ActiveKeyUnique | src/shared/models/ApiKey.ts:104-108 | under the indexes, the active row found for a key is the only one |
| ApiKeyRepository.Check | src/repositories/apiKey/index.ts:129-156 | in order: an active row with the key (else 401), not expired (else 401), IP allowed (else 403) |
| ApiKeyRepository.AcceptedIsLiveAndAllowed | src/repositories/apiKey/index.ts:129-156 | an accepted key is an active row holding the key, unexpired, whose restrictions admit the IP |
| ApiKeyRepository.ExactEntryAdmits | src/repositories/apiKey/index.ts:147-156 | an entry equal to the IP admits it |
| ApiKeyRepository.UnrestrictedAdmits | src/repositories/apiKey/index.ts:147-156 | without an IP or without restrictions, the IP check passes |
| ApiKeyRepository.FindApiKeyById | src/repositories/apiKey/index.ts:10-21 | the row, or 404 naming the id |
| ApiKeyRepository.FindApiKeyByKey | src/repositories/apiKey/index.ts:24-42 | only an active row is found |
| ApiKeyRepository.UserKeysContents | src/repositories/apiKey/index.ts:45-60 | the listing holds exactly the user's active unexpired keys, newest first |
| ApiKeyRepository.FindApiKeysByUserId | src/repositories/apiKey/index.ts:45-60 | returns that listing, or the read error |
| ApiKeyRepository.CreateApiKey | src/repositories/apiKey/index.ts:63-79 | a row built from the user, options, fresh key and expiry; the app name is not a column and is dropped |
| ApiKeyRepository.RevokeApiKey | src/repositories/apiKey/index.ts:82-93 | deactivates only the row with that id and owner; 404 when no row matches |
| ApiKeyRepository.RegenerateApiKey | src/repositories/apiKey/index.ts:96-117 | the owner's row gets the fresh key and `now` + N days and is read back, with `isActive` untouched; 404 when no row matches |
| ApiKeyRepository.UpdateApiKeyLastUsed | src/repositories/apiKey/index.ts:120-126 | stamps `lastUsed`; an error reaches the caller |
| ApiKeyRepository.ValidatedIff | src/repositories/apiKey/index.ts:129-162 | success iff the database works and all three checks pass; a failure changes nothing unless the key had expired |
| ApiKeyRepository.SuccessTouchesOnlyLastUsed | src/repositories/apiKey/index.ts:120-161 | on success only `lastUsed` and `updatedAt` of the key's own row change |
| ApiKeyRepository.ValidateApiKey | src/repositories/apiKey/index.ts:129-162 | the result and new table are those of the checks; an expired key is deactivated before its 401 |
| ApiKeyRepository.RevokedKeyInvalid | src/repositories/apiKey/index.ts:82-134 | a revoked key no longer validates |
| ApiKeyRepository.ExpiredKeyStaysInvalid | src/repositories/apiKey/index.ts:137-144 | an expired key, once deactivated by a validation, is unknown to every later one |
| ApiKeyRepository.AcceptedAgainAfterTouch | src/repositories/apiKey/index.ts:159-161 | stamping `lastUsed` does not change the verdict |
| ApiKeyRepository.RegeneratedKeySwap | src/repositories/apiKey/index.ts:96-117 | after regeneration the old key is unknown and the new one finds the row |
| ApiKeyControllerRepository.FindApiKeyById | src/controllers/apiKey/repository/index.ts:12-20 | the row, or 404 naming the id |
| ApiKeyControllerRepository.FindApiKeyByAppId | src/controllers/apiKey/repository/index.ts:25-48 | the app's active key, or null; a failed read is null too |
| ApiKeyControllerRepository.AppKeyUnique | src/shared/models/ApiKey.ts:104-108 | under the one-key-per-app index, the key found is that app's active row |
| ApiKeyControllerRepository.FindApiKeyByKey | src/controllers/apiKey/repository/index.ts:53-71 | only an active row is found |
| ApiKeyControllerRepository.DefaultDraft | src/controllers/apiKey/repository/index.ts:76-93 | without options, the new key is active, fresh, for the given app, and expires N days after `now` |
| ApiKeyControllerRepository.CreateApiKey | src/controllers/apiKey/repository/index.ts:76-93 | one row from the draft, with options spread last, or the create error |
| ApiKeyControllerRepository.RevokeApiKey | src/controllers/apiKey/repository/index.ts:98-108 | deactivates the row with that id, whoever owns it; 404 when none |
| ApiKeyControllerRepository.RegenerateApiKey | src/controllers/apiKey/repository/index.ts:113-133 | new key and expiry by id, then the row read back; 404 when none |
| ApiKeyControllerRepository.RegeneratedRow | src/controllers/apiKey/repository/index.ts:113-133 | the returned row keeps its owner, app, restrictions and active flag |
| ApiKeyControllerRepository.UpdateLastUsed | src/controllers/apiKey/repository/index.ts:138-144 | stamps `lastUsed`; an error reaches the caller |
| ApiKeyControllerRepository.FindExpiredApiKeys | src/controllers/apiKey/repository/index.ts:149-158 | exactly the active keys whose expiry is before `now` |
| ApiKeyControllerRepository.BulkRevokeApiKeys | src/controllers/apiKey/repository/index.ts:163-175 | an empty list gives 0 and touches nothing, even with the database down; otherwise the listed ids are deactivated and the count matched is returned |
| ApiKeyControllerRepository.CountActiveApiKeysByUser | src/controllers/apiKey/repository/index.ts:180-190 | the number of the user's active unexpired keys |
| ApiKeyService.CreateApiKey | src/controllers/apiKey/services/index.ts:10-31 | 400 for an empty user id or app name, before any write; other failures rewrapped |
| ApiKeyService.GetUserApiKeys | src/controllers/apiKey/services/index.ts:36-49 | as written: the repository has no listing function, so a call with a user id fails with 500 |
| ApiKeyService.GetUserApiKeysCorrected | src/controllers/apiKey/services/index.ts:36-49 | corrected: the user's active unexpired keys, newest first |
| ApiKeyService.CorrectedListsLiveKeys | src/controllers/apiKey/services/index.ts:36-49 | the corrected listing holds exactly the user's live keys |
| ApiKeyService.OwnerGuard | src/controllers/apiKey/services/index.ts:56-69 | no error exactly when both ids are given, the key is read and it belongs to the caller; a missing id is the 400, a failed read its 500, and a 403 only for a key of another owner |
| ApiKeyService.OwnerGuardPasses | src/controllers/apiKey/services/index.ts:56-102 | the guards pass iff both ids are given and the key exists and belongs to the caller; the checks run as 400, then 404, then 403 |
| ApiKeyService.OtherOwnerForbidden | src/controllers/apiKey/services/index.ts:66-69 | someone else's key is refused with 403 and left as it was |
| ApiKeyService.RevokeApiKey | src/controllers/apiKey/services/index.ts:54-82 | after the guards, the key is deactivated and read back; nothing changes on a guard path |
| ApiKeyService.RegenerateApiKey | src/controllers/apiKey/services/index.ts:87-112 | after the guards, the key gets the fresh value and a new expiry, and the row is returned with them |
| ApiKeyService.Check | src/controllers/apiKey/services/index.ts:117-148 | an empty, unknown or inactive key is refused, then expiry, then the CIDR-only IP check |
| ApiKeyService.ValidateApiKey | src/controllers/apiKey/services/index.ts:117-163 | the key or null; an expired key is revoked (a failure ignored) and gives null; a failed `lastUsed` stamp is ignored |
| ApiKeyService.PlainEntriesRefused | src/controllers/apiKey/services/index.ts:140-148 | a list of plain addresses never admits an IP here, unlike in the middleware's repository |
| ApiKeyService.CidrListsAgree | src/controllers/apiKey/services/index.ts:140-148 | when every entry is a range and the IP has no `/`, both IP checks agree |
| ApiKeyService.ServiceAcceptsLess | src/controllers/apiKey/services/index.ts:117-148 | every key the service accepts, the middleware's repository accepts too |
| RedisCache.Expire | src/shared/utils/redis/index.ts:86-88 | a positive TTL is recorded; any other deletes the key |
| RedisCache.Lookup | src/shared/utils/redis/index.ts:11-26 | the stored JSON value, or nothing for a miss or a set |
| RedisCache.Stored | src/shared/utils/redis/index.ts:34-47 | the key holds the value with its TTL; a non-positive TTL is refused |
| RedisCache.Incremented | src/shared/utils/redis/index.ts:77-95 | the old count (0 when absent) plus the increment, with the TTL when one is given; none for a non-integer value |
| RedisCache.Added | src/shared/utils/redis/index.ts:103-117 | the member joins the set, with the TTL when one is given; none when the key holds a JSON value |
| RedisCache.Cardinality | src/shared/utils/redis/index.ts:123-130 | the number of members, 0 for a missing key |
| RedisCache.KeysMatching | src/shared/utils/redis/index.ts:54-69 | exactly the keys that match the glob |
| RedisCache.WithoutMatching | src/shared/utils/redis/index.ts:54-69 | exactly the matching keys are removed |
| RedisCache.CacheStore.GetFromCache | src/shared/utils/redis/index.ts:11-26 | the stored value, or null on a miss or any error |
| RedisCache.CacheStore.StoreInCache | src/shared/utils/redis/index.ts:4-47 | the TTL defaults to 3600 s; true once stored, false on any error |
| RedisCache.CacheStore.DeleteByPattern | src/shared/utils/redis/index.ts:54-69 | deletes exactly the matching keys and returns their count; 0 when none match or on error |
| RedisCache.CacheStore.IncrementCounter | src/shared/utils/redis/index.ts:77-95 | the increment defaults to 1; the new count, or 0 on error |
| RedisCache.CacheStore.AddToSet | src/shared/utils/redis/index.ts:103-117 | true once added, false on any error |
| RedisCache.CacheStore.GetSetSize | src/shared/utils/redis/index.ts:123-130 | the set's size, or 0 on error |
| RedisCache.StoreThenLookup | src/shared/utils/redis/index.ts:11-42 | what is stored is read back |
| RedisCache.StoreKeepsOthers | src/shared/utils/redis/index.ts:34-42 | storing one key leaves every other key as it was |
| RedisCache.IncrementsAdd | src/shared/utils/redis/index.ts:77-95 | two increments equal one increment by their sum |
| RedisCache.AddCountsDistinct | src/shared/utils/redis/index.ts:103-130 | after an add the size is at least 1; re-adding a member leaves the size unchanged |
| RedisCache.PrefixPattern | src/shared/utils/redis/index.ts:57 | `prefix*` matches exactly the keys that start with the prefix |
| RedisCache.StarMatchesAll | src/shared/utils/redis/index.ts:57 | `*` matches every key |
| RedisCache.LiteralPattern | src/shared/utils/redis/index.ts:57 | a pattern without wildcards matches only itself |
| CacheHelper.TrackUniqueVisitor | src/shared/helper/cacheHelper.ts:10-17 | adds the visitor to `unique:<app>:<date>` with a 604800 s TTL, the date defaulting to today; errors are swallowed |
| CacheHelper.GetUniqueVisitorsCount | src/shared/helper/cacheHelper.ts:24-30 | the size of that same set, or 0 |
| CacheHelper.IncrementEventCounter | src/shared/helper/cacheHelper.ts:39-47 | adds `count` (1 when left out) to `count:<app>:<type>:<date>` (today when the date is left out) with a seven-day TTL and returns the new value, or 0 |
| CacheHelper.TrackedVisitorCounted | src/shared/helper/cacheHelper.ts:15-29 | after tracking, the day counts at least one visitor; re-tracking the same visitor leaves the count unchanged |
| CacheHelper.KeyKindsDisjoint | src/shared/helper/cacheHelper.ts:15-45 | a visitor set and an event counter never share a key |
| CacheHelper.UniqueKeyInjective | src/shared/helper/cacheHelper.ts:15 | app ids without `:` keep visitor sets apart per app and day |
| CacheHelper.UniqueKeyCollision | src/shared/helper/cacheHelper.ts:15 | app ids with `:` can share a visitor set |
| CacheHelper.CountKeyInjective | src/shared/helper/cacheHelper.ts:45 | counters are kept apart per app, type and day when neither holds `:` |
| DateParser.StartOfDay | src/shared/helper/dateParser.ts:8-9 | the midnight at or before `t`, less than a day earlier |
| DateParser.EndOfDay | src/shared/helper/dateParser.ts:7 | the last millisecond of the day holding `t` |
| DateParser.ParseDateRange | src/shared/helper/dateParser.ts:6-16 | the end is the end of the given day or of today; the start is the start of the given day, or of the day seven days before the end |
| DateParser.StartOfDayIdempotent | src/shared/helper/dateParser.ts:7-9 | normalising is idempotent, and the end of a day starts that day |
| DateParser.DefaultRangeEightDays | src/shared/helper/dateParser.ts:8-10 | without a start, the range spans exactly eight days, counted from the possibly explicit end |
| DateParser.DefaultRangeHoldsNow | src/shared/helper/dateParser.ts:6-16 | with no dates, now lies inside the range |
| DateParser.InvertedRangeKept | src/shared/helper/dateParser.ts:12-15 | a start after the end is neither reordered nor refused |
| ResultValidator.ValidateResult | src/shared/validators/resultValidator.ts:8-17 | `next()` iff no errors; otherwise 422 with the messages joined by `, ` |
| ResultValidator.SingleFailureVerbatim | src/shared/validators/resultValidator.ts:12-13 | a lone failure is reported verbatim |
| ResultValidator.FailuresInOrder | src/shared/validators/resultValidator.ts:12-13 | a further failure is appended after `, `, in check order |
| ResultValidator.ChainEndingInResult | src/shared/validators/resultValidator.ts:11-16 | a chain closed by `validateResult` stops iff some check failed, with every message; `next()` is never reached then |
| ResultValidator.RecordedKeeps | src/shared/validators/resultValidator.ts:9 | every recorded message is in the final list |
| AnalyticsValidator.MetadataRule | src/shared/validators/analyticsValidator.ts:49-60 | the first truthy non-string of browser, os, screenSize fails with its message; otherwise the rule passes |
| AnalyticsValidator.MetadataErrors | src/shared/validators/analyticsValidator.ts:45-60 | absent metadata passes; a non-object fails `isObject`, and the custom rule still runs |
| AnalyticsValidator.UrlErrors | src/shared/validators/analyticsValidator.ts:12-18 | required, a URL, at most 2048 characters |
| AnalyticsValidator.ReferrerErrors | src/shared/validators/analyticsValidator.ts:20-25 | optional, a URL, at most 2048 characters |
| AnalyticsValidator.ValidateAnalyticsEvent | src/shared/validators/analyticsValidator.ts:4-63 | the request goes on exactly when no field check failed; otherwise it is stopped with 422 listing every failure's message in field order |
| AnalyticsValidator.EventFieldChecks | src/shared/validators/analyticsValidator.ts:5-60 | the eleven field chains in their order |
| AnalyticsValidator.EventChainStopsOnFailure | src/shared/validators/analyticsValidator.ts:5-62 | the event chain stops with 422 iff some field check failed, listing every failure in field order |
| AnalyticsValidator.LongUrlRefused | src/shared/validators/analyticsValidator.ts:17-18 | a URL of more than 2048 characters is refused with 422 |
| AnalyticsValidator.BrowserCheckedFirst | src/shared/validators/analyticsValidator.ts:50-58 | a non-string browser hides a non-string os |
| AnalyticsValidator.FalsyPropertiesSkipped | src/shared/validators/analyticsValidator.ts:50-59 | falsy properties skip the type test |
| AnalyticsValidator.ApiKeyHeaderChain | src/shared/validators/analyticsValidator.ts:65-73 | the header must exist and be a string, then `validateResult` |
| AnalyticsValidator.MissingHeaderRefused | src/shared/validators/analyticsValidator.ts:65-73 | a missing header is refused with 422 and both messages |
| AnalyticsValidator.EventSummaryChain | src/shared/validators/analyticsValidator.ts:75-80 | four field chains, no `validateResult` |
| AnalyticsValidator.UserStatsChain | src/shared/validators/analyticsValidator.ts:82-88 | one field chain, no `validateResult` |
| AnalyticsValidator.ChainsWithoutResultNeverStop | src/shared/validators/analyticsValidator.ts:62-88 | the summary and user-stats chains never stop a request, while the event chain stops the same failure |
| EnvValidation.GetEnvVar | src/shared/validators/validateEnv.ts:10-19 | a set value unchanged; a missing or empty one gives the default, or a 500 naming the variable |
| EnvValidation.GetEnvVarAsNumber | src/shared/validators/validateEnv.ts:24-37 | missing: the default or a 500; set: `parseInt(value, 10)`, or a 500 `should be a number` |
| EnvValidation.MalformedIgnoresDefault | src/shared/validators/validateEnv.ts:26-35 | a malformed value is an error even when a default exists |
| EnvValidation.TrailingTextIgnored | src/shared/validators/validateEnv.ts:32 | leading digits followed by other text read as the number |
| EnvValidation.WrittenNumberRead | src/shared/validators/validateEnv.ts:32-36 | a number written in decimal reads back as itself |
| EnvValidation.ReadersAgreeOnMissing | src/shared/validators/validateEnv.ts:12-31 | both readers agree on when a variable is missing and on its error |
| ExceptionHandler.ThirdPartyMessage | src/middlewares/exceptionhandler/index.ts:18-24 | `data.message`, else `data.msg`, else `Internal server error` |
| ExceptionHandler.AxiosReply | src/middlewares/exceptionhandler/index.ts:12-55 | a response is mirrored with its status, and its config only in local mode; no response gives 500 `Internal server error` |
| ExceptionHandler.DefaultStatus | src/middlewares/exceptionhandler/index.ts:80 | 200 (and 0) become 500; other statuses are kept |
| ExceptionHandler.HandleAsWritten | src/middlewares/exceptionhandler/index.ts:8-87 | as written: HttpError gets its own status; the two named errors give 500 with their texts; a CustomError gets the response's status |
| ExceptionHandler.Handle | src/middlewares/exceptionhandler/index.ts:8-87 | corrected: like the as-written handler, except that a CustomError is answered with its own status code |
| ExceptionHandler.CustomStatusIgnored | src/middlewares/exceptionhandler/index.ts:79-82 | as written: the 401 `API key is required` reaches the client as 500 |
| ExceptionHandler.RaisedStatusReachesClient | src/middlewares/exceptionhandler/index.ts:79-82 | corrected: every raised status reaches the client unchanged |
| ExceptionHandler.StackOnlyOutsideProduction | src/middlewares/exceptionhandler/index.ts:84 | the stack is empty in production and sent unchanged otherwise |
| ExceptionHandler.ThirdPartyMirrored | src/middlewares/exceptionhandler/index.ts:36-47 | a response's status is kept, and request details go out only in local mode |
| ExceptionHandler.UnprefixedMessageKept | src/middlewares/exceptionhandler/index.ts:57-63 | a message without `Error from: ` is sent as it is |
| ExceptionHandler.OnlyFirstPrefixRemoved | src/middlewares/exceptionhandler/index.ts:57-63 | only the first `Error from: ` is removed |
| Errors.NewCustomError | src/shared/utils/customError/index.ts:9-13 | message `<message> (Status Code: <code>)`, the code as given, `isOperational` as given, defaulting to true |
| Errors.NewCustomErrorInjective | src/shared/utils/customError/index.ts:10-12 | the formatted error determines the arguments it was built from |
| Errors.Rewrap | src/controllers/apiKey/services/index.ts:25-30 | a CustomError is rethrown unchanged; anything else becomes a 500 carrying the operation's message |
| Errors.RewrapIdempotent | src/controllers/apiKey/services/index.ts:25-30 | rewrapping twice is rewrapping once |
| HttpResponses.HttpResponse | src/shared/utils/httpResponse/index.ts:8-14 | status defaults to 200, message to `Success`, data to null; given fields pass through |
| HttpResponses.HttpResponseRoundTrip | src/shared/utils/httpResponse/index.ts:13 | every response object is produced by the payload that spells it out |
| UserStore.UserTable.FindById | src/services/db/databaseService.ts:20-31 | the row with that id, or 500 `Failed to find record by ID in users` |
| UserStore.UserTable.FindOne | src/services/db/databaseService.ts:36-46 | the first matching row, or 500 `Failed to find record in users` |
| UserStore.UserTable.Create | src/services/db/databaseService.ts:81-92 | one row with the model's defaults, or 500 `Failed to create record in users` when down, emailless, refused by `isEmail`, or clashing on a unique column |
| UserStore.UserTable.Update | src/services/db/databaseService.ts:97-109 | the row with that id updated and the count, or 500 `Failed to update records in users` when down, when a written email fails `isEmail`, or when a unique column would clash; an update giving no attribute reports 0 and writes nothing |
| UserStore.RowByIdAfterUpdate | src/services/db/databaseService.ts:20-109 | after an update by id, `findById` finds the updated row |
| UsersRepository.FindUserById | src/repositories/users/index.ts:7-18 | the row, or 404 naming the id |
| UsersRepository.CreateUser | src/repositories/users/index.ts:101-114 | an existing email gives 409 and nothing is written; otherwise the row is created, unless the database refuses it (an email failing `isEmail` among the reasons), which gives the create error |
| UsersRepository.UpdateUser | src/repositories/users/index.ts:117-129 | the number of rows with that id, which may be 0, or the update error, among others for an email failing `isEmail`; an update giving no attribute reports 0 and writes nothing |
| UsersRepository.FindOrCreateGoogleUser | src/repositories/users/index.ts:51-98 | the result and new table are those of the sign-in specification: Google id first, then email, then create |
| UsersRepository.RefreshProfile | src/repositories/users/index.ts:59-72 | with nothing to fill, the user is returned and nothing is written; otherwise the filled row is written and read back, or the update error when the database refuses writes |
| UsersRepository.LinkGoogle | src/repositories/users/index.ts:75-86 | the email match gets the Google id, the verified flag and the image, and the linked row is read back, or the update error when the database refuses writes |
| UsersRepository.CollectFill | src/repositories/users/index.ts:60-65 | the update holds exactly the empty name and image fields that Google can fill |
| UsersRepository.FillNeverOverwrites | src/repositories/users/index.ts:60-65 | stored non-empty names and images are kept; empty ones take the reported value |
| UsersRepository.LinkedAccount | src/repositories/users/index.ts:78-86 | a linked account has the Google id and is verified, keeping its email and names; the image is the new one or the old |
| UsersRepository.CreatedGoogleUser | src/repositories/users/index.ts:90-97 | a new user is verified and linked, with nulls for missing names and image |
| UsersRepository.RefusedEmailNotCreated | src/repositories/users/index.ts:88-97 | a first sign-in with an email the column validator refuses fails with the create error and writes nothing |
| UsersRepository.SignInFindsUser | src/repositories/users/index.ts:51-98 | after a successful sign-in, the Google id finds the returned user |
| UsersRepository.RepeatedSignInWritesNothing | src/repositories/users/index.ts:67-72 | signing in again with the same profile writes nothing and returns the same user, unless the first sign-in linked an account |
| UsersRepository.LinkDefersNames | src/repositories/users/index.ts:60-86 | a linked account with an empty first name gets Google's only at the next sign-in |
| AuthRepository.FindUserById | src/controllers/auth/repository/index.ts:8-19 | the row, or 404 naming the id |
| AuthRepository.UpdateUser | src/controllers/auth/repository/index.ts:42-54 | the count, or 404 when no row has that id or the update gives no attribute, or the update error (an email failing `isEmail` among the reasons) |
| AuthRepository.UpdateOfMissingIdChangesNothing | src/controllers/auth/repository/index.ts:49-51 | an update of an unknown id writes nothing and gives 404 |
| AuthRepository.FindOrCreateUser | src/controllers/auth/repository/index.ts:59-74 | an existing email: the row is updated and returned as it was before, with false, except that an empty `userData` gives the 404 of `updateUser`; otherwise a new user, with true; the update and create errors (an email failing `isEmail` among the reasons) pass through |
| AuthRepository.ExistingUserReturnedStale | src/controllers/auth/repository/index.ts:63-69 | when the update sets a different first name, the returned user differs from the stored one |
| AppStore.AppTable.FindById | src/services/db/databaseService.ts:20-31 | the row with that id, or 500 `Failed to find record by ID in apps` |
| AppStore.AppTable.FindActive | src/services/db/databaseService.ts:51-61 | exactly the user's active apps, or 500 `Failed to find records in apps` |
| AppStore.AppTable.Create | src/services/db/databaseService.ts:81-92 | the new row appended, or 500 `Failed to create record in apps` when down, nameless, or the id is taken |
| AppStore.AppTable.Update | src/services/db/databaseService.ts:97-109 | only the owner's row changed and the count, or 500 `Failed to update records in apps`; a change giving no attribute reports 0 and writes nothing |
| AppStore.OnlyOwnerRowChanges | src/controllers/app/repository/index.ts:59-68 | only the row with that id changes, and only when the user owns it |
| AppStore.RowByIdAfterUpdate | src/services/db/databaseService.ts:20-109 | after an owner-scoped update, `findById` finds the changed row when the user owns it, and the old row otherwise |
| AppRepository.FindAppById | src/controllers/app/repository/index.ts:8-19 | the row, or 404 naming the id |
| AppRepository.UserAppsContents | src/controllers/app/repository/index.ts:24-36 | the listing holds exactly the user's active apps, newest first |
| AppRepository.FindAppsByUserId | src/controllers/app/repository/index.ts:24-36 | returns that listing, or the read error |
| AppRepository.CreateApp | src/controllers/app/repository/index.ts:41-49 | stores name, description and url with `isActive` true |
| AppRepository.CreatedAppActive | src/controllers/app/repository/index.ts:41-49 | a created app is active and belongs to the caller |
| AppRepository.UpdateApp | src/controllers/app/repository/index.ts:54-71 | edits only the owner's row; 404 when none, and also when the patch gives no field |
| AppRepository.DeactivateApp | src/controllers/app/repository/index.ts:76-89 | deactivates only the owner's row; 404 when none |
| AppRepository.NotOwnerChangesNothing | src/controllers/app/repository/index.ts:59-86 | a 404 from an owner-scoped update means the table is unchanged |
| AppRepository.DeactivatedAppNotListed | src/controllers/app/repository/index.ts:24-89 | a deactivated app drops out of its owner's list |
| AppService.CreateApp | src/controllers/app/service/index.ts:9-30 | 400 for an empty user id or name, before any write; only name, description and url are forwarded; failures rewrapped |
| AppService.CreatedFromOptions | src/controllers/app/service/index.ts:19-23 | a created app carries the caller's name, description and url, and is active |
| AppService.GetUserApps | src/controllers/app/service/index.ts:35-48 | 400 for a missing id; otherwise the repository's listing |
| AppService.UpdateApp | src/controllers/app/service/index.ts:53-71 | 400 for a missing id; the owner's row is edited and the re-read app returned; options giving no field end in the repository's 404 and write nothing |
| AppService.DeactivateApp | src/controllers/app/service/index.ts:76-89 | 400 for a missing id; otherwise the repository's deactivation |
| AppService.GetAppById | src/controllers/app/service/index.ts:94-107 | 400 for a missing id; otherwise the row or 404 |

## Left out

- Network I/O, logging (`console.*`) and the Express plumbing. Requests and responses are values, and `next` is an outcome.
- Concurrency and the atomicity of the rate limiter's `multi().exec()`. Everything is sequential.
- Real clocks, UUID generation and random key generation. They are parameters.
- Real TTL expiry in Redis. TTLs are recorded numbers, and a key never times out in the model.
- Glob character classes and escapes in Redis `KEYS` patterns. Only `*`, `?` and literal characters are modelled.
- Redis 64-bit overflow of `INCRBY`.
- JsSemantics.ParseInt is exact on integers of any size. JavaScript rounds results above 2^53 to the nearest double.
- Column types are not checked: a text that is not a UUID written to a `UUID` column, such as the app name `ApiKeyService.CreateApiKey` stores as `appId`, is accepted. Postgres would refuse it with the create error. Reads are the same: a non-UUID `id` or `userId` given to `findById` or a `where` finds nothing in the model (404, null or an empty list), where Postgres raises the read error (500). `STRING(255)` widths are modelled only for events (`FitsColumns`).
- The rule of validator.js's `isEmail` is not modelled. It is the `isEmail` field of the user table, so an email such as `x` is refused exactly when that field refuses it.
- JSON serialisation, which is identity on values. Fractional numbers are left out; JSON numbers are integers.
- moment's date-string parsing, time zones and daylight saving. Parsing is a function parameter, and days are exactly 86400000 ms.
- Invalid dates (NaN instants).
- express-validator's built-in predicates (`isURL`, `isIP`, `isISO8601`, `isInt`, `isDate`, `isUUID`). They are abstract parameters.
  - `check()` reading a field from every request location is left out; one value per field is modelled.
  - The trim sanitizer is left out.
  - `isLength` counts characters rather than UTF-16 code units.
- AnalyticsValidator.Standard: array-valued fields are checked element by element. This is the library's documented behaviour, not code in this repository.
- Foreign-key constraints and paranoid deletes of the ORM. Unique indexes and not-null columns are modelled.
- `updateLastLogin`, `findAllUsers` and `countUsers` of the users repository. They are not core operations.
- Routes, HTTP controllers, OAuth, JWT, sessions, configuration, type declarations and the app validator. They are wiring over libraries or modelled services.
- Summary and user-stats aggregation. No code in the repository implements it.
- shared/utils/db/databaseService is not part of this model. The controllers' repositories import it; it is taken to behave like src/services/db/databaseService.ts, with one difference: its errors are taken to be instances of the CustomError class of src/shared/utils/customError.ts, the class the controllers' repositories and services import. Under that assumption, each `instanceof CustomError` test in the model meets only errors of its own class, so one CustomError datatype serves both classes.
- ApiKeyRepository.FindApiKeyByKey: the `include` of the key's `user` is dropped, with the attributes it would load. The association is taken to be wired. As the repository stands, src/shared/models/association.ts defines no ApiKey-to-User association named `user`, so Sequelize would refuse the read (a 500).
- ApiKeyControllerRepository.FindApiKeyByAppId: the `include`s of `app` and `user` are dropped, with the attributes they would load. The associations are taken to be wired. As the repository stands, the missing `user` association would make the read fail, and the catch would return null for every app.
- ApiKeyControllerRepository.FindApiKeyByKey: the `include`s of `app` and `user` are dropped, with the attributes they would load. The associations are taken to be wired. As the repository stands, the missing `user` association would make the read fail with the 500. src/shared/models/index.ts also does not export the App model that these includes and association.ts import.
- Tier names inherited from `Object.prototype` (such as `toString`). Only the three configured tiers and unknown names are modelled.
- Header values given as arrays. Headers are single strings.
- `ipRestrictions` values that are not arrays. The column is typed as a list of strings, so only absent, empty and non-empty lists are modelled.
- `NODE_ENV` is read once as a parameter. Reading it at module load and reading it at call time are taken to agree.
- IpHelpers.IpToInt is total rather than restricted to well-formed quads. Malformed strings follow JavaScript's NaN-to-0 rules, and the properties are stated for well-formed quads.

## Findings

| source | as written | input that shows it | evidently intended | confidence | as-written member | corrected member |
|---|---|---|---|---|---|---|
| src/middlewares/rateLimitter/index.ts:30-32 | on rollover only the count is reset, and `windowStart` is written back unchanged (line 65) | a `default`-tier key whose window started at 1000 ms and holds 100 requests; 101 requests at 62001..62101 ms are all admitted | a passed window restarts at `now`, so at most 100 of them are admitted | not executed | RateLimiter.StaleWindowAlwaysAdmits | RateLimiter.CorrectedWindowRestarts |
| src/shared/helper/ipHelpers.ts:17 | the mask `~((1 << (32 - bits)) - 1)` for `/0` shifts by 32, which JavaScript takes as 0, giving an all-ones mask | `isIpInCidr("10.0.0.1", "0.0.0.0/0")` is false, as for any two different addresses | `/0` contains every address | not executed | IpHelpers.ZeroPrefixCounterexample | IpHelpers.CorrectedZeroPrefix |
| src/middlewares/exceptionhandler/index.ts:79-82 | the default branch takes the status from `res.statusCode` (200 becomes 500) and never reads `CustomError.statusCode` | the 401 `API key is required` from the auth middleware is answered with 500 | a CustomError is answered with its own status code | not executed | ExceptionHandler.CustomStatusIgnored | ExceptionHandler.RaisedStatusReachesClient |
| src/controllers/apiKey/services/index.ts:36-49 | `getUserApiKeys` calls `findApiKeysByUserId` on a repository module that does not define it | any non-empty user id: the call throws a TypeError, rewrapped as a 500 | the user's live keys, newest first, as the other repository's listing returns them | not executed | ApiKeyService.GetUserApiKeys | ApiKeyService.CorrectedListsLiveKeys |

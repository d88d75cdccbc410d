/** Event recording (src/controllers/analytics/repositories/index.ts and
    src/controllers/analytics/services/index.ts): the record built from a submitted
    event, its insertion into the `events` table, the service's error wrapping, and
    the exact-match IP allow-list check. */
module AnalyticsEvents {
  import opened JsSemantics
  import opened Errors
  import ApiKeyStore

  /** `model.name` of the Event model: the `modelName` it is initialised with. */
  const MODEL_NAME := "events"
  const RECORD_FAILED := "Failed to record event"
  /** The widths of the `url`/`referrer` columns (`STRING(2048)`) and of plain `STRING` columns. */
  const URL_COLUMN := 2048
  const STRING_COLUMN := 255

  /** An event as submitted. Absent fields are `None`; the client's `timestamp` is
      carried but never stored. */
  datatype AnalyticsEvent = AnalyticsEvent(
    event: string,
    url: string,
    referrer: Option<string>,
    device: Option<string>,
    ipAddress: Option<string>,
    timestamp: Option<string>,
    trackingUserId: Option<string>,
    sessionId: Option<string>,
    pageTitle: Option<string>,
    pageLoadTime: Option<int>,
    metadata: Option<Json>)

  /** One row of `events`. Times are milliseconds. */
  datatype EventRecord = EventRecord(
    id: string,
    apiKeyId: string,
    event: string,
    url: string,
    referrer: Option<string>,
    device: Option<string>,
    ipAddress: Option<string>,
    timestamp: int,
    trackingUserId: Option<string>,
    sessionId: Option<string>,
    pageTitle: Option<string>,
    pageLoadTime: Option<int>,
    metadata: Json,
    createdAt: int,
    updatedAt: int)

  /** `pageLoadTime || null`: 0 is falsy. */
  function NonZeroOrNull(x: Option<int>): (r: Option<int>)
    ensures r.Some? <==> x.Some? && x.value != 0
    ensures r.Some? ==> r == x
  {
    if x.Some? && x.value != 0 then x else None
  }

  /** `metadata || {}`. */
  function MetadataOrEmpty(m: Option<Json>): (r: Json)
    ensures m.Some? && Truthy(m.value) ==> r == m.value
    ensures !(m.Some? && Truthy(m.value)) ==> r == JObj(map[])
  {
    if m.Some? && Truthy(m.value) then m.value else JObj(map[])
  }

  /** The record `createEvent` builds. `loadedAt` is the time the module was loaded: the
      same instant stamps `timestamp`, `createdAt` and `updatedAt` of every event. */
  function NewEvent(id: string, apiKeyId: string, e: AnalyticsEvent, loadedAt: int): (r: EventRecord)
    ensures r.id == id && r.apiKeyId == apiKeyId && r.event == e.event && r.url == e.url
    ensures r.referrer == NonEmptyOrNull(e.referrer) && r.device == NonEmptyOrNull(e.device)
    ensures r.ipAddress == NonEmptyOrNull(e.ipAddress)
    ensures r.trackingUserId == NonEmptyOrNull(e.trackingUserId) && r.sessionId == NonEmptyOrNull(e.sessionId)
    ensures r.pageTitle == NonEmptyOrNull(e.pageTitle)
    ensures r.pageLoadTime == NonZeroOrNull(e.pageLoadTime) && r.metadata == MetadataOrEmpty(e.metadata)
    ensures r.timestamp == loadedAt && r.createdAt == loadedAt && r.updatedAt == loadedAt
  {
    EventRecord(
      id, apiKeyId, e.event, e.url,
      NonEmptyOrNull(e.referrer), NonEmptyOrNull(e.device), NonEmptyOrNull(e.ipAddress),
      loadedAt,
      NonEmptyOrNull(e.trackingUserId), NonEmptyOrNull(e.sessionId), NonEmptyOrNull(e.pageTitle),
      NonZeroOrNull(e.pageLoadTime), MetadataOrEmpty(e.metadata),
      loadedAt, loadedAt)
  }

  /** The client's timestamp never reaches the record. */
  lemma ClientTimestampIgnored(id: string, apiKeyId: string, e: AnalyticsEvent, t: Option<string>, loadedAt: int)
    ensures NewEvent(id, apiKeyId, e.(timestamp := t), loadedAt) == NewEvent(id, apiKeyId, e, loadedAt)
  {
  }

  /** Two events recorded by one loaded module carry the same timestamp, whenever they
      were submitted. */
  lemma SameStampForAll(id1: string, id2: string, k1: string, k2: string, e1: AnalyticsEvent, e2: AnalyticsEvent,
                        loadedAt: int)
    ensures NewEvent(id1, k1, e1, loadedAt).timestamp == NewEvent(id2, k2, e2, loadedAt).timestamp
  {
  }

  /** An event whose optional fields are all present and non-empty is stored as given. */
  lemma FullEventStoredAsGiven(id: string, apiKeyId: string, e: AnalyticsEvent, loadedAt: int)
    requires e.referrer.Some? && e.referrer.value != "" && e.device.Some? && e.device.value != ""
    requires e.ipAddress.Some? && e.ipAddress.value != "" && e.trackingUserId.Some? && e.trackingUserId.value != ""
    requires e.sessionId.Some? && e.sessionId.value != "" && e.pageTitle.Some? && e.pageTitle.value != ""
    requires e.pageLoadTime.Some? && e.pageLoadTime.value != 0
    requires e.metadata.Some? && e.metadata.value.JObj?
    ensures var r := NewEvent(id, apiKeyId, e, loadedAt);
      r.referrer == e.referrer && r.device == e.device && r.ipAddress == e.ipAddress &&
      r.trackingUserId == e.trackingUserId && r.sessionId == e.sessionId && r.pageTitle == e.pageTitle &&
      r.pageLoadTime == e.pageLoadTime && r.metadata == e.metadata.value
  {
  }

  /** An event with only its required fields gets nulls, no load time and empty metadata. */
  lemma BareEventDefaults(id: string, apiKeyId: string, name: string, url: string, loadedAt: int)
    ensures var r := NewEvent(id, apiKeyId, AnalyticsEvent(name, url, None, None, None, None, None, None, None, None, None), loadedAt);
      r.referrer.None? && r.device.None? && r.ipAddress.None? && r.trackingUserId.None? &&
      r.sessionId.None? && r.pageTitle.None? && r.pageLoadTime.None? && r.metadata == JObj(map[])
  {
  }

  predicate FitsString(s: Option<string>)
  {
    s.None? || |s.value| <= STRING_COLUMN
  }

  /** The column widths the database enforces on insert. */
  predicate FitsColumns(r: EventRecord)
  {
    |r.event| <= STRING_COLUMN && |r.url| <= URL_COLUMN &&
    (r.referrer.None? || |r.referrer.value| <= URL_COLUMN) &&
    FitsString(r.device) && FitsString(r.ipAddress) && FitsString(r.trackingUserId) &&
    FitsString(r.sessionId) && FitsString(r.pageTitle)
  }

  /** The `events` table. `writable` stands for the database accepting writes. */
  class EventLog {
    var events: seq<EventRecord>
    var writable: bool
    /** The instant `moment()` was evaluated when the module was loaded. */
    const loadedAt: int

    constructor (loadedAt: int, writable: bool)
      ensures this.events == [] && this.loadedAt == loadedAt && this.writable == writable
    {
      this.events := [];
      this.loadedAt := loadedAt;
      this.writable := writable;
    }

    /** `createEvent`: the new record is appended, unless the database refuses it (down,
        an id clash, or a value wider than its column). */
    method CreateEvent(id: string, apiKeyId: string, e: AnalyticsEvent) returns (r: Result<EventRecord>)
      modifies this
      ensures writable == old(writable)
      ensures var rec := NewEvent(id, apiKeyId, e, loadedAt);
        if old(writable) && FitsColumns(rec) && forall i :: 0 <= i < |old(events)| ==> old(events)[i].id != id
        then r == Ok(rec) && events == old(events) + [rec]
        else r == Fail(Raise("Failed to create record in " + MODEL_NAME, 500)) && events == old(events)
    {
      var rec := NewEvent(id, apiKeyId, e, loadedAt);
      if writable && FitsColumns(rec) && forall i :: 0 <= i < |events| ==> events[i].id != id {
        events := events + [rec];
        r := Ok(rec);
      } else {
        r := Fail(Raise("Failed to create record in " + MODEL_NAME, 500));
      }
    }
  }

  /** `recordEvent`: every failure, whatever it was, becomes the same 500. */
  method RecordEvent(log: EventLog, apiKeyId: string, e: AnalyticsEvent, id: string) returns (r: Result<EventRecord>)
    modifies log
    ensures log.writable == old(log.writable)
    ensures r.Ok? ==> r.value == NewEvent(id, apiKeyId, e, log.loadedAt) && log.events == old(log.events) + [r.value]
    ensures r.Fail? ==> r.error == Raise(RECORD_FAILED, 500) && log.events == old(log.events)
    ensures r.Ok? <==> old(log.writable) && FitsColumns(NewEvent(id, apiKeyId, e, log.loadedAt)) &&
                       forall i :: 0 <= i < |old(log.events)| ==> old(log.events)[i].id != id
  {
    var created := log.CreateEvent(id, apiKeyId, e);
    if created.Fail? {
      return Fail(Raise(RECORD_FAILED, 500));
    }
    r := created;
  }

  /** `isIpAllowed(apiKey, requestIp)`: no list, or an empty one, allows every IP;
      otherwise the IP must be one of the entries, as a string. */
  function IsIpAllowed(key: ApiKeyStore.ApiKey, requestIp: string): (allowed: bool)
    ensures key.ipRestrictions.None? || key.ipRestrictions.value == [] ==> allowed
    ensures key.ipRestrictions.Some? && key.ipRestrictions.value != [] ==>
              (allowed <==> exists i :: 0 <= i < |key.ipRestrictions.value| && key.ipRestrictions.value[i] == requestIp)
  {
    key.ipRestrictions.None? || |key.ipRestrictions.value| == 0 || requestIp in key.ipRestrictions.value
  }

  /** CIDR entries are not interpreted: a list of ranges never admits a plain address,
      even one inside a range. */
  lemma RangesNotInterpreted(key: ApiKeyStore.ApiKey, requestIp: string)
    requires key.ipRestrictions.Some? && key.ipRestrictions.value != []
    requires forall i :: 0 <= i < |key.ipRestrictions.value| ==> '/' in key.ipRestrictions.value[i]
    requires '/' !in requestIp
    ensures !IsIpAllowed(key, requestIp)
  {
    var list := key.ipRestrictions.value;
    forall j | 0 <= j < |list|
      ensures list[j] != requestIp
    {
      SlashDiffers(list[j], requestIp);
    }
  }

  lemma SlashDiffers(entry: string, ip: string)
    requires '/' in entry && '/' !in ip
    ensures entry != ip
  {
  }

  /** Adding an entry never takes an IP off the allow-list, unless the list was
      empty, which allowed everyone. */
  lemma AllowListMonotone(key: ApiKeyStore.ApiKey, requestIp: string, extra: string)
    requires key.ipRestrictions.Some? && key.ipRestrictions.value != [] && IsIpAllowed(key, requestIp)
    ensures IsIpAllowed(key.(ipRestrictions := Some(key.ipRestrictions.value + [extra])), requestIp)
  {
    var i :| 0 <= i < |key.ipRestrictions.value| && key.ipRestrictions.value[i] == requestIp;
    assert (key.ipRestrictions.value + [extra])[i] == requestIp;
  }
}

/** The analytics counters kept in Redis (src/shared/helper/cacheHelper.ts): one set of
    visitor ids per app and day, one counter per app, event type and day, both kept for
    seven days. A date left out is today's `YYYY-MM-DD`, which the caller passes in. */
module CacheHelper {
  import opened JsSemantics
  import opened RedisCache

  /** Seven days, in seconds. */
  const SEVEN_DAYS: int := 86400 * 7

  /** `unique:${appId}:${date}` */
  function UniqueKey(appId: string, date: string): (k: string)
    ensures k == "unique:" + appId + ":" + date
  {
    "unique:" + appId + ":" + date
  }

  /** `count:${appId}:${eventType}:${date}` */
  function CountKey(appId: string, eventType: string, date: string): (k: string)
    ensures k == "count:" + appId + ":" + eventType + ":" + date
  {
    "count:" + appId + ":" + eventType + ":" + date
  }

  /** `trackUniqueVisitor(appId, trackingUserId, date)`: adds the visitor to the day's set
      with a seven-day TTL; a Redis failure is swallowed. */
  method TrackUniqueVisitor(c: CacheStore, appId: string, trackingUserId: string, date: Option<string>, today: string)
    modifies c
    ensures c.available == old(c.available)
    ensures var out := Added(old(c.state), UniqueKey(appId, Keep(date, today)), trackingUserId, Some(SEVEN_DAYS));
      c.state == (if old(c.available) && out.Some? then out.value else old(c.state))
  {
    var _ := c.AddToSet(UniqueKey(appId, Keep(date, today)), trackingUserId, Some(SEVEN_DAYS));
  }

  /** `getUniqueVisitorsCount(appId, date)`: the size of the day's set, 0 on any error. */
  method GetUniqueVisitorsCount(c: CacheStore, appId: string, date: Option<string>, today: string) returns (n: nat)
    ensures var size := Cardinality(c.state, UniqueKey(appId, Keep(date, today)));
      n == (if c.available && size.Some? then size.value else 0)
  {
    n := c.GetSetSize(UniqueKey(appId, Keep(date, today)));
  }

  /** `incrementEventCounter(appId, eventType, count = 1, date)`: the day's new count, with
      a seven-day TTL; 0 on any error. A count left out is 1. */
  method IncrementEventCounter(c: CacheStore, appId: string, eventType: string, count: Option<int>, date: Option<string>,
                               today: string)
    returns (total: int)
    modifies c
    ensures c.available == old(c.available)
    ensures var out := Incremented(old(c.state), CountKey(appId, eventType, Keep(date, today)), Keep(count, 1), Some(SEVEN_DAYS));
      if old(c.available) && out.Some? then total == out.value.0 && c.state == out.value.1
      else total == 0 && c.state == old(c.state)
  {
    total := c.IncrementCounter(CountKey(appId, eventType, Keep(date, today)), Keep(count, 1), Some(SEVEN_DAYS));
  }

  /** Once a visitor is tracked, the day counts at least one visitor, and tracking the
      same visitor again does not change the count. */
  lemma TrackedVisitorCounted(s: Redis, appId: string, visitor: string, date: string)
    requires Added(s, UniqueKey(appId, date), visitor, Some(SEVEN_DAYS)).Some?
    ensures var once := Added(s, UniqueKey(appId, date), visitor, Some(SEVEN_DAYS)).value;
      Cardinality(once, UniqueKey(appId, date)).Some? &&
      Cardinality(once, UniqueKey(appId, date)).value >= 1 &&
      Cardinality(Added(once, UniqueKey(appId, date), visitor, Some(SEVEN_DAYS)).value, UniqueKey(appId, date)) ==
      Cardinality(once, UniqueKey(appId, date))
  {
    AddCountsDistinct(s, UniqueKey(appId, date), visitor, SEVEN_DAYS);
  }

  /** A visitor set and an event counter never share a key. */
  lemma KeyKindsDisjoint(appId: string, date: string, appId2: string, eventType: string, date2: string)
    ensures UniqueKey(appId, date) != CountKey(appId2, eventType, date2)
  {
    assert UniqueKey(appId, date)[0] == 'u';
    assert CountKey(appId2, eventType, date2)[0] == 'c';
  }

  /** Two `:`-free prefixes followed by `:` split a string in one way only. */
  lemma SplitAtColon(a: string, x: string, b: string, y: string)
    requires ':' !in a && ':' !in b
    requires a + ":" + x == b + ":" + y
    ensures a == b && x == y
  {
    var s := a + ":" + x;
    assert forall i :: 0 <= i < |a| ==> s[i] == a[i];
    assert forall i :: 0 <= i < |b| ==> s[i] == b[i];
    assert s[|a|] == ':' && s[|b|] == ':';
    assert a == s[..|a|] && b == s[..|b|];
    assert x == s[|a| + 1..] && y == s[|b| + 1..];
  }

  /** Visitor sets of apps whose ids hold no `:` are kept apart per app and per day. */
  lemma UniqueKeyInjective(appId: string, date: string, appId2: string, date2: string)
    requires ':' !in appId && ':' !in appId2
    requires UniqueKey(appId, date) == UniqueKey(appId2, date2)
    ensures appId == appId2 && date == date2
  {
    var k := UniqueKey(appId, date);
    assert k[7..] == appId + ":" + date;
    assert UniqueKey(appId2, date2)[7..] == appId2 + ":" + date2;
    SplitAtColon(appId, date, appId2, date2);
  }

  /** An app id holding `:` lets two different (app, day) pairs share one visitor set. */
  lemma UniqueKeyCollision()
    ensures UniqueKey("a:b", "c") == UniqueKey("a", "b:c")
  {
  }

  /** Counters of apps and event types that hold no `:` are kept apart per app, event
      type and day. */
  lemma CountKeyInjective(appId: string, eventType: string, date: string, appId2: string, eventType2: string, date2: string)
    requires ':' !in appId && ':' !in appId2 && ':' !in eventType && ':' !in eventType2
    requires CountKey(appId, eventType, date) == CountKey(appId2, eventType2, date2)
    ensures appId == appId2 && eventType == eventType2 && date == date2
  {
    var k := CountKey(appId, eventType, date);
    assert k[6..] == appId + ":" + (eventType + ":" + date);
    assert CountKey(appId2, eventType2, date2)[6..] == appId2 + ":" + (eventType2 + ":" + date2);
    SplitAtColon(appId, eventType + ":" + date, appId2, eventType2 + ":" + date2);
    SplitAtColon(eventType, date, eventType2, date2);
  }
}

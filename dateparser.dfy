/** The date range of the analytics queries (src/shared/helper/dateParser.ts, and its
    copy in src/shared/helper/cacheHelper.ts). Instants are integer milliseconds of
    local time, in days of exactly 86400000 ms; the text of a date is turned into an
    instant by the `parse` parameter, standing for `moment(text)`. */
module DateParser {
  import opened JsSemantics

  const DAY_MS: int := 86400000

  datatype DateRange = DateRange(startDate: int, endDate: int)

  /** `startOf('day')`: midnight of the day holding `t`. */
  function StartOfDay(t: int): (m: int)
    ensures m <= t < m + DAY_MS && m % DAY_MS == 0
  {
    t - t % DAY_MS
  }

  /** `endOf('day')`: the last millisecond of the day holding `t`. */
  function EndOfDay(t: int): (m: int)
    ensures m - DAY_MS < t <= m && m % DAY_MS == DAY_MS - 1
  {
    StartOfDay(t) + DAY_MS - 1
  }

  /** A query parameter counts only when it is a non-empty string. */
  predicate Given(d: Option<string>)
  {
    d.Some? && d.value != ""
  }

  /** `parseDateRange(startDate, endDate)`: the end is the end of the given day, or of
      today; the start is the start of the given day, or of the day seven days before
      the end. */
  function ParseDateRange(startDate: Option<string>, endDate: Option<string>, now: int, parse: string -> int): (r: DateRange)
    ensures r.startDate % DAY_MS == 0 && r.endDate % DAY_MS == DAY_MS - 1
    ensures r.endDate == EndOfDay(if Given(endDate) then parse(endDate.value) else now)
    ensures Given(startDate) ==> r.startDate == StartOfDay(parse(startDate.value))
    ensures !Given(startDate) ==> r.startDate == StartOfDay(r.endDate - 7 * DAY_MS)
  {
    var end := if Given(endDate) then EndOfDay(parse(endDate.value)) else EndOfDay(now);
    var start := if Given(startDate) then StartOfDay(parse(startDate.value)) else StartOfDay(end - 7 * DAY_MS);
    DateRange(start, end)
  }

  /** Days are aligned: an instant in the same day has the same midnight. */
  lemma StartOfDayIdempotent(t: int)
    ensures StartOfDay(StartOfDay(t)) == StartOfDay(t)
    ensures StartOfDay(EndOfDay(t)) == StartOfDay(t)
  {
  }

  /** Without a start, the range covers the end day and the seven days before it:
      eight whole days. */
  lemma DefaultRangeEightDays(startDate: Option<string>, endDate: Option<string>, now: int, parse: string -> int)
    requires !Given(startDate)
    ensures var r := ParseDateRange(startDate, endDate, now, parse);
      r.endDate - r.startDate + 1 == 8 * DAY_MS
  {
    var r := ParseDateRange(startDate, endDate, now, parse);
    var t := if Given(endDate) then parse(endDate.value) else now;
    assert r.endDate == StartOfDay(t) + DAY_MS - 1;
    assert r.endDate - 7 * DAY_MS == StartOfDay(t) - 7 * DAY_MS + (DAY_MS - 1);
    SameDay(StartOfDay(t) - 7 * DAY_MS, DAY_MS - 1);
  }

  /** Any offset within a day keeps to that day's midnight. */
  lemma SameDay(m: int, off: int)
    requires m % DAY_MS == 0 && 0 <= off < DAY_MS
    ensures StartOfDay(m + off) == m
  {
    assert (m + off) % DAY_MS == off;
  }

  /** With no dates at all, today lies inside the range. */
  lemma DefaultRangeHoldsNow(now: int, parse: string -> int)
    ensures var r := ParseDateRange(None, None, now, parse);
      r.startDate <= now <= r.endDate
  {
    DefaultRangeEightDays(None, None, now, parse);
  }

  /** The range is not reordered: a start day after the end day gives a range whose
      start lies after its end. */
  lemma InvertedRangeKept(startDate: string, endDate: string, now: int, parse: string -> int)
    requires startDate != "" && endDate != ""
    requires StartOfDay(parse(startDate)) > StartOfDay(parse(endDate))
    ensures var r := ParseDateRange(Some(startDate), Some(endDate), now, parse);
      r.startDate > r.endDate
  {
    var s := StartOfDay(parse(startDate));
    var e := StartOfDay(parse(endDate));
    assert s >= e + DAY_MS by {
      assert (s - e) % DAY_MS == 0;
    }
  }
}

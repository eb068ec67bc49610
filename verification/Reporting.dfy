// Reports by day: the overview series of a date range, and the daily roll-up of
// reporting events.

module Reporting {
  import opened Prelude

  const DAY_MS: int := 86_400_000

  /** Midnight-to-midnight days in UTC, counted from the epoch. */
  function DayOf(at: int): int {
    at / DAY_MS
  }

  // ---- Ranges ----

  datatype Query = Query(since: Option<string>, until: Option<string>, timezoneOffset: int)

  datatype Range = Range(since: int, until: int, timezoneOffset: int)

  /** `parseDay` reads a calendar date; None stands for an invalid one. */
  function ToRange(q: Query, parseDay: string -> Option<int>, now: int): Option<Range> {
    var until := if q.until.None? then Some(now)
                 else match parseDay(q.until.value) case None => None case Some(d) => Some(d * DAY_MS + 86_399_999);
    if until.None? then None
    else if q.since.None? then Some(Range(until.value - 30 * DAY_MS, until.value, q.timezoneOffset))
    else
      match parseDay(q.since.value)
      case None => None
      case Some(d) => Some(Range(d * DAY_MS, until.value, q.timezoneOffset))
  }

  /** A start date begins at its midnight and an end date ends with its last millisecond; without an
      end date the range ends now, without a start date it begins thirty days before its end. */
  lemma RangeMeaning(q: Query, parseDay: string -> Option<int>, now: int)
    ensures var r := ToRange(q, parseDay, now);
            && (r.None? <==> (q.until.Some? && parseDay(q.until.value).None?)
                             || (q.since.Some? && parseDay(q.since.value).None?))
            && (r.Some? && q.until.None? ==> r.value.until == now)
            && (r.Some? && q.until.Some? ==> r.value.until == (parseDay(q.until.value).value + 1) * 86_400_000 - 1)
            && (r.Some? && q.since.None? ==> r.value.until - r.value.since == 30 * 86_400_000)
            && (r.Some? && q.since.Some? ==> r.value.since == parseDay(q.since.value).value * 86_400_000)
            && (r.Some? ==> r.value.timezoneOffset == q.timezoneOffset)
  {
  }

  // ---- Counting by day ----

  function CountDay(times: seq<int>, day: int): nat {
    if times == [] then 0 else (if DayOf(times[0]) == day then 1 else 0) + CountDay(times[1..], day)
  }

  function CountDays(times: seq<int>, first: int, n: nat): nat {
    if times == [] then 0
    else (if first <= DayOf(times[0]) < first + n then 1 else 0) + CountDays(times[1..], first, n)
  }

  function SumDays(times: seq<int>, first: int, n: nat): nat {
    if n == 0 then 0 else SumDays(times, first, n - 1) + CountDay(times, first + n - 1)
  }

  lemma {:induction false} SumDaysCons(times: seq<int>, first: int, n: nat)
    requires times != []
    ensures SumDays(times, first, n)
         == (if first <= DayOf(times[0]) < first + n then 1 else 0) + SumDays(times[1..], first, n)
  {
    if n > 0 {
      SumDaysCons(times, first, n - 1);
    }
  }

  lemma {:induction false} NothingToSum(first: int, n: nat)
    ensures SumDays([], first, n) == 0
  {
    if n > 0 {
      NothingToSum(first, n - 1);
    }
  }

  /** Days partition time: the daily counts of consecutive days add up to the count of all. */
  lemma {:induction false} DaysPartition(times: seq<int>, first: int, n: nat)
    ensures SumDays(times, first, n) == CountDays(times, first, n)
    decreases |times|
  {
    if times == [] {
      NothingToSum(first, n);
    } else {
      SumDaysCons(times, first, n);
      DaysPartition(times[1..], first, n);
    }
  }

  // ---- Overview ----

  predicate InRange(r: Range, at: int) {
    r.since <= at <= r.until
  }

  /** The rows the query selects, at the times it groups them by. */
  function Selected(rows: seq<int>, r: Range): seq<int> {
    if rows == [] then []
    else (if InRange(r, rows[0]) then [rows[0] + r.timezoneOffset * 60_000] else []) + Selected(rows[1..], r)
  }

  datatype Point = Point(day: int, conversations: nat, resolutions: nat)

  /** How many days the series lists: from the day of `since`, up to `until`, 366 at most. */
  function ListedDays(r: Range): nat {
    var first := DayOf(r.since);
    if DayOf(r.until) < first then 0
    else if DayOf(r.until) - first >= 366 then 366
    else DayOf(r.until) - first + 1
  }

  function Series(conversations: seq<int>, resolutions: seq<int>, r: Range, n: nat): seq<Point> {
    seq(n, k requires 0 <= k < n =>
      var day := DayOf(r.since) + k;
      Point(day, CountDay(Selected(conversations, r), day), CountDay(Selected(resolutions, r), day)))
  }

  method GetOverview(conversations: seq<int>, resolutions: seq<int>, r: Range) returns (days: seq<Point>)
    ensures days == Series(conversations, resolutions, r, ListedDays(r))
  {
    days := [];
    var byDate, resByDate := Selected(conversations, r), Selected(resolutions, r);
    var cursor := DayOf(r.since) * DAY_MS;
    while cursor <= r.until && |days| < 366
      invariant cursor == (DayOf(r.since) + |days|) * DAY_MS
      invariant |days| <= ListedDays(r)
      invariant days == Series(conversations, resolutions, r, |days|)
      decreases 366 - |days|
    {
      var day := DayOf(cursor);
      days := days + [Point(day, CountDay(byDate, day), CountDay(resByDate, day))];
      cursor := cursor + DAY_MS;
    }
  }

  /** The series lists a day, counted from the first, iff it is among 366 and begins in the range. */
  lemma ListedIff(r: Range, k: nat)
    ensures k < ListedDays(r) <==> k < 366 && (r.since / 86_400_000 + k) * 86_400_000 <= r.until
  {
  }

  function SumConversations(points: seq<Point>): nat {
    if points == [] then 0
    else SumConversations(points[..|points| - 1]) + points[|points| - 1].conversations
  }

  function SumResolutions(points: seq<Point>): nat {
    if points == [] then 0
    else SumResolutions(points[..|points| - 1]) + points[|points| - 1].resolutions
  }

  lemma {:induction false} SeriesSums(conversations: seq<int>, resolutions: seq<int>, r: Range, n: nat)
    ensures SumConversations(Series(conversations, resolutions, r, n))
         == SumDays(Selected(conversations, r), DayOf(r.since), n)
    ensures SumResolutions(Series(conversations, resolutions, r, n))
         == SumDays(Selected(resolutions, r), DayOf(r.since), n)
  {
    if n > 0 {
      SeriesSums(conversations, resolutions, r, n - 1);
      var points := Series(conversations, resolutions, r, n);
      assert points[..n - 1] == Series(conversations, resolutions, r, n - 1);
    }
  }

  /** Every instant of the range, shifted by the offset, falls on a listed day. */
  predicate Covered(r: Range) {
    var shift := r.timezoneOffset * 60_000;
    r.since <= r.until ==>
      DayOf(r.since) <= DayOf(r.since + shift) && DayOf(r.until + shift) < DayOf(r.since) + ListedDays(r)
  }

  lemma {:induction false} AllListed(rows: seq<int>, r: Range)
    requires Covered(r)
    ensures CountDays(Selected(rows, r), DayOf(r.since), ListedDays(r)) == |Selected(rows, r)|
  {
    if rows != [] {
      AllListed(rows[1..], r);
      if InRange(r, rows[0]) {
        assert Selected(rows, r)[1..] == Selected(rows[1..], r);
      } else {
        assert Selected(rows, r) == Selected(rows[1..], r);
      }
    }
  }

  ghost predicate Complete(r: Range) {
    forall conversations, resolutions ::
      var points := Series(conversations, resolutions, r, ListedDays(r));
      && SumConversations(points) == |Selected(conversations, r)|
      && SumResolutions(points) == |Selected(resolutions, r)|
  }

  /** The series of a range accounts for every row in the range, whatever the rows are,
      exactly when the listed days cover the shifted range. */
  lemma OverviewCompleteIff(r: Range)
    ensures Complete(r) <==> Covered(r)
  {
    var first, n := DayOf(r.since), ListedDays(r);
    if Covered(r) {
      forall conversations, resolutions
        ensures var points := Series(conversations, resolutions, r, n);
                && SumConversations(points) == |Selected(conversations, r)|
                && SumResolutions(points) == |Selected(resolutions, r)|
      {
        SeriesSums(conversations, resolutions, r, n);
        DaysPartition(Selected(conversations, r), first, n);
        DaysPartition(Selected(resolutions, r), first, n);
        AllListed(conversations, r);
        AllListed(resolutions, r);
      }
    } else {
      var at := if DayOf(r.since) <= DayOf(r.since + r.timezoneOffset * 60_000) then r.until else r.since;
      SeriesSums([at], [], r, n);
      DaysPartition(Selected([at], r), first, n);
      assert Selected([at], r) == [at + r.timezoneOffset * 60_000];
      var points := Series([at], [], r, n);
      assert SumConversations(points) != |Selected([at], r)|;
    }
  }

  /** With calendar dates for both ends, that is when the offset is zero and the range
      touches at most 366 days. */
  lemma DatesComplete(q: Query, parseDay: string -> Option<int>, now: int, first: int, last: int)
    requires q.since.Some? && parseDay(q.since.value) == Some(first)
    requires q.until.Some? && parseDay(q.until.value) == Some(last) && first <= last
    ensures var r := ToRange(q, parseDay, now);
            r.Some? && (Complete(r.value) <==> q.timezoneOffset == 0 && last - first < 366)
  {
    OverviewCompleteIff(ToRange(q, parseDay, now).value);
  }

  /** Without a start date the range is thirty days, which the series always covers when
      the offset is zero. */
  lemma DefaultComplete(q: Query, parseDay: string -> Option<int>, now: int)
    requires q.since.None? && q.timezoneOffset == 0 && ToRange(q, parseDay, now).Some?
    ensures Complete(ToRange(q, parseDay, now).value)
  {
    OverviewCompleteIff(ToRange(q, parseDay, now).value);
  }

  // ---- Daily roll-up ----

  datatype Event = Event(account: int, name: Option<string>, value: real, at: int)

  datatype Key = Key(account: int, day: int, metric: string)

  datatype Rollup = Rollup(count: nat, sum: real)

  /** From midnight to the last millisecond of the day. */
  predicate InWindow(day: int, at: int) {
    day * DAY_MS <= at <= day * DAY_MS + 86_399_999
  }

  /** Every millisecond lies in exactly one daily window. */
  lemma WindowsPartition(day: int, at: int)
    ensures InWindow(day, at) <==> day == DayOf(at)
  {
  }

  predicate Counts(e: Event, key: Key) {
    e.account == key.account && e.name == Some(key.metric) && InWindow(key.day, e.at)
  }

  function Total(events: seq<Event>, key: Key): Rollup {
    if events == [] then Rollup(0, 0.0)
    else
      var rest := Total(events[1..], key);
      if Counts(events[0], key) then Rollup(rest.count + 1, rest.sum + events[0].value) else rest
  }

  /** The named groups that the query returns for a day; unnamed ones are skipped. */
  function Metrics(events: seq<Event>, account: int, day: int): set<string> {
    set e | e in events && e.account == account && InWindow(day, e.at) && e.name.GetOr("") != "" :: e.name.value
  }

  type Table = map<Key, Rollup>

  function Upserted(table: Table, events: seq<Event>, account: int, day: int, metrics: set<string>): Table {
    table + map m | m in metrics :: Key(account, day, m) := Total(events, Key(account, day, m))
  }

  function RollupDay(table: Table, events: seq<Event>, account: int, day: int): Table {
    Upserted(table, events, account, day, Metrics(events, account, day))
  }

  /** The table after rolling up a list of days, in any order and with repetitions. */
  function RollupDays(table: Table, events: seq<Event>, account: int, days: seq<int>): Table {
    if days == [] then table
    else RollupDay(RollupDays(table, events, account, days[..|days| - 1]), events, account, days[|days| - 1])
  }

  lemma {:induction false} MetricCounted(events: seq<Event>, key: Key)
    requires key.metric != ""
    ensures key.metric in Metrics(events, key.account, key.day) <==> Total(events, key).count > 0
  {
    if events != [] {
      MetricCounted(events[1..], key);
      var tail := Metrics(events[1..], key.account, key.day);
      assert tail <= Metrics(events, key.account, key.day) by {
        assert forall e | e in events[1..] :: e in events;
      }
      if Counts(events[0], key) {
        assert events[0] in events;
      } else if key.metric in Metrics(events, key.account, key.day) {
        var e :| e in events && e.account == key.account && InWindow(key.day, e.at) && e.name == Some(key.metric);
        assert e in events[1..];
      }
    }
  }

  lemma RollupDayLookup(table: Table, events: seq<Event>, account: int, day: int, key: Key)
    ensures var after := RollupDay(table, events, account, day);
            if key.account == account && key.day == day && key.metric != "" && Total(events, key).count > 0
            then key in after && after[key] == Total(events, key)
            else (key in after <==> key in table) && (key in table ==> after[key] == table[key])
  {
    if key.metric != "" {
      MetricCounted(events, key);
    }
  }

  /** After rolling up any list of days, each row of a listed day that has events is the total
      of that day's events, and every other row is as it was. */
  lemma {:induction false} RollupExact(table: Table, events: seq<Event>, account: int, days: seq<int>, key: Key)
    ensures var after := RollupDays(table, events, account, days);
            if key.account == account && key.day in days && key.metric != "" && Total(events, key).count > 0
            then key in after && after[key] == Total(events, key)
            else (key in after <==> key in table) && (key in table ==> after[key] == table[key])
  {
    if days != [] {
      var init, last := days[..|days| - 1], days[|days| - 1];
      RollupExact(table, events, account, init, key);
      RollupDayLookup(RollupDays(table, events, account, init), events, account, last, key);
      assert days == init + [last];
    }
  }

  /** Rolling up a day again, at any later point, on the same events changes nothing. */
  lemma RollupIdempotent(table: Table, events: seq<Event>, account: int, days: seq<int>, day: int)
    requires day in days
    ensures RollupDays(table, events, account, days + [day]) == RollupDays(table, events, account, days)
  {
    var once, again := RollupDays(table, events, account, days), RollupDays(table, events, account, days + [day]);
    forall key ensures (key in once <==> key in again) && (key in once ==> once[key] == again[key]) {
      RollupExact(table, events, account, days, key);
      RollupExact(table, events, account, days + [day], key);
    }
    assert once.Keys == again.Keys;
  }

  // ---- The roll-up conserves events ----

  function TimesOf(events: seq<Event>, account: int, metric: string): seq<int> {
    if events == [] then []
    else
      (if events[0].account == account && events[0].name == Some(metric) then [events[0].at] else [])
      + TimesOf(events[1..], account, metric)
  }

  lemma {:induction false} TotalIsCountDay(events: seq<Event>, key: Key)
    ensures Total(events, key).count == CountDay(TimesOf(events, key.account, key.metric), key.day)
  {
    if events != [] {
      TotalIsCountDay(events[1..], key);
      WindowsPartition(key.day, events[0].at);
      var times, rest := TimesOf(events, key.account, key.metric), TimesOf(events[1..], key.account, key.metric);
      if events[0].account == key.account && events[0].name == Some(key.metric) {
        assert times[1..] == rest;
      } else {
        assert times == rest;
      }
    }
  }

  function SumRollups(table: Table, account: int, metric: string, first: int, n: nat): nat {
    if n == 0 then 0
    else
      var key := Key(account, first + n - 1, metric);
      SumRollups(table, account, metric, first, n - 1) + if key in table then table[key].count else 0
  }

  /** Once consecutive days have been rolled up from an empty table, their counts add up to
      the number of events from the first midnight to the last, none lost or counted twice. */
  lemma {:induction false} RollupConserves(
    events: seq<Event>, account: int, days: seq<int>, metric: string, first: int, n: nat)
    requires metric != "" && forall d | first <= d < first + n :: d in days
    ensures SumRollups(RollupDays(map[], events, account, days), account, metric, first, n)
         == CountDays(TimesOf(events, account, metric), first, n)
  {
    DaysPartition(TimesOf(events, account, metric), first, n);
    if n > 0 {
      RollupConserves(events, account, days, metric, first, n - 1);
      DaysPartition(TimesOf(events, account, metric), first, n - 1);
      var key := Key(account, first + n - 1, metric);
      RollupExact(map[], events, account, days, key);
      TotalIsCountDay(events, key);
    }
  }

  /** The values of the events of an account and metric between two midnights. */
  function ValuesBetween(events: seq<Event>, account: int, metric: string, first: int, n: nat): real {
    if events == [] then 0.0
    else
      var e := events[0];
      ValuesBetween(events[1..], account, metric, first, n)
      + if e.account == account && e.name == Some(metric) && first * 86_400_000 <= e.at < (first + n) * 86_400_000
        then e.value else 0.0
  }

  lemma {:induction false} ValuesOfDay(events: seq<Event>, key: Key)
    ensures Total(events, key).sum == ValuesBetween(events, key.account, key.metric, key.day, 1)
    ensures Total(events, key).count == 0 ==> Total(events, key).sum == 0.0
  {
    if events != [] {
      ValuesOfDay(events[1..], key);
    }
  }

  lemma {:induction false} ValuesAdd(events: seq<Event>, account: int, metric: string, first: int, n: nat)
    ensures ValuesBetween(events, account, metric, first, n + 1)
         == ValuesBetween(events, account, metric, first, n) + ValuesBetween(events, account, metric, first + n, 1)
    ensures ValuesBetween(events, account, metric, first, 0) == 0.0
  {
    if events != [] {
      ValuesAdd(events[1..], account, metric, first, n);
    }
  }

  function SumValues(table: Table, account: int, metric: string, first: int, n: nat): real {
    if n == 0 then 0.0
    else
      var key := Key(account, first + n - 1, metric);
      SumValues(table, account, metric, first, n - 1) + if key in table then table[key].sum else 0.0
  }

  /** ... and so do their sums to the values of these events. */
  lemma {:induction false} ValuesConserved(
    events: seq<Event>, account: int, days: seq<int>, metric: string, first: int, n: nat)
    requires metric != "" && forall d | first <= d < first + n :: d in days
    ensures SumValues(RollupDays(map[], events, account, days), account, metric, first, n)
         == ValuesBetween(events, account, metric, first, n)
  {
    if n == 0 {
      ValuesAdd(events, account, metric, first, 0);
    } else {
      ValuesConserved(events, account, days, metric, first, n - 1);
      ValuesAdd(events, account, metric, first, n - 1);
      var key := Key(account, first + n - 1, metric);
      RollupExact(map[], events, account, days, key);
      ValuesOfDay(events, key);
    }
  }

  lemma UpsertedOne(table: Table, events: seq<Event>, account: int, day: int, metrics: set<string>, metric: string)
    ensures Upserted(table, events, account, day, metrics + {metric})
         == Upserted(table, events, account, day, metrics)
              [Key(account, day, metric) := Total(events, Key(account, day, metric))]
  {
  }

  lemma Yesterday(now: int)
    ensures DayOf(now - 24 * 3_600_000) == DayOf(now) - 1
  {
  }

  class RollupStore {
    var rollups: Table

    constructor ()
      ensures rollups == map[]
    {
      rollups := map[];
    }

    method Rollup(events: seq<Event>, account: int, day: int)
      modifies this
      ensures rollups == RollupDay(old(rollups), events, account, day)
    {
      var todo := Metrics(events, account, day);
      ghost var done: set<string> := {};
      while todo != {}
        invariant todo + done == Metrics(events, account, day) && todo !! done
        invariant rollups == Upserted(old(rollups), events, account, day, done)
        decreases |todo|
      {
        var metric :| metric in todo;
        var key := Key(account, day, metric);
        UpsertedOne(old(rollups), events, account, day, done, metric);
        rollups := rollups[key := Total(events, key)];
        todo := todo - {metric};
        done := done + {metric};
      }
      assert done == Metrics(events, account, day);
    }

    /** The scheduled run: yesterday, as the clock stands. */
    method RunRollupOnce(events: seq<Event>, account: int, now: int)
      modifies this
      ensures rollups == RollupDay(old(rollups), events, account, DayOf(now) - 1)
    {
      Yesterday(now);
      var yesterday := DayOf(now - 24 * 3_600_000);
      Rollup(events, account, yesterday);
    }
  }
}

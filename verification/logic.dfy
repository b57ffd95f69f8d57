/**
 * The calendar resolution engine of `src/logic.py`: look up one date in a
 * year's daily records, decide whether a date is a workday, and list the
 * next holidays from today across the current and the following year.
 *
 * The network fetch of a year's records is the parameter `fetch`; an empty
 * sequence stands for a failed fetch. The clock is the pair of parameters
 * `currentYear` and `today` (`today` formatted as `YYYYMMDD`). Every call
 * of `fetch` goes through `FetchLogged`, which appends the year it asks for
 * to a ghost log; each operation returns that log as `fetched`.
 */
module Logic {
  import opened Wrappers
  import opened Text

  // ---------------------------------------------------------------------
  // Data
  // ---------------------------------------------------------------------

  /**
   * One day of the calendar feed. `date` is always present; the other keys
   * may be missing from the JSON object, hence `Option`.
   */
  datatype Record = Record(
    date: string,
    isHoliday: Option<bool>,
    description: Option<string>,
    week: Option<string>)

  /** `fetch_calendar_data`: a year's records, `[]` when the fetch failed. */
  type Fetcher = int -> seq<Record>

  const InvalidFormatMessage: string := "Invalid date format. Use YYYYMMDD or YYYY-MM-DD"
  const NoDataStatus: string := "No specific data found (might be regular day)"
  const RegularDayReason: string := "Regular Day"
  /** The number of holidays `get_upcoming_holidays` lists when no limit is given. */
  const DefaultLimit: int := 5

  /**
   * `fetch_calendar_data(year)`, recorded: the records `fetch` gives for
   * `year`, and the log of years asked for so far extended by `year`.
   */
  method FetchLogged(fetch: Fetcher, year: int, ghost log: seq<int>) returns (data: seq<Record>, ghost log': seq<int>)
    ensures data == fetch(year)
    ensures log' == log + [year]
  {
    data := fetch(year);
    log' := log + [year];
  }

  /** The three dictionary shapes `get_date_info` returns. */
  datatype DateInfo =
    | InvalidFormat(error: string)
    | Found(date: string, isHoliday: bool, description: string, week: string, raw: Record)
    | NoData(date: string, status: string)

  /** The two dictionary shapes `is_workday` returns. */
  datatype WorkdayInfo =
    | WorkdayError(error: string)
    | Workday(date: string, isWorkday: bool, reason: string)

  /** One entry of `get_upcoming_holidays`; a key missing from the record stays missing (`None`). */
  datatype HolidayItem = HolidayItem(date: string, description: Option<string>, week: Option<string>)

  // ---------------------------------------------------------------------
  // get_date_info
  // ---------------------------------------------------------------------

  /**
   * What `int(clean_date[:4])` needs in order not to raise: when the
   * normalised date has 8 characters, its first four are decimal digits.
   */
  predicate YearReadable(dateStr: string)
  {
    var clean := StripDashes(dateStr);
    |clean| == 8 ==> AllDigits(clean[..4])
  }

  /** The year a normalised date names: the value of its first four characters. */
  function YearOf(clean: string): (year: nat)
    requires |clean| >= 4 && AllDigits(clean[..4])
    ensures year < 10000
  {
    DigitsValue(clean[..4])
  }

  /** `k` is the position of the first record of `data` dated `d`. */
  predicate IsFirstMatch(data: seq<Record>, d: string, k: int)
  {
    0 <= k < |data| && data[k].date == d && forall j :: 0 <= j < k ==> data[j].date != d
  }

  /** `info` reports record `day` for the normalised date `clean`, with the defaults of `.get`. */
  predicate Describes(info: DateInfo, clean: string, day: Record)
  {
    && info.Found?
    && info.date == clean
    && info.isHoliday == day.isHoliday.GetOr(false)
    && info.description == day.description.GetOr("")
    && info.week == day.week.GetOr("")
    && info.raw == day
  }

  /**
   * `get_date_info`: an input that is not 8 characters long once its `-`
   * are removed is rejected before anything is fetched; otherwise the year
   * of its first four characters is fetched and the first record with the
   * normalised date is reported, or "no data" when there is none.
   */
  method GetDateInfo(dateStr: string, fetch: Fetcher) returns (info: DateInfo, ghost fetched: seq<int>)
    requires YearReadable(dateStr)
    ensures fetched == if |StripDashes(dateStr)| == 8 then [YearOf(StripDashes(dateStr))] else []
    ensures |StripDashes(dateStr)| != 8 ==> info == InvalidFormat(InvalidFormatMessage)
    ensures |StripDashes(dateStr)| == 8 ==>
      var clean := StripDashes(dateStr);
      var data := fetch(YearOf(clean));
      && (info.Found? || info.NoData?)
      && (info.NoData? <==> forall k :: 0 <= k < |data| ==> data[k].date != clean)
      && (info.NoData? ==> info == NoData(clean, NoDataStatus))
      && (info.Found? ==> exists k :: IsFirstMatch(data, clean, k) && Describes(info, clean, data[k]))
  {
    fetched := [];
    var clean := StripDashes(dateStr);
    if |clean| != 8 {
      return InvalidFormat(InvalidFormatMessage), fetched;
    }
    var year := YearOf(clean);
    var data;
    data, fetched := FetchLogged(fetch, year, fetched);
    var i := 0;
    while i < |data|
      invariant 0 <= i <= |data|
      invariant forall j :: 0 <= j < i ==> data[j].date != clean
    {
      var day := data[i];
      if day.date == clean {
        info := Found(clean, day.isHoliday.GetOr(false), day.description.GetOr(""), day.week.GetOr(""), day);
        assert IsFirstMatch(data, clean, i) && Describes(info, clean, data[i]);
        return;
      }
      i := i + 1;
    }
    info := NoData(clean, NoDataStatus);
  }

  // ---------------------------------------------------------------------
  // is_workday
  // ---------------------------------------------------------------------

  /**
   * `is_workday`: the error of `GetDateInfo` is passed through unchanged.
   * Otherwise the day is a workday exactly when the found record is not
   * flagged a holiday, and the reason is that record's description (even
   * an empty one, even on a workday). A date with no record reads as a
   * workday with reason "Regular Day".
   */
  method IsWorkday(dateStr: string, fetch: Fetcher) returns (r: WorkdayInfo, ghost fetched: seq<int>)
    requires YearReadable(dateStr)
    ensures fetched == if |StripDashes(dateStr)| == 8 then [YearOf(StripDashes(dateStr))] else []
    ensures |StripDashes(dateStr)| != 8 ==> r == WorkdayError(InvalidFormatMessage)
    ensures |StripDashes(dateStr)| == 8 ==>
      var clean := StripDashes(dateStr);
      var data := fetch(YearOf(clean));
      && r.Workday?
      && r.date == clean
      && ((forall k :: 0 <= k < |data| ==> data[k].date != clean) ==> r.isWorkday && r.reason == RegularDayReason)
      && (forall k :: IsFirstMatch(data, clean, k) ==>
            r.isWorkday == !data[k].isHoliday.GetOr(false) && r.reason == data[k].description.GetOr(""))
  {
    var info;
    info, fetched := GetDateInfo(dateStr, fetch);
    if info.InvalidFormat? {
      return WorkdayError(info.error), fetched;
    }
    // info.get("is_holiday", False) and info.get("description", "Regular Day")
    var isHoliday := if info.Found? then info.isHoliday else false;
    var reason := if info.Found? then info.description else RegularDayReason;
    r := Workday(info.date, !isHoliday, reason);
    ghost var clean := StripDashes(dateStr);
    ghost var data := fetch(YearOf(clean));
    forall k | IsFirstMatch(data, clean, k)
      ensures r.isWorkday == !data[k].isHoliday.GetOr(false) && r.reason == data[k].description.GetOr("")
    {
      var k' :| IsFirstMatch(data, clean, k') && Describes(info, clean, data[k']);
      FirstMatchUnique(data, clean, k, k');
    }
  }

  /** There is only one first match. */
  lemma FirstMatchUnique(data: seq<Record>, d: string, k1: int, k2: int)
    requires IsFirstMatch(data, d, k1) && IsFirstMatch(data, d, k2)
    ensures k1 == k2
  {
  }

  // ---------------------------------------------------------------------
  // get_upcoming_holidays
  // ---------------------------------------------------------------------

  /** `day.get("date") >= today_str and day.get("isHoliday") is True` */
  predicate Qualifies(day: Record, today: string)
    ensures Qualifies(day, today) ==> day.isHoliday.GetOr(false) && LexLe(today, day.date)
    ensures day.isHoliday.None? ==> !Qualifies(day, today)
  {
    LexLe(today, day.date) && day.isHoliday == Some(true)
  }

  /**
   * For fixed-width `YYYYMMDD` strings the string test `date >= today` is
   * the date test: a qualifying record is dated today or later.
   */
  lemma QualifiesOnOrAfterToday(day: Record, today: string)
    requires Qualifies(day, today)
    requires |today| == |day.date| && AllDigits(today) && AllDigits(day.date)
    ensures DigitsValue(today) <= DigitsValue(day.date)
  {
    LexLeMatchesNumericOrder(today, day.date);
  }

  /** The records of `data` that qualify, in the order of `data`. */
  function Qualifying(data: seq<Record>, today: string): (q: seq<Record>)
    ensures |q| <= |data|
    ensures forall k :: 0 <= k < |q| ==> Qualifies(q[k], today)
  {
    if data == [] then []
    else
      var init := Qualifying(data[..|data| - 1], today);
      var last := data[|data| - 1];
      if Qualifies(last, today) then init + [last] else init
  }

  /** The entry appended for a qualifying record. */
  function ItemOf(day: Record): HolidayItem
  {
    HolidayItem(day.date, day.description, day.week)
  }

  function Items(days: seq<Record>): seq<HolidayItem>
  {
    seq(|days|, k requires 0 <= k < |days| => ItemOf(days[k]))
  }

  /**
   * How many entries the loop collects at most: it checks the length only
   * after an append, so a limit of zero or less still lets one through.
   */
  function EffectiveLimit(limit: int): (n: nat)
    ensures n >= 1 && n >= limit
    ensures limit >= 1 ==> n == limit
  {
    if limit >= 1 then limit else 1
  }

  function Min(a: nat, b: nat): nat
  {
    if a <= b then a else b
  }

  /** The specification of `get_upcoming_holidays` on the concatenated records. */
  function UpcomingHolidays(data: seq<Record>, today: string, limit: int): (r: seq<HolidayItem>)
    ensures |r| <= EffectiveLimit(limit) && |r| <= |data|
  {
    var q := Qualifying(data, today);
    Items(q[..Min(EffectiveLimit(limit), |q|)])
  }

  /**
   * `get_upcoming_holidays`: fetch this year and next year, scan the
   * concatenation and collect the qualifying records until `limit` have
   * been collected; `limit` is `DefaultLimit` when the caller gives none.
   */
  method GetUpcomingHolidays(fetch: Fetcher, currentYear: int, today: string, limit: int := DefaultLimit)
    returns (holidays: seq<HolidayItem>, ghost fetched: seq<int>)
    ensures fetched == [currentYear, currentYear + 1]
    ensures holidays == UpcomingHolidays(fetch(currentYear) + fetch(currentYear + 1), today, limit)
  {
    var data, next;
    data, fetched := FetchLogged(fetch, currentYear, []);
    next, fetched := FetchLogged(fetch, currentYear + 1, fetched);
    data := data + next;
    holidays := [];
    var i := 0;
    while i < |data|
      invariant 0 <= i <= |data|
      invariant holidays == Items(Qualifying(data[..i], today))
      invariant |holidays| < EffectiveLimit(limit)
    {
      var day := data[i];
      assert data[..i + 1][..i] == data[..i];
      if Qualifies(day, today) {
        ItemsAppend(Qualifying(data[..i], today), day);
        holidays := holidays + [ItemOf(day)];
        if |holidays| >= limit {
          QualifyingPrefix(data, i + 1, today);
          assert |Qualifying(data[..i + 1], today)| == EffectiveLimit(limit);
          assert holidays == UpcomingHolidays(data, today, limit);
          break;
        }
      }
      i := i + 1;
    }
    if i == |data| {
      assert data[..i] == data;
      ghost var q := Qualifying(data, today);
      assert q[..|q|] == q;
    }
  }

  lemma ItemsAppend(days: seq<Record>, day: Record)
    ensures Items(days + [day]) == Items(days) + [ItemOf(day)]
  {
  }

  // ---------------------------------------------------------------------
  // Properties of the filtered scan
  // ---------------------------------------------------------------------

  /** Filtering works piecewise: this year's qualifying records, then next year's. */
  lemma {:induction false} QualifyingAppend(a: seq<Record>, b: seq<Record>, today: string)
    ensures Qualifying(a + b, today) == Qualifying(a, today) + Qualifying(b, today)
  {
    if b == [] {
      assert a + b == a;
    } else {
      var b' := b[..|b| - 1];
      assert (a + b)[..|a + b| - 1] == a + b';
      assert (a + b)[|a + b| - 1] == b[|b| - 1];
      QualifyingAppend(a, b', today);
    }
  }

  /** Scanning a prefix of the records yields a prefix of the qualifying records. */
  lemma QualifyingPrefix(data: seq<Record>, n: nat, today: string)
    requires n <= |data|
    ensures |Qualifying(data[..n], today)| <= |Qualifying(data, today)|
    ensures Qualifying(data, today)[..|Qualifying(data[..n], today)|] == Qualifying(data[..n], today)
  {
    QualifyingAppend(data[..n], data[n..], today);
    assert data[..n] + data[n..] == data;
  }

  /**
   * Where each qualifying record comes from: strictly increasing positions
   * in `data`, and every qualifying position among them.
   */
  lemma {:induction false} QualifyingPositions(data: seq<Record>, today: string) returns (pos: seq<nat>)
    ensures |pos| == |Qualifying(data, today)|
    ensures forall k :: 0 <= k < |pos| ==> pos[k] < |data| && Qualifying(data, today)[k] == data[pos[k]]
    ensures forall k, l :: 0 <= k < l < |pos| ==> pos[k] < pos[l]
    ensures forall j :: 0 <= j < |data| && Qualifies(data[j], today) ==> j in pos
  {
    if data == [] {
      pos := [];
    } else {
      var n := |data| - 1;
      var init := data[..n];
      var q0 := Qualifying(init, today);
      var pos0 := QualifyingPositions(init, today);
      forall k | 0 <= k < |pos0|
        ensures q0[k] == data[pos0[k]]
      {
        assert init[pos0[k]] == data[pos0[k]];
      }
      forall j | 0 <= j < n && Qualifies(data[j], today)
        ensures j in pos0
      {
        assert init[j] == data[j];
      }
      if Qualifies(data[n], today) {
        pos := pos0 + [n];
        assert Qualifying(data, today) == q0 + [data[n]];
      } else {
        pos := pos0;
        assert Qualifying(data, today) == q0;
      }
    }
  }

  /**
   * The result of `get_upcoming_holidays` lists qualifying records of the
   * concatenated data, in their order there, and skips none that precede
   * the last one listed: it is the first `|r|` qualifying records.
   */
  lemma UpcomingHolidaysProvenance(data: seq<Record>, today: string, limit: int) returns (pos: seq<nat>)
    ensures var r := UpcomingHolidays(data, today, limit);
      && |pos| == |r|
      && (forall k :: 0 <= k < |pos| ==>
            pos[k] < |data| && Qualifies(data[pos[k]], today) && r[k] == ItemOf(data[pos[k]]))
      && (forall k, l :: 0 <= k < l < |pos| ==> pos[k] < pos[l])
      && (forall j :: 0 <= j < |data| && Qualifies(data[j], today) && |pos| > 0 && j <= pos[|pos| - 1] ==> j in pos)
  {
    var q := Qualifying(data, today);
    var all := QualifyingPositions(data, today);
    var n := Min(EffectiveLimit(limit), |q|);
    pos := all[..n];
    forall j | 0 <= j < |data| && Qualifies(data[j], today) && |pos| > 0 && j <= pos[|pos| - 1]
      ensures j in pos
    {
      var k :| 0 <= k < |all| && all[k] == j;
      assert k < n;
    }
  }

  /** Never more than `limit` entries for a positive limit, never more than one otherwise; fewer only when the holidays run out. */
  lemma UpcomingHolidaysCount(data: seq<Record>, today: string, limit: int)
    ensures var r := UpcomingHolidays(data, today, limit);
      && (limit >= 1 ==> |r| <= limit)
      && (limit <= 0 ==> |r| <= 1)
      && (|r| < EffectiveLimit(limit) ==> r == Items(Qualifying(data, today)))
  {
    var q := Qualifying(data, today);
    if |q| < EffectiveLimit(limit) {
      assert q[..|q|] == q;
    }
  }

  /** As written, a limit of zero or less still returns the first qualifying holiday, if there is one. */
  lemma NonPositiveLimitReturnsFirst(data: seq<Record>, today: string, limit: int)
    requires limit <= 0
    ensures var q := Qualifying(data, today);
      UpcomingHolidays(data, today, limit) == if q == [] then [] else [ItemOf(q[0])]
  {
  }

  /** A smaller positive limit returns a prefix of what a larger one returns. */
  lemma UpcomingHolidaysLimitPrefix(data: seq<Record>, today: string, small: int, large: int)
    requires 1 <= small <= large
    ensures var rs, rl := UpcomingHolidays(data, today, small), UpcomingHolidays(data, today, large);
      |rs| <= |rl| && rs == rl[..|rs|]
  {
  }

  /** Dates in non-decreasing order, as the feed delivers them. */
  predicate DatesSorted(data: seq<Record>)
  {
    forall i, j :: 0 <= i < j < |data| ==> LexLe(data[i].date, data[j].date)
  }

  predicate ItemDatesSorted(items: seq<HolidayItem>)
  {
    forall i, j :: 0 <= i < j < |items| ==> LexLe(items[i].date, items[j].date)
  }

  /** Date-ordered input gives date-ordered holidays, none before today. */
  lemma UpcomingHolidaysSorted(data: seq<Record>, today: string, limit: int)
    requires DatesSorted(data)
    ensures var r := UpcomingHolidays(data, today, limit);
      && ItemDatesSorted(r)
      && forall k :: 0 <= k < |r| ==> LexLe(today, r[k].date)
  {
    var pos := UpcomingHolidaysProvenance(data, today, limit);
  }

  /**
   * Across the year boundary: when nothing in the current year qualifies
   * (every holiday in it is already past), the holidays come from the next
   * year's records.
   */
  lemma UpcomingHolidaysFromNextYear(current: seq<Record>, next: seq<Record>, today: string, limit: int)
    requires forall k :: 0 <= k < |current| ==> !Qualifies(current[k], today)
    ensures UpcomingHolidays(current + next, today, limit) == UpcomingHolidays(next, today, limit)
  {
    QualifyingAppend(current, next, today);
    QualifyingNone(current, today);
  }

  /** Nothing qualifies, nothing is listed. */
  lemma {:induction false} QualifyingNone(data: seq<Record>, today: string)
    requires forall k :: 0 <= k < |data| ==> !Qualifies(data[k], today)
    ensures Qualifying(data, today) == []
  {
    if data != [] {
      var init := data[..|data| - 1];
      assert forall k :: 0 <= k < |init| ==> init[k] == data[k];
      QualifyingNone(init, today);
    }
  }
}

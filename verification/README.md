# Taiwan calendar resolution engine, in Dafny

A model of the calendar engine of `mcp-tw-calendar` (`src/logic.py`), with
proofs of what its three operations return:

- `get_date_info` (`Logic.GetDateInfo`): removes every `-` from the date,
  rejects anything that is not then 8 characters long, fetches the year named
  by the first four characters and reports the first record with that date,
  or a "no data" answer.
- `is_workday` (`Logic.IsWorkday`): passes the format error through, and
  otherwise negates the holiday flag of what `get_date_info` found.
- `get_upcoming_holidays` (`Logic.GetUpcomingHolidays`): concatenates this
  year's and next year's records and collects, in order, the holidays dated
  today or later until `limit` have been collected.

Layout:

- `wrappers.dfy` — `Option`, whose `GetOr` is Python's `dict.get(key, default)`.
- `text.dfy` — removing `-` separators, Python's ordering of `str` values
  written out by hand (Dafny's `<` on sequences is the proper-prefix relation),
  and the value of a string of decimal digits.
- `logic.dfy` — the daily record, the result shapes, the three operations as
  methods (the date lookup and the holiday scan with their loops, the workday
  check as a call of the date lookup), the specification of the holiday scan,
  and its lemmas.

The network fetch `fetch_calendar_data` is the parameter `fetch: int ->
seq<Record>`; the empty sequence stands for a failed fetch. The clock
(`datetime.now()`) is the pair of parameters `currentYear` and `today`, the
latter already formatted as `YYYYMMDD`. Every call of `fetch` goes through
`Logic.FetchLogged`, which appends the year it asks for to a ghost log; each
operation returns that log as `fetched`, so that "no fetch happens" and "this
year is fetched" are stated in its contract. The log is kept by that
convention: Dafny does not forbid a direct call of `fetch` that bypasses it.
When no limit is given, `get_upcoming_holidays` lists `Logic.DefaultLimit`
(5) holidays, as a default parameter value.

Three behaviours of the code a caller may not expect, which the model keeps:

- `is_workday` does not propagate "no data", although `get_date_info` says
  for a date without a record that it is "safest to say 'No Data'"
  (src/logic.py:48-49): such a date is reported as a workday with reason
  `"Regular Day"`.
- The reason given by `is_workday` is the record's description whenever a
  record is found, also on workdays and also when it is empty; it is not
  "regular day" for every workday.
- `get_upcoming_holidays` with a limit of zero or less returns the first
  qualifying holiday, when there is one, not an empty list: the length check
  follows the append (`Logic.NonPositiveLimitReturnsFirst`).

## Model

| member | source | states |
|---|---|---|
| `Text.StripDashes` | src/logic.py:30 | the normalised date contains no `-` and is no longer than the input |
| `Text.StripDashesAppend` | src/logic.py:30 | normalisation works piecewise, so the remaining characters keep their order |
| `Text.StripDashesNoDash` | src/logic.py:30-31 | an input without `-` (the `YYYYMMDD` form) is left exactly as it is |
| `Text.StripDashesIdempotent` | src/logic.py:30 | normalising a normalised date changes nothing |
| `Text.StripDashesKeepsOthers` | src/logic.py:30 | every character other than `-` occurs as often after normalisation as before |
| `Text.DashedDateNormalizes` | src/logic.py:27-32 | the `YYYY-MM-DD` form normalises to `YYYYMMDD` |
| `Text.LexLe` | src/logic.py:66 | Python's `<=` on `str`; a prefix sorts before any extension of it |
| `Text.LexLeReflexive` | src/logic.py:66 | the string order used for `date >= today` is reflexive |
| `Text.LexLeAntisymmetric` | src/logic.py:66 | the string order is antisymmetric |
| `Text.LexLeTransitive` | src/logic.py:66 | the string order is transitive |
| `Text.LexLeTotal` | src/logic.py:66 | any two strings are comparable |
| `Text.DigitsValue` | src/logic.py:34 | the value of `k` decimal digits is below `10^k` |
| `Text.LexLeMatchesNumericOrder` | src/logic.py:63-66 | on digit strings of equal length (fixed-width `YYYYMMDD`) the string order is the numeric order, in both directions |
| `Logic.YearOf` | src/logic.py:34 | the year read from the first four digits is below 10000 |
| `Wrappers.Option.GetOr` | src/logic.py:42-44 | `.get(key, default)`: the value when the key is present, the default when it is missing (also lines 85 and 92) |
| `Logic.FetchLogged` | src/logic.py:11-23 | the records `fetch_calendar_data` gives for the year, with that year appended to the log of fetched years |
| `Logic.GetDateInfo` | src/logic.py:29-49 | a length other than 8 after removing `-` gives exactly the format error and fetches nothing; otherwise exactly the year of the first four characters is fetched, the answer is "no data" (with the fixed status) exactly when no record has the normalised date, and a found answer carries the normalised date, the FIRST matching record as `raw`, and its flag, description and weekday with defaults `false`, `""`, `""` |
| `Logic.IsWorkday` | src/logic.py:81-93 | the format error passes through unchanged with no fetch; otherwise the normalised date is reported, the day is a workday exactly when the first matching record is not flagged a holiday (flag defaulting to false), the reason is that record's description (defaulting to `""`), and with no matching record the day is a workday with reason "Regular Day" |
| `Logic.Qualifies` | src/logic.py:66 | a qualifying record is flagged a holiday and dated today or later; one without an `isHoliday` key never qualifies |
| `Logic.QualifiesOnOrAfterToday` | src/logic.py:63-66 | on 8-digit dates, a qualifying record's date is numerically today or later |
| `Logic.ItemOf` | src/logic.py:67-71 | the entry listed for a holiday: its date, description and weekday, a missing key staying missing |
| `Logic.EffectiveLimit` | src/logic.py:67-73 | the most entries the loop collects: the limit when it is positive, one otherwise |
| `Logic.UpcomingHolidays` | src/logic.py:62-75 | the closed form of the scan: the first `min(max(limit, 1), n)` of the `n` qualifying records, never more entries than the effective limit or than records |
| `Logic.Qualifying` | src/logic.py:65-66 | every record kept is dated today or later and flagged a holiday, and there are no more of them than records |
| `Logic.GetUpcomingHolidays` | src/logic.py:51-75 | `limit` defaults to 5; this year and next year are fetched, and the result is the first `min(max(limit, 1), n)` of the `n` qualifying records of their concatenation, each as date, description and weekday |
| `Logic.QualifyingAppend` | src/logic.py:59-60 | the qualifying records of this year followed by next year are this year's followed by next year's |
| `Logic.QualifyingPrefix` | src/logic.py:65-73 | stopping the scan early yields a prefix of all qualifying records |
| `Logic.QualifyingPositions` | src/logic.py:65-71 | each qualifying record sits at a position of the input, the positions strictly increase, and every qualifying position is among them |
| `Logic.QualifyingNone` | src/logic.py:65-66 | when no record qualifies, nothing is listed |
| `Logic.UpcomingHolidaysProvenance` | src/logic.py:62-75 | every listed holiday is a qualifying record of the concatenated data, listed in input order, and no qualifying record before the last listed one is skipped |
| `Logic.UpcomingHolidaysCount` | src/logic.py:72-75 | at most `limit` entries for a positive limit, at most one otherwise, and fewer than that only when every qualifying record is listed |
| `Logic.NonPositiveLimitReturnsFirst` | src/logic.py:66-73 | with a limit of zero or less the result is the first qualifying holiday alone, or empty when there is none |
| `Logic.UpcomingHolidaysLimitPrefix` | src/logic.py:72-73 | a smaller positive limit returns a prefix of what a larger one returns |
| `Logic.UpcomingHolidaysSorted` | src/logic.py:65-71 | date-ordered records give date-ordered holidays, all dated today or later |
| `Logic.UpcomingHolidaysFromNextYear` | src/logic.py:58-60 | when nothing in the current year qualifies, the holidays are those of next year's records |

## Left out

- The HTTP request of `fetch_calendar_data` (URL, 10-second timeout, status check, JSON decoding, logging to stderr) is the parameter `fetch`; every failure is its empty result.
- `datetime.now()` and `strftime("%Y%m%d")` are the parameters `currentYear` and `today`.
- Logic.GetDateInfo: requires that an 8-character normalised date starts with four ASCII digits; the `ValueError` that `int()` raises otherwise is not modelled, nor the other prefixes `int()` accepts (a sign, surrounding whitespace, underscores, non-ASCII digits).
- Logic.IsWorkday: requires the same as `Logic.GetDateInfo`, for the same reason.
- A record without a `date` key (whose comparison with `today` raises `TypeError`) is not modelled: `date` is a mandatory field.
- JSON values of other types than the schema's (a non-boolean `isHoliday`, an explicit `null` description) are not modelled: an optional field is either absent or of its schema type, so Python truthiness and `is True` coincide.
- Keys of a record beyond `date`, `isHoliday`, `description` and `week` are not modelled; `raw` carries the modelled record.
- `src/server.py` (tool registration, argument parsing, transport selection) is not part of this model.

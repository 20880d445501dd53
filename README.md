# verkada-alerts: the site reconciliation pass, in Dafny

`main.py` of verkada-alerts compares two data sources. The first is the live state of
every site on the Verkada camera platform ("armed", "disarmed", ...). The second is a
spreadsheet of store opening hours. For each site, the program:

1. reads the Cinglepoint ID out of the site's name (the text between the first `~` and the next one, white space stripped);
2. finds the store's first schedule row with that ID;
3. gets the store's time zone from the row's market;
4. gets the day's opening and closing times from the weekday's two columns, parsing them
   with `strptime(..., "%I:%M %p")`.

It prints whether to send an alert. The rule (line 131): the store's local time lies
strictly between opening and closing time, and the site is armed. Sites it cannot resolve
go on a skip list, which is printed at the end.

The model has five modules:

- **PyText** (`pytext.dfy`): the Python string built-ins the ID lookup needs.
  - `str.split` with a one-character separator.
  - `str.strip()` with Python's full white-space set.
  - `int()` in base 10: sign, ASCII digits, single underscores, and Python's default
    limit of 4300 digits per conversion.
  - `str(n)`, as the formatting that `int()` inverts.
- **Clock** (`clock.dfy`):
  - times of day, as microseconds since midnight;
  - the 12-hour readings the format names;
  - `strptime(s, "%I:%M %p").time()` as CPython's `_strptime` implements it:
    - hour `1[0-2]|0[1-9]|[1-9]`;
    - minute `[0-5]\d|\d`;
    - the format's space matches one or more white-space characters;
    - `AM`/`PM` in any case;
    - the whole text must be consumed.
- **Resolvers** (`resolvers.dfy`): `get_cinglepointid`, `market_to_timezone` and
  `get_open_close_columns`.
- **Reconcile** (`reconcile.dfy`): `site_validation`.
  - `Judge` gives one site's fate: skipped (and why), a decision, or an uncaught exception.
  - `Pass` is the report of a whole pass, built from the verdicts in site order.
  - `CheckSite` is the loop body for one site, step by step, with an early return where
    the source has `continue`. It is proved to compute `Judge`.
  - `SiteValidation` is the loop itself. It is proved to produce `Pass`.
- **Scenarios** (`scenarios.dfy`): worked cases. A Bay Area store is open 9 AM to 9 PM and
  checked at 2 PM and 10 PM. The cases include skipped sites, refused time texts and a
  two-site pass.

What the program prints is returned as values:

- a `Decision` per evaluated site (name, ID, state, zone, opening and closing values,
  local time, alert);
- the skipped names, in order.

The local time is a parameter: `localTime(zone)` stands for
`validation_time.astimezone(ZoneInfo(zone)).time()`.

The exceptions the program does not catch form the `Crash` verdict. There are three:

- an ID with no schedule row (`iat[0, 0]` on an empty selection raises `IndexError`);
- a day that is no weekday name, at the unpacking on line 114;
- a comparison on line 131 that meets a value that is not a time.

`SiteValidation` requires that no site crashes (`NoCrash`). `CrashCauses` states exactly
when a site crashes.

A site whose name carries the ID `-1` (`"Store~-1"`) is skipped like a site with no ID.
The program uses `-1` as its "no ID" value. The model keeps this behaviour (`Sentinel`).

## Model

| member | source | states |
|---|---|---|
| PyText.StripLeft | main.py:68 | the result is a suffix of the input; everything dropped is white space; the result does not start with white space |
| PyText.StripRight | main.py:68 | the result is a prefix of the input; everything dropped is white space; the result does not end with white space |
| PyText.Strip | main.py:68 | the stripped text neither starts nor ends with white space |
| PyText.StripPadded | main.py:68 | `strip()` removes exactly the white-space padding around a text that has no white space at its ends |
| PyText.Split | main.py:68 | `split` gives at least one piece; no piece holds the separator; joining the pieces gives back the input; there is one piece exactly when the separator is absent |
| PyText.SplitSecond | main.py:68 | piece 1 of `prefix ~ segment suffix` is `segment` when `suffix` is empty or starts with `~` |
| PyText.DigitCountAllDigits | main.py:68 | a string of digits only counts one digit per character, so leading zeros count toward the limit |
| PyText.ParseInt | main.py:68 | an accepted text has no white space at its ends; a leading `-` gives a value of at most 0, otherwise the value is at least 0 |
| PyText.ParseIntDigitLimit | main.py:68 | an optional sign and a digit run parse exactly when the run has at most 4300 digits, and then give the run's value with the sign applied |
| PyText.ParseIntAccepted | main.py:68 | every text `int()` accepts is an optional sign followed by a digit run of at most 4300 digits, and its value is the run's value with the sign applied; with `ParseIntDigitLimit`, `int()` accepts exactly these texts |
| PyText.ParseIntRejects | main.py:68 | a text that is not an optional sign followed by a digit run of at most 4300 digits makes `int()` raise `ValueError` |
| PyText.DigitsSnoc | main.py:68 | a digit appended to a run multiplies its value by ten and adds the digit and counts one more digit; an underscore changes neither |
| PyText.FormatIntRoundTrip | main.py:68 | `int(str(n)) == n` for every integer of at most 4300 digits |
| Clock.TimeAt | main.py:117-118 | the time at h:m:s.us lies in minute `60h + m` of the day |
| Clock.Hour24 | main.py:117-118 | the 24-hour hour is below 24; it is at least 12 exactly for PM; it agrees with the 12-hour hour modulo 12 (12 AM is 0, 12 PM is 12) |
| Clock.MinuteOfDay | main.py:117-118 | a reading names a minute below 1440 |
| Clock.ReadingAtMinuteOfDay | main.py:117-118 | a reading is recovered from its minute of the day |
| Clock.MinuteOfDayReadingAt | main.py:117-118 | a minute of the day is recovered from its reading, so the two form a bijection |
| Clock.TimeOfReading | main.py:117-118 | a parsed time falls on a whole minute, the reading's minute of the day |
| Clock.TimeOfReadingOrder | main.py:117-118 | one time is earlier than another exactly when it is AM against PM, or else has the earlier hour (12 first), or else the earlier minute |
| Clock.HourField | main.py:117-118 | an accepted hour field is 1..12 |
| Clock.MinuteField | main.py:117-118 | an accepted minute field is below 60 |
| Clock.MarkerField | main.py:117-118 | an accepted `%p` field is two characters ending in `m` or `M` |
| Clock.Cut | main.py:117-118 | a text with `:` is cut into hour, minute digits, white space and marker that rejoin to it; a text without `:` gives `None` |
| Clock.CutAssembled | main.py:117-118 | cutting a text assembled from well-shaped pieces gives those pieces back |
| Clock.ParseReading | main.py:117-118 | an accepted text gives a valid reading |
| Clock.ParseTime | main.py:117-118 | an accepted text gives a time on a whole minute |
| Clock.ParseFormatted | main.py:117-118 | every text of the form `%I:%M %p` (padded or unpadded hour and minute, any white-space gap, any marker case) is read back as the reading it shows |
| Clock.ParsedIsFormatted | main.py:117-118 | every text `strptime` accepts has one of those forms, for the reading found |
| Resolvers.GetCinglepointId | main.py:66-73 | a name without `~` gives `-1` (the `IndexError` path) |
| Resolvers.CinglepointIdOf | main.py:66-73 | `prefix~ n suffix` gives `n`, whatever white space surrounds `n`, when `suffix` is empty or starts another `~`-segment and `n` has at most 4300 digits |
| Resolvers.CinglepointIdOfRun | main.py:66-73 | any integer literal `int()` takes in the second `~`-segment (sign, leading zeros, underscores, surrounding white space) gives its signed value |
| Resolvers.CinglepointIdTooLong | main.py:66-73 | a second segment of more than 4300 digits, leading zeros included, gives `-1` (the `ValueError` of `int()`) |
| Resolvers.SecondSegment | main.py:68 | there is a second `~`-segment exactly when the name has a `~` |
| Resolvers.CinglepointIdMalformed | main.py:68-72 | a name with a second segment that, once stripped, is not an optional sign followed by a digit run of at most 4300 digits gives `-1` (the `ValueError` path) |
| Resolvers.CinglepointIdRead | main.py:66-73 | any ID other than `-1` comes from a name with a `~` whose stripped second segment is an optional sign followed by a digit run of at most 4300 digits, and the ID is that run's signed value |
| Resolvers.MarketToTimezone | main.py:40-63 | the zone is non-empty exactly for the ten known markets; each of the four zones is returned for exactly its markets; unknown markets give `''` |
| Resolvers.OpenCloseColumns | main.py:76-91 | there are columns exactly for the seven weekday names; day `i` (Monday = 0) has columns `4 + 2i` and `5 + 2i` |
| Resolvers.ColumnsOfDistinctDays | main.py:76-91 | later days use later columns; every day's closing column follows its opening one; all columns lie between 4 and 17 |
| Reconcile.FirstMatch | main.py:106-107 | the row found has the ID and no earlier row has it; `None` exactly when no row has it |
| Reconcile.MarketZone | main.py:107-108 | the zone is non-empty exactly when the market cell is the text of a known market |
| Reconcile.StrptimeCell | main.py:117-122 | a cell that is not text raises `TypeError`; a text raises `ValueError` exactly when it breaks the format; otherwise it gives the time the text names |
| Reconcile.Window | main.py:116-124 | the site is skipped exactly when the opening text is malformed, or the opening text is well-formed and the closing text is malformed; two texts become the parsed times; once a cell is not text, both raw cells are kept |
| Reconcile.AlertCondition | main.py:131 | the alert is raised exactly when both values are times, the local time lies strictly between them and the site is armed; the comparison fails exactly when the opening value is not a time, or the local time is after a time-valued opening and the closing value is not a time |
| Reconcile.ColumnsInRow | main.py:114 | a weekday's columns lie inside the 18 columns every row has |
| Reconcile.Judge | main.py:98-131 | one site's fate; what it means is stated by `DecisionMeaning`, `DecisionTimes`, `SkipReasons` and `CrashCauses` |
| Reconcile.CheckSite | main.py:98-131 | the loop body, step by step with its early exits, computes the site's verdict `Judge` |
| Reconcile.SiteValidation | main.py:95-133 | the loop, with its `continue`s, produces exactly the report of the pass: the skipped names and the decisions |
| Reconcile.DecisionMeaning | main.py:98-131 | a decision carries its site's name and state, the ID read from the name (not `-1`), the zone of the first matching row's known market, and the local time in that zone; it alerts exactly inside the strict open window of an armed site; the opening or closing time itself never alerts |
| Reconcile.DecisionTimes | main.py:116-124 | a decision compares the parsed times when both cells are texts, and the raw cells otherwise (what `Window` keeps) |
| Reconcile.SkipReasons | main.py:98-121 | a site is skipped for its name exactly when its ID is `-1`; for its market exactly when the row's market is unknown; for its times exactly when `strptime` raises `ValueError` |
| Reconcile.CrashCauses | main.py:106-131 | the pass stops when an ID has no row, and when a known market meets a non-weekday; for a site with a row on a weekday, it stops exactly when the market is known, the times are not skipped and the comparison meets a non-time |
| Reconcile.CollectSizes | main.py:96-133 | each site adds exactly one entry to the report |
| Reconcile.CollectPrefix | main.py:96-133 | the report of the first sites is a prefix of the report of all of them |
| Reconcile.CollectPlacement | main.py:96-133 | site `i`'s entry comes right after the entries of the sites before it, on exactly one of the two lists |
| Reconcile.CollectSkipsFromSites | main.py:100-121 | every skipped name is the name of a skipped site |
| Reconcile.CollectDecisionsFromSites | main.py:126-131 | every decision is the decision made for some site |
| Reconcile.VerdictsPrefix | main.py:96-98 | the verdicts of the first sites are the first verdicts |
| Reconcile.Pass | main.py:95-133 | skipped names plus decisions number the sites; where each site's entry goes and what it holds is stated by `PassPlacement`, `PassSkips` and `PassDecisions` |
| Reconcile.PassPlacement | main.py:96-133 | a skipped site's name, or an evaluated site's decision, is at the position after the entries of the sites before it |
| Reconcile.PassSkips | main.py:100-133 | every name on the printed skip list belongs to a site the pass skipped |
| Reconcile.PassDecisions | main.py:98-131 | every decision of the pass has an ID read from its name, one of the four zones, the local time of that zone, and alerts exactly inside the strict window of an armed site |
| Scenarios.StoreId | main.py:66-73 | `"Store~101"` has ID 101 |
| Scenarios.LiteralId | main.py:66-73 | `Store~` followed by any integer literal `int()` takes gives that literal's signed value |
| Scenarios.LeadingZerosId | main.py:66-73 | `"Store~007"` has ID 7 |
| Scenarios.PlusSignId | main.py:66-73 | `"Store~+5"` has ID 5 |
| Scenarios.UnderscoreId | main.py:66-73 | `"Store~1_000"` has ID 1000 |
| Scenarios.NotIntegers | main.py:68-72 | `int()` refuses `"1.5"`, `"0x1F"`, `"1e3"`, `"1__0"`, `""` and `"-"` |
| Scenarios.SegmentRefused | main.py:66-73 | a second segment that `int()` refuses gives `-1` |
| Scenarios.NonIntegerIdSkipped | main.py:66-73 | `"Store~1.5"`, `"Store~0x1F"`, `"Store~1e3"` and `"Store~1__0"` give `-1` |
| Scenarios.NineAm | main.py:117-118 | `"9:00 AM"` is 09:00 |
| Scenarios.NinePm | main.py:117-118 | `"9:00 PM"` is 21:00 |
| Scenarios.HourRejected | main.py:117-121 | a text whose part before the first `:` is not an hour from 1 to 12 is refused |
| Scenarios.TwentyFiveRejected | main.py:117-121 | `"25:00 AM"` is refused |
| Scenarios.ZeroRejected | main.py:117-121 | `"0:30 AM"` is refused |
| Scenarios.ThirteenRejected | main.py:117-121 | `"13:00 PM"` is refused |
| Scenarios.ArmedStoreDuringHoursAlerts | main.py:95-131 | an armed Bay Area store open 9 AM to 9 PM alerts at 2 PM Pacific time |
| Scenarios.DisarmedStoreDuringHoursIsQuiet | main.py:131 | the same store, disarmed, does not alert |
| Scenarios.ArmedStoreAfterHoursIsQuiet | main.py:131 | the armed store does not alert at 10 PM |
| Scenarios.StoredTimesAreKept | main.py:122-124 | hours stored as times of day are compared as they are |
| Scenarios.NamelessKioskSkipped | main.py:98-102 | `"Kiosk A"` is skipped for its name |
| Scenarios.UnknownMarketSkipped | main.py:107-112 | a `"TXAUS Market"` row is skipped for its market |
| Scenarios.BadOpeningTextSkipped | main.py:116-121 | an opening time of `"25:00 AM"` skips the site |
| Scenarios.StoreAndKioskPass | main.py:95-133 | a pass over the store and the kiosk prints the store's alerting decision and skips the kiosk |

## Left out

- `get_site_status` and `get_schedule_file` (lines 13-37) are not modelled. They make HTTP and SharePoint calls; their results are the parameters `sites` and `table`. The `End Date` filter at line 37 belongs to the reader and is not modelled.
- The `__main__` block (main.py:137-151) is not modelled. It reads the configuration, the clock and the weekday, so these are parameters: `day`, and the local-time function `localTime`.
- The time-zone conversion `validation_time.astimezone(ZoneInfo(zone)).time()` is the parameter `localTime`. Time-zone rules are not modelled.
- The printed lines are not modelled as text. Their content is returned as `Decision` values and the skip list. Line 129 prints `validation_time.time()`, the same for every site; it is left out.
- Reconcile.SiteValidation: does not model the run that stops at an uncaught exception. It requires `NoCrash`, and `CrashCauses` says when such a run stops.
- Reconcile.WellFormedTable: a schedule table with fewer than 18 columns is a precondition, not an error path. The spreadsheet's layout is fixed.
- The `Cinglepoint ID` column is modelled as an integer per row. Missing IDs (NaN) and float IDs are not modelled.
- PyText.ParseInt: the digit limit is Python's default of 4300 (`sys.int_info.default_max_str_digits`). A limit changed through `PYTHONINTMAXSTRDIGITS` or `sys.set_int_max_str_digits` is not modelled.
- PyText.ParseInt and Clock's `\d` accept ASCII digits only. Python also accepts other Unicode decimal digits; they are not modelled.
- A site record without `site_name` or `site_state` (a `KeyError`) is not modelled. `Site` always has both fields.

A market cell that holds no text (a number, a blank) is `Other`; it matches no market, as in the source. Spreadsheet cells that hold a full date and time, a number or a blank are `Other` too. Comparing the local time with any of them raises `TypeError`, and the model counts that as `Crash`.

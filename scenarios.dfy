/** Worked cases of the pass: one store in the Bay Area market, open 9 AM to 9 PM on
    Wednesdays, checked at 2 PM and 10 PM local time, together with the sites the pass
    skips and the texts `strptime` turns away. */
module Scenarios {
  import opened PyText
  import opened Clock
  import opened Resolvers
  import opened Reconcile

  // ------------------------------------------------------------ the pieces

  // Each fact about a literal text is a lemma of its own that takes the text as a
  // parameter and pins it down in its `requires` (`requires s == "9:00 AM"`). Where a
  // literal stands in a larger proof, the solver keeps unfolding the string functions
  // applied to it; behind a parameter, the larger proofs only combine these facts.

  /** The schedule row of site 101: market in column 0, Wednesday's times in columns 8 and 9. */
  function StoreRow(market: string, open: Cell, close: Cell): (row: ScheduleRow)
    ensures |row.cells| == RowWidth && row.id == 101 && row.cells[0] == Text(market)
    ensures row.cells[8] == open && row.cells[9] == close
  {
    ScheduleRow(101, [Text(market), Other, Other, Other, Other, Other, Other, Other, open, close,
                      Other, Other, Other, Other, Other, Other, Other, Other])
  }

  lemma IdAfterTilde(prefix: string, n: int)
    requires '~' !in prefix
    requires |FormatNat(if n < 0 then -n else n)| <= MaxStrDigits
    ensures GetCinglepointId(prefix + "~" + FormatInt(n)) == n
  {
    CinglepointIdOf(prefix, "", n, "", "");
    var head, digits := prefix + "~", FormatInt(n);
    assert head + "" == head;
    assert head + digits + "" + "" == head + digits;
  }

  lemma StoreId(name: string)
    requires name == "Store~101"
    ensures GetCinglepointId(name) == 101
  {
    assert FormatInt(101) == "101";
    assert "Store" + "~" + "101" == name;
    IdAfterTilde("Store", 101);
  }

  /** An ID segment written with leading zeros, a sign or underscores reads as `int()` reads it. */
  lemma LiteralId(name: string, prefix: string, sign: string, t: string, id: int)
    requires '~' !in prefix
    requires IsSignText(sign) && IsDigitRun(t) && DigitCount(t) <= MaxStrDigits
    requires name == prefix + "~" + (sign + t) && id == Signed(sign, DigitsValue(t))
    ensures GetCinglepointId(name) == id
  {
    CinglepointIdOfRun(prefix, "", sign, t, "", "");
    var head, x := prefix + "~", sign + t;
    assert head + "" == head;
    assert head + x + "" + "" == head + x;
  }

  lemma LeadingZerosId(name: string)
    requires name == "Store~007"
    ensures GetCinglepointId(name) == 7
  {
    var t := "007";
    DigitsSnoc([], '0');
    DigitsSnoc("0", '0');
    DigitsSnoc("00", '7');
    assert "Store" + "~" + ("" + t) == name;
    LiteralId(name, "Store", "", t, 7);
  }

  lemma PlusSignId(name: string)
    requires name == "Store~+5"
    ensures GetCinglepointId(name) == 5
  {
    var t := "5";
    DigitsSnoc([], '5');
    assert "Store" + "~" + ("+" + t) == name;
    LiteralId(name, "Store", "+", t, 5);
  }

  lemma UnderscoreId(name: string)
    requires name == "Store~1_000"
    ensures GetCinglepointId(name) == 1000
  {
    var t := "1_000";
    DigitsSnoc([], '1');
    assert DigitsValue("1") == 1 by { assert [] + ['1'] == "1"; }
    DigitsSnoc("1", '_');
    assert DigitsValue("1_") == 1 by { assert "1" + ['_'] == "1_"; }
    DigitsSnoc("1_", '0');
    assert DigitsValue("1_0") == 10 by { assert "1_" + ['0'] == "1_0"; }
    DigitsSnoc("1_0", '0');
    assert DigitsValue("1_00") == 100 by { assert "1_0" + ['0'] == "1_00"; }
    DigitsSnoc("1_00", '0');
    assert DigitsValue(t) == 1000 by { assert "1_00" + ['0'] == t; }
    assert IsDigitRun(t) by { assert t[0] == '1' && t[1] == '_' && t[2] == '0'; }
    assert "Store" + "~" + ("" + t) == name;
    LiteralId(name, "Store", "", t, 1000);
  }

  /** Texts that are no integer literal: `int()` raises `ValueError` on each. */
  lemma NotIntegers(s: string)
    requires s == "1.5" || s == "0x1F" || s == "1e3" || s == "1__0" || s == "" || s == "-"
    ensures ParseInt(s).None?
  {
    if s == "1__0" {
      assert s[1] == '_' && s[2] == '_';
    } else if s == "1.5" || s == "0x1F" || s == "1e3" {
      assert !IsDigit(s[1]) && s[1] != '_';
    }
  }

  /** A site whose second segment `int()` refuses is skipped for its name. */
  lemma SegmentRefused(name: string, prefix: string, seg: string)
    requires '~' !in prefix && '~' !in seg && name == prefix + "~" + seg
    requires seg == [] || (!IsSpace(seg[0]) && !IsSpace(seg[|seg| - 1]))
    requires ParseInt(seg).None?
    ensures GetCinglepointId(name) == Sentinel
  {
    PaddedSegment(prefix, "", seg, "", "");
    var head := prefix + "~";
    assert head + "" == head;
    assert head + seg + "" + "" == head + seg;
  }

  lemma NonIntegerIdSkipped(name: string, seg: string)
    requires seg == "1.5" || seg == "0x1F" || seg == "1e3" || seg == "1__0"
    requires name == "Store" + "~" + seg
    ensures GetCinglepointId(name) == Sentinel
  {
    NotIntegers(seg);
    assert seg[0] == '1' || seg[0] == '0';
    SegmentRefused(name, "Store", seg);
  }

  lemma ReadsAs(s: string, rd: Reading, padHour: bool, padMinute: bool, gap: string, marker: string)
    requires WellFormedPieces(rd, gap, marker) && s == FormatReading(rd, padHour, padMinute, gap, marker)
    ensures ParseTime(s) == Some(TimeOfReading(rd))
  {
    ParseFormatted(rd, padHour, padMinute, gap, marker);
  }

  lemma NineAm(s: string)
    requires s == "9:00 AM"
    ensures ParseTime(s) == Some(TimeAt(9, 0, 0, 0))
  {
    assert FormatReading(Reading(9, 0, false), false, true, " ", "AM") == s;
    ReadsAs(s, Reading(9, 0, false), false, true, " ", "AM");
  }

  lemma NinePm(s: string)
    requires s == "9:00 PM"
    ensures ParseTime(s) == Some(TimeAt(21, 0, 0, 0))
  {
    assert FormatReading(Reading(9, 0, true), false, true, " ", "PM") == s;
    ReadsAs(s, Reading(9, 0, true), false, true, " ", "PM");
  }

  /** Where the pass finds site 101 in a one-row table, and its zone and columns on a Wednesday. */
  lemma StoreRowFound(table: seq<ScheduleRow>, market: string, zone: string, open: Cell, close: Cell)
    requires table == [StoreRow(market, open, close)] && MarketToTimezone(market) == zone
    ensures WellFormedTable(table) && FirstMatch(table, 101) == Some(0)
    ensures MarketZone(table[0].cells[0]) == zone
    ensures OpenCloseColumns("Wednesday") == Some(Columns(8, 9))
    ensures table[0].cells[8] == open && table[0].cells[9] == close
  {
  }

  lemma BayArea()
    ensures MarketToTimezone("CABAY Market") == "US/Pacific"
  {
  }

  lemma Austin()
    ensures MarketToTimezone("TXAUS Market") == ""
  {
  }

  /** The store's hours as texts give the times 9 AM and 9 PM. */
  lemma StoreWindow(open: Cell, close: Cell)
    requires open == Text("9:00 AM") && close == Text("9:00 PM")
    ensures Window(open, close) == Some((Time(TimeAt(9, 0, 0, 0)), Time(TimeAt(21, 0, 0, 0))))
  {
    NineAm(open.text);
    NinePm(close.text);
  }

  /** Judge's verdict once each of its steps is known: the glue every worked case uses. */
  lemma Decides(site: Site, table: seq<ScheduleRow>, day: string, localTime: string -> TimeOfDay,
                id: int, k: nat, zone: string, cols: Columns, open: Cell, close: Cell, alert: bool)
    requires WellFormedTable(table)
    requires GetCinglepointId(site.name) == id && id != Sentinel
    requires FirstMatch(table, id) == Some(k)
    requires MarketZone(table[k].cells[0]) == zone && zone != ""
    requires OpenCloseColumns(day) == Some(cols) && cols.open < cols.close < RowWidth
    requires Window(table[k].cells[cols.open], table[k].cells[cols.close]) == Some((open, close))
    requires AlertCondition(localTime(zone), open, close, site.state) == Some(alert)
    ensures Judge(site, table, day, localTime) == Decide(Decision(site.name, id, site.state, zone, open, close, localTime(zone), alert))
  {
  }

  /** Line 131 on the store's hours, 9 AM to 9 PM. */
  lemma StoreAlert(local: TimeOfDay, state: string)
    ensures AlertCondition(local, Time(TimeAt(9, 0, 0, 0)), Time(TimeAt(21, 0, 0, 0)), state)
      == Some(TimeAt(9, 0, 0, 0) < local < TimeAt(21, 0, 0, 0) && state == "armed")
  {
  }

  lemma SkipsForName(site: Site, table: seq<ScheduleRow>, day: string, localTime: string -> TimeOfDay)
    requires WellFormedTable(table) && GetCinglepointId(site.name) == Sentinel
    ensures Judge(site, table, day, localTime) == Skip(NoIdentifier)
  {
  }

  lemma SkipsForMarket(site: Site, table: seq<ScheduleRow>, day: string, localTime: string -> TimeOfDay, id: int, k: nat)
    requires WellFormedTable(table) && GetCinglepointId(site.name) == id && id != Sentinel
    requires FirstMatch(table, id) == Some(k) && MarketZone(table[k].cells[0]) == ""
    ensures Judge(site, table, day, localTime) == Skip(NoTimeZone)
  {
  }

  lemma SkipsForTimes(site: Site, table: seq<ScheduleRow>, day: string, localTime: string -> TimeOfDay,
                      id: int, k: nat, cols: Columns)
    requires WellFormedTable(table) && GetCinglepointId(site.name) == id && id != Sentinel
    requires FirstMatch(table, id) == Some(k) && MarketZone(table[k].cells[0]) != ""
    requires OpenCloseColumns(day) == Some(cols) && cols.open < cols.close < RowWidth
    requires Window(table[k].cells[cols.open], table[k].cells[cols.close]).None?
    ensures Judge(site, table, day, localTime) == Skip(BadTimeText)
  {
  }

  /** The report of two sites, the first evaluated and the second skipped. */
  lemma PassOfTwo(sites: seq<Site>, table: seq<ScheduleRow>, day: string, localTime: string -> TimeOfDay, d: Decision)
    requires WellFormedTable(table) && |sites| == 2
    requires Judge(sites[0], table, day, localTime) == Decide(d) && Judge(sites[1], table, day, localTime).Skip?
    ensures NoCrash(sites, table, day, localTime)
    ensures Pass(sites, table, day, localTime) == Report([sites[1].name], [d])
  {
    var vs := Verdicts(sites, table, day, localTime);
    assert vs[0] == Decide(d) && vs[1].Skip?;
    forall i | 0 <= i < |vs| ensures !vs[i].Crash? {
      assert i == 0 || i == 1;
    }
    var first, none := sites[..1], sites[..1][..0];
    assert first[..0] == none && vs[..1][..0] == [] && none == [];
    assert Collect(first, vs[..1]) == Report([], [d]);
  }

  // ------------------------------------------------------------ the store

  /** An armed store at 2 PM on a day it is open from 9 AM to 9 PM gets an alert. */
  lemma ArmedStoreDuringHoursAlerts(site: Site, table: seq<ScheduleRow>, localTime: string -> TimeOfDay)
    requires site == Site("Store~101", "armed") && table == [StoreRow("CABAY Market", Text("9:00 AM"), Text("9:00 PM"))]
    requires localTime("US/Pacific") == TimeAt(14, 0, 0, 0)
    ensures WellFormedTable(table)
    ensures Judge(site, table, "Wednesday", localTime)
      == Decide(Decision("Store~101", 101, "armed", "US/Pacific",
                         Time(TimeAt(9, 0, 0, 0)), Time(TimeAt(21, 0, 0, 0)), TimeAt(14, 0, 0, 0), true))
  {
    StoreId(site.name);
    BayArea();
    StoreRowFound(table, "CABAY Market", "US/Pacific", Text("9:00 AM"), Text("9:00 PM"));
    StoreWindow(table[0].cells[8], table[0].cells[9]);
    StoreAlert(localTime("US/Pacific"), site.state);
    Decides(site, table, "Wednesday", localTime, 101, 0, "US/Pacific", Columns(8, 9),
            Time(TimeAt(9, 0, 0, 0)), Time(TimeAt(21, 0, 0, 0)), true);
  }

  /** The same store disarmed at 2 PM gets no alert. */
  lemma DisarmedStoreDuringHoursIsQuiet(site: Site, table: seq<ScheduleRow>, localTime: string -> TimeOfDay)
    requires site == Site("Store~101", "disarmed") && table == [StoreRow("CABAY Market", Text("9:00 AM"), Text("9:00 PM"))]
    requires localTime("US/Pacific") == TimeAt(14, 0, 0, 0)
    ensures WellFormedTable(table)
    ensures Judge(site, table, "Wednesday", localTime)
      == Decide(Decision("Store~101", 101, "disarmed", "US/Pacific",
                         Time(TimeAt(9, 0, 0, 0)), Time(TimeAt(21, 0, 0, 0)), TimeAt(14, 0, 0, 0), false))
  {
    StoreId(site.name);
    BayArea();
    StoreRowFound(table, "CABAY Market", "US/Pacific", Text("9:00 AM"), Text("9:00 PM"));
    StoreWindow(table[0].cells[8], table[0].cells[9]);
    StoreAlert(localTime("US/Pacific"), site.state);
    Decides(site, table, "Wednesday", localTime, 101, 0, "US/Pacific", Columns(8, 9),
            Time(TimeAt(9, 0, 0, 0)), Time(TimeAt(21, 0, 0, 0)), false);
  }

  /** The armed store at 10 PM, after closing, gets no alert. */
  lemma ArmedStoreAfterHoursIsQuiet(site: Site, table: seq<ScheduleRow>, localTime: string -> TimeOfDay)
    requires site == Site("Store~101", "armed") && table == [StoreRow("CABAY Market", Text("9:00 AM"), Text("9:00 PM"))]
    requires localTime("US/Pacific") == TimeAt(22, 0, 0, 0)
    ensures WellFormedTable(table)
    ensures Judge(site, table, "Wednesday", localTime)
      == Decide(Decision("Store~101", 101, "armed", "US/Pacific",
                         Time(TimeAt(9, 0, 0, 0)), Time(TimeAt(21, 0, 0, 0)), TimeAt(22, 0, 0, 0), false))
  {
    StoreId(site.name);
    BayArea();
    StoreRowFound(table, "CABAY Market", "US/Pacific", Text("9:00 AM"), Text("9:00 PM"));
    StoreWindow(table[0].cells[8], table[0].cells[9]);
    StoreAlert(localTime("US/Pacific"), site.state);
    Decides(site, table, "Wednesday", localTime, 101, 0, "US/Pacific", Columns(8, 9),
            Time(TimeAt(9, 0, 0, 0)), Time(TimeAt(21, 0, 0, 0)), false);
  }

  /** Hours the spreadsheet already holds as times of day are compared as they are. */
  lemma StoredTimesAreKept(site: Site, table: seq<ScheduleRow>, localTime: string -> TimeOfDay)
    requires site == Site("Store~101", "armed")
    requires table == [StoreRow("CABAY Market", Time(TimeAt(9, 0, 0, 0)), Time(TimeAt(21, 0, 0, 0)))]
    requires localTime("US/Pacific") == TimeAt(14, 0, 0, 0)
    ensures WellFormedTable(table)
    ensures Judge(site, table, "Wednesday", localTime)
      == Decide(Decision("Store~101", 101, "armed", "US/Pacific",
                         Time(TimeAt(9, 0, 0, 0)), Time(TimeAt(21, 0, 0, 0)), TimeAt(14, 0, 0, 0), true))
  {
    StoreId(site.name);
    BayArea();
    StoreRowFound(table, "CABAY Market", "US/Pacific", Time(TimeAt(9, 0, 0, 0)), Time(TimeAt(21, 0, 0, 0)));
    StoreAlert(localTime("US/Pacific"), site.state);
    Decides(site, table, "Wednesday", localTime, 101, 0, "US/Pacific", Columns(8, 9),
            Time(TimeAt(9, 0, 0, 0)), Time(TimeAt(21, 0, 0, 0)), true);
  }

  // ------------------------------------------------------------ skipped sites

  lemma KioskName(name: string)
    requires name == "Kiosk A"
    ensures '~' !in name
  {
  }

  /** A name without `~` is skipped for its name. */
  lemma NamelessKioskSkipped(site: Site, table: seq<ScheduleRow>, localTime: string -> TimeOfDay)
    requires site == Site("Kiosk A", "armed") && WellFormedTable(table)
    ensures Judge(site, table, "Wednesday", localTime) == Skip(NoIdentifier)
  {
    KioskName(site.name);
    SkipsForName(site, table, "Wednesday", localTime);
  }

  /** A row whose market the program does not know is skipped for its market. */
  lemma UnknownMarketSkipped(site: Site, table: seq<ScheduleRow>, localTime: string -> TimeOfDay)
    requires site == Site("Store~101", "armed") && table == [StoreRow("TXAUS Market", Text("9:00 AM"), Text("9:00 PM"))]
    ensures WellFormedTable(table)
    ensures Judge(site, table, "Wednesday", localTime) == Skip(NoTimeZone)
  {
    StoreId(site.name);
    Austin();
    StoreRowFound(table, "TXAUS Market", "", Text("9:00 AM"), Text("9:00 PM"));
    SkipsForMarket(site, table, "Wednesday", localTime, 101, 0);
  }

  /** A text whose part before the first `:` is no hour from 1 to 12 is refused, whatever follows. */
  lemma HourRejected(h: string, rest: string)
    requires ':' !in h && HourField(h).None?
    ensures ParseTime(h + ":" + rest).None?
  {
    IndexOfFirst(h, ':', rest);
    var s := h + ":" + rest;
    assert s[..|h|] == h;
  }

  lemma TwentyFiveRejected(s: string)
    requires s == "25:00 AM"
    ensures ParseTime(s).None?
  {
    assert "25" + ":" + "00 AM" == s;
    HourRejected("25", "00 AM");
  }

  /** Hour 0 is not an hour of the 12-hour clock. */
  lemma ZeroRejected(s: string)
    requires s == "0:30 AM"
    ensures ParseTime(s).None?
  {
    assert "0" + ":" + "30 AM" == s;
    HourRejected("0", "30 AM");
  }

  /** Nor is hour 13. */
  lemma ThirteenRejected(s: string)
    requires s == "13:00 PM"
    ensures ParseTime(s).None?
  {
    assert "13" + ":" + "00 PM" == s;
    HourRejected("13", "00 PM");
  }

  /** An opening text outside the 12-hour format skips the site. */
  lemma BadOpeningTextSkipped(site: Site, table: seq<ScheduleRow>, localTime: string -> TimeOfDay)
    requires site == Site("Store~101", "armed") && table == [StoreRow("CABAY Market", Text("25:00 AM"), Text("9:00 PM"))]
    ensures WellFormedTable(table)
    ensures Judge(site, table, "Wednesday", localTime) == Skip(BadTimeText)
  {
    StoreId(site.name);
    BayArea();
    StoreRowFound(table, "CABAY Market", "US/Pacific", Text("25:00 AM"), Text("9:00 PM"));
    TwentyFiveRejected(table[0].cells[8].text);
    SkipsForTimes(site, table, "Wednesday", localTime, 101, 0, Columns(8, 9));
  }

  // ------------------------------------------------------------ a whole pass

  /** A pass over the store and the kiosk prints one decision and skips the kiosk. */
  lemma StoreAndKioskPass(sites: seq<Site>, table: seq<ScheduleRow>, localTime: string -> TimeOfDay)
    requires sites == [Site("Store~101", "armed"), Site("Kiosk A", "armed")]
    requires table == [StoreRow("CABAY Market", Text("9:00 AM"), Text("9:00 PM"))]
    requires localTime("US/Pacific") == TimeAt(14, 0, 0, 0)
    ensures WellFormedTable(table) && NoCrash(sites, table, "Wednesday", localTime)
    ensures Pass(sites, table, "Wednesday", localTime) == Report(["Kiosk A"], [
      Decision("Store~101", 101, "armed", "US/Pacific",
               Time(TimeAt(9, 0, 0, 0)), Time(TimeAt(21, 0, 0, 0)), TimeAt(14, 0, 0, 0), true)])
  {
    ArmedStoreDuringHoursAlerts(sites[0], table, localTime);
    NamelessKioskSkipped(sites[1], table, localTime);
    PassOfTwo(sites, table, "Wednesday", localTime,
      Decision("Store~101", 101, "armed", "US/Pacific",
               Time(TimeAt(9, 0, 0, 0)), Time(TimeAt(21, 0, 0, 0)), TimeAt(14, 0, 0, 0), true));
  }
}

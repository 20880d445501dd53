/** `site_validation`: one pass over the camera platform's live site states. Each site is
    joined to its schedule row through the Cinglepoint ID in its name, the row's market
    gives the site's time zone, the weekday gives the two columns of the day's opening
    and closing times, and the site is either skipped (its name goes on the list of
    skipped locations) or gets one decision: alert when the local time lies strictly
    between opening and closing time and the site is armed.

    The pass takes "the local time of day in zone Z now" as a function the caller
    supplies (`validation_time.astimezone(ZoneInfo(Z)).time()`), and it returns what the
    program prints: the decisions, site by site, and the skipped names at the end. */
module Reconcile {
  import opened PyText
  import opened Clock
  import opened Resolvers

  // ------------------------------------------------------------ data

  /** A live site state: `site["site_name"]`, `site["site_state"]` (`"armed"`, `"disarmed"`, ...). */
  datatype Site = Site(name: string, state: string)

  /** A cell of the schedule table as the spreadsheet reader delivers it: a text, a time
      of day, or something else (a blank read as NaN, a number, a full date and time). */
  datatype Cell = Text(text: string) | Time(time: TimeOfDay) | Other

  /** A row of the schedule: its `Cinglepoint ID` and its cells by position. Cell 0 holds
      the market, cells 4..17 the weekdays' opening and closing times. */
  datatype ScheduleRow = ScheduleRow(id: int, cells: seq<Cell>)

  /** Number of columns a schedule row reaches at least: the metadata and the fourteen times. */
  const RowWidth: nat := 18

  /** The schedule table has the column layout the program indexes into. */
  predicate WellFormedTable(table: seq<ScheduleRow>)
  {
    forall k :: 0 <= k < |table| ==> |table[k].cells| >= RowWidth
  }

  /** What the program prints for a site it evaluates. */
  datatype Decision = Decision(
    name: string, id: int, state: string, zone: string,
    open: Cell, close: Cell, local: TimeOfDay, alert: bool)

  datatype SkipReason = NoIdentifier | NoTimeZone | BadTimeText

  /** What happens to one site: skipped, evaluated, or an exception the program does not catch. */
  datatype Verdict = Skip(reason: SkipReason) | Decide(decision: Decision) | Crash

  /** What one pass prints, as values: the skipped names and the decisions, each in site order. */
  datatype Report = Report(skipped: seq<string>, decisions: seq<Decision>)

  // ------------------------------------------------------------ the steps of one site

  /** `schedulefile[schedulefile['Cinglepoint ID'] == id]`, row 0: the position of the first
      row with the identifier, or `None` when the selection is empty. */
  function FirstMatch(table: seq<ScheduleRow>, id: int): (r: Option<nat>)
    ensures r.Some? ==> r.value < |table| && table[r.value].id == id
    ensures r.Some? ==> forall k :: 0 <= k < r.value ==> table[k].id != id
    ensures r.None? <==> forall k :: 0 <= k < |table| ==> table[k].id != id
  {
    if table == [] then None
    else if table[0].id == id then Some(0)
    else
      match FirstMatch(table[1..], id)
      case None => None
      case Some(k) => Some(k + 1)
  }

  /** `market_to_timezone(siterow.iat[0, 0])`: a cell that holds no text matches no market. */
  function MarketZone(market: Cell): (zone: string)
    ensures zone != "" <==> market.Text? && market.text in KnownMarkets
  {
    match market
    case Text(m) => MarketToTimezone(m)
    case _ => ""
  }

  /** What `datetime.strptime(cell, "%I:%M %p").time()` does with a cell. */
  datatype Strptime = Parsed(time: TimeOfDay) | ValueError | TypeError

  function StrptimeCell(c: Cell): (r: Strptime)
    ensures r.TypeError? <==> !c.Text?
    ensures r.ValueError? <==> c.Text? && ParseTime(c.text).None?
    ensures r.Parsed? ==> c.Text? && ParseTime(c.text) == Some(r.time)
  {
    match c
    case Text(s) => (match ParseTime(s) case Some(t) => Parsed(t) case None => ValueError)
    case _ => TypeError
  }

  /** A text cell that `strptime` rejects. */
  predicate Malformed(c: Cell)
  {
    c.Text? && ParseTime(c.text).None?
  }

  /** Lines 116-124: the opening and closing values the program goes on with, or `None`
      when it skips the site. The opening cell is parsed first; a text that fails the
      format skips the site; as soon as a cell is no text at all, both raw cells are kept. */
  function Window(openCell: Cell, closeCell: Cell): (r: Option<(Cell, Cell)>)
    ensures r.None? <==> Malformed(openCell) || (openCell.Text? && !Malformed(openCell) && Malformed(closeCell))
    ensures openCell.Text? && closeCell.Text? && r.Some? ==>
      r.value == (Time(ParseTime(openCell.text).value), Time(ParseTime(closeCell.text).value))
    ensures !openCell.Text? || (!Malformed(openCell) && !closeCell.Text?) ==> r == Some((openCell, closeCell))
  {
    match StrptimeCell(openCell)
    case ValueError => None
    case TypeError => Some((openCell, closeCell))
    case Parsed(o) =>
      match StrptimeCell(closeCell)
      case ValueError => None
      case TypeError => Some((openCell, closeCell))
      case Parsed(c) => Some((Time(o), Time(c)))
  }

  /** Line 131: `site_local_time > open_time and site_local_time < close_time and
      site_state == 'armed'`. Comparing the local time with anything but a time raises
      `TypeError` (`None`); `and` stops at the first false operand. */
  function AlertCondition(local: TimeOfDay, open: Cell, close: Cell, state: string): (r: Option<bool>)
    ensures r == Some(true) <==> open.Time? && close.Time? && open.time < local < close.time && state == "armed"
    ensures r.None? <==> !open.Time? || (open.time < local && !close.Time?)
  {
    match open
    case Time(o) =>
      if !(local > o) then Some(false)
      else (match close case Time(c) => Some(local < c && state == "armed") case _ => None)
    case _ => None
  }

  /** The fate of one site in the pass (lines 98-131). */
  function Judge(site: Site, table: seq<ScheduleRow>, day: string, localTime: string -> TimeOfDay): Verdict
    requires WellFormedTable(table)
  {
    var id := GetCinglepointId(site.name);
    if id == Sentinel then Skip(NoIdentifier)
    else
      match FirstMatch(table, id)
      case None => Crash
      case Some(k) =>
        var zone := MarketZone(table[k].cells[0]);
        if zone == "" then Skip(NoTimeZone)
        else
          match OpenCloseColumns(day)
          case None => Crash
          case Some(cols) =>
            ColumnsInRow(day);
            match Window(table[k].cells[cols.open], table[k].cells[cols.close])
            case None => Skip(BadTimeText)
            case Some((open, close)) =>
              var local := localTime(zone);
              match AlertCondition(local, open, close, site.state)
              case None => Crash
              case Some(alert) => Decide(Decision(site.name, id, site.state, zone, open, close, local, alert))
  }

  lemma ColumnsInRow(day: string)
    requires OpenCloseColumns(day).Some?
    ensures var cols := OpenCloseColumns(day).value; cols.open < cols.close < RowWidth
  {
  }


  // ------------------------------------------------------------ the pass

  /** The verdict of each site, in site order. */
  function Verdicts(sites: seq<Site>, table: seq<ScheduleRow>, day: string, localTime: string -> TimeOfDay): (vs: seq<Verdict>)
    requires WellFormedTable(table)
    ensures |vs| == |sites| && forall i :: 0 <= i < |sites| ==> vs[i] == Judge(sites[i], table, day, localTime)
  {
    seq(|sites|, i requires 0 <= i < |sites| => Judge(sites[i], table, day, localTime))
  }

  /** None of the verdicts is an uncaught exception. */
  predicate Completes(vs: seq<Verdict>)
  {
    forall i :: 0 <= i < |vs| ==> !vs[i].Crash?
  }

  /** The pass runs to its end: no site raises an exception the program does not catch. */
  predicate NoCrash(sites: seq<Site>, table: seq<ScheduleRow>, day: string, localTime: string -> TimeOfDay)
    requires WellFormedTable(table)
  {
    Completes(Verdicts(sites, table, day, localTime))
  }

  /** The report that the sites' verdicts make, built site by site as the loop builds it. */
  function Collect(sites: seq<Site>, vs: seq<Verdict>): Report
    requires |vs| == |sites| && Completes(vs)
    decreases |sites|
  {
    if sites == [] then Report([], [])
    else
      var n := |sites| - 1;
      var before := Collect(sites[..n], vs[..n]);
      match vs[n]
      case Skip(_) => Report(before.skipped + [sites[n].name], before.decisions)
      case Decide(d) => Report(before.skipped, before.decisions + [d])
  }

  /** What the pass prints for the sites given: every site contributes exactly one entry,
      a skipped name or a decision. */
  function Pass(sites: seq<Site>, table: seq<ScheduleRow>, day: string, localTime: string -> TimeOfDay): (r: Report)
    requires WellFormedTable(table) && NoCrash(sites, table, day, localTime)
    ensures |r.skipped| + |r.decisions| == |sites|
  {
    var vs := Verdicts(sites, table, day, localTime);
    CollectSizes(sites, vs);
    Collect(sites, vs)
  }

  /** `site_validation(verkadafile, schedulefile, validation_time, validation_day)`. */
  method SiteValidation(sites: seq<Site>, table: seq<ScheduleRow>, day: string, localTime: string -> TimeOfDay)
    returns (skipped: seq<string>, decisions: seq<Decision>)
    requires WellFormedTable(table)
    requires NoCrash(sites, table, day, localTime)
    ensures Report(skipped, decisions) == Pass(sites, table, day, localTime)
  {
    skipped, decisions := [], [];
    for i := 0 to |sites|
      invariant NoCrash(sites[..i], table, day, localTime)
      invariant Report(skipped, decisions) == Pass(sites[..i], table, day, localTime)
    {
      PassPlacement(sites, table, day, localTime, i);
      var v := CheckSite(sites[i], table, day, localTime);
      if v.Skip? {
        skipped := skipped + [sites[i].name];
      } else {
        decisions := decisions + [v.decision];
      }
    }
    assert sites[..|sites|] == sites;
  }

  /** The body of the loop for one site (lines 98-131), step by step: a `continue` of the
      program is an early return of a skip. */
  method CheckSite(site: Site, table: seq<ScheduleRow>, day: string, localTime: string -> TimeOfDay)
    returns (v: Verdict)
    requires WellFormedTable(table)
    requires !Judge(site, table, day, localTime).Crash?
    ensures v == Judge(site, table, day, localTime)
  {
    var id := GetCinglepointId(site.name);
    if id == Sentinel {
      return Skip(NoIdentifier);
    }
    var row := table[FirstMatch(table, id).value];
    var zone := MarketZone(row.cells[0]);
    if zone == "" {
      return Skip(NoTimeZone);
    }
    var cols := OpenCloseColumns(day).value;
    ColumnsInRow(day);
    var openTime, closeTime := row.cells[cols.open], row.cells[cols.close];
    match StrptimeCell(openTime) {
      case ValueError =>
        return Skip(BadTimeText);
      case TypeError =>
      case Parsed(o) =>
        match StrptimeCell(closeTime) {
          case ValueError =>
            return Skip(BadTimeText);
          case TypeError =>
          case Parsed(c) =>
            openTime, closeTime := Time(o), Time(c);
        }
    }
    var local := localTime(zone);
    var alert := AlertCondition(local, openTime, closeTime, site.state).value;
    v := Decide(Decision(site.name, id, site.state, zone, openTime, closeTime, local, alert));
  }

  // ------------------------------------------------------------ what one site gets

  /** A decision is about the site it was made for, carries its resolved identifier and
      zone, and alerts exactly when the local time lies strictly between two times of
      day and the site is armed; the opening or closing time itself never alerts. */
  lemma DecisionMeaning(site: Site, table: seq<ScheduleRow>, day: string, localTime: string -> TimeOfDay)
    requires WellFormedTable(table)
    requires Judge(site, table, day, localTime).Decide?
    ensures var d := Judge(site, table, day, localTime).decision;
      && d.name == site.name && d.state == site.state
      && d.id == GetCinglepointId(site.name) && d.id != Sentinel
      && FirstMatch(table, d.id).Some?
      && d.zone in KnownZones && d.zone == MarketZone(table[FirstMatch(table, d.id).value].cells[0])
      && day in DayNames
      && d.local == localTime(d.zone)
      && (d.alert <==> d.open.Time? && d.close.Time? && d.open.time < d.local < d.close.time && site.state == "armed")
      && (d.open == Time(d.local) || d.close == Time(d.local) ==> !d.alert)
  {
    var id := GetCinglepointId(site.name);
    var k := FirstMatch(table, id).value;
    var zone := MarketZone(table[k].cells[0]);
    assert zone != "";
    assert zone == MarketToTimezone(table[k].cells[0].text);
  }

  /** The day's two cells of the site's row, once the site has a row and the day is a weekday. */
  function DayCells(row: ScheduleRow, day: string): (cells: (Cell, Cell))
    requires |row.cells| >= RowWidth && day in DayNames
  {
    var cols := OpenCloseColumns(day).value;
    ColumnsInRow(day);
    (row.cells[cols.open], row.cells[cols.close])
  }

  /** Well-formed text cells are compared as the times of day they name; when the opening
      cell is no text, or the closing one is no text after a well-formed opening text,
      both raw cells are compared as they are and the site is not skipped. */
  lemma DecisionTimes(site: Site, table: seq<ScheduleRow>, day: string, localTime: string -> TimeOfDay)
    requires WellFormedTable(table)
    requires Judge(site, table, day, localTime).Decide?
    ensures FirstMatch(table, GetCinglepointId(site.name)).Some? && day in DayNames
    ensures var d := Judge(site, table, day, localTime).decision;
      var (o, c) := DayCells(table[FirstMatch(table, GetCinglepointId(site.name)).value], day);
      && (o.Text? && c.Text? ==>
           && ParseTime(o.text).Some? && ParseTime(c.text).Some?
           && d.open == Time(ParseTime(o.text).value) && d.close == Time(ParseTime(c.text).value))
      && (!o.Text? || !c.Text? ==> d.open == o && d.close == c)
  {
    DecisionMeaning(site, table, day, localTime);
    var id := GetCinglepointId(site.name);
    var k := FirstMatch(table, id).value;
    var cols := OpenCloseColumns(day).value;
    ColumnsInRow(day);
    var (o, c) := (table[k].cells[cols.open], table[k].cells[cols.close]);
    var d := Judge(site, table, day, localTime).decision;
    assert Window(o, c).Some? && d.open == Window(o, c).value.0 && d.close == Window(o, c).value.1;
  }

  /** The three reasons to skip a site, and no others. A site is skipped for its name when
      no identifier can be read from it; for its market when its first schedule row names
      no known market; for its times when the day's opening text breaks the format, or the
      opening text is well-formed and the closing text breaks it. */
  lemma SkipReasons(site: Site, table: seq<ScheduleRow>, day: string, localTime: string -> TimeOfDay)
    requires WellFormedTable(table)
    ensures var v, id := Judge(site, table, day, localTime), GetCinglepointId(site.name);
      && (v == Skip(NoIdentifier) <==> id == Sentinel)
      && ('~' !in site.name ==> v == Skip(NoIdentifier))
      && (id != Sentinel && FirstMatch(table, id).Some? ==>
           var row := table[FirstMatch(table, id).value];
           && (v == Skip(NoTimeZone) <==> !(row.cells[0].Text? && row.cells[0].text in KnownMarkets))
           && (row.cells[0].Text? && row.cells[0].text in KnownMarkets && day in DayNames ==>
                var (o, c) := DayCells(row, day);
                (v == Skip(BadTimeText) <==> Malformed(o) || (o.Text? && !Malformed(o) && Malformed(c)))))
  {
  }

  /** The program stops with an uncaught exception for a site exactly when the site has an
      identifier but no schedule row, or a known market and no weekday, or its comparison
      meets a value that is no time of day. */
  lemma CrashCauses(site: Site, table: seq<ScheduleRow>, day: string, localTime: string -> TimeOfDay)
    requires WellFormedTable(table)
    ensures var v, id := Judge(site, table, day, localTime), GetCinglepointId(site.name);
      && (id != Sentinel && FirstMatch(table, id).None? ==> v == Crash)
      && ((id != Sentinel && FirstMatch(table, id).Some? && day !in DayNames &&
           MarketZone(table[FirstMatch(table, id).value].cells[0]) != "") ==> v == Crash)
      && (id != Sentinel && FirstMatch(table, id).Some? && day in DayNames ==>
           var row := table[FirstMatch(table, id).value];
           var zone := MarketZone(row.cells[0]);
           var w := Window(DayCells(row, day).0, DayCells(row, day).1);
           (v == Crash <==> zone != "" && w.Some? && AlertCondition(localTime(zone), w.value.0, w.value.1, site.state).None?))
  {
  }

  // ------------------------------------------------------------ how the report is built

  /** Every site contributes exactly one entry to the report: a skipped name or a decision. */
  lemma {:induction false} CollectSizes(sites: seq<Site>, vs: seq<Verdict>)
    requires |vs| == |sites| && Completes(vs)
    ensures var r := Collect(sites, vs); |r.skipped| + |r.decisions| == |sites|
    decreases |sites|
  {
    if sites != [] {
      var n := |sites| - 1;
      CollectSizes(sites[..n], vs[..n]);
    }
  }

  /** The report of the first sites is the beginning of the report of all of them. */
  lemma {:induction false} CollectPrefix(sites: seq<Site>, vs: seq<Verdict>, j: nat)
    requires |vs| == |sites| && Completes(vs) && j <= |sites|
    ensures var part, all := Collect(sites[..j], vs[..j]), Collect(sites, vs);
      part.skipped <= all.skipped && part.decisions <= all.decisions
    decreases |sites| - j
  {
    if j == |sites| {
      assert sites[..j] == sites && vs[..j] == vs;
    } else {
      CollectPrefix(sites, vs, j + 1);
      assert sites[..j + 1][..j] == sites[..j] && vs[..j + 1][..j] == vs[..j];
    }
  }

  /** Site `i` adds its entry right after the entries of the sites before it, to the skip
      list or to the decisions and never to both: sites are reported once, in input order. */
  lemma CollectPlacement(sites: seq<Site>, vs: seq<Verdict>, i: nat)
    requires |vs| == |sites| && Completes(vs) && i < |sites|
    ensures var before, after, all := Collect(sites[..i], vs[..i]), Collect(sites[..i + 1], vs[..i + 1]), Collect(sites, vs);
      match vs[i]
      case Skip(_) =>
        && after == Report(before.skipped + [sites[i].name], before.decisions)
        && |before.skipped| < |all.skipped| && all.skipped[|before.skipped|] == sites[i].name
      case Decide(d) =>
        && after == Report(before.skipped, before.decisions + [d])
        && |before.decisions| < |all.decisions| && all.decisions[|before.decisions|] == d
      case Crash => false
  {
    CollectPrefix(sites, vs, i + 1);
    assert sites[..i + 1][..i] == sites[..i] && vs[..i + 1][..i] == vs[..i];
  }

  /** Some site of the list was skipped and has the name. */
  predicate SkippedSiteNamed(sites: seq<Site>, vs: seq<Verdict>, name: string)
    requires |vs| == |sites|
  {
    exists i :: 0 <= i < |sites| && vs[i].Skip? && sites[i].name == name
  }

  /** Some site of the list was decided so. */
  predicate DecidedSite(sites: seq<Site>, vs: seq<Verdict>, d: Decision)
    requires |vs| == |sites|
  {
    exists i :: 0 <= i < |sites| && vs[i] == Decide(d)
  }

  /** Nothing else enters the skip list: each skipped name is the name of a skipped site. */
  lemma {:induction false} CollectSkipsFromSites(sites: seq<Site>, vs: seq<Verdict>)
    requires |vs| == |sites| && Completes(vs)
    ensures forall name | name in Collect(sites, vs).skipped :: SkippedSiteNamed(sites, vs, name)
    decreases |sites|
  {
    if sites != [] {
      var n := |sites| - 1;
      CollectSkipsFromSites(sites[..n], vs[..n]);
      var before, r := Collect(sites[..n], vs[..n]), Collect(sites, vs);
      forall name | name in r.skipped ensures SkippedSiteNamed(sites, vs, name) {
        if name in before.skipped {
          assert SkippedSiteNamed(sites[..n], vs[..n], name);
          var i :| 0 <= i < n && vs[..n][i].Skip? && sites[..n][i].name == name;
          assert vs[..n][i] == vs[i] && sites[..n][i] == sites[i];
        } else {
          assert vs[n].Skip? && sites[n].name == name;
        }
      }
    }
  }

  /** Nothing else enters the decisions: each one is the decision made for an evaluated site. */
  lemma {:induction false} CollectDecisionsFromSites(sites: seq<Site>, vs: seq<Verdict>)
    requires |vs| == |sites| && Completes(vs)
    ensures forall d | d in Collect(sites, vs).decisions :: DecidedSite(sites, vs, d)
    decreases |sites|
  {
    if sites != [] {
      var n := |sites| - 1;
      CollectDecisionsFromSites(sites[..n], vs[..n]);
      var before, r := Collect(sites[..n], vs[..n]), Collect(sites, vs);
      forall d | d in r.decisions ensures DecidedSite(sites, vs, d) {
        if d in before.decisions {
          assert DecidedSite(sites[..n], vs[..n], d);
          var i :| 0 <= i < n && vs[..n][i] == Decide(d);
          assert vs[..n][i] == vs[i];
        } else {
          assert vs[n] == Decide(d);
        }
      }
    }
  }

  // ------------------------------------------------------------ what the pass prints

  lemma VerdictsPrefix(sites: seq<Site>, table: seq<ScheduleRow>, day: string, localTime: string -> TimeOfDay, j: nat)
    requires WellFormedTable(table) && j <= |sites|
    ensures Verdicts(sites[..j], table, day, localTime) == Verdicts(sites, table, day, localTime)[..j]
  {
  }

  /** Site `i` is reported right after the sites before it: its name on the skip list if it
      is skipped, its decision otherwise, and nothing on the other list. */
  lemma PassPlacement(sites: seq<Site>, table: seq<ScheduleRow>, day: string, localTime: string -> TimeOfDay, i: nat)
    requires WellFormedTable(table) && NoCrash(sites, table, day, localTime) && i < |sites|
    ensures NoCrash(sites[..i], table, day, localTime) && NoCrash(sites[..i + 1], table, day, localTime)
    ensures var before, after, all :=
        Pass(sites[..i], table, day, localTime), Pass(sites[..i + 1], table, day, localTime), Pass(sites, table, day, localTime);
      match Judge(sites[i], table, day, localTime)
      case Skip(_) =>
        && after == Report(before.skipped + [sites[i].name], before.decisions)
        && |before.skipped| < |all.skipped| && all.skipped[|before.skipped|] == sites[i].name
      case Decide(d) =>
        && after == Report(before.skipped, before.decisions + [d])
        && |before.decisions| < |all.decisions| && all.decisions[|before.decisions|] == d
      case Crash => false
  {
    var vs := Verdicts(sites, table, day, localTime);
    VerdictsPrefix(sites, table, day, localTime, i);
    VerdictsPrefix(sites, table, day, localTime, i + 1);
    CollectPlacement(sites, vs, i);
  }

  /** Every skipped name of the pass is the name of a site that was skipped. */
  lemma PassSkips(sites: seq<Site>, table: seq<ScheduleRow>, day: string, localTime: string -> TimeOfDay)
    requires WellFormedTable(table) && NoCrash(sites, table, day, localTime)
    ensures forall name | name in Pass(sites, table, day, localTime).skipped ::
      exists i :: 0 <= i < |sites| && Judge(sites[i], table, day, localTime).Skip? && sites[i].name == name
  {
    var vs := Verdicts(sites, table, day, localTime);
    CollectSkipsFromSites(sites, vs);
    forall name | name in Collect(sites, vs).skipped
      ensures exists i :: 0 <= i < |sites| && Judge(sites[i], table, day, localTime).Skip? && sites[i].name == name
    {
      assert SkippedSiteNamed(sites, vs, name);
      var i :| 0 <= i < |sites| && vs[i].Skip? && sites[i].name == name;
      assert Judge(sites[i], table, day, localTime) == vs[i];
    }
  }

  /** Every decision of the pass belongs to a site with a readable identifier and a known
      market, and alerts exactly inside the strict open window of an armed site. */
  lemma PassDecisions(sites: seq<Site>, table: seq<ScheduleRow>, day: string, localTime: string -> TimeOfDay)
    requires WellFormedTable(table) && NoCrash(sites, table, day, localTime)
    ensures forall d | d in Pass(sites, table, day, localTime).decisions ::
      && d.id == GetCinglepointId(d.name) && d.id != Sentinel
      && d.zone in KnownZones && d.local == localTime(d.zone)
      && (d.alert <==> d.open.Time? && d.close.Time? && d.open.time < d.local < d.close.time && d.state == "armed")
  {
    var vs := Verdicts(sites, table, day, localTime);
    var r := Collect(sites, vs);
    CollectDecisionsFromSites(sites, vs);
    forall d | d in r.decisions
      ensures d.id == GetCinglepointId(d.name) && d.id != Sentinel
      ensures d.zone in KnownZones && d.local == localTime(d.zone)
      ensures d.alert <==> d.open.Time? && d.close.Time? && d.open.time < d.local < d.close.time && d.state == "armed"
    {
      assert DecidedSite(sites, vs, d);
      var i :| 0 <= i < |sites| && vs[i] == Decide(d);
      DecisionMeaning(sites[i], table, day, localTime);
    }
  }
}

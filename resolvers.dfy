/** The three lookups of `main.py` the reconciliation pass calls per site: the site's
    Cinglepoint ID from its display name, the time zone of a market, and the schedule
    columns holding a weekday's opening and closing times. */
module Resolvers {
  import opened PyText

  // ------------------------------------------------------------ get_cinglepointid

  /** The value that stands for "no identifier could be read from the name". */
  const Sentinel: int := -1

  /** `get_cinglepointid`: `int(name.split('~')[1].strip())`, with the `IndexError` of a
      name without `~` and the `ValueError` of a segment that is no integer both turned
      into the sentinel. */
  function GetCinglepointId(name: string): (id: int)
    ensures '~' !in name ==> id == Sentinel
  {
    var parts := Split(name, '~');
    if |parts| < 2 then Sentinel
    else
      match ParseInt(Strip(parts[1]))
      case Some(n) => n
      case None => Sentinel
  }

  /** The identifier is read from between the first `~` and the next one (or the end),
      whatever white space surrounds it, as long as it is within `int()`'s digit limit. */
  lemma CinglepointIdOf(prefix: string, pad1: string, n: int, pad2: string, suffix: string)
    requires '~' !in prefix
    requires |FormatNat(if n < 0 then -n else n)| <= MaxStrDigits
    requires AllSpace(pad1) && AllSpace(pad2)
    requires suffix == [] || suffix[0] == '~'
    ensures GetCinglepointId(prefix + "~" + pad1 + FormatInt(n) + pad2 + suffix) == n
  {
    var digits := FormatInt(n);
    FormatIntPlain(n, '~');
    PaddedSegment(prefix, pad1, digits, pad2, suffix);
    FormatIntRoundTrip(n);
  }

  /** More generally, any integer literal `int()` takes stands there: an optional sign and a
      digit run with leading zeros and single underscores allowed, such as `007`, `+5` or `1_000`. */
  lemma CinglepointIdOfRun(prefix: string, pad1: string, sign: string, t: string, pad2: string, suffix: string)
    requires '~' !in prefix
    requires IsSignText(sign) && IsDigitRun(t) && DigitCount(t) <= MaxStrDigits
    requires AllSpace(pad1) && AllSpace(pad2)
    requires suffix == [] || suffix[0] == '~'
    ensures GetCinglepointId(prefix + "~" + pad1 + (sign + t) + pad2 + suffix) == Signed(sign, DigitsValue(t))
  {
    var x := sign + t;
    assert '~' !in x by {
      forall k | 0 <= k < |x| ensures x[k] != '~' {
        if k >= |sign| { assert x[k] == t[k - |sign|]; assert IsDigit(t[k - |sign|]) || t[k - |sign|] == '_'; }
      }
    }
    assert !IsSpace(x[0]) && !IsSpace(x[|x| - 1]) by {
      assert x[|x| - 1] == t[|t| - 1];
      if sign == "" { assert x[0] == t[0]; }
    }
    PaddedSegment(prefix, pad1, x, pad2, suffix);
    ParseIntDigitLimit(sign, t);
  }

  /** A segment of more digits than `int()` converts yields the sentinel, leading zeros
      included: `int()` raises `ValueError` on it. */
  lemma CinglepointIdTooLong(prefix: string, pad1: string, digits: string, pad2: string, suffix: string)
    requires '~' !in prefix
    requires AllSpace(pad1) && AllSpace(pad2)
    requires suffix == [] || suffix[0] == '~'
    requires IsDigitRun(digits) && DigitCount(digits) > MaxStrDigits
    ensures GetCinglepointId(prefix + "~" + pad1 + digits + pad2 + suffix) == Sentinel
  {
    assert '~' !in digits by {
      forall k | 0 <= k < |digits| ensures digits[k] != '~' {
        assert IsDigit(digits[k]) || digits[k] == '_';
      }
    }
    PaddedSegment(prefix, pad1, digits, pad2, suffix);
    ParseIntDigitLimit("", digits);
    assert "" + digits == digits;
  }

  /** The second `~`-segment of such a name is `x` once stripped. */
  lemma PaddedSegment(prefix: string, pad1: string, x: string, pad2: string, suffix: string)
    requires '~' !in prefix && '~' !in x
    requires AllSpace(pad1) && AllSpace(pad2)
    requires x == [] || (!IsSpace(x[0]) && !IsSpace(x[|x| - 1]))
    requires suffix == [] || suffix[0] == '~'
    ensures var parts := Split(prefix + "~" + pad1 + x + pad2 + suffix, '~');
      |parts| >= 2 && Strip(parts[1]) == x
  {
    var segment := pad1 + x + pad2;
    var name := prefix + "~" + pad1 + x + pad2 + suffix;
    assert name == prefix + ['~'] + segment + suffix;
    NoTildeInPadded(pad1, x, pad2);
    SplitSecond(prefix, '~', segment, suffix);
    var parts := Split(name, '~');
    assert parts[1] == segment;
    StripPadded(pad1, x, pad2);
  }

  lemma NoTildeInPadded(pad1: string, x: string, pad2: string)
    requires AllSpace(pad1) && AllSpace(pad2) && '~' !in x
    ensures '~' !in pad1 + x + pad2
  {
    var s := pad1 + x + pad2;
    forall k | 0 <= k < |s| ensures s[k] != '~' {
      if k < |pad1| { assert s[k] == pad1[k]; }
      else if k < |pad1| + |x| { assert s[k] == x[k - |pad1|]; }
      else { assert s[k] == pad2[k - |pad1| - |x|]; }
    }
  }

  /** The second `~`-segment, when there is one. */
  function SecondSegment(name: string): (seg: Option<string>)
    ensures seg.Some? <==> '~' in name
  {
    var parts := Split(name, '~');
    if |parts| < 2 then None else Some(parts[1])
  }

  /** A name whose second segment, once stripped, is no integer literal (`1.5`, `0x1F`, `1e3`,
      `1__0`, an empty text) yields the sentinel: `int()` raises `ValueError` on it. */
  lemma CinglepointIdMalformed(name: string)
    requires SecondSegment(name).Some? && !IsIntLiteral(Strip(SecondSegment(name).value))
    ensures GetCinglepointId(name) == Sentinel
  {
    ParseIntRejects(Strip(SecondSegment(name).value));
  }

  /** Any identifier other than the sentinel was read from a `~`-segment that holds, between
      white space, nothing but an integer literal, and it is that literal's value. */
  lemma CinglepointIdRead(name: string)
    requires GetCinglepointId(name) != Sentinel
    ensures '~' in name
    ensures exists sign, t :: && IsSignText(sign) && Strip(SecondSegment(name).value) == sign + t
                              && IsDigitRun(t) && DigitCount(t) <= MaxStrDigits
                              && GetCinglepointId(name) == Signed(sign, DigitsValue(t))
  {
    ParseIntAccepted(Strip(SecondSegment(name).value));
  }

  // ------------------------------------------------------------ market_to_timezone

  /** The ten markets the program knows. */
  const KnownMarkets: set<string> := {
    "AZPHX Market", "CABAY Market", "CAGLA Market", "CASAN Market", "ILCHI Market",
    "MIDET Market", "ININD Market", "NVLAS Market", "ORPTL Market", "WASEA Market" }

  /** The zones those markets lie in. */
  const KnownZones: set<string> := { "US/Arizona", "US/Pacific", "US/Central", "US/Eastern" }

  /** `market_to_timezone`: the IANA zone of a market, or `""` for a market it does not know. */
  function MarketToTimezone(market: string): (zone: string)
    ensures zone != "" <==> market in KnownMarkets
    ensures zone != "" ==> zone in KnownZones
    ensures zone == "US/Arizona" <==> market == "AZPHX Market"
    ensures zone == "US/Central" <==> market == "ILCHI Market"
    ensures zone == "US/Eastern" <==> market in {"MIDET Market", "ININD Market"}
    ensures zone == "US/Pacific" <==>
      market in {"CABAY Market", "CAGLA Market", "CASAN Market", "NVLAS Market", "ORPTL Market", "WASEA Market"}
  {
    match market
    case "AZPHX Market" => "US/Arizona"
    case "CABAY Market" => "US/Pacific"
    case "CAGLA Market" => "US/Pacific"
    case "CASAN Market" => "US/Pacific"
    case "ILCHI Market" => "US/Central"
    case "MIDET Market" => "US/Eastern"
    case "ININD Market" => "US/Eastern"
    case "NVLAS Market" => "US/Pacific"
    case "ORPTL Market" => "US/Pacific"
    case "WASEA Market" => "US/Pacific"
    case _ => ""
  }

  // ------------------------------------------------------------ get_open_close_columns

  /** `calendar.day_name`, Monday first. */
  const DayNames: seq<string> := ["Monday", "Tuesday", "Wednesday", "Thursday", "Friday", "Saturday", "Sunday"]

  /** Positions of a day's opening and closing times in a schedule row. */
  datatype Columns = Columns(open: nat, close: nat)

  /** `get_open_close_columns`: the columns of the day's times, or `None` (Python's implicit
      `None`) for a text that is no weekday name. Day `i` of the week (Monday = 0) has its
      opening time in column 4 + 2i and its closing time right after it. */
  function OpenCloseColumns(day: string): (r: Option<Columns>)
    ensures r.Some? <==> day in DayNames
    ensures forall i :: 0 <= i < |DayNames| && DayNames[i] == day ==> r == Some(Columns(4 + 2 * i, 5 + 2 * i))
  {
    match day
    case "Monday" => Some(Columns(4, 5))
    case "Tuesday" => Some(Columns(6, 7))
    case "Wednesday" => Some(Columns(8, 9))
    case "Thursday" => Some(Columns(10, 11))
    case "Friday" => Some(Columns(12, 13))
    case "Saturday" => Some(Columns(14, 15))
    case "Sunday" => Some(Columns(16, 17))
    case _ => None
  }

  /** Different days use different columns, later days later ones, all inside columns 4..17. */
  lemma ColumnsOfDistinctDays(i: nat, j: nat)
    requires i < j < |DayNames|
    ensures var a, b := OpenCloseColumns(DayNames[i]).value, OpenCloseColumns(DayNames[j]).value;
      && 4 <= a.open < a.close < b.open < b.close <= 17
      && a.close == a.open + 1 && b.close == b.open + 1
  {
    assert DayNames[i] in DayNames && DayNames[j] in DayNames;
  }
}

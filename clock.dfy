/** Times of day and the one time format the schedule's text cells use:
    `datetime.strptime(text, "%I:%M %p").time()`.

    CPython turns that format into the pattern
      hour   `1[0-2]|0[1-9]|[1-9]`
      `:`
      minute `[0-5]\d|\d`
      white space `\s+` (every run of white space in the format becomes `\s+`)
      marker `am|pm`, matched without regard to case,
    and raises `ValueError` unless the match covers the whole text. None of the
    alternatives can match a `:`, a digit after the minute, or white space after
    the white space, so a text matches in at most one way, and the parser below,
    which cuts the text at the first `:`, after the run of digits and after the run
    of white space, accepts exactly the texts the pattern matches in full. */
module Clock {
  import opened PyText

  const MinutesPerDay: nat := 1440
  const MicrosPerMinute: nat := 60_000_000

  /** A naive `datetime.time`: microseconds since midnight. Python compares two such
      values field by field (hour, minute, second, microsecond), which is the order of
      this count. */
  type TimeOfDay = t: nat | t < MinutesPerDay * MicrosPerMinute

  /** The time of day at hour `h`, minute `m`, second `s`, microsecond `us`. */
  function TimeAt(h: nat, m: nat, s: nat, us: nat): (t: TimeOfDay)
    requires h < 24 && m < 60 && s < 60 && us < 1_000_000
    ensures t / MicrosPerMinute == h * 60 + m
  {
    ((h * 60 + m) * 60 + s) * 1_000_000 + us
  }

  /** What a 12-hour clock shows: hour 1..12, minute 0..59, and AM or PM. */
  datatype Reading = Reading(hour: nat, minute: nat, pm: bool)

  predicate ValidReading(rd: Reading)
  {
    1 <= rd.hour <= 12 && rd.minute < 60
  }

  /** The hour of the 24-hour day a reading names: 12 AM is midnight, 12 PM is noon. */
  function Hour24(rd: Reading): (h: nat)
    requires ValidReading(rd)
    ensures h < 24
    ensures rd.pm <==> h >= 12
    ensures h % 12 == rd.hour % 12
  {
    if rd.pm then (if rd.hour == 12 then 12 else rd.hour + 12)
    else (if rd.hour == 12 then 0 else rd.hour)
  }

  /** The minute of the day a reading names. */
  function MinuteOfDay(rd: Reading): (m: nat)
    requires ValidReading(rd)
    ensures m < MinutesPerDay
  {
    Hour24(rd) * 60 + rd.minute
  }

  /** The reading a 12-hour clock shows at minute `m` of the day. */
  function ReadingAt(m: nat): (rd: Reading)
    requires m < MinutesPerDay
    ensures ValidReading(rd)
  {
    var h := m / 60;
    Reading(if h % 12 == 0 then 12 else h % 12, m % 60, h >= 12)
  }

  /** Twelve-hour readings and minutes of the day are in one-to-one correspondence. */
  lemma ReadingAtMinuteOfDay(rd: Reading)
    requires ValidReading(rd)
    ensures ReadingAt(MinuteOfDay(rd)) == rd
  {
    var m := MinuteOfDay(rd);
    assert m / 60 == Hour24(rd) && m % 60 == rd.minute;
  }

  lemma MinuteOfDayReadingAt(m: nat)
    requires m < MinutesPerDay
    ensures MinuteOfDay(ReadingAt(m)) == m
  {
  }

  /** The time of day a reading names, at second 0. */
  function TimeOfReading(rd: Reading): (t: TimeOfDay)
    requires ValidReading(rd)
    ensures t % MicrosPerMinute == 0
    ensures t / MicrosPerMinute == MinuteOfDay(rd)
  {
    TimeAt(Hour24(rd), rd.minute, 0, 0)
  }

  /** Later readings of one day are later times: for two readings, the earlier time
      is the one with the earlier half-day, then the earlier hour (12 first), then
      the earlier minute. */
  lemma TimeOfReadingOrder(a: Reading, b: Reading)
    requires ValidReading(a) && ValidReading(b)
    ensures TimeOfReading(a) < TimeOfReading(b) <==>
      (!a.pm && b.pm) ||
      (a.pm == b.pm && (a.hour % 12 < b.hour % 12 || (a.hour == b.hour && a.minute < b.minute)))
  {
    var ta, tb := TimeOfReading(a), TimeOfReading(b);
    assert ta == MinuteOfDay(a) * MicrosPerMinute;
    assert tb == MinuteOfDay(b) * MicrosPerMinute;
    assert ta < tb <==> MinuteOfDay(a) < MinuteOfDay(b);
  }

  // ------------------------------------------------------------ the fields

  /** The hour field: `1[0-2]|0[1-9]|[1-9]`, as a whole. */
  function HourField(h: string): (r: Option<nat>)
    ensures r.Some? ==> 1 <= r.value <= 12
  {
    if |h| == 1 && '1' <= h[0] <= '9' then Some(DigitValue(h[0]))
    else if |h| == 2 && h[0] == '0' && '1' <= h[1] <= '9' then Some(DigitValue(h[1]))
    else if |h| == 2 && h[0] == '1' && '0' <= h[1] <= '2' then Some(10 + DigitValue(h[1]))
    else None
  }

  /** The minute field: `[0-5]\d|\d`, as a whole. */
  function MinuteField(m: string): (r: Option<nat>)
    ensures r.Some? ==> r.value < 60
  {
    if |m| == 1 && IsDigit(m[0]) then Some(DigitValue(m[0]))
    else if |m| == 2 && '0' <= m[0] <= '5' && IsDigit(m[1]) then Some(10 * DigitValue(m[0]) + DigitValue(m[1]))
    else None
  }

  /** The `%p` field: `am` or `pm` in any mix of case; `Some(true)` for PM. */
  function MarkerField(p: string): (r: Option<bool>)
    ensures r.Some? ==> |p| == 2 && (p[1] == 'm' || p[1] == 'M')
  {
    if |p| == 2 && (p[1] == 'm' || p[1] == 'M') then
      if p[0] == 'a' || p[0] == 'A' then Some(false)
      else if p[0] == 'p' || p[0] == 'P' then Some(true)
      else None
    else None
  }

  /** Length of the run of ASCII digits at the front of `s`. */
  function DigitPrefix(s: string): (n: nat)
    ensures n <= |s| && (forall k :: 0 <= k < n ==> IsDigit(s[k])) && (n < |s| ==> !IsDigit(s[n]))
  {
    if s != [] && IsDigit(s[0]) then 1 + DigitPrefix(s[1..]) else 0
  }

  /** Length of the run of white space at the front of `s`. */
  function SpacePrefix(s: string): (n: nat)
    ensures n <= |s| && AllSpace(s[..n]) && (n < |s| ==> !IsSpace(s[n]))
  {
    if s != [] && IsSpace(s[0]) then
      var n := 1 + SpacePrefix(s[1..]);
      assert s[..n] == [s[0]] + s[1..][..n - 1];
      n
    else 0
  }

  lemma DigitPrefixStops(t: string, u: string)
    requires forall k :: 0 <= k < |t| ==> IsDigit(t[k])
    requires u == [] || !IsDigit(u[0])
    ensures DigitPrefix(t + u) == |t|
    decreases |t|
  {
    if t != [] {
      assert (t + u)[1..] == t[1..] + u;
      DigitPrefixStops(t[1..], u);
    }
  }

  lemma SpacePrefixStops(g: string, u: string)
    requires AllSpace(g)
    requires u == [] || !IsSpace(u[0])
    ensures SpacePrefix(g + u) == |g|
    decreases |g|
  {
    if g != [] {
      assert (g + u)[1..] == g[1..] + u;
      SpacePrefixStops(g[1..], u);
    }
  }

  lemma CutJoins(s: string, i: nat, m: nat, w: nat)
    requires i < |s| && s[i] == ':' && m + w <= |s[i + 1..]|
    ensures var rest := s[i + 1..];
      s == s[..i] + ":" + rest[..m] + rest[m..][..w] + rest[m + w..]
  {
    var rest := s[i + 1..];
    assert rest == rest[..m] + rest[m..][..w] + rest[m + w..];
    assert s == s[..i] + ":" + rest;
    assert s[..i] + ":" + (rest[..m] + rest[m..][..w] + rest[m + w..]) == s[..i] + ":" + rest[..m] + rest[m..][..w] + rest[m + w..];
  }

  /** A text cut where the pattern's fields meet: before the first `:`, after the run of
      digits that follows it, and after the run of white space that follows those. */
  datatype Pieces = Pieces(hour: string, minute: string, gap: string, marker: string)

  function Cut(s: string): (r: Option<Pieces>)
    ensures r.Some? <==> ':' in s
    ensures r.Some? ==> var p := r.value;
      && s == p.hour + ":" + p.minute + p.gap + p.marker
      && ':' !in p.hour
      && (forall k :: 0 <= k < |p.minute| ==> IsDigit(p.minute[k]))
      && AllSpace(p.gap)
  {
    if ':' !in s then None
    else
      var i := IndexOf(s, ':');
      var rest := s[i + 1..];
      var m := DigitPrefix(rest);
      var w := SpacePrefix(rest[m..]);
      CutJoins(s, i, m, w);
      Some(Pieces(s[..i], rest[..m], rest[m..][..w], rest[m + w..]))
  }

  /** What follows the `:` of an assembled text is cut back into its minute, gap and marker. */
  lemma CutTail(minute: string, gap: string, marker: string)
    requires forall k :: 0 <= k < |minute| ==> IsDigit(minute[k])
    requires |gap| > 0 && AllSpace(gap)
    requires marker == [] || (!IsSpace(marker[0]) && !IsDigit(marker[0]))
    ensures var rest, m := minute + (gap + marker), |minute|;
      && DigitPrefix(rest) == m && rest[..m] == minute
      && SpacePrefix(rest[m..]) == |gap| && rest[m..][..|gap|] == gap && rest[m + |gap|..] == marker
  {
    var rest := minute + (gap + marker);
    DigitPrefixStops(minute, gap + marker);
    assert rest[..|minute|] == minute;
    assert rest[|minute|..] == gap + marker;
    SpacePrefixStops(gap, marker);
    assert (gap + marker)[..|gap|] == gap;
    assert rest[|minute| + |gap|..] == marker;
  }

  /** Cutting a text assembled from pieces of the right shapes gives those pieces back. */
  lemma CutAssembled(p: Pieces)
    requires ':' !in p.hour
    requires forall k :: 0 <= k < |p.minute| ==> IsDigit(p.minute[k])
    requires |p.gap| > 0 && AllSpace(p.gap)
    requires p.marker == [] || (!IsSpace(p.marker[0]) && !IsDigit(p.marker[0]))
    ensures Cut(p.hour + ":" + p.minute + p.gap + p.marker) == Some(p)
  {
    var s := p.hour + ":" + p.minute + p.gap + p.marker;
    var tail := p.minute + (p.gap + p.marker);
    assert p.hour + ":" + (p.minute + p.gap + p.marker) == s;
    assert s == p.hour + [':'] + tail;
    IndexOfFirst(p.hour, ':', tail);
    assert s[..|p.hour|] == p.hour;
    assert s[|p.hour| + 1..] == tail;
    CutTail(p.minute, p.gap, p.marker);
  }

  /** The reading `strptime(s, "%I:%M %p")` finds, or `None` where it raises `ValueError`. */
  function ParseReading(s: string): (r: Option<Reading>)
    ensures r.Some? ==> ValidReading(r.value)
  {
    match Cut(s)
    case None => None
    case Some(p) =>
      match (HourField(p.hour), MinuteField(p.minute), MarkerField(p.marker))
      case (Some(h), Some(m), Some(pm)) =>
        if p.gap == [] then None else Some(Reading(h, m, pm))
      case _ => None
  }

  /** `strptime(s, "%I:%M %p").time()`. */
  function ParseTime(s: string): (r: Option<TimeOfDay>)
    ensures r.Some? ==> r.value % MicrosPerMinute == 0
  {
    match ParseReading(s)
    case Some(rd) => Some(TimeOfReading(rd))
    case None => None
  }

  // ------------------------------------------------------------ formatting

  /** The hour as a text the hour field takes: one digit, or two with a leading zero when `pad`. */
  function HourText(h: nat, pad: bool): (s: string)
    requires 1 <= h <= 12
  {
    if h >= 10 then ['1', DigitChar(h - 10)]
    else if pad then ['0', DigitChar(h)]
    else [DigitChar(h)]
  }

  /** The minute as a text the minute field takes: two digits, or one when `pad` is off and it is below 10. */
  function MinuteText(m: nat, pad: bool): (s: string)
    requires m < 60
  {
    if m >= 10 || pad then [DigitChar(m / 10), DigitChar(m % 10)]
    else [DigitChar(m)]
  }

  /** The markers `%p` accepts for the given half of the day. */
  predicate IsMarker(p: string, pm: bool)
  {
    && |p| == 2
    && (p[1] == 'm' || p[1] == 'M')
    && (if pm then p[0] == 'p' || p[0] == 'P' else p[0] == 'a' || p[0] == 'A')
  }

  /** A text of the form "%I:%M %p" showing `rd`: "9:05 AM", "09:05 pm", "9:5\tAm", ... */
  function FormatReading(rd: Reading, padHour: bool, padMinute: bool, gap: string, marker: string): string
    requires ValidReading(rd)
  {
    HourText(rd.hour, padHour) + ":" + MinuteText(rd.minute, padMinute) + gap + marker
  }

  predicate WellFormedPieces(rd: Reading, gap: string, marker: string)
  {
    ValidReading(rd) && |gap| > 0 && AllSpace(gap) && IsMarker(marker, rd.pm)
  }

  lemma HourTextField(h: nat, pad: bool)
    requires 1 <= h <= 12
    ensures HourField(HourText(h, pad)) == Some(h) && ':' !in HourText(h, pad)
  {
  }

  lemma MinuteTextField(m: nat, pad: bool)
    requires m < 60
    ensures var t := MinuteText(m, pad); MinuteField(t) == Some(m) && |t| > 0 && DigitPrefix(t) == |t|
  {
    var t := MinuteText(m, pad);
    if m >= 10 || pad {
      assert t[1..][1..] == [];
    }
  }

  /** Every text of the form "%I:%M %p" is read back as the reading it shows. */
  lemma ParseFormatted(rd: Reading, padHour: bool, padMinute: bool, gap: string, marker: string)
    requires WellFormedPieces(rd, gap, marker)
    ensures ParseReading(FormatReading(rd, padHour, padMinute, gap, marker)) == Some(rd)
  {
    var p := Pieces(HourText(rd.hour, padHour), MinuteText(rd.minute, padMinute), gap, marker);
    HourTextField(rd.hour, padHour);
    MinuteTextField(rd.minute, padMinute);
    CutAssembled(p);
  }

  lemma HourFieldText(h: string)
    requires HourField(h).Some?
    ensures h == HourText(HourField(h).value, |h| == 2)
  {
  }

  lemma MinuteFieldText(m: string)
    requires MinuteField(m).Some?
    ensures m == MinuteText(MinuteField(m).value, |m| == 2)
  {
  }

  /** And a text `strptime` accepts is one of those forms, of the reading found. */
  lemma ParsedIsFormatted(s: string)
    requires ParseReading(s).Some?
    ensures var rd := ParseReading(s).value;
      exists padHour: bool, padMinute: bool, gap: string, marker: string ::
        WellFormedPieces(rd, gap, marker) && s == FormatReading(rd, padHour, padMinute, gap, marker)
  {
    var rd := ParseReading(s).value;
    var p := Cut(s).value;
    HourFieldText(p.hour);
    MinuteFieldText(p.minute);
    assert WellFormedPieces(rd, p.gap, p.marker);
    assert s == FormatReading(rd, |p.hour| == 2, |p.minute| == 2, p.gap, p.marker);
  }
}

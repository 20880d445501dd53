/** The Python string built-ins the reconciliation pass relies on: `str.split` with a
    one-character separator, `str.strip()` without arguments, and `int()` on a string
    in base 10, with `str(n)` as the formatting that `int()` inverts. */
module PyText {

  datatype Option<T> = None | Some(value: T)

  /** `c.isspace()`: the ASCII separators 9..13 and 28..31, the space, and Unicode's white space. */
  predicate IsSpace(c: char)
  {
    c == ' ' || ('\t' <= c <= '\r') || ('\U{1C}' <= c <= '\U{1F}') || c == '\U{85}' || c == '\U{A0}'
    || c == '\U{1680}' || ('\U{2000}' <= c <= '\U{200A}') || c == '\U{2028}' || c == '\U{2029}'
    || c == '\U{202F}' || c == '\U{205F}' || c == '\U{3000}'
  }

  predicate AllSpace(s: string)
  {
    forall k :: 0 <= k < |s| ==> IsSpace(s[k])
  }

  // ---------------------------------------------------------------- strip

  /** Drops the white space at the front of `s`, and only that. */
  function StripLeft(s: string): (r: string)
    ensures |r| <= |s| && r == s[|s| - |r|..]
    ensures AllSpace(s[..|s| - |r|])
    ensures r == [] || !IsSpace(r[0])
  {
    if s != [] && IsSpace(s[0]) then
      var r := StripLeft(s[1..]);
      assert s[..|s| - |r|] == [s[0]] + s[1..][..|s[1..]| - |r|];
      r
    else s
  }

  /** Drops the white space at the back of `s`, and only that. */
  function StripRight(s: string): (r: string)
    ensures |r| <= |s| && r == s[..|r|]
    ensures AllSpace(s[|r|..])
    ensures r == [] || !IsSpace(r[|r| - 1])
  {
    if s != [] && IsSpace(s[|s| - 1]) then
      var r := StripRight(s[..|s| - 1]);
      assert s[|r|..] == s[..|s| - 1][|r|..] + [s[|s| - 1]];
      r
    else s
  }

  /** `s.strip()`: the middle of `s` once the white space at both ends is gone. */
  function Strip(s: string): (r: string)
    ensures r == [] || (!IsSpace(r[0]) && !IsSpace(r[|r| - 1]))
  {
    StripRight(StripLeft(s))
  }

  lemma {:induction false} StripLeftPadded(pad: string, x: string)
    requires AllSpace(pad)
    requires x == [] || !IsSpace(x[0])
    ensures StripLeft(pad + x) == x
    decreases |pad|
  {
    if pad != [] {
      assert (pad + x)[1..] == pad[1..] + x;
      StripLeftPadded(pad[1..], x);
    }
  }

  lemma {:induction false} StripRightPadded(x: string, pad: string)
    requires AllSpace(pad)
    requires x == [] || !IsSpace(x[|x| - 1])
    ensures StripRight(x + pad) == x
    decreases |pad|
  {
    if pad != [] {
      assert (x + pad)[..|x + pad| - 1] == x + pad[..|pad| - 1];
      StripRightPadded(x, pad[..|pad| - 1]);
    }
  }

  /** `strip()` removes exactly the padding around a text that neither begins nor ends in white space. */
  lemma StripPadded(pad1: string, x: string, pad2: string)
    requires AllSpace(pad1) && AllSpace(pad2)
    requires x == [] || (!IsSpace(x[0]) && !IsSpace(x[|x| - 1]))
    ensures Strip(pad1 + x + pad2) == x
  {
    if x == [] {
      assert pad1 + x + pad2 == pad1 + pad2 + [];
      StripLeftPadded(pad1 + pad2, []);
    } else {
      assert pad1 + x + pad2 == pad1 + (x + pad2);
      StripLeftPadded(pad1, x + pad2);
      StripRightPadded(x, pad2);
    }
  }

  // ---------------------------------------------------------------- split

  /** Position of the first `d` in `s`. */
  function IndexOf(s: string, d: char): (i: nat)
    requires d in s
    ensures i < |s| && s[i] == d && d !in s[..i]
  {
    if s[0] == d then 0
    else
      var j := IndexOf(s[1..], d);
      assert s[..j + 1] == [s[0]] + s[1..][..j];
      j + 1
  }

  /** The pieces joined back together, with `d` between neighbours. */
  function Join(parts: seq<string>, d: char): string
  {
    if parts == [] then []
    else if |parts| == 1 then parts[0]
    else parts[0] + [d] + Join(parts[1..], d)
  }

  /** `s.split(d)`: the pieces of `s` between successive occurrences of `d`. */
  function Split(s: string, d: char): (parts: seq<string>)
    ensures |parts| >= 1
    ensures forall k :: 0 <= k < |parts| ==> d !in parts[k]
    ensures Join(parts, d) == s
    ensures |parts| == 1 <==> d !in s
    decreases |s|
  {
    if d !in s then [s]
    else
      var i := IndexOf(s, d);
      var rest := Split(s[i + 1..], d);
      assert s == s[..i] + [d] + s[i + 1..];
      [s[..i]] + rest
  }

  lemma IndexOfFirst(a: string, d: char, rest: string)
    requires d !in a
    ensures d in a + [d] + rest && IndexOf(a + [d] + rest, d) == |a|
  {
    var s := a + [d] + rest;
    assert s[|a|] == d;
  }

  /** Splitting at the first separator leaves the text before it as the first piece. */
  lemma SplitAfterFirst(a: string, d: char, rest: string)
    requires d !in a
    ensures Split(a + [d] + rest, d) == [a] + Split(rest, d)
  {
    var s := a + [d] + rest;
    IndexOfFirst(a, d, rest);
    assert s[..|a|] == a;
    assert s[|a| + 1..] == rest;
  }

  /** A piece followed by the separator or by nothing splits off as the first piece. */
  lemma SplitFirstPiece(segment: string, d: char, suffix: string)
    requires d !in segment
    requires suffix == [] || suffix[0] == d
    ensures Split(segment + suffix, d)[0] == segment
  {
    if suffix == [] {
      assert segment + suffix == segment;
    } else {
      assert segment + suffix == segment + [d] + suffix[1..] by { assert suffix == [d] + suffix[1..]; }
      SplitAfterFirst(segment, d, suffix[1..]);
    }
  }

  /** `(prefix + d + segment + suffix).split(d)[1]` is `segment` when `suffix` is empty or starts a new piece. */
  lemma SplitSecond(prefix: string, d: char, segment: string, suffix: string)
    requires d !in prefix && d !in segment
    requires suffix == [] || suffix[0] == d
    ensures var parts := Split(prefix + [d] + segment + suffix, d); |parts| >= 2 && parts[1] == segment
  {
    assert prefix + [d] + segment + suffix == prefix + [d] + (segment + suffix);
    SplitAfterFirst(prefix, d, segment + suffix);
    SplitFirstPiece(segment, d, suffix);
  }

  // ---------------------------------------------------------------- int()

  predicate IsDigit(c: char)
  {
    '0' <= c <= '9'
  }

  function DigitValue(c: char): (v: nat)
    requires IsDigit(c)
    ensures v < 10
  {
    (c as int) - ('0' as int)
  }

  function DigitChar(v: nat): (c: char)
    requires v < 10
    ensures IsDigit(c) && DigitValue(c) == v
  {
    (('0' as int) + v) as char
  }

  predicate DigitsOrUnderscores(s: string)
  {
    forall k :: 0 <= k < |s| ==> IsDigit(s[k]) || s[k] == '_'
  }

  /** The digit strings `int()` takes in base 10: ASCII digits, single underscores allowed between two digits. */
  predicate IsDigitRun(s: string)
  {
    && |s| > 0
    && DigitsOrUnderscores(s)
    && IsDigit(s[0]) && IsDigit(s[|s| - 1])
    && forall k :: 0 <= k < |s| - 1 && s[k] == '_' ==> s[k + 1] != '_'
  }

  /** The decimal value of the digits of `s`, its underscores ignored. */
  function DigitsValue(s: string): nat
    requires DigitsOrUnderscores(s)
  {
    if s == [] then 0
    else if s[|s| - 1] == '_' then DigitsValue(s[..|s| - 1])
    else DigitsValue(s[..|s| - 1]) * 10 + DigitValue(s[|s| - 1])
  }

  predicate IsSign(c: char)
  {
    c == '+' || c == '-'
  }

  /** Python's default limit on the number of digits `int()` converts from a string
      (`sys.int_info.default_max_str_digits`); a longer digit string raises `ValueError`. */
  const MaxStrDigits: nat := 4300

  /** The number of ASCII digits in `s`: leading zeros count, underscores and signs do not. */
  function DigitCount(s: string): (n: nat)
    ensures n <= |s|
  {
    if s == [] then 0
    else DigitCount(s[..|s| - 1]) + (if IsDigit(s[|s| - 1]) then 1 else 0)
  }

  /** Appending a digit or an underscore to a run of them, as `DigitsValue` and `DigitCount` read it. */
  lemma DigitsSnoc(s: string, c: char)
    requires DigitsOrUnderscores(s) && (IsDigit(c) || c == '_')
    ensures DigitsOrUnderscores(s + [c])
    ensures DigitsValue(s + [c]) == if c == '_' then DigitsValue(s) else DigitsValue(s) * 10 + DigitValue(c)
    ensures DigitCount(s + [c]) == DigitCount(s) + (if c == '_' then 0 else 1)
  {
    assert (s + [c])[..|s|] == s;
  }

  /** A string of digits only has as many digits as characters. */
  lemma {:induction false} DigitCountAllDigits(s: string)
    requires forall k :: 0 <= k < |s| ==> IsDigit(s[k])
    ensures DigitCount(s) == |s|
  {
    if s != [] {
      DigitCountAllDigits(s[..|s| - 1]);
    }
  }

  /** `int(t)` on an unsigned digit string: its value when it is a digit run within the limit. */
  function ParseDigits(t: string): (r: Option<nat>)
    ensures r.Some? <==> IsDigitRun(t) && DigitCount(t) <= MaxStrDigits
  {
    if IsDigitRun(t) && DigitCount(t) <= MaxStrDigits then Some(DigitsValue(t)) else None
  }

  /** `int(s)` in base 10 on an already stripped string; `None` where Python raises `ValueError`,
      including a digit string longer than the default limit. */
  function ParseInt(s: string): (r: Option<int>)
    ensures r.Some? ==> s != [] && !IsSpace(s[0]) && !IsSpace(s[|s| - 1])
    ensures r.Some? && s[0] == '-' ==> r.value <= 0
    ensures r.Some? && s[0] != '-' ==> r.value >= 0
  {
    if s != [] && IsSign(s[0]) then
      match ParseDigits(s[1..])
      case Some(n) => Some(if s[0] == '-' then -(n as int) else n)
      case None => None
    else
      match ParseDigits(s)
      case Some(n) => Some(n)
      case None => None
  }

  /** The sign texts `int()` takes before the digits: none, `+` or `-`. */
  predicate IsSignText(sign: string)
  {
    sign == "" || sign == "+" || sign == "-"
  }

  /** A digit run's value under a sign text. */
  function Signed(sign: string, v: nat): int
  {
    if sign == "-" then -(v as int) else v
  }

  /** The base-10 integer literals `int()` accepts once stripped: an optional sign, then a digit
      run of at most the limit's number of digits. */
  ghost predicate IsIntLiteral(s: string)
  {
    exists sign, t :: IsSignText(sign) && s == sign + t && IsDigitRun(t) && DigitCount(t) <= MaxStrDigits
  }

  /** Every text `int()` accepts is an integer literal, and its value is the literal's signed
      digit value; with ParseIntDigitLimit, `int()` accepts exactly the integer literals. */
  lemma ParseIntAccepted(s: string)
    requires ParseInt(s).Some?
    ensures exists sign, t :: && IsSignText(sign) && s == sign + t && IsDigitRun(t) && DigitCount(t) <= MaxStrDigits
                              && ParseInt(s).value == Signed(sign, DigitsValue(t))
  {
    if IsSign(s[0]) {
      var sign, t := s[..1], s[1..];
      assert s == sign + t;
      assert IsSignText(sign) by { assert sign == [s[0]]; }
    } else {
      assert s == "" + s;
    }
  }

  /** A text that is no integer literal makes `int()` raise `ValueError`. */
  lemma ParseIntRejects(s: string)
    requires !IsIntLiteral(s)
    ensures ParseInt(s).None?
  {
    if ParseInt(s).Some? {
      ParseIntAccepted(s);
    }
  }

  /** On an optional sign followed by a digit run, `int()` succeeds exactly when the run is
      within the digit limit, and then yields the run's value with the sign applied. */
  lemma ParseIntDigitLimit(sign: string, t: string)
    requires IsSignText(sign)
    requires IsDigitRun(t)
    ensures ParseInt(sign + t) == if DigitCount(t) <= MaxStrDigits then Some(Signed(sign, DigitsValue(t))) else None
  {
    if sign == "" {
      assert sign + t == t;
      UnsignedRun(t);
    } else {
      SignedRun(sign + t);
    }
  }

  lemma UnsignedRun(t: string)
    requires IsDigitRun(t)
    ensures ParseInt(t) == if DigitCount(t) <= MaxStrDigits then Some(DigitsValue(t) as int) else None
  {
    assert IsDigit(t[0]) && !IsSign(t[0]);
  }

  lemma SignedRun(s: string)
    requires |s| > 0 && IsSign(s[0]) && IsDigitRun(s[1..])
    ensures ParseInt(s) ==
      if DigitCount(s[1..]) <= MaxStrDigits then Some(if s[0] == '-' then -(DigitsValue(s[1..]) as int) else DigitsValue(s[1..]))
      else None
  {
  }

  /** `str(n)` for a natural number. */
  function FormatNat(n: nat): (s: string)
    ensures |s| > 0 && forall k :: 0 <= k < |s| ==> IsDigit(s[k])
    decreases n
  {
    if n < 10 then [DigitChar(n)] else FormatNat(n / 10) + [DigitChar(n % 10)]
  }

  /** `str(n)` for an integer: a minus sign before the digits of a negative one. */
  function FormatInt(n: int): (s: string)
    ensures |s| > 0
  {
    if n < 0 then "-" + FormatNat(-n) else FormatNat(n)
  }

  lemma {:induction false} FormatNatValue(n: nat)
    ensures DigitsOrUnderscores(FormatNat(n)) && DigitsValue(FormatNat(n)) == n
    decreases n
  {
    var s := FormatNat(n);
    if n >= 10 {
      FormatNatValue(n / 10);
      assert s[..|s| - 1] == FormatNat(n / 10);
    }
  }

  /** `int(str(n)) == n`: parsing undoes formatting, for every integer whose decimal form
      is within the digit limit (beyond it `str(n)` itself raises `ValueError`). */
  lemma FormatIntRoundTrip(n: int)
    requires |FormatNat(if n < 0 then -n else n)| <= MaxStrDigits
    ensures ParseInt(FormatInt(n)) == Some(n)
  {
    var s := FormatInt(n);
    if n < 0 {
      FormatNatValue(-n);
      DigitCountAllDigits(FormatNat(-n));
      assert s[1..] == FormatNat(-n);
    } else {
      FormatNatValue(n);
      DigitCountAllDigits(FormatNat(n));
    }
  }

  /** `str(n)` neither begins nor ends in white space and holds no `d` other than a digit or sign. */
  lemma FormatIntPlain(n: int, d: char)
    requires !IsDigit(d) && d != '-'
    ensures var s := FormatInt(n); !IsSpace(s[0]) && !IsSpace(s[|s| - 1]) && d !in s
  {
    var s := FormatInt(n);
    assert forall k :: 0 <= k < |s| ==> IsDigit(s[k]) || s[k] == '-';
  }
}

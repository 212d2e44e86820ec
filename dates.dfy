/** Calendar dates as pandas produces them with `.dt.date`, their ordering
    (the order in which `groupby` lists its keys) and the `"%Y-%m-%d"`
    rendering that `date.strftime` gives them. */
module Dates {
  import opened Wrappers

  /** pandas timestamps span the years 1677 to 2262, so every calendar date
      drawn from one has a four-digit year. */
  const MinYear: int := 1677
  const MaxYear: int := 2262

  datatype CalendarDate = CalendarDate(year: int, month: int, day: int)

  predicate IsLeapYear(y: int) {
    y % 4 == 0 && (y % 100 != 0 || y % 400 == 0)
  }

  function DaysInMonth(y: int, m: int): (n: int)
    requires 1 <= m <= 12
    ensures 28 <= n <= 31
  {
    if m == 2 then (if IsLeapYear(y) then 29 else 28)
    else if m == 4 || m == 6 || m == 9 || m == 11 then 30
    else 31
  }

  predicate IsValidDate(d: CalendarDate) {
    && MinYear <= d.year <= MaxYear
    && 1 <= d.month <= 12
    && 1 <= d.day <= DaysInMonth(d.year, d.month)
  }

  /** A proleptic Gregorian date inside the pandas timestamp range. */
  type Date = d: CalendarDate | IsValidDate(d) witness CalendarDate(1970, 1, 1)

  /** Nanoseconds since midnight. */
  type TimeOfDay = n: nat | n < 86_400_000_000_000

  /** A valid (non-NaT) pandas timestamp: its calendar date and its time of day. */
  datatype Timestamp = Timestamp(date: Date, time: TimeOfDay)

  /** Strict chronological order; `groupby` lists its keys in this order. */
  predicate Before(a: Date, b: Date) {
    || a.year < b.year
    || (a.year == b.year && a.month < b.month)
    || (a.year == b.year && a.month == b.month && a.day < b.day)
  }

  lemma BeforeTransitive(a: Date, b: Date, c: Date)
    requires Before(a, b) && Before(b, c)
    ensures Before(a, c)
  {
  }

  /** Every non-empty finite set of dates has an earliest member. */
  lemma {:induction false} EarliestExists(s: set<Date>)
    requires s != {}
    ensures exists d :: d in s && forall e :: e in s && e != d ==> Before(d, e)
  {
    var x :| x in s;
    if s != {x} {
      EarliestExists(s - {x});
      var m :| m in s - {x} && forall e :: e in s - {x} && e != m ==> Before(m, e);
      if Before(x, m) {
        forall e | e in s && e != x
          ensures Before(x, e)
        {
          if e != m {
            assert e in s - {x};
            BeforeTransitive(x, m, e);
          }
        }
      } else {
        assert forall e :: e in s && e != m ==> Before(m, e);
      }
    }
  }

  /** Days in strictly increasing order, stated on neighbours. */
  predicate Chronological(days: seq<Date>) {
    |days| < 2 || (Before(days[0], days[1]) && Chronological(days[1..]))
  }

  /** Being ordered on neighbours orders every pair. */
  lemma {:induction false} ChronologicalPairwise(days: seq<Date>, i: nat, j: nat)
    requires Chronological(days) && i < j < |days|
    ensures Before(days[i], days[j])
    decreases |days|, j - i
  {
    if i + 1 == j {
      if i > 0 {
        ChronologicalPairwise(days[1..], i - 1, j - 1);
      }
    } else {
      ChronologicalPairwise(days, i, j - 1);
      ChronologicalPairwise(days, j - 1, j);
      BeforeTransitive(days[i], days[j - 1], days[j]);
    }
  }

  /** The members of a set of days, earliest first: the order in which
      `groupby` (with its default `sort=True`) lists its keys. */
  function Ascending(days: set<Date>): (order: seq<Date>)
    ensures Chronological(order) && |order| == |days|
    ensures forall d :: d in order <==> d in days
    decreases days
  {
    if days == {} then []
    else
      EarliestExists(days);
      var d :| d in days && forall e :: e in days && e != d ==> Before(d, e);
      var rest := Ascending(days - {d});
      assert |days - {d}| == |days| - 1;
      assert ([d] + rest)[1..] == rest;
      [d] + rest
  }

  // ---------------------------------------------------------------------
  // Zero-padded decimal digits

  function Pow10(n: nat): (p: nat)
    ensures p >= 1
  {
    if n == 0 then 1 else 10 * Pow10(n - 1)
  }

  predicate IsDigit(c: char) {
    '0' <= c <= '9'
  }

  function DigitChar(n: int): (c: char)
    requires 0 <= n < 10
    ensures IsDigit(c) && (c as int) - ('0' as int) == n
  {
    ('0' as int + n) as char
  }

  /** `n` written in exactly `width` decimal digits, with leading zeros. */
  function Padded(n: nat, width: nat): (s: string)
    ensures |s| == width
    ensures forall i :: 0 <= i < |s| ==> IsDigit(s[i])
  {
    if width == 0 then "" else Padded(n / 10, width - 1) + [DigitChar(n % 10)]
  }

  /** The number a string of decimal digits denotes. */
  function DigitsValue(s: string): int {
    if s == [] then 0
    else DigitsValue(s[..|s| - 1]) * 10 + ((s[|s| - 1] as int) - ('0' as int))
  }

  lemma {:induction false} PaddedRoundTrip(n: nat, width: nat)
    requires n < Pow10(width)
    ensures DigitsValue(Padded(n, width)) == n
  {
    if width > 0 {
      var s := Padded(n / 10, width - 1);
      PaddedRoundTrip(n / 10, width - 1);
      assert (s + [DigitChar(n % 10)])[..|s|] == s;
    }
  }

  // ---------------------------------------------------------------------
  // strftime("%Y-%m-%d") and its inverse

  /** `date.strftime("%Y-%m-%d")`: four-digit year, two-digit month, two-digit
      day, separated by dashes. */
  function FormatDate(d: Date): (s: string)
    ensures |s| == 10 && s[4] == '-' && s[7] == '-'
    ensures forall i :: 0 <= i < 10 && i != 4 && i != 7 ==> IsDigit(s[i])
  {
    Padded(d.year, 4) + "-" + Padded(d.month, 2) + "-" + Padded(d.day, 2)
  }

  predicate AllDigits(s: string) {
    forall i :: 0 <= i < |s| ==> IsDigit(s[i])
  }

  /** Reads a `YYYY-MM-DD` string back into a date; `None` for anything that is
      not ten characters of that shape denoting a valid date. */
  function ParseDate(s: string): (r: Option<Date>)
    ensures r.Some? ==> |s| == 10 && s[4] == '-' && s[7] == '-'
  {
    if |s| != 10 || s[4] != '-' || s[7] != '-' then None
    else if !AllDigits(s[..4]) || !AllDigits(s[5..7]) || !AllDigits(s[8..]) then None
    else
      var d := CalendarDate(DigitsValue(s[..4]), DigitsValue(s[5..7]), DigitsValue(s[8..]));
      if IsValidDate(d) then Some(d) else None
  }

  /** Reading a formatted date gives the date back. */
  lemma FormatDateRoundTrip(d: Date)
    ensures ParseDate(FormatDate(d)) == Some(d)
  {
    var y, m, dd := Padded(d.year, 4), Padded(d.month, 2), Padded(d.day, 2);
    var s := FormatDate(d);
    assert s[..4] == y;
    assert s[5..7] == m;
    assert s[8..] == dd;
    assert Pow10(4) == 10000 && Pow10(2) == 100;
    PaddedRoundTrip(d.year, 4);
    PaddedRoundTrip(d.month, 2);
    PaddedRoundTrip(d.day, 2);
  }

  /** Distinct dates are rendered as distinct strings. */
  lemma FormatDateInjective(a: Date, b: Date)
    ensures FormatDate(a) == FormatDate(b) <==> a == b
  {
    if FormatDate(a) == FormatDate(b) {
      FormatDateRoundTrip(a);
      FormatDateRoundTrip(b);
    }
  }
}

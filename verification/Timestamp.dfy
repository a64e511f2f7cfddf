/**
 * Timestamp text: the printer for server timestamps (crates/mxdx-matrix/src/client.rs) and
 * the parser used for worker liveness (crates/mxdx-client/src/liveness.rs).
 */
module Timestamp {
  import opened Common
  import opened Calendar

  const U64: int := 0x1_0000_0000_0000_0000
  const I64: int := 0x8000_0000_0000_0000
  const DAY_MS: int := 86_400_000

  /** The first millisecond of the year 10000. */
  const YEAR_10000_MS: int := 253_402_300_800_000

  // ---------------------------------------------------------------------------
  // Decimal numbers
  // ---------------------------------------------------------------------------

  predicate IsDigit(c: char) {
    '0' <= c <= '9'
  }

  function DigitChar(d: nat): char
    requires d < 10
  {
    '0' + d as char
  }

  function DigitValue(c: char): nat
    requires IsDigit(c)
  {
    c as nat - '0' as nat
  }

  /** Rust's `{:0w}` for a non-negative number: at least `w` digits, and at least one. */
  function Pad(n: nat, w: nat): string
    decreases n, w
  {
    if n < 10 && w <= 1 then [DigitChar(n)]
    else Pad(n / 10, if w > 0 then w - 1 else 0) + [DigitChar(n % 10)]
  }

  function Value(digits: string): nat
    requires forall c :: c in digits ==> IsDigit(c)
  {
    if digits == "" then 0
    else 10 * Value(digits[..|digits| - 1]) + DigitValue(digits[|digits| - 1])
  }

  predicate AllDigits(s: string) {
    s != "" && forall c :: c in s ==> IsDigit(c)
  }

  /** Rust's `parse::<u64>()`: digits, an optional plus sign, and no overflow. */
  function ParseU64(s: string): Option<nat> {
    var digits := if s != "" && s[0] == '+' then s[1..] else s;
    if AllDigits(digits) && Value(digits) < U64 then Some(Value(digits)) else None
  }

  /** Rust's `parse::<i64>()`. */
  function ParseI64(s: string): Option<int> {
    if s != "" && s[0] == '-' then
      if !AllDigits(s[1..]) then None
      else
        var v: int := Value(s[1..]);
        if v <= I64 then Some(-v) else None
    else
      match ParseU64(s)
      case Some(n) => if n < I64 then Some(n) else None
      case None => None
  }

  lemma {:induction false} PadIsNumber(n: nat, w: nat)
    ensures AllDigits(Pad(n, w))
    ensures Value(Pad(n, w)) == n
    decreases n, w
  {
    if n < 10 && w <= 1 {
      assert Pad(n, w)[..0] == "";
    } else {
      var init := Pad(n / 10, if w > 0 then w - 1 else 0);
      PadIsNumber(n / 10, if w > 0 then w - 1 else 0);
      assert Pad(n, w)[..|Pad(n, w)| - 1] == init;
    }
  }

  lemma PadParses(n: nat, w: nat)
    requires n < U64
    ensures ParseU64(Pad(n, w)) == Some(n)
    ensures n < I64 ==> ParseI64(Pad(n, w)) == Some(n)
  {
    PadIsNumber(n, w);
    assert Pad(n, w)[0] in Pad(n, w);
  }

  function Pow10(w: nat): nat {
    if w == 0 then 1 else 10 * Pow10(w - 1)
  }

  lemma {:induction false} PadWidth(n: nat, w: nat)
    requires w >= 1
    ensures |Pad(n, w)| >= w
    ensures |Pad(n, w)| == w <==> n < Pow10(w)
    decreases w
  {
    if w == 1 {
      PadGrows(n);
    } else {
      PadWidth(n / 10, w - 1);
    }
  }

  lemma PadGrows(n: nat)
    ensures n < 10 <==> |Pad(n, 1)| == 1
    ensures |Pad(n, 1)| >= 1
  {
    if n >= 10 {
      PadIsNumber(n / 10, 0);
    }
  }

  // ---------------------------------------------------------------------------
  // Splitting
  // ---------------------------------------------------------------------------

  /** Rust's `split_once`: around the first occurrence of `c`. */
  function SplitOnce(s: string, c: char): Option<(string, string)> {
    if s == "" then None
    else if s[0] == c then Some(("", s[1..]))
    else
      match SplitOnce(s[1..], c)
      case Some((a, b)) => Some(([s[0]] + a, b))
      case None => None
  }

  lemma {:induction false} SplitAt(a: string, c: char, b: string)
    requires c !in a
    ensures SplitOnce(a + [c] + b, c) == Some((a, b))
  {
    var s := a + [c] + b;
    if a == "" {
      assert s[1..] == b;
    } else {
      assert s[0] == a[0] && s[1..] == a[1..] + [c] + b;
      SplitAt(a[1..], c, b);
      assert [a[0]] + a[1..] == a;
    }
  }

  /** Three parts: the first two end at the first and second `c`, the third is the rest. */
  function SplitThree(s: string, c: char): Option<(string, string, string)> {
    match SplitOnce(s, c)
    case None => None
    case Some((a, rest)) =>
      match SplitOnce(rest, c)
      case None => None
      case Some((b, d)) => Some((a, b, d))
  }

  lemma SplitThreeAt(a: string, c: char, b: string, d: string)
    requires c !in a && c !in b
    ensures SplitThree(a + [c] + b + [c] + d, c) == Some((a, b, d))
  {
    assert a + [c] + b + [c] + d == a + [c] + (b + [c] + d);
    SplitAt(a, c, b + [c] + d);
    SplitAt(b, c, d);
  }

  function StripSuffix(s: string, suffix: string): Option<string> {
    if |suffix| <= |s| && s[|s| - |suffix|..] == suffix then Some(s[..|s| - |suffix|]) else None
  }

  // ---------------------------------------------------------------------------
  // The printer
  // ---------------------------------------------------------------------------

  datatype TimeOfDay = TimeOfDay(hour: nat, minute: nat, second: nat, millis: nat)

  predicate ValidTime(t: TimeOfDay) {
    t.hour < 24 && t.minute < 60 && t.second < 60 && t.millis < 1000
  }

  function TimeFromMs(ms: nat): TimeOfDay {
    var secs := ms / 1000;
    var daySecs := secs % 86400;
    TimeOfDay(daySecs / 3600, daySecs % 3600 / 60, daySecs % 60, ms % 1000)
  }

  function DateFromMs(ms: nat): Date {
    CivilFromDays(ms / 1000 / 86400)
  }

  function DateText(date: Date): string
    requires Valid(date) && date.year >= 0
  {
    Pad(date.year, 4) + ['-'] + Pad(date.month, 2) + ['-'] + Pad(date.day, 2)
  }

  function TimeText(t: TimeOfDay): string {
    (Pad(t.hour, 2) + [':'] + Pad(t.minute, 2) + [':'] + Pad(t.second, 2)) + ['.'] + Pad(t.millis, 3)
  }

  function Text(date: Date, t: TimeOfDay): string
    requires Valid(date) && date.year >= 0
  {
    DateText(date) + ['T'] + TimeText(t) + ['Z']
  }

  /** The text printed for a server timestamp. */
  function Print(ms: nat): string {
    YearIsBounded(ms);
    Text(DateFromMs(ms), TimeFromMs(ms))
  }

  lemma YearSpan(days: int)
    ensures Valid(CivilFromDays(days))
    ensures YearStart(CivilFromDays(days).year) <= days < YearStart(CivilFromDays(days).year + 1)
  {
    hide CivilFromDays, DaysFromCivil, YearStart, MonthStart;
    var date := CivilFromDays(days);
    DaysOfCivil(days);
    DaysAreNaive(date);
    YearStartStep(date.year);
    MonthWithinYear(date);
  }

  lemma MonthWithinYear(date: Date)
    requires Valid(date)
    ensures MonthStart(date.year, date.month) + date.day <= YearLength(date.year)
  {
    MonthStartClosed(date.year, date.month);
  }

  lemma {:induction false} YearStartIncreases(a: int, b: int)
    requires a < b
    ensures YearStart(a) < YearStart(b)
    decreases b - a
  {
    YearStartStep(b - 1);
    if a < b - 1 {
      YearStartIncreases(a, b - 1);
    }
  }

  /** A bound on years is a bound on days. */
  lemma YearIffDays(days: int, year: int)
    ensures CivilFromDays(days).year < year <==> days < YearStart(year)
  {
    YearSpan(days);
    var y := CivilFromDays(days).year;
    if y + 1 < year {
      YearStartIncreases(y + 1, year);
    } else if year < y {
      YearStartIncreases(year, y);
    }
  }

  lemma YearIsBounded(ms: nat)
    ensures Valid(DateFromMs(ms)) && DateFromMs(ms).year >= 1970
  {
    hide CivilFromDays, YearStart;
    YearSpan(ms / 1000 / 86400);
    YearIffDays(ms / 1000 / 86400, 1970);
    EpochYear();
  }

  lemma EpochYear()
    ensures YearStart(1970) == 0
  {
  }

  // ---------------------------------------------------------------------------
  // The parser
  // ---------------------------------------------------------------------------

  /**
   * `Overflow` stands for an arithmetic overflow of the 64-bit computation, which panics in a
   * checked build and wraps otherwise.
   */
  datatype ParseResult = Rejected | Overflow | Parsed(ms: nat)

  function ParseDate(s: string): Option<Date> {
    match SplitThree(s, '-')
    case None => None
    case Some((ys, ms, ds)) =>
      match (ParseI64(ys), ParseU64(ms), ParseU64(ds))
      case (Some(y), Some(m), Some(d)) =>
        if 1 <= m <= 12 && 1 <= d <= 31 then Some(Date(y, m, d)) else None
      case _ => None
  }

  /** Keeps at most three characters, padding with zeros on the right. */
  function Millis(frac: string): string {
    if |frac| >= 3 then frac[..3] else frac + seq(3 - |frac|, _ => '0')
  }

  function ParseTime(s: string): Option<TimeOfDay> {
    var (main, frac) := match SplitOnce(s, '.')
      case Some((main, frac)) => (main, ParseU64(Millis(frac)))
      case None => (s, Some(0));
    match SplitThree(main, ':')
    case None => None
    case Some((hs, ms, ss)) =>
      match (ParseU64(hs), ParseU64(ms), ParseU64(ss), frac)
      case (Some(h), Some(m), Some(sec), Some(millis)) =>
        if h <= 23 && m <= 59 && sec <= 60 then Some(TimeOfDay(h, m, sec, millis)) else None
      case _ => None
  }

  function EpochMs(date: Date, t: TimeOfDay): ParseResult {
    var days := DaysFromCivil(date);
    var total := days * DAY_MS + t.hour * 3_600_000 + t.minute * 60_000 + t.second * 1_000 + t.millis;
    if days < 0 || total >= U64 then Overflow else Parsed(total)
  }

  function Parse(s: string): ParseResult {
    var body := if StripSuffix(s, "Z").Some? then StripSuffix(s, "Z") else StripSuffix(s, "+00:00");
    if body.None? then Rejected else
    match SplitOnce(body.value, 'T')
    case None => Rejected
    case Some((ds, ts)) =>
      match (ParseDate(ds), ParseTime(ts))
      case (Some(date), Some(t)) => EpochMs(date, t)
      case _ => Rejected
  }

  // ---------------------------------------------------------------------------
  // Round trip
  // ---------------------------------------------------------------------------

  lemma PadAvoids(n: nat, w: nat, c: char)
    requires !IsDigit(c)
    ensures c !in Pad(n, w)
  {
    PadIsNumber(n, w);
  }

  lemma ParseDateText(date: Date)
    requires Valid(date) && 0 <= date.year < I64
    ensures ParseDate(DateText(date)) == Some(date)
    ensures 'T' !in DateText(date)
  {
    hide Pad, ParseU64, ParseI64, SplitThree;
    PadAvoids(date.year, 4, '-');
    PadAvoids(date.month, 2, '-');
    PadAvoids(date.year, 4, 'T');
    PadAvoids(date.month, 2, 'T');
    PadAvoids(date.day, 2, 'T');
    SplitThreeAt(Pad(date.year, 4), '-', Pad(date.month, 2), Pad(date.day, 2));
    PadParses(date.year, 4);
    PadParses(date.month, 2);
    PadParses(date.day, 2);
  }

  lemma ParseTimeText(t: TimeOfDay)
    requires ValidTime(t)
    ensures ParseTime(TimeText(t)) == Some(t)
  {
    hide Pad, ParseU64, SplitThree, SplitOnce;
    var h, m, sec, f := Pad(t.hour, 2), Pad(t.minute, 2), Pad(t.second, 2), Pad(t.millis, 3);
    PadAvoids(t.hour, 2, ':');
    PadAvoids(t.minute, 2, ':');
    PadAvoids(t.hour, 2, '.');
    PadAvoids(t.minute, 2, '.');
    PadAvoids(t.second, 2, '.');
    var main := h + [':'] + m + [':'] + sec;
    SplitAt(main, '.', f);
    SplitThreeAt(h, ':', m, sec);
    MillisWidth(t.millis);
    PadParses(t.hour, 2);
    PadParses(t.minute, 2);
    PadParses(t.second, 2);
    PadParses(t.millis, 3);
  }

  lemma MillisWidth(n: nat)
    requires n < 1000
    ensures Millis(Pad(n, 3)) == Pad(n, 3)
  {
    PadWidth(n, 3);
    assert Pow10(3) == 1000;
  }

  lemma ParseText(date: Date, t: TimeOfDay)
    requires Valid(date) && 0 <= date.year < I64 && ValidTime(t)
    ensures Parse(Text(date, t)) == EpochMs(date, t)
  {
    hide DateText, TimeText, ParseDate, ParseTime, EpochMs, SplitOnce;
    var body := DateText(date) + ['T'] + TimeText(t);
    assert StripSuffix(body + ['Z'], "Z") == Some(body) by {
      assert (body + ['Z'])[|body|..] == "Z";
      assert (body + ['Z'])[..|body|] == body;
    }
    ParseDateText(date);
    ParseTimeText(t);
    SplitAt(DateText(date), 'T', TimeText(t));
  }

  lemma TimeAddsUp(ms: nat)
    ensures ValidTime(TimeFromMs(ms))
    ensures var t := TimeFromMs(ms);
      ms / 1000 / 86400 * DAY_MS + t.hour * 3_600_000 + t.minute * 60_000 + t.second * 1_000 + t.millis == ms
  {
    var secs := ms / 1000;
    var daySecs := secs % 86400;
    assert secs == 86400 * (secs / 86400) + daySecs;
    assert daySecs == 3600 * (daySecs / 3600) + 60 * (daySecs % 3600 / 60) + daySecs % 60;
  }

  lemma YearFits(ms: nat)
    requires ms < U64
    ensures DateFromMs(ms).year < I64
  {
    hide CivilFromDays, YearStart;
    YearIffDays(ms / 1000 / 86400, 1_000_000_000);
    LateYear();
  }

  lemma LateYear()
    ensures YearStart(1_000_000_000) > 300_000_000_000
  {
    YearStartClosed(1_000_000_000);
  }

  /** The fields of an instant denote it, without overflow. */
  lemma EpochOfFields(ms: nat)
    requires ms < U64
    ensures EpochMs(DateFromMs(ms), TimeFromMs(ms)) == Parsed(ms)
  {
    hide CivilFromDays, DaysFromCivil, TimeFromMs;
    TimeAddsUp(ms);
    DaysOfCivil(ms / 1000 / 86400);
  }

  /** For every 64-bit millisecond value, parsing the printed text gives the value back. */
  lemma PrintParse(ms: nat)
    requires ms < U64
    ensures Parse(Print(ms)) == Parsed(ms)
  {
    hide DateFromMs, TimeFromMs, EpochMs, Parse, Text;
    YearIsBounded(ms);
    YearFits(ms);
    TimeAddsUp(ms);
    EpochOfFields(ms);
    ParseText(DateFromMs(ms), TimeFromMs(ms));
  }
}

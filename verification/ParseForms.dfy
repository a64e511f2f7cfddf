/**
 * Everything the liveness parser reads (`parse_iso8601_to_epoch_ms` of
 * crates/mxdx-client/src/liveness.rs): either ending, any number of fraction digits or no
 * fraction, and which fields it rejects.
 */
module ParseForms {
  import opened Common
  import opened Calendar
  import opened Timestamp

  /** The six fields of a timestamp, as numbers, whether or not they are in range. */
  datatype Fields = Fields(year: nat, month: nat, day: nat, hour: nat, minute: nat, second: nat)

  /** What the parser accepts: a leap second and the 31st of every month pass. */
  predicate InRange(f: Fields) {
    1 <= f.month <= 12 && 1 <= f.day <= 31 && f.hour <= 23 && f.minute <= 59 && f.second <= 60
  }

  predicate Fits(f: Fields) {
    && f.year < I64 && f.month < U64 && f.day < U64
    && f.hour < U64 && f.minute < U64 && f.second < U64
  }

  function DatePart(f: Fields): string {
    Pad(f.year, 4) + ['-'] + Pad(f.month, 2) + ['-'] + Pad(f.day, 2)
  }

  function ClockPart(f: Fields): string {
    Pad(f.hour, 2) + [':'] + Pad(f.minute, 2) + [':'] + Pad(f.second, 2)
  }

  function TimePart(f: Fields, fraction: Option<string>): string {
    match fraction
    case Some(digits) => ClockPart(f) + ['.'] + digits
    case None => ClockPart(f)
  }

  function Rendered(f: Fields, fraction: Option<string>, offset: bool): string {
    DatePart(f) + ['T'] + TimePart(f, fraction) + (if offset then "+00:00" else "Z")
  }

  /** The thousandths that the digits after the point stand for; further digits are cut off. */
  function Thousandths(digits: string): nat
    requires forall c :: c in digits ==> IsDigit(c)
  {
    if |digits| == 0 then 0
    else if |digits| == 1 then 100 * DigitValue(digits[0])
    else if |digits| == 2 then 100 * DigitValue(digits[0]) + 10 * DigitValue(digits[1])
    else 100 * DigitValue(digits[0]) + 10 * DigitValue(digits[1]) + DigitValue(digits[2])
  }

  lemma ValueOfThree(s: string)
    requires |s| == 3 && forall c :: c in s ==> IsDigit(c)
    ensures AllDigits(s) && Value(s) == 100 * DigitValue(s[0]) + 10 * DigitValue(s[1]) + DigitValue(s[2])
  {
    assert s[..2][..1] == s[..1] && s[..1][..0] == "";
    assert Value(s[..1]) == DigitValue(s[0]);
    assert Value(s[..2]) == 10 * Value(s[..1]) + DigitValue(s[1]);
  }

  lemma MillisParse(digits: string)
    requires forall c :: c in digits ==> IsDigit(c)
    ensures ParseU64(Millis(digits)) == Some(Thousandths(digits))
  {
    var m := Millis(digits);
    assert |m| == 3;
    assert forall c :: c in m ==> IsDigit(c);
    ValueOfThree(m);
    assert m[0] in m;
  }

  lemma ClockSplits(f: Fields)
    requires Fits(f)
    ensures SplitThree(ClockPart(f), ':') == Some((Pad(f.hour, 2), Pad(f.minute, 2), Pad(f.second, 2)))
    ensures '.' !in ClockPart(f)
  {
    hide Pad, SplitThree;
    PadAvoids(f.hour, 2, ':');
    PadAvoids(f.minute, 2, ':');
    PadAvoids(f.hour, 2, '.');
    PadAvoids(f.minute, 2, '.');
    PadAvoids(f.second, 2, '.');
    SplitThreeAt(Pad(f.hour, 2), ':', Pad(f.minute, 2), Pad(f.second, 2));
  }

  lemma {:induction false} NoSplit(s: string, c: char)
    requires c !in s
    ensures SplitOnce(s, c) == None
  {
    if s != "" {
      NoSplit(s[1..], c);
    }
  }

  function FractionValue(fraction: Option<string>): nat
    requires fraction.Some? ==> forall c :: c in fraction.value ==> IsDigit(c)
  {
    if fraction.Some? then Thousandths(fraction.value) else 0
  }

  lemma ParseTimePart(f: Fields, fraction: Option<string>)
    requires Fits(f) && (fraction.Some? ==> forall c :: c in fraction.value ==> IsDigit(c))
    ensures ParseTime(TimePart(f, fraction))
         == if f.hour <= 23 && f.minute <= 59 && f.second <= 60
            then Some(TimeOfDay(f.hour, f.minute, f.second, FractionValue(fraction))) else None
  {
    hide Pad, ParseU64, SplitThree, SplitOnce, Millis, Thousandths;
    ClockSplits(f);
    PadParses(f.hour, 2);
    PadParses(f.minute, 2);
    PadParses(f.second, 2);
    match fraction
    case Some(digits) =>
      SplitAt(ClockPart(f), '.', digits);
      MillisParse(digits);
    case None =>
      NoSplit(ClockPart(f), '.');
  }

  lemma ParseDatePart(f: Fields)
    requires Fits(f)
    ensures ParseDate(DatePart(f))
         == if 1 <= f.month <= 12 && 1 <= f.day <= 31 then Some(Date(f.year, f.month, f.day)) else None
    ensures 'T' !in DatePart(f)
  {
    hide Pad, ParseU64, ParseI64, SplitThree;
    PadAvoids(f.year, 4, '-');
    PadAvoids(f.month, 2, '-');
    PadAvoids(f.year, 4, 'T');
    PadAvoids(f.month, 2, 'T');
    PadAvoids(f.day, 2, 'T');
    SplitThreeAt(Pad(f.year, 4), '-', Pad(f.month, 2), Pad(f.day, 2));
    PadParses(f.year, 4);
    PadParses(f.month, 2);
    PadParses(f.day, 2);
  }

  lemma EndingIsStripped(body: string)
    ensures StripSuffix(body + "Z", "Z") == Some(body)
    ensures StripSuffix(body + "+00:00", "Z") == None && StripSuffix(body + "+00:00", "+00:00") == Some(body)
  {
    assert (body + "Z")[|body|..] == "Z" && (body + "Z")[..|body|] == body;
    var s := body + "+00:00";
    assert s[|body|..] == "+00:00" && s[..|body|] == body;
    assert s[|s| - 1..] == "0";
  }

  /**
   * With either ending, with any digits after the point or none, the parser rejects a timestamp
   * exactly if a field is out of range, and otherwise computes the milliseconds of its fields,
   * where a day before 1970 or a result past 64 bits is an overflow.
   */
  lemma ParseRendered(f: Fields, fraction: Option<string>, offset: bool)
    requires Fits(f) && (fraction.Some? ==> forall c :: c in fraction.value ==> IsDigit(c))
    ensures var days := DaysFromCivil(Date(f.year, f.month, f.day));
      var ms := 86_400_000 * days + 3_600_000 * f.hour + 60_000 * f.minute + 1_000 * f.second
                + FractionValue(fraction);
      Parse(Rendered(f, fraction, offset))
      == if !InRange(f) then Rejected
         else if days < 0 || ms >= 0x1_0000_0000_0000_0000 then Overflow
         else Parsed(ms)
  {
    hide DatePart, TimePart, ParseDate, ParseTime, DaysFromCivil, SplitOnce, StripSuffix, FractionValue;
    var body := DatePart(f) + ['T'] + TimePart(f, fraction);
    EndingIsStripped(body);
    ParseDatePart(f);
    ParseTimePart(f, fraction);
    SplitAt(DatePart(f), 'T', TimePart(f, fraction));
  }

  /** Without one of the two endings nothing is read. */
  lemma NeedsEnding(s: string)
    requires !(|s| >= 1 && s[|s| - 1] == 'Z') && !(|s| >= 6 && s[|s| - 6..] == "+00:00")
    ensures Parse(s) == Rejected
  {
    assert |s| >= 1 ==> s[|s| - 1..] == [s[|s| - 1]];
  }
}

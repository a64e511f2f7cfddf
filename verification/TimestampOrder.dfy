/**
 * The shape and the string order of the timestamps that crates/mxdx-matrix/src/client.rs prints.
 */
module TimestampOrder {
  import opened Calendar
  import opened Timestamp

  // ---------------------------------------------------------------------------
  // Shape
  // ---------------------------------------------------------------------------

  /** The `date-time` of section 5.6 of RFC 3339, in UTC and with three fraction digits. */
  predicate IsRfc3339(s: string) {
    && |s| == 24
    && s[4] == '-' && s[7] == '-' && s[10] == 'T' && s[13] == ':' && s[16] == ':' && s[19] == '.' && s[23] == 'Z'
    && AllDigits(s[0..4]) && AllDigits(s[5..7]) && AllDigits(s[8..10])
    && AllDigits(s[11..13]) && AllDigits(s[14..16]) && AllDigits(s[17..19]) && AllDigits(s[20..23])
    && Valid(Date(Value(s[0..4]), Value(s[5..7]), Value(s[8..10])))
    && Value(s[11..13]) < 24 && Value(s[14..16]) < 60 && Value(s[17..19]) < 60
  }

  lemma FieldWidths(date: Date, t: TimeOfDay)
    requires Valid(date) && date.year >= 0 && ValidTime(t)
    ensures |Pad(date.month, 2)| == |Pad(date.day, 2)| == 2
    ensures |Pad(t.hour, 2)| == |Pad(t.minute, 2)| == |Pad(t.second, 2)| == 2
    ensures |Pad(t.millis, 3)| == 3
    ensures |Pad(date.year, 4)| >= 4
    ensures |Pad(date.year, 4)| == 4 <==> date.year <= 9999
  {
    assert Pow10(2) == 100 && Pow10(3) == 1000 && Pow10(4) == 10000;
    PadWidth(date.year, 4);
    PadWidth(date.month, 2);
    PadWidth(date.day, 2);
    PadWidth(t.hour, 2);
    PadWidth(t.minute, 2);
    PadWidth(t.second, 2);
    PadWidth(t.millis, 3);
  }

  lemma TextShape(date: Date, t: TimeOfDay)
    requires Valid(date) && 0 <= date.year <= 9999 && ValidTime(t)
    ensures IsRfc3339(Text(date, t))
  {
    hide Pad, Value, DaysInMonth;
    FieldWidths(date, t);
    var y, mo, d := Pad(date.year, 4), Pad(date.month, 2), Pad(date.day, 2);
    var h, mi, sec, f := Pad(t.hour, 2), Pad(t.minute, 2), Pad(t.second, 2), Pad(t.millis, 3);
    PadIsNumber(date.year, 4);
    PadIsNumber(date.month, 2);
    PadIsNumber(date.day, 2);
    PadIsNumber(t.hour, 2);
    PadIsNumber(t.minute, 2);
    PadIsNumber(t.second, 2);
    PadIsNumber(t.millis, 3);
    var s := Text(date, t);
    assert s[0..4] == y && s[5..7] == mo && s[8..10] == d;
    assert s[11..13] == h && s[14..16] == mi && s[17..19] == sec && s[20..23] == f;
    assert Date(Value(y), Value(mo), Value(d)) == date;
  }

  lemma TextLength(date: Date, t: TimeOfDay)
    requires Valid(date) && date.year >= 0 && ValidTime(t)
    ensures |Text(date, t)| == 20 + |Pad(date.year, 4)|
  {
    hide Pad;
    FieldWidths(date, t);
  }

  lemma Year10000(ms: nat)
    ensures DateFromMs(ms).year <= 9999 <==> ms < YEAR_10000_MS
  {
    hide CivilFromDays, YearStart;
    YearIffDays(ms / 1000 / 86400, 10000);
    assert YearStart(10000) == 2932897 by { Year10000Start(); }
  }

  lemma Year10000Start()
    ensures YearStart(10000) == 2932897
  {
    YearStartClosed(10000);
  }

  /** The printed text has the RFC 3339 form exactly up to the end of the year 9999. */
  lemma PrintedShape(ms: nat)
    ensures IsRfc3339(Print(ms)) <==> ms < YEAR_10000_MS
  {
    hide CivilFromDays, TimeFromMs, Text, Pad;
    YearIsBounded(ms);
    TimeAddsUp(ms);
    Year10000(ms);
    var date, t := DateFromMs(ms), TimeFromMs(ms);
    FieldWidths(date, t);
    TextLength(date, t);
    if date.year <= 9999 {
      TextShape(date, t);
    }
  }

  // ---------------------------------------------------------------------------
  // String order
  // ---------------------------------------------------------------------------

  /** Rust's `<` on strings. */
  predicate Less(a: string, b: string) {
    b != "" && (a == "" || a[0] < b[0] || (a[0] == b[0] && Less(a[1..], b[1..])))
  }

  lemma {:induction false} LessIrreflexive(a: string)
    ensures !Less(a, a)
  {
    if a != "" {
      LessIrreflexive(a[1..]);
    }
  }

  lemma {:induction false} LessTotal(a: string, b: string)
    ensures Less(a, b) || a == b || Less(b, a)
  {
    if a != "" && b != "" && a[0] == b[0] {
      LessTotal(a[1..], b[1..]);
      assert a[1..] == b[1..] ==> a == [a[0]] + a[1..] == [b[0]] + b[1..] == b;
    }
  }

  lemma {:induction false} LessTransitive(a: string, b: string, c: string)
    requires Less(a, b) && Less(b, c)
    ensures Less(a, c)
  {
    if a != "" && a[0] == b[0] == c[0] {
      LessTransitive(a[1..], b[1..], c[1..]);
    }
  }

  /** Strings with equally long heads compare by head first. */
  lemma {:induction false} LessByParts(a: string, b: string, x: string, y: string)
    requires |a| == |b|
    ensures Less(a + x, b + y) <==> Less(a, b) || (a == b && Less(x, y))
  {
    if a == "" {
      assert a + x == x && b + y == y;
    } else {
      assert (a + x)[0] == a[0] && (b + y)[0] == b[0];
      assert (a + x)[1..] == a[1..] + x && (b + y)[1..] == b[1..] + y;
      LessByParts(a[1..], b[1..], x, y);
      assert a == [a[0]] + a[1..] && b == [b[0]] + b[1..];
    }
  }

  lemma LessSingle(c: char, d: char)
    ensures Less([c], [d]) <==> c < d
  {
    assert [c][1..] == "" && [d][1..] == "";
  }

  /** Equally long numerals compare as numbers. */
  lemma {:induction false} PadOrder(n: nat, m: nat, w: nat)
    requires |Pad(n, w)| == |Pad(m, w)|
    ensures Less(Pad(n, w), Pad(m, w)) <==> n < m
    ensures Pad(n, w) == Pad(m, w) <==> n == m
    decreases n, w
  {
    PadIsNumber(n, w);
    PadIsNumber(m, w);
    var v := if w > 0 then w - 1 else 0;
    if n < 10 && w <= 1 {
      if m >= 10 {
        PadIsNumber(m / 10, v);
      }
      LessSingle(DigitChar(n), DigitChar(m % 10));
    } else {
      PadIsNumber(n / 10, v);
      assert !(m < 10 && w <= 1);
      PadOrder(n / 10, m / 10, v);
      LessByParts(Pad(n / 10, v), Pad(m / 10, v), [DigitChar(n % 10)], [DigitChar(m % 10)]);
      LessSingle(DigitChar(n % 10), DigitChar(m % 10));
    }
  }

  /** A field, a separator, and the rest. */
  lemma FieldOrder(n: nat, m: nat, w: nat, c: char, x: string, y: string)
    requires |Pad(n, w)| == |Pad(m, w)|
    ensures Less(Pad(n, w) + [c] + x, Pad(m, w) + [c] + y) <==> n < m || (n == m && Less(x, y))
  {
    hide Pad, Less;
    LessByParts(Pad(n, w) + [c], Pad(m, w) + [c], x, y);
    LessByParts(Pad(n, w), Pad(m, w), [c], [c]);
    LessIrreflexive([c]);
    PadOrder(n, m, w);
    assert (Pad(n, w) + [c])[..|Pad(n, w)|] == Pad(n, w);
    assert (Pad(m, w) + [c])[..|Pad(m, w)|] == Pad(m, w);
  }

  predicate DateBefore(a: Date, b: Date) {
    a.year < b.year || (a.year == b.year && (a.month < b.month || (a.month == b.month && a.day < b.day)))
  }

  predicate TimeBefore(a: TimeOfDay, b: TimeOfDay) {
    || a.hour < b.hour
    || (a.hour == b.hour
        && (a.minute < b.minute
            || (a.minute == b.minute
                && (a.second < b.second || (a.second == b.second && a.millis < b.millis)))))
  }

  lemma TimeTextOrder(a: TimeOfDay, b: TimeOfDay, x: string)
    requires ValidTime(a) && ValidTime(b)
    ensures Less(TimeText(a) + x, TimeText(b) + x) <==> TimeBefore(a, b)
  {
    hide Pad, Less;
    FieldWidths(Date(0, 1, 1), a);
    FieldWidths(Date(0, 1, 1), b);
    var fa, fb := Pad(a.millis, 3) + x, Pad(b.millis, 3) + x;
    LessByParts(Pad(a.millis, 3), Pad(b.millis, 3), x, x);
    LessIrreflexive(x);
    PadOrder(a.millis, b.millis, 3);
    var sa, sb := Pad(a.second, 2) + ['.'] + fa, Pad(b.second, 2) + ['.'] + fb;
    FieldOrder(a.second, b.second, 2, '.', fa, fb);
    var ma, mb := Pad(a.minute, 2) + [':'] + sa, Pad(b.minute, 2) + [':'] + sb;
    FieldOrder(a.minute, b.minute, 2, ':', sa, sb);
    FieldOrder(a.hour, b.hour, 2, ':', ma, mb);
    assert TimeText(a) + x == Pad(a.hour, 2) + [':'] + ma;
    assert TimeText(b) + x == Pad(b.hour, 2) + [':'] + mb;
  }

  lemma DateTextOrder(a: Date, b: Date, x: string, y: string)
    requires Valid(a) && Valid(b) && 0 <= a.year && 0 <= b.year
    requires |Pad(a.year, 4)| == |Pad(b.year, 4)|
    ensures Less(DateText(a) + ['T'] + x, DateText(b) + ['T'] + y) <==> DateBefore(a, b) || (a == b && Less(x, y))
  {
    hide Pad, Less;
    var t := TimeOfDay(0, 0, 0, 0);
    FieldWidths(a, t);
    FieldWidths(b, t);
    var da, db := Pad(a.day, 2) + ['T'] + x, Pad(b.day, 2) + ['T'] + y;
    FieldOrder(a.day, b.day, 2, 'T', x, y);
    var ma, mb := Pad(a.month, 2) + ['-'] + da, Pad(b.month, 2) + ['-'] + db;
    FieldOrder(a.month, b.month, 2, '-', da, db);
    FieldOrder(a.year, b.year, 4, '-', ma, mb);
    assert DateText(a) + ['T'] + x == Pad(a.year, 4) + ['-'] + ma;
    assert DateText(b) + ['T'] + y == Pad(b.year, 4) + ['-'] + mb;
  }

  /** Dates in calendar order have increasing day numbers. */
  lemma DateOrder(a: Date, b: Date)
    requires Valid(a) && Valid(b)
    ensures DateBefore(a, b) <==> DaysFromCivil(a) < DaysFromCivil(b)
  {
    if DateBefore(a, b) {
      DateOrderForward(a, b);
    } else if a != b {
      DateOrderForward(b, a);
    }
  }

  lemma DateOrderForward(a: Date, b: Date)
    requires Valid(a) && Valid(b) && DateBefore(a, b)
    ensures DaysFromCivil(a) < DaysFromCivil(b)
  {
    hide DaysFromCivil, YearStart;
    DaysAreNaive(a);
    DaysAreNaive(b);
    if a.year < b.year {
      MonthWithinYear(a);
      YearStartStep(a.year);
      if a.year + 1 < b.year {
        YearStartIncreases(a.year + 1, b.year);
      }
    } else if a.month < b.month {
      MonthOrder(a.year, a.month, b.month);
    }
  }

  lemma {:induction false} MonthOrder(year: int, m: int, n: int)
    requires 1 <= m < n
    ensures MonthStart(year, m) + DaysInMonth(year, m) <= MonthStart(year, n)
    decreases n
  {
    if m < n - 1 {
      MonthOrder(year, m, n - 1);
    }
  }

  lemma InstantOrder(a: nat, b: nat)
    ensures a < b <==>
      || DateBefore(DateFromMs(a), DateFromMs(b))
      || (DateFromMs(a) == DateFromMs(b) && TimeBefore(TimeFromMs(a), TimeFromMs(b)))
  {
    hide CivilFromDays, DaysFromCivil;
    var i, j := a / 1000 / 86400, b / 1000 / 86400;
    DaysOfCivil(i);
    DaysOfCivil(j);
    DateOrder(DateFromMs(a), DateFromMs(b));
    SameDay(a, b);
    if DateFromMs(a) == DateFromMs(b) {
      assert i == j;
    }
  }

  lemma SameDay(a: nat, b: nat)
    ensures a / 1000 / 86400 == b / 1000 / 86400 ==> (a < b <==> TimeBefore(TimeFromMs(a), TimeFromMs(b)))
    ensures a / 1000 / 86400 < b / 1000 / 86400 ==> a < b
    ensures a / 1000 / 86400 > b / 1000 / 86400 ==> a > b
  {
    hide TimeFromMs;
    TimeAddsUp(a);
    TimeAddsUp(b);
  }

  /** Years with equally many digits: the text order is the time order. */
  lemma PrintOrder(a: nat, b: nat)
    requires |Pad(DateFromMs(a).year, 4)| == |Pad(DateFromMs(b).year, 4)|
    ensures Less(Print(a), Print(b)) <==> a < b
  {
    hide CivilFromDays, TimeFromMs, Less, Pad, DateText, TimeText;
    YearIsBounded(a);
    YearIsBounded(b);
    TimeAddsUp(a);
    TimeAddsUp(b);
    var da, db, ta, tb := DateFromMs(a), DateFromMs(b), TimeFromMs(a), TimeFromMs(b);
    TimeTextOrder(ta, tb, ['Z']);
    DateTextOrder(da, db, TimeText(ta) + ['Z'], TimeText(tb) + ['Z']);
    assert Print(a) == DateText(da) + ['T'] + (TimeText(ta) + ['Z']);
    assert Print(b) == DateText(db) + ['T'] + (TimeText(tb) + ['Z']);
    InstantOrder(a, b);
  }

  /** The first instant of the year 10000 sorts before the epoch. */
  lemma Year10000SortsFirst()
    ensures Less(Print(YEAR_10000_MS), Print(0))
  {
    hide CivilFromDays, TimeFromMs, TimeText;
    var y := DateFromMs(YEAR_10000_MS);
    YearIsBounded(YEAR_10000_MS);
    YearIsBounded(0);
    assert y.year == 10000 && DateFromMs(0).year == 1970 by {
      TwoYears();
    }
    assert Pad(10000, 4) == "10000" && Pad(1970, 4) == "1970" by { TwoNumerals(); }
    var a, b := Print(YEAR_10000_MS), Print(0);
    assert a[0] == '1' && b[0] == '1' && a[1] == '0' && b[1] == '9';
    assert a[1..][0] < b[1..][0];
  }

  lemma TwoYears()
    ensures DateFromMs(YEAR_10000_MS).year == 10000 && DateFromMs(0).year == 1970
  {
    hide CivilFromDays, YearStart;
    YearIffDays(2932897, 10000);
    YearIffDays(2932897, 10001);
    YearIffDays(0, 1970);
    YearIffDays(0, 1971);
    Year10000Start();
    EpochYear();
    YearStartStep(10000);
    YearStartStep(1970);
  }

  lemma TwoNumerals()
    ensures Pad(10000, 4) == "10000" && Pad(1970, 4) == "1970"
  {
    assert Pad(1, 0) == "1" && Pad(10, 0) == "10" && Pad(1, 1) == "1";
    assert Pad(10, 1) == Pad(1, 0) + "0";
    assert Pad(100, 2) == Pad(10, 1) + "0";
    assert Pad(1000, 3) == Pad(100, 2) + "0";
    assert Pad(10000, 4) == Pad(1000, 3) + "0";
    assert Pad(19, 2) == Pad(1, 1) + "9";
    assert Pad(197, 3) == Pad(19, 2) + "7";
    assert Pad(1970, 4) == Pad(197, 3) + "0";
  }

  /**
   * String order is time order on all instants below a limit exactly when the limit does not
   * go past the year 9999.
   */
  lemma OrderAgreesUpTo9999(limit: nat)
    ensures (forall a: nat, b: nat :: a < limit && b < limit ==> (Less(Print(a), Print(b)) <==> a < b))
      <==> limit <= YEAR_10000_MS
  {
    hide Less, Print, Pad, CivilFromDays;
    if limit <= YEAR_10000_MS {
      forall a: nat, b: nat | a < limit && b < limit ensures Less(Print(a), Print(b)) <==> a < b {
        FourDigitYears(a);
        FourDigitYears(b);
        PrintOrder(a, b);
      }
    } else {
      Year10000SortsFirst();
      assert !(YEAR_10000_MS < 0);
    }
  }

  lemma FourDigitYears(ms: nat)
    requires ms < YEAR_10000_MS
    ensures DateFromMs(ms).year >= 0 && |Pad(DateFromMs(ms).year, 4)| == 4
  {
    hide CivilFromDays;
    YearIsBounded(ms);
    Year10000(ms);
    FieldWidths(DateFromMs(ms), TimeOfDay(0, 0, 0, 0));
  }
}

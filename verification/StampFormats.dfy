/**
 * The two timestamp formats that meet in the merge of crates/mxdx-client/src/matrix.rs: the
 * milliseconds of crates/mxdx-matrix/src/client.rs (and of the npm launcher), and the whole
 * seconds that the Rust worker writes (crates/mxdx-worker/src/telemetry.rs). An entry may also
 * have no timestamp, which compares as the empty text.
 */
module StampFormats {
  import opened Common
  import opened Calendar
  import opened Timestamp
  import opened TimestampOrder

  datatype Stamp = Absent | Millis(ms: nat) | Seconds(s: nat)

  /** The text up to the whole seconds. */
  function SecondText(s: nat): string {
    YearIsBounded(1000 * s);
    var t := TimeFromMs(1000 * s);
    DateText(DateFromMs(1000 * s)) + ['T'] + (Pad(t.hour, 2) + [':'] + Pad(t.minute, 2) + [':'] + Pad(t.second, 2))
  }

  function PrintSeconds(s: nat): string {
    SecondText(s) + ['Z']
  }

  function TextOf(st: Stamp): string {
    match st
    case Absent => ""
    case Millis(ms) => Print(ms)
    case Seconds(s) => PrintSeconds(s)
  }

  /** The instant that the text denotes, in milliseconds; none is before all others. */
  function InstantOf(st: Stamp): int {
    match st
    case Absent => -1
    case Millis(ms) => ms
    case Seconds(s) => 1000 * s
  }

  function SecondOf(st: Stamp): int {
    match st
    case Absent => -1
    case Millis(ms) => ms / 1000
    case Seconds(s) => s
  }

  predicate UpTo9999(st: Stamp) {
    InstantOf(st) < YEAR_10000_MS
  }

  /** Where the text sorts: after all milliseconds of its second if it has none itself. */
  function Rank(st: Stamp): int {
    match st
    case Absent => -1
    case Millis(ms) => 1001 * (ms / 1000) + ms % 1000
    case Seconds(s) => 1001 * s + 1000
  }

  // ---------------------------------------------------------------------------
  // Order
  // ---------------------------------------------------------------------------

  lemma SameSecond(ms: nat)
    ensures DateFromMs(1000 * (ms / 1000)) == DateFromMs(ms)
    ensures TimeFromMs(1000 * (ms / 1000)) == TimeFromMs(ms).(millis := 0)
  {
    assert 1000 * (ms / 1000) / 1000 == ms / 1000;
  }

  lemma PrintIs(ms: nat)
    ensures Print(ms) == SecondText(ms / 1000) + (['.'] + Pad(ms % 1000, 3) + ['Z'])
  {
    hide Pad, DateText, DateFromMs, TimeFromMs;
    SameSecond(ms);
    YearIsBounded(ms);
    assert TimeFromMs(ms).millis == ms % 1000 by {
      MillisOf(ms);
    }
  }

  lemma MillisOf(ms: nat)
    ensures TimeFromMs(ms).millis == ms % 1000
  {
  }

  lemma SecondTextLength(s: nat)
    requires 1000 * s < YEAR_10000_MS
    ensures |SecondText(s)| == 19
  {
    hide Pad, DateFromMs, TimeFromMs;
    YearIsBounded(1000 * s);
    FourDigitYears(1000 * s);
    TimeAddsUp(1000 * s);
    FieldWidths(DateFromMs(1000 * s), TimeFromMs(1000 * s));
  }

  lemma SecondTextOrder(a: nat, b: nat)
    requires 1000 * a < YEAR_10000_MS && 1000 * b < YEAR_10000_MS
    ensures Less(SecondText(a), SecondText(b)) <==> a < b
    ensures SecondText(a) == SecondText(b) <==> a == b
  {
    hide SecondText, Less, Print;
    var tail := ['.'] + Pad(0, 3) + ['Z'];
    forall x: nat, y: nat | 1000 * x < YEAR_10000_MS && 1000 * y < YEAR_10000_MS
      ensures Less(SecondText(x), SecondText(y)) <==> x < y
    {
      PrintIs(1000 * x);
      PrintIs(1000 * y);
      SecondTextLength(x);
      SecondTextLength(y);
      LessByParts(SecondText(x), SecondText(y), tail, tail);
      LessIrreflexive(tail);
      OrderAgreesUpTo9999(YEAR_10000_MS);
    }
    LessTotal(SecondText(a), SecondText(b));
    LessIrreflexive(SecondText(a));
  }

  /** A fraction sorts before the letter that ends the text without one. */
  lemma FractionFirst(n: nat)
    ensures Less(['.'] + Pad(n, 3) + ['Z'], ['Z']) && !Less(['Z'], ['.'] + Pad(n, 3) + ['Z'])
  {
    var text := ['.'] + Pad(n, 3) + ['Z'];
    assert text[0] == '.';
  }

  lemma MixedOrder(ms: nat, s: nat)
    requires ms < YEAR_10000_MS && 1000 * s < YEAR_10000_MS
    ensures Less(Print(ms), PrintSeconds(s)) <==> ms / 1000 <= s
    ensures Less(PrintSeconds(s), Print(ms)) <==> s < ms / 1000
  {
    hide SecondText, Less, Print, Pad;
    var second, fraction := ms / 1000, ['.'] + Pad(ms % 1000, 3) + ['Z'];
    PrintIs(ms);
    SecondTextLength(second);
    SecondTextLength(s);
    LessByParts(SecondText(second), SecondText(s), fraction, ['Z']);
    LessByParts(SecondText(s), SecondText(second), ['Z'], fraction);
    SecondTextOrder(second, s);
    SecondTextOrder(s, second);
    FractionFirst(ms % 1000);
  }

  lemma SecondsOrder(a: nat, b: nat)
    requires 1000 * a < YEAR_10000_MS && 1000 * b < YEAR_10000_MS
    ensures Less(PrintSeconds(a), PrintSeconds(b)) <==> a < b
  {
    hide SecondText, Less;
    SecondTextLength(a);
    SecondTextLength(b);
    LessByParts(SecondText(a), SecondText(b), ['Z'], ['Z']);
    SecondTextOrder(a, b);
    LessIrreflexive(['Z']);
  }

  lemma AbsentFirst(st: Stamp)
    ensures !Less(TextOf(st), "")
    ensures Less("", TextOf(st)) <==> st != Absent
  {
    hide Print, SecondText;
    if st.Millis? {
      PrintIs(st.ms);
    }
  }

  lemma RankOfMillis(a: nat, b: nat)
    ensures Rank(Millis(a)) < Rank(Millis(b)) <==> a < b
  {
  }

  /** Up to the year 9999 the texts of both formats, and none, sort by rank. */
  lemma StampOrder(a: Stamp, b: Stamp)
    requires UpTo9999(a) && UpTo9999(b)
    ensures Less(TextOf(a), TextOf(b)) <==> Rank(a) < Rank(b)
  {
    hide Less, Print, PrintSeconds;
    AbsentFirst(a);
    AbsentFirst(b);
    match (a, b)
    case (Millis(m), Millis(n)) =>
      OrderAgreesUpTo9999(YEAR_10000_MS);
      RankOfMillis(m, n);
    case (Millis(m), Seconds(s)) => MixedOrder(m, s);
    case (Seconds(s), Millis(m)) => MixedOrder(m, s);
    case (Seconds(s), Seconds(t)) => SecondsOrder(s, t);
    case _ =>
  }

  /** The text determines the stamp. */
  lemma TextInjective(a: Stamp, b: Stamp)
    requires UpTo9999(a) && UpTo9999(b)
    ensures TextOf(a) == TextOf(b) <==> a == b
  {
    hide Less, TextOf;
    if TextOf(a) == TextOf(b) {
      StampOrder(a, b);
      StampOrder(b, a);
      LessIrreflexive(TextOf(a));
    }
  }

  // ---------------------------------------------------------------------------
  // Reading
  // ---------------------------------------------------------------------------

  lemma {:induction false} SplitNone(s: string, c: char)
    requires c !in s
    ensures SplitOnce(s, c) == None
  {
    if s != "" {
      SplitNone(s[1..], c);
    }
  }

  lemma ParseClock(t: TimeOfDay)
    requires ValidTime(t) && t.millis == 0
    ensures ParseTime(Pad(t.hour, 2) + [':'] + Pad(t.minute, 2) + [':'] + Pad(t.second, 2)) == Some(t)
  {
    hide Pad, ParseU64, SplitThree, SplitOnce;
    var h, m, sec := Pad(t.hour, 2), Pad(t.minute, 2), Pad(t.second, 2);
    PadAvoids(t.hour, 2, ':');
    PadAvoids(t.minute, 2, ':');
    PadAvoids(t.hour, 2, '.');
    PadAvoids(t.minute, 2, '.');
    PadAvoids(t.second, 2, '.');
    SplitNone(h + [':'] + m + [':'] + sec, '.');
    SplitThreeAt(h, ':', m, sec);
    PadParses(t.hour, 2);
    PadParses(t.minute, 2);
    PadParses(t.second, 2);
  }

  lemma ParseSecondText(date: Date, t: TimeOfDay, clock: string)
    requires Valid(date) && 0 <= date.year < I64 && ParseTime(clock) == Some(t)
    ensures Parse(DateText(date) + ['T'] + clock + ['Z']) == EpochMs(date, t)
  {
    hide DateText, ParseDate, ParseTime, EpochMs, SplitOnce;
    var body := DateText(date) + ['T'] + clock;
    assert StripSuffix(body + ['Z'], "Z") == Some(body) by {
      assert (body + ['Z'])[|body|..] == "Z";
      assert (body + ['Z'])[..|body|] == body;
    }
    ParseDateText(date);
    SplitAt(DateText(date), 'T', clock);
  }

  lemma ClockIsValid(s: nat)
    ensures ValidTime(TimeFromMs(1000 * s)) && TimeFromMs(1000 * s).millis == 0
  {
    TimeAddsUp(1000 * s);
    MillisOf(1000 * s);
  }

  /** The liveness parser reads the whole seconds back, too. */
  lemma SecondsParse(s: nat)
    requires 1000 * s < U64
    ensures Parse(PrintSeconds(s)) == Parsed(1000 * s)
  {
    hide DateFromMs, TimeFromMs, EpochMs, Parse, Pad, DateText, ParseTime, ValidTime, Valid;
    var ms := 1000 * s;
    var t := TimeFromMs(ms);
    YearIsBounded(ms);
    YearFits(ms);
    EpochOfFields(ms);
    ClockIsValid(s);
    ParseClock(t);
    ParseSecondText(DateFromMs(ms), t, Pad(t.hour, 2) + [':'] + Pad(t.minute, 2) + [':'] + Pad(t.second, 2));
  }
}

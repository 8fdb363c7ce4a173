/** Exactly which texts the reader of ISO 8601 takes, and what they mean.  The texts are written out from their
    parts; a date alone means midnight, and a text with the offset `+hh:mm` is ahead of UTC. */
module IsoTexts {
  import opened Options
  import opened Basics
  import opened Ir
  import opened Arith
  import opened Calendar
  import opened Iso8601

  datatype Zone = NoZone | Zulu | East(hours: nat, minutes: nat) | West(hours: nat, minutes: nat)

  datatype IsoText = DateOnly(date: Date) | WithTime(t: Moment, fraction: bool, zone: Zone)

  predicate ValidZone(z: Zone) {
    z.NoZone? || z.Zulu? || (z.hours <= 23 && z.minutes <= 59)
  }

  predicate ValidText(x: IsoText) {
    match x
    case DateOnly(date) => 0 <= date.y <= 9999 && Valid(date)
    case WithTime(t, fraction, zone) =>
      0 <= t.date.y <= 9999 && ValidTime(t) && (!fraction ==> t.ms == 0) && ValidZone(zone)
  }

  function DateText(d: Date): (s: string)
    requires 0 <= d.y <= 9999 && Valid(d)
    ensures |s| == 10
  {
    [Digit(d.y / 1000), Digit(d.y / 100 % 10), Digit(d.y / 10 % 10), Digit(d.y % 10), '-'] + Pad2(d.m) + ['-'] +
    Pad2(d.d)
  }

  function ClockText(t: Moment): (s: string)
    requires ValidTime(t)
    ensures |s| == 9
  {
    ['T'] + Pad2(t.hour) + [':'] + Pad2(t.minute) + [':'] + Pad2(t.second)
  }

  function FractionText(ms: nat): (s: string)
    requires ms <= 999
    ensures |s| == 4
  {
    ['.'] + Pad3(ms)
  }

  function ZoneText(z: Zone): string
    requires ValidZone(z)
  {
    match z
    case NoZone => []
    case Zulu => ['Z']
    case East(h, m) => ['+'] + Pad2(h) + [':'] + Pad2(m)
    case West(h, m) => ['-'] + Pad2(h) + [':'] + Pad2(m)
  }

  function Written(x: IsoText): string
    requires ValidText(x)
  {
    match x
    case DateOnly(date) => DateText(date)
    case WithTime(t, fraction, zone) =>
      DateText(t.date) + (ClockText(t) + ((if fraction then FractionText(t.ms) else []) + ZoneText(zone)))
  }

  /** How many minutes clocks in the zone are ahead of UTC. */
  function Ahead(z: Zone): int {
    match z
    case East(h, m) => 60 * h + m
    case West(h, m) => -(60 * h + m)
    case _ => 0
  }

  /** Milliseconds since the epoch. */
  function Meant(x: IsoText): int {
    match x
    case DateOnly(date) => Days(date) * 86400000
    case WithTime(t, _, zone) => EpochSecondsUtc(t) * 1000 + t.ms - Ahead(zone) * 60000
  }

  // ----- what is written is read -----

  lemma DateParts(d: Date, rest: string)
    requires 0 <= d.y <= 9999 && Valid(d)
    ensures var s := DateText(d) + rest;
            DigitsAt(s, 0, 4) && Four(s, 0) == d.y && s[4] == '-' && DigitsAt(s, 5, 2) && Two(s, 5) == d.m &&
            s[7] == '-' && DigitsAt(s, 8, 2) && Two(s, 8) == d.d
  {
    YearBack(d.y);
    Pad2Back(d.m);
    Pad2Back(d.d);
    hide Pad2;
    hide Digit;
    hide IsDigit;
    hide DigitValue;
    hide DaysInMonth;
  }

  lemma ClockParts(pre: string, t: Moment, rest: string)
    requires ValidTime(t) && |pre| == 10
    ensures var s := pre + (ClockText(t) + rest);
            s[10] == 'T' && DigitsAt(s, 11, 2) && Two(s, 11) == t.hour && s[13] == ':' && DigitsAt(s, 14, 2) &&
            Two(s, 14) == t.minute && s[16] == ':' && DigitsAt(s, 17, 2) && Two(s, 17) == t.second && s[19..] == rest
  {
    Pad2Back(t.hour);
    Pad2Back(t.minute);
    Pad2Back(t.second);
    hide Pad2;
    hide IsDigit;
    hide DigitValue;
    hide Valid;
  }

  lemma FractionParts(pre: string, ms: nat, rest: string)
    requires |pre| == 19 && ms <= 999
    ensures var s := pre + (FractionText(ms) + rest);
            s[19] == '.' && DigitsAt(s, 20, 3) && Three(s, 20) == ms && s[23..] == rest
  {
    Pad3Back(ms);
    hide Pad3;
    hide IsDigit;
    hide DigitValue;
  }

  lemma ZoneRead(pre: string, z: Zone)
    requires ValidZone(z)
    ensures ParseOffset(pre + ZoneText(z), |pre|) == Some(Ahead(z))
  {
    if z.East? || z.West? {
      Pad2Back(z.hours);
      Pad2Back(z.minutes);
    }
    hide Pad2;
    hide IsDigit;
    hide DigitValue;
  }

  /** The date alone means its midnight. */
  lemma DateRead(d: Date)
    requires ValidText(DateOnly(d))
    ensures ParseISO8601(Written(DateOnly(d))) == if InInt64(Meant(DateOnly(d))) then Some(Meant(DateOnly(d))) else None
  {
    DateParts(d, []);
    var s := DateText(d);
    assert s + [] == s;
    assert ParseClock(s) == Some(Clock(0, 0, 0, 0, 10)) && ParseOffset(s, 10) == Some(0);
    hide DateText;
    hide Two;
    hide Four;
    hide DigitsAt;
    hide Days;
    hide Valid;
  }

  lemma TimeRead(t: Moment, fraction: bool, zone: Zone)
    requires ValidText(WithTime(t, fraction, zone))
    ensures var x := WithTime(t, fraction, zone);
            ParseISO8601(Written(x)) == if InInt64(Meant(x)) then Some(Meant(x)) else None
  {
    hide *;
    var x := WithTime(t, fraction, zone);
    TextFields(t, fraction, zone);
    TextIs(t, fraction, zone);
    var s, last := Written(x), (if fraction then FractionText(t.ms) else []) + ZoneText(zone);
    DateParts(t.date, ClockText(t) + last);
    var next := if fraction then 23 else 19;
    ClockRead(t, fraction, zone);
    ReadIs(s, Clock(t.hour, t.minute, t.second, t.ms, next), Ahead(zone));
    MomentIs(t, Four(s, 0), Two(s, 5), Two(s, 8));
  }

  lemma TextFields(t: Moment, fraction: bool, zone: Zone)
    requires ValidText(WithTime(t, fraction, zone))
    ensures 0 <= t.date.y <= 9999 && ValidTime(t) && Valid(t.date) && (!fraction ==> t.ms == 0) && ValidZone(zone)
    ensures 0 <= t.ms <= 999
  {
  }

  lemma MomentIs(t: Moment, y: int, m: int, d: int)
    requires t.date.y == y && t.date.m == m && t.date.d == d
    ensures Moment(Date(y, m, d), t.hour, t.minute, t.second, t.ms) == t
  {
  }

  lemma ReadIs(s: string, c: Clock, offset: int)
    requires |s| >= 10 && s[4] == '-' && s[7] == '-' && DigitsAt(s, 0, 4) && DigitsAt(s, 5, 2) && DigitsAt(s, 8, 2)
    requires ParseClock(s) == Some(c) && ParseOffset(s, c.next) == Some(offset)
    ensures var t := Moment(Date(Four(s, 0), Two(s, 5), Two(s, 8)), c.hour, c.minute, c.second, c.ms);
            var v := EpochSecondsUtc(t) * 1000 + t.ms - offset * 60000;
            ParseISO8601(s) == if ValidTime(t) && InInt64(v) then Some(v) else None
  {
    hide ParseClock;
    hide ParseOffset;
    hide DigitsAt;
    hide Two;
    hide Four;
    hide EpochSecondsUtc;
    hide ValidTime;
  }

  /** The clock, and the offset behind it. */
  lemma ClockRead(t: Moment, fraction: bool, zone: Zone)
    requires ValidText(WithTime(t, fraction, zone))
    ensures var s, next := Written(WithTime(t, fraction, zone)), if fraction then 23 else 19;
            ParseClock(s) == Some(Clock(t.hour, t.minute, t.second, t.ms, next)) &&
            ParseOffset(s, next) == Some(Ahead(zone))
  {
    var s, last := Written(WithTime(t, fraction, zone)), (if fraction then FractionText(t.ms) else []) + ZoneText(zone);
    ClockParts(DateText(t.date), t, last);
    var pre := DateText(t.date) + ClockText(t);
    assert s == pre + last && |pre| == 19;
    if fraction {
      FractionParts(pre, t.ms, ZoneText(zone));
      ZoneRead(pre + FractionText(t.ms), zone);
      assert s == pre + FractionText(t.ms) + ZoneText(zone);
      hide *;
      assert |s| >= 23;
      ClockIs(s);
    } else {
      ZoneRead(pre, zone);
      NoFraction(zone);
      assert last == ZoneText(zone);
      hide *;
      assert s[19..] == ZoneText(zone);
      ClockIs(s);
    }
  }

  lemma ClockIs(s: string)
    requires |s| >= 19 && s[10] == 'T' && s[13] == ':' && s[16] == ':'
    requires DigitsAt(s, 11, 2) && DigitsAt(s, 14, 2) && DigitsAt(s, 17, 2)
    ensures ParseClock(s) ==
            if |s| > 19 && s[19] == '.' then
              if |s| <= 22 || !DigitsAt(s, 20, 3) then None
              else Some(Clock(Two(s, 11), Two(s, 14), Two(s, 17), Three(s, 20), 23))
            else Some(Clock(Two(s, 11), Two(s, 14), Two(s, 17), 0, 19))
  {
    hide DigitsAt;
    hide Two;
    hide Three;
  }

  lemma NoFraction(z: Zone)
    requires ValidZone(z)
    ensures ZoneText(z) != [] ==> ZoneText(z)[0] != '.'
  {
    hide Pad2;
  }

  // ----- nothing else is read -----

  lemma DateBack(s: string)
    requires |s| >= 10 && DigitsAt(s, 0, 4) && s[4] == '-' && DigitsAt(s, 5, 2) && s[7] == '-' && DigitsAt(s, 8, 2)
    requires Valid(Date(Four(s, 0), Two(s, 5), Two(s, 8)))
    ensures 0 <= Four(s, 0) <= 9999 && DateText(Date(Four(s, 0), Two(s, 5), Two(s, 8))) == s[..10]
  {
    FourBack(s[0], s[1], s[2], s[3]);
    TwoBack(s[5], s[6]);
    TwoBack(s[8], s[9]);
    hide Pad2;
    hide Digit;
    hide IsDigit;
    hide DigitValue;
    hide DaysInMonth;
    var y := Four(s, 0);
    var year := [Digit(y / 1000), Digit(y / 100 % 10), Digit(y / 10 % 10), Digit(y % 10)];
    assert year == s[..4];
    assert year[0] == s[0] && year[1] == s[1] && year[2] == s[2] && year[3] == s[3];
  }

  lemma ClockBack(s: string, t: Moment)
    requires |s| >= 19 && s[10] == 'T' && DigitsAt(s, 11, 2) && s[13] == ':' && DigitsAt(s, 14, 2) && s[16] == ':' &&
             DigitsAt(s, 17, 2)
    requires ValidTime(t) && t.hour == Two(s, 11) && t.minute == Two(s, 14) && t.second == Two(s, 17)
    ensures ClockText(t) == s[10..19]
  {
    TwoBack(s[11], s[12]);
    TwoBack(s[14], s[15]);
    TwoBack(s[17], s[18]);
    hide Pad2;
    hide IsDigit;
    hide DigitValue;
    hide Valid;
  }

  lemma FractionBack(s: string)
    requires |s| >= 23 && s[19] == '.' && DigitsAt(s, 20, 3)
    ensures 0 <= Three(s, 20) <= 999 && FractionText(Three(s, 20)) == s[19..23]
  {
    ThreeBack(s[20], s[21], s[22]);
    hide Pad3;
  }

  lemma ZoneBack(s: string, i: nat) returns (z: Zone)
    requires i <= |s| && ParseOffset(s, i).Some?
    ensures ValidZone(z) && ZoneText(z) == s[i..] && Ahead(z) == ParseOffset(s, i).value
  {
    if i == |s| {
      z := NoZone;
    } else if s[i] == 'Z' {
      z := Zulu;
    } else {
      TwoBack(s[i + 1], s[i + 2]);
      TwoBack(s[i + 4], s[i + 5]);
      var h, m := Two(s, i + 1), Two(s, i + 4);
      z := if s[i] == '+' then East(h, m) else West(h, m);
      assert Pad2(h) == s[i + 1..i + 3] && Pad2(m) == s[i + 4..i + 6];
      hide Pad2;
    }
  }

  /** What the reader has looked at. */
  lemma ReadParts(s: string)
    requires ParseISO8601(s).Some?
    ensures |s| >= 10 && s[4] == '-' && s[7] == '-' && DigitsAt(s, 0, 4) && DigitsAt(s, 5, 2) && DigitsAt(s, 8, 2)
    ensures ParseClock(s).Some? && ParseOffset(s, ParseClock(s).value.next).Some?
  {
    hide DigitsAt;
    hide ParseOffset;
    hide ParseClock;
  }

  lemma ClockFound(s: string)
    requires |s| >= 10 && ParseClock(s).Some?
    ensures var c := ParseClock(s).value;
            if |s| == 10 then c == Clock(0, 0, 0, 0, 10)
            else |s| >= 19 && s[10] == 'T' && DigitsAt(s, 11, 2) && s[13] == ':' && DigitsAt(s, 14, 2) &&
                 s[16] == ':' &&
                 DigitsAt(s, 17, 2) && c.hour == Two(s, 11) && c.minute == Two(s, 14) && c.second == Two(s, 17) &&
                 (if c.next == 23 then |s| >= 23 && s[19] == '.' && DigitsAt(s, 20, 3) && c.ms == Three(s, 20)
                  else c.next == 19 && c.ms == 0)
  {
    hide DigitsAt;
    hide Two;
    hide Three;
  }

  /** The parts of a text that is read. */
  lemma PartsOf(s: string) returns (x: IsoText)
    requires ParseISO8601(s).Some?
    ensures ValidText(x) && Written(x) == s && ParseISO8601(s) == Some(Meant(x)) && InInt64(Meant(x))
  {
    hide *;
    ReadParts(s);
    var c := ParseClock(s).value;
    ClockFound(s);
    ReadIs(s, c, ParseOffset(s, c.next).value);
    var t := Moment(Date(Four(s, 0), Two(s, 5), Two(s, 8)), c.hour, c.minute, c.second, c.ms);
    ValidDate(t);
    DateBack(s);
    var z := ZoneBack(s, c.next);
    if |s| == 10 {
      x := DateOnly(t.date);
      Cut10(s);
      Midnight(t, z);
    } else {
      x := TimeOf(s, c, t, z);
    }
  }

  lemma Cut10(s: string)
    requires |s| == 10
    ensures s[..10] == s && s[10..] == []
  {
  }

  lemma TimeOf(s: string, c: Clock, t: Moment, z: Zone) returns (x: IsoText)
    requires |s| >= 19 && s[10] == 'T' && DigitsAt(s, 11, 2) && s[13] == ':' && DigitsAt(s, 14, 2) && s[16] == ':' &&
             DigitsAt(s, 17, 2)
    requires ValidTime(t) && 0 <= t.date.y <= 9999 && Valid(t.date) && DateText(t.date) == s[..10]
    requires t.hour == Two(s, 11) && t.minute == Two(s, 14) && t.second == Two(s, 17)
    requires if c.next == 23 then |s| >= 23 && s[19] == '.' && DigitsAt(s, 20, 3) && t.ms == Three(s, 20)
             else c.next == 19 && t.ms == 0
    requires ValidZone(z) && ZoneText(z) == s[c.next..]
    ensures ValidText(x) && Written(x) == s && Meant(x) == EpochSecondsUtc(t) * 1000 + t.ms - Ahead(z) * 60000
  {
    hide *;
    x := WithTime(t, c.next == 23, z);
    ClockBack(s, t);
    if c.next == 23 { FractionBack(s); }
    TextIs(t, c.next == 23, z);
    CutText(s, c.next);
  }

  lemma ValidDate(t: Moment)
    requires ValidTime(t)
    ensures Valid(t.date)
  {
  }

  lemma Midnight(t: Moment, z: Zone)
    requires t.hour == 0 && t.minute == 0 && t.second == 0 && t.ms == 0
    requires ValidZone(z) && ZoneText(z) == [] && 0 <= t.date.y <= 9999 && Valid(t.date)
    ensures var x := DateOnly(t.date);
            ValidText(x) && Written(x) == DateText(t.date) &&
            Meant(x) == EpochSecondsUtc(t) * 1000 + t.ms - Ahead(z) * 60000
  {
    hide DateText;
    hide Days;
  }

  lemma TextIs(t: Moment, fraction: bool, z: Zone)
    requires 0 <= t.date.y <= 9999 && ValidTime(t) && (!fraction ==> t.ms == 0) && ValidZone(z)
    ensures var x := WithTime(t, fraction, z);
            ValidText(x) && Meant(x) == EpochSecondsUtc(t) * 1000 + t.ms - Ahead(z) * 60000 &&
            Written(x) ==
            DateText(t.date) + (ClockText(t) + ((if fraction then FractionText(t.ms) else []) + ZoneText(z)))
  {
    hide DateText;
    hide ClockText;
    hide FractionText;
    hide ZoneText;
    hide EpochSecondsUtc;
  }

  lemma CutText(s: string, next: nat)
    requires 19 <= next <= |s|
    ensures s == s[..10] + (s[10..19] + (s[19..next] + s[next..]))
    ensures next == 19 ==> s[19..next] == []
  {
  }

  ghost predicate Spells(s: string, v: int) {
    InInt64(v) && exists x :: ValidText(x) && Written(x) == s && Meant(x) == v
  }

  /** For every text and every number: the text is read as that number if and only if it spells it: date and time
      of a valid moment in the years 0 to 9999, a fraction or not, `Z`, an offset or nothing; or a date alone. */
  lemma IsoReadIff(s: string, v: int)
    ensures ParseISO8601(s) == Some(v) <==> Spells(s, v)
  {
    if ParseISO8601(s) == Some(v) { var x := PartsOf(s); }
    if Spells(s, v) {
      var x :| ValidText(x) && Written(x) == s && Meant(x) == v;
      hide ParseISO8601;
      hide Written;
      match x
      case DateOnly(d) => DateRead(d);
      case WithTime(t, fraction, zone) => TimeRead(t, fraction, zone);
    }
  }

  /** One o'clock in a zone that is one hour ahead is midnight in UTC. */
  lemma HourAhead()
    ensures ParseISO8601("1970-01-01T01:00:00.000+01:00") == Some(0)
  {
    var x := WithTime(Moment(Date(1970, 1, 1), 1, 0, 0, 0), true, East(1, 0));
    EpochIsZero();
    assert Meant(x) == 0;
    ReadHour(x);
    TimeRead(x.t, true, x.zone);
  }

  lemma ReadHour(x: IsoText)
    requires x == WithTime(Moment(Date(1970, 1, 1), 1, 0, 0, 0), true, East(1, 0))
    ensures ValidText(x) && Written(x) == "1970-01-01T01:00:00.000+01:00"
  {
    assert Valid(x.t.date) by { hide Pad2; }
    assert DateText(x.t.date) == "1970-01-01" by {
      assert Pad2(1) == "01" && Digit(1) == '1' && Digit(9) == '9' && Digit(7) == '7' && Digit(0) == '0';
    }
    assert ClockText(x.t) == "T01:00:00";
    assert FractionText(0) == ".000";
    assert ZoneText(x.zone) == "+01:00";
    hide DateText;
    hide ClockText;
    hide FractionText;
    hide ZoneText;
  }

  // ----- what is written -----

  function ValueOfDigits(s: string): int {
    if s == [] then 0 else 10 * ValueOfDigits(s[..|s| - 1]) + DigitValue(s[|s| - 1])
  }

  lemma {:induction false} DecimalBack(n: nat)
    ensures ValueOfDigits(Decimal(n)) == n && (n > 0 ==> Decimal(n)[0] != '0')
    ensures n >= 1000 ==> |Decimal(n)| >= 4
    ensures n < 10 ==> |Decimal(n)| == 1
    ensures 10 <= n < 100 ==> |Decimal(n)| == 2
    ensures 100 <= n < 1000 ==> |Decimal(n)| == 3
  {
    if n < 10 {
      assert Decimal(n) == [Digit(n)] && Decimal(n)[..0] == [];
    } else {
      DecimalBack(n / 10);
      var front := Decimal(n / 10);
      assert Decimal(n) == front + [Digit(n % 10)];
      assert Decimal(n)[..|front|] == front;
    }
  }

  lemma LeadingZero(s: string)
    ensures ValueOfDigits(['0'] + s) == ValueOfDigits(s)
    decreases |s|
  {
    if s != [] {
      LeadingZero(s[..|s| - 1]);
      var t := ['0'] + s;
      assert t[..|t| - 1] == ['0'] + s[..|s| - 1];
    } else {
      assert (['0'] + s)[..0] == [];
    }
  }

  function Zeros(n: nat): string {
    if n == 0 then [] else ['0'] + Zeros(n - 1)
  }

  lemma {:induction false} ZerosAdd(n: nat, s: string)
    ensures ValueOfDigits(Zeros(n) + s) == ValueOfDigits(s) && |Zeros(n)| == n && DigitsAt(Zeros(n), 0, n)
  {
    hide ValueOfDigits;
    if n == 0 {
      assert [] + s == s;
    } else {
      ZerosAdd(n - 1, s);
      LeadingZero(Zeros(n - 1) + s);
      assert Zeros(n) + s == ['0'] + (Zeros(n - 1) + s);
    }
  }

  lemma ZerosAre()
    ensures Zeros(0) == [] && Zeros(1) == "0" && Zeros(2) == "00" && Zeros(3) == "000"
  {
  }

  /** Four digits at least, and no more zeros in front than that takes. */
  lemma YearWritten(y: nat)
    ensures var s := YearText(y);
            |s| >= 4 && DigitsAt(s, 0, |s|) && ValueOfDigits(s) == y && (|s| > 4 ==> s[0] != '0')
  {
    var d := Decimal(y);
    var n := if y < 10 then 3 else if y < 100 then 2 else if y < 1000 then 1 else 0;
    DecimalBack(y);
    ZerosAdd(n, d);
    ZerosAre();
    assert YearText(y) == Zeros(n) + d by {
      hide Decimal;
      hide Zeros;
      hide ValueOfDigits;
      assert "" + d == d;
    }
    assert forall i :: 0 <= i < |d| ==> IsDigit(d[i]);
    hide Decimal;
    hide Zeros;
    hide ValueOfDigits;
    hide YearText;
  }

  lemma SignFirst(zeros: string, d: string)
    ensures "-" + zeros + d == "-" + (zeros + d) && "" + zeros + d == zeros + d && "" + d == d
  {
  }

  /** A negative year has a sign before that. */
  lemma NegativeYear(y: int)
    requires y < 0
    ensures YearText(y) == "-" + YearText(-y)
  {
    var a: nat := -y;
    var d := Decimal(a);
    hide Decimal;
    if a < 10 { SignFirst("000", d); } else if a < 100 { SignFirst("00", d); }
    else if a < 1000 { SignFirst("0", d); } else { SignFirst("", d); }
  }

  /** Every epoch is written as the year, and then what a date and time in UTC with a fraction has after it. */
  lemma FormatWritten(epochMs: int)
    ensures var t := MomentOf(epochMs);
            ValidTime(t) && FormatISO8601(epochMs) == YearText(t.date.y) + AfterYear(t)
    ensures var t := MomentOf(epochMs);
            0 <= t.date.y <= 9999 ==> FormatISO8601(epochMs) == Written(WithTime(t, true, Zulu))
  {
    var t := MomentOf(epochMs);
    MomentBack(epochMs);
    assert FormatISO8601(epochMs) == FormatMoment(t);
    hide *;
    FormatParts(t);
    if 0 <= t.date.y <= 9999 { WrittenParts(t); }
  }

  lemma WrittenParts(t: Moment)
    requires ValidTime(t) && 0 <= t.date.y <= 9999
    ensures ValidText(WithTime(t, true, Zulu)) && Written(WithTime(t, true, Zulu)) == YearText(t.date.y) + AfterYear(t)
  {
    YearTextIs(t.date.y);
    hide YearText;
    hide Pad2;
    hide Pad3;
    hide Digit;
    hide DaysInMonth;
  }

  function AfterYear(t: Moment): string
    requires ValidTime(t)
  {
    ['-'] + Pad2(t.date.m) + ['-'] + Pad2(t.date.d) + ClockText(t) + FractionText(t.ms) + ZoneText(Zulu)
  }

  lemma FormatParts(t: Moment)
    requires ValidTime(t)
    ensures FormatMoment(t) == YearText(t.date.y) + AfterYear(t)
  {
    hide YearText;
    hide Pad2;
    hide Pad3;
    hide Valid;
  }
}

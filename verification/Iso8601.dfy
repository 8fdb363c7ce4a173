/** ISO 8601 texts of epoch milliseconds: what the runtime writes and what it reads. */
module Iso8601 {
  import opened Options
  import opened Basics
  import opened Ir
  import opened Arith
  import opened Calendar

  // ----- splitting an epoch -----

  datatype Split = Split(sec: int, ms: int)

  /** C's truncating division, corrected for negative remainders. */
  function SplitEpochMs(epochMs: int): Split {
    var s, m := TruncDiv(epochMs, 1000), TruncMod(epochMs, 1000);
    if m < 0 then Split(s - 1, m + 1000) else Split(s, m)
  }

  lemma SplitIsFloor(epochMs: int)
    ensures var p := SplitEpochMs(epochMs); p.sec == epochMs / 1000 && p.ms == epochMs % 1000
  {
    var p := SplitEpochMs(epochMs);
    var q := TruncDiv(epochMs, 1000);
    if epochMs >= 0 { DivIs(epochMs, 1000); } else { DivIs(-epochMs, 1000); }
    assert epochMs == p.sec * 1000 + p.ms;
    DivUnique(epochMs, 1000, p.sec, p.ms);
  }

  datatype Moment = Moment(date: Date, hour: int, minute: int, second: int, ms: int)

  /** `gmtime_r`, taken to be the inverse of the day count. */
  function GmTime(sec: int, ms: int): Moment {
    var rest := sec % 86400;
    Moment(CivilFromDays(sec / 86400), rest / 3600, rest / 60 % 60, rest % 60, ms)
  }

  function EpochSecondsUtc(t: Moment): int {
    Days(t.date) * 86400 + t.hour * 3600 + t.minute * 60 + t.second
  }

  predicate ValidTime(t: Moment) {
    Valid(t.date) && 0 <= t.hour <= 23 && 0 <= t.minute <= 59 && 0 <= t.second <= 59 && 0 <= t.ms <= 999
  }

  lemma GmTimeInverts(sec: int, ms: int)
    requires 0 <= ms <= 999
    ensures ValidTime(GmTime(sec, ms)) && EpochSecondsUtc(GmTime(sec, ms)) == sec
  {
    hide Days;
    hide Valid;
    var rest := sec % 86400;
    DivIs(sec, 86400);
    DivIs(rest, 3600);
    DivIs(rest, 60);
    DivIs(rest / 60, 60);
    assert rest / 3600 == rest / 60 / 60 by { DivUnique(rest, 3600, rest / 60 / 60, rest / 60 % 60 * 60 + rest % 60); }
  }

  lemma GmTimeOf(t: Moment)
    requires ValidTime(t)
    ensures GmTime(EpochSecondsUtc(t), t.ms) == t
  {
    var n := Days(t.date);
    DaysBijective(t.date, n);
    hide Days;
    hide Valid;
    hide CivilFromDays;
    ClockParts(n, t.hour, t.minute, t.second);
  }

  lemma ClockParts(n: int, h: int, m: int, s: int)
    requires 0 <= h <= 23 && 0 <= m <= 59 && 0 <= s <= 59
    ensures var sec := n * 86400 + h * 3600 + m * 60 + s;
            var rest := sec % 86400;
            sec / 86400 == n && rest / 3600 == h && rest / 60 % 60 == m && rest % 60 == s
  {
    var rest := h * 3600 + m * 60 + s;
    DivUnique(n * 86400 + rest, 86400, n, rest);
    DivUnique(rest, 3600, h, m * 60 + s);
    DivUnique(rest, 60, h * 60 + m, s);
    DivUnique(h * 60 + m, 60, h, m);
  }

  function MomentOf(epochMs: int): Moment {
    var p := SplitEpochMs(epochMs);
    GmTime(p.sec, p.ms)
  }

  // ----- digits -----

  function Digit(n: int): (c: char)
    requires 0 <= n <= 9
    ensures IsDigit(c) && DigitValue(c) == n
  {
    ('0' as int + n) as char
  }

  lemma DigitBounds(c: char)
    requires IsDigit(c)
    ensures 0 <= DigitValue(c) <= 9 && Digit(DigitValue(c)) == c
  {
  }

  function Decimal(n: nat): (s: string)
    ensures |s| > 0 && forall i :: 0 <= i < |s| ==> IsDigit(s[i])
    ensures n >= 10 ==> |s| > 1
  {
    if n < 10 then [Digit(n)] else Decimal(n / 10) + [Digit(n % 10)]
  }

  function Pad2(n: int): (s: string)
    requires 0 <= n <= 99
    ensures |s| == 2
  {
    [Digit(n / 10), Digit(n % 10)]
  }

  function Pad3(n: int): (s: string)
    requires 0 <= n <= 999
    ensures |s| == 3
  {
    [Digit(n / 100), Digit(n / 10 % 10), Digit(n % 10)]
  }

  // ----- writing -----

  function YearText(y: int): string {
    var a: nat := if y < 0 then -y else y;
    var sign := if y < 0 then "-" else "";
    if a < 10 then sign + "000" + Decimal(a)
    else if a < 100 then sign + "00" + Decimal(a)
    else if a < 1000 then sign + "0" + Decimal(a)
    else sign + Decimal(a)
  }

  function FormatMoment(t: Moment): string
    requires ValidTime(t)
  {
    YearText(t.date.y) + "-" + Pad2(t.date.m) + "-" + Pad2(t.date.d) + "T" + Pad2(t.hour) + ":" + Pad2(t.minute) + ":" +
    Pad2(t.second) +
    "." + Pad3(t.ms) + "Z"
  }

  function FormatISO8601(epochMs: int): string {
    SplitIsFloor(epochMs);
    GmTimeInverts(SplitEpochMs(epochMs).sec, SplitEpochMs(epochMs).ms);
    FormatMoment(MomentOf(epochMs))
  }

  // ----- reading -----

  predicate DigitsAt(s: string, i: nat, n: nat) {
    i + n <= |s| && forall k :: i <= k < i + n ==> IsDigit(s[k])
  }

  function Two(s: string, i: nat): int
    requires i + 2 <= |s|
  {
    DigitValue(s[i]) * 10 + DigitValue(s[i + 1])
  }

  function Three(s: string, i: nat): int
    requires i + 3 <= |s|
  {
    DigitValue(s[i]) * 100 + DigitValue(s[i + 1]) * 10 + DigitValue(s[i + 2])
  }

  function Four(s: string, i: nat): int
    requires i + 4 <= |s|
  {
    DigitValue(s[i]) * 1000 + DigitValue(s[i + 1]) * 100 + DigitValue(s[i + 2]) * 10 + DigitValue(s[i + 3])
  }

  /** The time of day, if the text has one, and where the text goes on; `None` is a format error. */
  datatype Clock = Clock(hour: int, minute: int, second: int, ms: int, next: nat)

  function ParseClock(s: string): (r: Option<Clock>)
    requires 10 <= |s|
    ensures r.Some? ==> 10 <= r.value.next <= |s|
  {
    if |s| == 10 then Some(Clock(0, 0, 0, 0, 10))
    else if s[10] != 'T' || 18 >= |s| then None
    else if !(DigitsAt(s, 11, 2) && DigitsAt(s, 14, 2) && DigitsAt(s, 17, 2)) || s[13] != ':' || s[16] != ':' then None
    else if 19 < |s| && s[19] == '.' then
      if 22 >= |s| || !DigitsAt(s, 20, 3) then None
      else Some(Clock(Two(s, 11), Two(s, 14), Two(s, 17), Three(s, 20), 23))
    else Some(Clock(Two(s, 11), Two(s, 14), Two(s, 17), 0, 19))
  }

  /** The offset in minutes. */
  function ParseOffset(s: string, i: nat): Option<int>
    requires i <= |s|
  {
    if i == |s| then Some(0)
    else if s[i] == 'Z' then (if i + 1 != |s| then None else Some(0))
    else if s[i] == '+' || s[i] == '-' then
      if i + 6 != |s| || !DigitsAt(s, i + 1, 2) || !DigitsAt(s, i + 4, 2) || s[i + 3] != ':' then None
      else if Two(s, i + 1) > 23 || Two(s, i + 4) > 59 then None
      else
        var offset := Two(s, i + 1) * 60 + Two(s, i + 4);
        Some(if s[i] == '-' then -offset else offset)
    else None
  }

  function ParseISO8601(s: string): Option<int> {
    if |s| < 10 || s[4] != '-' || s[7] != '-' then None
    else if !DigitsAt(s, 0, 4) || !DigitsAt(s, 5, 2) || !DigitsAt(s, 8, 2) then None
    else
      match ParseClock(s)
      case None => None
      case Some(c) =>
        match ParseOffset(s, c.next)
        case None => None
        case Some(offset) =>
          var t := Moment(Date(Four(s, 0), Two(s, 5), Two(s, 8)), c.hour, c.minute, c.second, c.ms);
          if !ValidTime(t) then None
          else
            var total := EpochSecondsUtc(t) * 1000 + t.ms - offset * 60 * 1000;
            if InInt64(total) then Some(total) else None
  }

  // ----- the canonical text -----

  /** The text of a moment in the years 0 to 9999, character by character. */
  function Canonical(t: Moment): (s: string)
    requires ValidTime(t) && 0 <= t.date.y <= 9999
    ensures |s| == 24
  {
    var y := t.date.y;
    [Digit(y / 1000), Digit(y / 100 % 10), Digit(y / 10 % 10), Digit(y % 10), '-'] + Pad2(t.date.m) + ['-'] +
    Pad2(t.date.d) + ['T'] +
    Pad2(t.hour) + [':'] + Pad2(t.minute) + [':'] + Pad2(t.second) + ['.'] + Pad3(t.ms) + ['Z']
  }

  lemma YearTextIs(y: int)
    requires 0 <= y <= 9999
    ensures YearText(y) == [Digit(y / 1000), Digit(y / 100 % 10), Digit(y / 10 % 10), Digit(y % 10)]
  {
    var d0, d1, d2 := y / 1000, y / 100, y / 10;
    assert d2 / 10 == d1 && d1 / 10 == d0 by {
      DivIs(y, 10);
      DivIs(d2, 10);
      DivUnique(y, 100, d2 / 10, d2 % 10 * 10 + y % 10);
      DivIs(d1, 10);
      DivIs(y, 100);
      DivUnique(y, 1000, d1 / 10, d1 % 10 * 100 + y % 100);
    }
    if y >= 10 {
      assert Decimal(y) == Decimal(d2) + [Digit(y % 10)];
      if y >= 100 {
        assert Decimal(d2) == Decimal(d1) + [Digit(d2 % 10)];
        if y >= 1000 { assert Decimal(d1) == Decimal(d0) + [Digit(d1 % 10)]; }
      }
    }
  }

  lemma FormatIs(t: Moment)
    requires ValidTime(t) && 0 <= t.date.y <= 9999
    ensures FormatMoment(t) == Canonical(t)
  {
    YearTextIs(t.date.y);
  }

  lemma Pad2Back(n: int)
    requires 0 <= n <= 99
    ensures var p := Pad2(n); IsDigit(p[0]) && IsDigit(p[1]) && DigitValue(p[0]) * 10 + DigitValue(p[1]) == n
  {
    DivIs(n, 10);
  }

  lemma Pad3Back(n: int)
    requires 0 <= n <= 999
    ensures var p := Pad3(n); DigitsAt(p, 0, 3) && Three(p, 0) == n
  {
    DivIs(n, 10);
    DivIs(n / 10, 10);
    DivUnique(n, 100, n / 10 / 10, n / 10 % 10 * 10 + n % 10);
  }

  lemma YearBack(y: int)
    requires 0 <= y <= 9999
    ensures var p := [Digit(y / 1000), Digit(y / 100 % 10), Digit(y / 10 % 10), Digit(y % 10)];
            DigitsAt(p, 0, 4) && Four(p, 0) == y
  {
    DivIs(y, 10);
    DivIs(y / 10, 10);
    DivUnique(y, 100, y / 10 / 10, y / 10 % 10 * 10 + y % 10);
    DivIs(y / 100, 10);
    DivIs(y, 100);
    DivUnique(y, 1000, y / 100 / 10, y / 100 % 10 * 100 + y % 100);
  }

  /** Where the fields of a canonical text are. */
  lemma CanonicalParts(t: Moment)
    requires ValidTime(t) && 0 <= t.date.y <= 9999
    ensures var s := Canonical(t);
            s[4] == '-' && s[7] == '-' && s[10] == 'T' && s[13] == ':' && s[16] == ':' && s[19] == '.' &&
            s[23] == 'Z' &&
            DigitsAt(s, 0, 4) && Four(s, 0) == t.date.y && DigitsAt(s, 5, 2) && Two(s, 5) == t.date.m &&
            DigitsAt(s, 8, 2) && Two(s, 8) == t.date.d &&
            DigitsAt(s, 11, 2) && Two(s, 11) == t.hour && DigitsAt(s, 14, 2) && Two(s, 14) == t.minute &&
            DigitsAt(s, 17, 2) && Two(s, 17) == t.second && DigitsAt(s, 20, 3) && Three(s, 20) == t.ms
  {
    YearBack(t.date.y);
    Pad2Back(t.date.m);
    Pad2Back(t.date.d);
    Pad2Back(t.hour);
    Pad2Back(t.minute);
    Pad2Back(t.second);
    Pad3Back(t.ms);
    hide Pad2;
    hide Pad3;
    hide Digit;
    hide IsDigit;
    hide DigitValue;
    hide DaysInMonth;
  }

  lemma ParseCanonical(t: Moment)
    requires ValidTime(t) && 0 <= t.date.y <= 9999
    ensures var total := EpochSecondsUtc(t) * 1000 + t.ms;
            ParseISO8601(Canonical(t)) == if InInt64(total) then Some(total) else None
  {
    hide Canonical;
    hide EpochSecondsUtc;
    hide Two;
    hide Three;
    hide Four;
    hide DigitsAt;
    hide ValidTime;
    CanonicalParts(t);
    var s := Canonical(t);
    assert ParseClock(s) == Some(Clock(t.hour, t.minute, t.second, t.ms, 23));
    assert ParseOffset(s, 23) == Some(0);
    assert Moment(Date(t.date.y, t.date.m, t.date.d), t.hour, t.minute, t.second, t.ms) == t;
  }

  lemma MomentBack(epochMs: int)
    ensures var t := MomentOf(epochMs); ValidTime(t) && EpochSecondsUtc(t) * 1000 + t.ms == epochMs
  {
    SplitIsFloor(epochMs);
    DivIs(epochMs, 1000);
    GmTimeInverts(epochMs / 1000, epochMs % 1000);
  }

  /** A year before 0 or after 9999 leaves a digit where the reader wants the first dash. */
  lemma OtherYears(t: Moment)
    requires ValidTime(t) && !(0 <= t.date.y <= 9999)
    ensures |FormatMoment(t)| > 4 && FormatMoment(t)[4] != '-'
  {
    var y := t.date.y;
    var a: nat := if y < 0 then -y else y;
    if a >= 1000 { LongDecimal(a); }
    if a >= 100 { assert |Decimal(a)| >= 3 by { assert Decimal(a) == Decimal(a / 10) + [Digit(a % 10)]; } }
    assert |YearText(y)| >= 5 && IsDigit(YearText(y)[4]);
    assert YearText(y) <= FormatMoment(t);
  }

  lemma LongDecimal(n: nat)
    requires n >= 1000
    ensures |Decimal(n)| >= 4 && (n >= 10000 ==> |Decimal(n)| >= 5)
  {
    assert Decimal(n) == Decimal(n / 10) + [Digit(n % 10)];
    assert Decimal(n / 10) == Decimal(n / 10 / 10) + [Digit(n / 10 % 10)];
    assert n / 10 / 10 >= 10;
    assert Decimal(n / 10 / 10) == Decimal(n / 10 / 10 / 10) + [Digit(n / 10 / 10 % 10)];
  }

  /** Reading what was written gives the epoch back exactly for the years 0 to 9999. */
  lemma IsoRoundTrip(epochMs: int)
    requires InInt64(epochMs)
    ensures ParseISO8601(FormatISO8601(epochMs)) == Some(epochMs) <==> 0 <= MomentOf(epochMs).date.y <= 9999
  {
    var t := MomentOf(epochMs);
    MomentBack(epochMs);
    hide MomentOf;
    hide EpochSecondsUtc;
    if 0 <= t.date.y <= 9999 {
      FormatIs(t);
      ParseCanonical(t);
    } else {
      OtherYears(t);
    }
  }

  /** Conversely, a text of 24 characters that is read is the canonical text of what it denotes. */
  lemma CanonicalTexts(s: string)
    requires |s| == 24 && ParseISO8601(s).Some?
    ensures FormatISO8601(ParseISO8601(s).value) == s
  {
    var c := ParseClock(s).value;
    assert c.next == 23;
    var t := Moment(Date(Four(s, 0), Two(s, 5), Two(s, 8)), c.hour, c.minute, c.second, c.ms);
    var total := EpochSecondsUtc(t) * 1000 + t.ms;
    assert ParseISO8601(s) == Some(total) && ValidTime(t) && s[23] == 'Z';
    DivUnique(total, 1000, EpochSecondsUtc(t), t.ms);
    SplitIsFloor(total);
    GmTimeOf(t);
    FourRange(s);
    FormatIs(t);
    SpellsBack(s, t);
  }

  lemma FourRange(s: string)
    requires DigitsAt(s, 0, 4)
    ensures 0 <= Four(s, 0) <= 9999
  {
  }

  lemma TwoBack(a: char, b: char)
    requires IsDigit(a) && IsDigit(b)
    ensures var n := DigitValue(a) * 10 + DigitValue(b); 0 <= n <= 99 && Pad2(n) == [a, b]
  {
    DivUnique(DigitValue(a) * 10 + DigitValue(b), 10, DigitValue(a), DigitValue(b));
    DigitBounds(a);
    DigitBounds(b);
  }

  lemma ThreeBack(a: char, b: char, c: char)
    requires IsDigit(a) && IsDigit(b) && IsDigit(c)
    ensures var n := DigitValue(a) * 100 + DigitValue(b) * 10 + DigitValue(c); 0 <= n <= 999 && Pad3(n) == [a, b, c]
  {
    var n := DigitValue(a) * 100 + DigitValue(b) * 10 + DigitValue(c);
    DivUnique(n, 100, DigitValue(a), DigitValue(b) * 10 + DigitValue(c));
    DivUnique(n, 10, DigitValue(a) * 10 + DigitValue(b), DigitValue(c));
    DivUnique(DigitValue(a) * 10 + DigitValue(b), 10, DigitValue(a), DigitValue(b));
    DigitBounds(a);
    DigitBounds(b);
    DigitBounds(c);
  }

  lemma FourBack(a: char, b: char, c: char, d: char)
    requires IsDigit(a) && IsDigit(b) && IsDigit(c) && IsDigit(d)
    ensures var n := DigitValue(a) * 1000 + DigitValue(b) * 100 + DigitValue(c) * 10 + DigitValue(d);
            0 <= n <= 9999 && [Digit(n / 1000), Digit(n / 100 % 10), Digit(n / 10 % 10), Digit(n % 10)] == [a, b, c, d]
  {
    var n := DigitValue(a) * 1000 + DigitValue(b) * 100 + DigitValue(c) * 10 + DigitValue(d);
    DivUnique(n, 1000, DigitValue(a), DigitValue(b) * 100 + DigitValue(c) * 10 + DigitValue(d));
    DivUnique(n, 100, DigitValue(a) * 10 + DigitValue(b), DigitValue(c) * 10 + DigitValue(d));
    DivUnique(n, 10, DigitValue(a) * 100 + DigitValue(b) * 10 + DigitValue(c), DigitValue(d));
    DivUnique(DigitValue(a) * 10 + DigitValue(b), 10, DigitValue(a), DigitValue(b));
    DivUnique(DigitValue(a) * 100 + DigitValue(b) * 10 + DigitValue(c), 10, DigitValue(a) * 10 + DigitValue(b),
              DigitValue(c));
    DigitBounds(a);
    DigitBounds(b);
    DigitBounds(c);
    DigitBounds(d);
  }

  lemma SpellsBack(s: string, t: Moment)
    requires |s| == 24 && DigitsAt(s, 0, 4) && DigitsAt(s, 5, 2) && DigitsAt(s, 8, 2) && DigitsAt(s, 11, 2) &&
             DigitsAt(s, 14, 2)
    requires DigitsAt(s, 17, 2) && DigitsAt(s, 20, 3) && s[4] == '-' && s[7] == '-' && s[10] == 'T' && s[13] == ':' &&
             s[16] == ':'
    requires s[19] == '.' && s[23] == 'Z' && ValidTime(t)
    requires t == Moment(Date(Four(s, 0), Two(s, 5), Two(s, 8)), Two(s, 11), Two(s, 14), Two(s, 17), Three(s, 20))
    ensures 0 <= t.date.y <= 9999 && Canonical(t) == s
  {
    FourBack(s[0], s[1], s[2], s[3]);
    TwoBack(s[5], s[6]);
    TwoBack(s[8], s[9]);
    TwoBack(s[11], s[12]);
    TwoBack(s[14], s[15]);
    TwoBack(s[17], s[18]);
    ThreeBack(s[20], s[21], s[22]);
    JoinBack(s, t);
  }

  lemma JoinBack(s: string, t: Moment)
    requires |s| == 24 && s[4] == '-' && s[7] == '-' && s[10] == 'T' && s[13] == ':' && s[16] == ':' && s[19] == '.' &&
             s[23] == 'Z'
    requires ValidTime(t) && 0 <= t.date.y <= 9999
    requires var y := t.date.y; [Digit(y / 1000), Digit(y / 100 % 10), Digit(y / 10 % 10), Digit(y % 10)] ==
                                [s[0], s[1], s[2], s[3]]
    requires Pad2(t.date.m) == [s[5], s[6]] && Pad2(t.date.d) == [s[8], s[9]]
    requires Pad2(t.hour) == [s[11], s[12]] && Pad2(t.minute) == [s[14], s[15]] && Pad2(t.second) == [s[17], s[18]]
    requires Pad3(t.ms) == [s[20], s[21], s[22]]
    ensures Canonical(t) == s
  {
    hide Pad2;
    hide Pad3;
    hide Digit;
    hide DaysInMonth;
    var y := t.date.y;
    assert s[0] == Digit(y / 1000) && s[1] == Digit(y / 100 % 10) && s[2] == Digit(y / 10 % 10) &&
           s[3] == Digit(y % 10);
  }
}

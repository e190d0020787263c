/** Timestamps. Every "now" the server reads from the clock is a parameter of
    type `Instant`; these functions are the `isoformat`, `fromisoformat` and
    `strftime` renderings the server stores in sheets and metadata. */
module Clock {
  import opened Wrappers
  import opened Strings

  /** A naive local date-time to the microsecond. */
  datatype Instant = Instant(year: nat, month: nat, day: nat, hour: nat, minute: nat, second: nat, micro: nat)

  predicate IsLeap(y: nat) {
    y % 4 == 0 && (y % 100 != 0 || y % 400 == 0)
  }

  function DaysIn(y: nat, m: nat): nat {
    if m == 2 then (if IsLeap(y) then 29 else 28)
    else if m == 4 || m == 6 || m == 9 || m == 11 then 30
    else 31
  }

  /** The range Python's `datetime` accepts. */
  predicate Valid(t: Instant) {
    1 <= t.year <= 9999 && 1 <= t.month <= 12 && 1 <= t.day <= DaysIn(t.year, t.month)
    && t.hour < 24 && t.minute < 60 && t.second < 60 && t.micro < 1000000
  }

  /** Midnight of the day of `t`: what a `"%Y-%m-%d"` date stands for. */
  function Midnight(t: Instant): Instant {
    Instant(t.year, t.month, t.day, 0, 0, 0, 0)
  }

  /** `strftime("%Y-%m-%d")`. */
  function FormatDate(t: Instant): (r: string)
    ensures |r| == 10
  {
    ZeroPad(t.year, 4) + "-" + ZeroPad(t.month, 2) + "-" + ZeroPad(t.day, 2)
  }

  /** `strftime("%Y-%m-%d %H:%M")`. */
  function FormatMinute(t: Instant): (r: string)
    ensures |r| == 16
  {
    FormatDate(t) + " " + ZeroPad(t.hour, 2) + ":" + ZeroPad(t.minute, 2)
  }

  /** `isoformat()`: the fraction ".ffffff" is written only when the
      microseconds are not zero. */
  function IsoFormat(t: Instant): (r: string)
    ensures |r| == if t.micro == 0 then 19 else 26
  {
    IsoHead(t) + if t.micro == 0 then "" else "." + ZeroPad(t.micro, 6)
  }

  function Num(s: string, lo: nat, hi: nat): Option<nat>
    requires lo <= hi <= |s|
  {
    if AllDigits(s[lo..hi]) then Some(DigitsValue(s[lo..hi])) else None
  }

  /** `datetime.fromisoformat(s)` for "YYYY-MM-DD", optionally followed by any
      separator character and "HH", "HH:MM" or "HH:MM:SS", the last
      optionally followed by a 3- or 6-digit fraction ".fff" / ".ffffff".
      `None` where Python raises ValueError on these shapes; every other
      shape (a UTC offset, another fraction length) is read as `None` too. */
  function ParseIso(s: string): (r: Option<Instant>)
    ensures r.Some? ==> Valid(r.value)
  {
    var n := if |s| == 23 || |s| == 26 then 19 else |s|;
    if n != 10 && n != 13 && n != 16 && n != 19 then None
    else if s[4] != '-' || s[7] != '-' then None
    else if n >= 16 && s[13] != ':' then None
    else if n == 19 && s[16] != ':' then None
    else if n < |s| && s[19] != '.' then None
    else
      var y := Num(s, 0, 4);
      var mo := Num(s, 5, 7);
      var d := Num(s, 8, 10);
      var h := if n >= 13 then Num(s, 11, 13) else Some(0);
      var mi := if n >= 16 then Num(s, 14, 16) else Some(0);
      var se := if n == 19 then Num(s, 17, 19) else Some(0);
      var us := if |s| == 26 then Num(s, 20, 26)
                else if |s| == 23 then (if AllDigits(s[20..23]) then Some(DigitsValue(s[20..23]) * 1000) else None)
                else Some(0);
      if y.None? || mo.None? || d.None? || h.None? || mi.None? || se.None? || us.None? then None
      else
        var t := Instant(y.value, mo.value, d.value, h.value, mi.value, se.value, us.value);
        if Valid(t) then Some(t) else None
  }

  /** The date and time of day that `isoformat` writes before any fraction. */
  function IsoHead(t: Instant): (r: string)
    ensures |r| == 19
  {
    FormatDate(t) + "T" + ZeroPad(t.hour, 2) + ":" + ZeroPad(t.minute, 2) + ":" + ZeroPad(t.second, 2)
  }

  /** Where `isoformat` puts each field of the date and time of day. */
  lemma {:induction false} HeadPieces(t: Instant)
    ensures var s := IsoHead(t);
      && s[0..4] == ZeroPad(t.year, 4) && s[5..7] == ZeroPad(t.month, 2) && s[8..10] == ZeroPad(t.day, 2)
      && s[11..13] == ZeroPad(t.hour, 2) && s[14..16] == ZeroPad(t.minute, 2)
      && s[17..19] == ZeroPad(t.second, 2)
      && s[4] == '-' && s[7] == '-' && s[13] == ':' && s[16] == ':'
  {
    var s := IsoHead(t);
    var date := FormatDate(t);
    var y, mo, d := ZeroPad(t.year, 4), ZeroPad(t.month, 2), ZeroPad(t.day, 2);
    var h, mi, se := ZeroPad(t.hour, 2), ZeroPad(t.minute, 2), ZeroPad(t.second, 2);
    assert date == y + "-" + mo + "-" + d;
    assert date[0..4] == y && date[5..7] == mo && date[8..10] == d;
    var rest := "T" + h + ":" + mi + ":" + se;
    assert s == date + rest;
    assert rest[1..3] == h && rest[4..6] == mi && rest[7..9] == se;
    assert s[0..10] == date;
    assert s[10..19] == rest;
  }

  /** A string starting with the head of `t` reads back the fields of `t`
      at the places `fromisoformat` looks for them. */
  lemma {:induction false} HeadFields(s: string, t: Instant)
    requires |s| >= 19 && s[..19] == IsoHead(t) && Valid(t)
    ensures s[4] == '-' && s[7] == '-' && s[13] == ':' && s[16] == ':'
    ensures Num(s, 0, 4) == Some(t.year) && Num(s, 5, 7) == Some(t.month) && Num(s, 8, 10) == Some(t.day)
    ensures Num(s, 11, 13) == Some(t.hour) && Num(s, 14, 16) == Some(t.minute)
    ensures Num(s, 17, 19) == Some(t.second)
  {
    var head := IsoHead(t);
    HeadPieces(t);
    assert s[0..4] == head[0..4] && s[5..7] == head[5..7] && s[8..10] == head[8..10];
    assert s[11..13] == head[11..13] && s[14..16] == head[14..16] && s[17..19] == head[17..19];
    assert s[4] == head[4] && s[7] == head[7] && s[13] == head[13] && s[16] == head[16];
    assert Pow10(2) == 100 && Pow10(4) == 10000;
    NumAt(s, 0, 4, t.year);
    NumAt(s, 5, 2, t.month);
    NumAt(s, 8, 2, t.day);
    NumAt(s, 11, 2, t.hour);
    NumAt(s, 14, 2, t.minute);
    NumAt(s, 17, 2, t.second);
  }

  /** `fromisoformat(isoformat(t)) == t`. */
  lemma {:induction false} IsoRoundTrip(t: Instant)
    requires Valid(t)
    ensures ParseIso(IsoFormat(t)) == Some(t)
  {
    var s := IsoFormat(t);
    var head := IsoHead(t);
    if t.micro == 0 {
      assert s == head;
      assert s[..19] == head;
      HeadFields(s, t);
      ParseFields(s, t);
    } else {
      assert s == head + "." + ZeroPad(t.micro, 6);
      assert s[..19] == head;
      HeadFields(s, t);
      FracField(head, t.micro);
      ParseFields(s, t);
    }
  }

  /** A 19- or 26-character text with the separators and fields of `t` in
      place parses as `t`. */
  lemma {:induction false} ParseFields(s: string, t: Instant)
    requires Valid(t) && (|s| == 19 || |s| == 26)
    requires s[4] == '-' && s[7] == '-' && s[13] == ':' && s[16] == ':'
    requires Num(s, 0, 4) == Some(t.year) && Num(s, 5, 7) == Some(t.month) && Num(s, 8, 10) == Some(t.day)
    requires Num(s, 11, 13) == Some(t.hour) && Num(s, 14, 16) == Some(t.minute)
    requires Num(s, 17, 19) == Some(t.second)
    requires |s| == 19 ==> t.micro == 0
    requires |s| == 26 ==> s[19] == '.' && Num(s, 20, 26) == Some(t.micro)
    ensures ParseIso(s) == Some(t)
  {
  }

  /** A six-digit fraction after the head reads back as the microseconds. */
  lemma {:induction false} FracField(head: string, micro: nat)
    requires |head| == 19 && micro < 1000000
    ensures var s := head + "." + ZeroPad(micro, 6);
      |s| == 26 && s[19] == '.' && Num(s, 20, 26) == Some(micro)
  {
    var s := head + "." + ZeroPad(micro, 6);
    assert s[20..26] == ZeroPad(micro, 6);
    assert Pow10(6) == 1000000;
    NumAt(s, 20, 6, micro);
  }

  /** A zero-padded field reads back as its value. */
  lemma NumAt(s: string, lo: nat, w: nat, x: nat)
    requires lo + w <= |s| && x < Pow10(w)
    requires s[lo..lo + w] == ZeroPad(x, w)
    ensures Num(s, lo, lo + w) == Some(x)
  {
    ZeroPadValue(x, w);
  }

  /** `fromisoformat` of a `"%Y-%m-%d"` date is midnight of that day. */
  lemma {:induction false} DateRoundTrip(t: Instant)
    requires Valid(t)
    ensures ParseIso(FormatDate(t)) == Some(Midnight(t))
  {
    var s := FormatDate(t);
    var y, mo, d := ZeroPad(t.year, 4), ZeroPad(t.month, 2), ZeroPad(t.day, 2);
    assert s[0..4] == y && s[5..7] == mo && s[8..10] == d;
    assert s[4] == '-' && s[7] == '-';
    assert Pow10(2) == 100 && Pow10(4) == 10000;
    NumAt(s, 0, 4, t.year);
    NumAt(s, 5, 2, t.month);
    NumAt(s, 8, 2, t.day);
  }

  // ----------------------------------------------------- day arithmetic

  function YearLength(y: nat): nat {
    if IsLeap(y) then 366 else 365
  }

  /** Days in the months of year `y` before month `m`. */
  function DaysBeforeMonth(y: nat, m: nat): nat {
    if m <= 1 then 0 else DaysBeforeMonth(y, m - 1) + DaysIn(y, m - 1)
  }

  /** Days in the years before `y`, counted from year 1. */
  function DaysBeforeYear(y: nat): nat {
    if y <= 1 then 0 else DaysBeforeYear(y - 1) + YearLength(y - 1)
  }

  /** `toordinal()`: 1 for 0001-01-01, one more for each later day. */
  function Ordinal(t: Instant): nat {
    DaysBeforeYear(t.year) + DaysBeforeMonth(t.year, t.month) + t.day
  }

  /** Seconds since 0001-01-01 00:00:00 less one day; differences of these
      are `(b - a).total_seconds()`. */
  function Seconds(t: Instant): int {
    Ordinal(t) * 86400 + t.hour * 3600 + t.minute * 60 + t.second
  }

  /** Field-by-field chronological order. */
  predicate Before(a: Instant, b: Instant) {
    a.year < b.year
    || (a.year == b.year && a.month < b.month)
    || (a.year == b.year && a.month == b.month && a.day < b.day)
    || (a.year == b.year && a.month == b.month && a.day == b.day && a.hour < b.hour)
    || (a.year == b.year && a.month == b.month && a.day == b.day && a.hour == b.hour && a.minute < b.minute)
    || (a.year == b.year && a.month == b.month && a.day == b.day && a.hour == b.hour && a.minute == b.minute
        && a.second < b.second)
    || (a.year == b.year && a.month == b.month && a.day == b.day && a.hour == b.hour && a.minute == b.minute
        && a.second == b.second && a.micro < b.micro)
  }

  /** Microseconds on the same scale as `Seconds`: what comparing two
      datetimes compares. */
  function Micros(t: Instant): int {
    Seconds(t) * 1000000 + t.micro
  }

  /** `int((b - a).total_seconds())`: the elapsed time in whole seconds,
      truncated toward zero. */
  function ElapsedSeconds(a: Instant, b: Instant): (r: int)
    ensures Micros(b) >= Micros(a) ==> r >= 0 && r * 1000000 <= Micros(b) - Micros(a) < (r + 1) * 1000000
    ensures Micros(b) < Micros(a) ==> r <= 0 && (r - 1) * 1000000 < Micros(b) - Micros(a) <= r * 1000000
    ensures a.micro == 0 && b.micro == 0 ==> r == Seconds(b) - Seconds(a)
  {
    var d := Micros(b) - Micros(a);
    if d >= 0 then d / 1000000 else -((-d) / 1000000)
  }

  lemma {:induction false} MonthsGrow(y: nat, m1: nat, m2: nat)
    requires m1 <= m2
    ensures DaysBeforeMonth(y, m1) <= DaysBeforeMonth(y, m2)
    decreases m2
  {
    if m1 < m2 {
      MonthsGrow(y, m1, m2 - 1);
    }
  }

  lemma {:induction false} YearIsTwelveMonths(y: nat)
    ensures DaysBeforeMonth(y, 13) == YearLength(y)
  {
    assert DaysBeforeMonth(y, 2) == 31;
    assert DaysBeforeMonth(y, 3) == 31 + DaysIn(y, 2);
    assert DaysBeforeMonth(y, 4) == DaysBeforeMonth(y, 3) + 31;
    assert DaysBeforeMonth(y, 5) == DaysBeforeMonth(y, 3) + 61;
    assert DaysBeforeMonth(y, 6) == DaysBeforeMonth(y, 3) + 92;
    assert DaysBeforeMonth(y, 7) == DaysBeforeMonth(y, 3) + 122;
    assert DaysBeforeMonth(y, 8) == DaysBeforeMonth(y, 3) + 153;
    assert DaysBeforeMonth(y, 9) == DaysBeforeMonth(y, 3) + 184;
    assert DaysBeforeMonth(y, 10) == DaysBeforeMonth(y, 3) + 214;
    assert DaysBeforeMonth(y, 11) == DaysBeforeMonth(y, 3) + 245;
    assert DaysBeforeMonth(y, 12) == DaysBeforeMonth(y, 3) + 275;
  }

  lemma {:induction false} YearsGrow(y1: nat, y2: nat)
    requires y1 <= y2
    ensures DaysBeforeYear(y1) <= DaysBeforeYear(y2)
    decreases y2
  {
    if y1 < y2 {
      YearsGrow(y1, y2 - 1);
    }
  }

  /** A valid instant's day falls inside its year. */
  lemma {:induction false} DayInYear(t: Instant)
    requires Valid(t)
    ensures Ordinal(t) <= DaysBeforeYear(t.year + 1)
  {
    MonthsGrow(t.year, t.month + 1, 13);
    YearIsTwelveMonths(t.year);
  }

  /** On valid instants `Micros` is strictly increasing in time order, so
      comparing it is comparing datetimes. */
  lemma {:induction false} TimeOrder(a: Instant, b: Instant)
    requires Valid(a) && Valid(b) && Before(a, b)
    ensures Micros(a) < Micros(b)
  {
    if Seconds(a) == Seconds(b) {
      SecondsSame(a, b);
    } else {
      SecondsOrder(a, b);
      assert Micros(a) < (Seconds(a) + 1) * 1000000 <= Micros(b);
    }
  }

  /** Equal second counts of valid instants come from equal fields. */
  lemma {:induction false} SecondsSame(a: Instant, b: Instant)
    requires Valid(a) && Valid(b) && Seconds(a) == Seconds(b)
    ensures a.(micro := 0) == b.(micro := 0)
  {
    var a0, b0 := a.(micro := 0), b.(micro := 0);
    if Before(a0, b0) {
      SecondsOrder(a0, b0);
    } else if Before(b0, a0) {
      SecondsOrder(b0, a0);
    }
  }

  /** On valid instants `Seconds` grows strictly with the instant taken to
      the second. */
  lemma {:induction false} SecondsOrder(a: Instant, b: Instant)
    requires Valid(a) && Valid(b) && Before(a.(micro := 0), b.(micro := 0))
    ensures Seconds(a) < Seconds(b)
  {
    if a.year < b.year {
      DayInYear(a);
      YearsGrow(a.year + 1, b.year);
    } else if a.month < b.month {
      MonthsGrow(a.year, a.month + 1, b.month);
    }
    assert Ordinal(a) < Ordinal(b) || Ordinal(a) == Ordinal(b);
  }
}

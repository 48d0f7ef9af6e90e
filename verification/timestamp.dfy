/**
 * `datetime.strptime(timestamp, "%m-%d-%Y %H:%M:%S.%f %z")` on the timestamp
 * group of a matched line, and the instant the resulting aware datetime
 * denotes (what `<` and `>` compare).
 *
 * The timestamp group is `date hour:minute:second zone` with the envelope's
 * own separators, and none of those groups contains the separator that ends
 * it, so the strptime pattern splits it at the same places: each directive is
 * checked on its own group.
 */
module Timestamp {
  import opened Chars
  import opened Wrappers
  import opened Digits
  import E = Envelope

  const MicrosPerSecond := 1000000
  const MicrosPerMinute := 60 * MicrosPerSecond
  const MicrosPerDay := 86400 * MicrosPerSecond

  /** The aware datetime strptime builds: local fields and the UTC offset in
      microseconds (east positive). */
  datatype DateTime = DateTime(
    year: int, month: int, day: int,
    hour: int, minute: int, second: int, micro: int,
    offset: int)

  predicate IsLeap(y: int) {
    y % 4 == 0 && (y % 100 != 0 || y % 400 == 0)
  }

  function DaysInMonth(y: int, m: int): int
    requires 1 <= m <= 12
  {
    if m == 2 then (if IsLeap(y) then 29 else 28)
    else if m == 4 || m == 6 || m == 9 || m == 11 then 30
    else 31
  }

  /** What the `datetime` and `timezone` constructors accept. */
  predicate Valid(dt: DateTime) {
    && 1 <= dt.year <= 9999
    && 1 <= dt.month <= 12
    && 1 <= dt.day <= DaysInMonth(dt.year, dt.month)
    && 0 <= dt.hour <= 23
    && 0 <= dt.minute <= 59
    && 0 <= dt.second <= 59
    && 0 <= dt.micro < MicrosPerSecond
    && -MicrosPerDay < dt.offset < MicrosPerDay
  }

  /** One or two digits with a value in `lo..hi`: the alternations strptime
      uses for `%m`, `%d`, `%H`, `%M` and `%S`. */
  function Small(tok: string, lo: nat, hi: nat): (r: Option<nat>)
    ensures r.Some? ==> lo <= r.value <= hi
  {
    if 1 <= |tok| <= 2 && AllIn(tok, Digit) && lo <= Number(tok) <= hi then Some(Number(tok))
    else None
  }

  /** `%f`: one to six digits, read as microseconds (padded on the right). */
  function Fraction(f: string): (r: Option<nat>)
    ensures r.Some? <==> 1 <= |f| <= 6 && AllIn(f, Digit)
    ensures r.Some? ==> r.value < MicrosPerSecond
  {
    if 1 <= |f| <= 6 && AllIn(f, Digit) then
      FractionBound(f);
      Some(Number(f) * Pow10(6 - |f|))
    else None
  }

  lemma NumberBound(s: string)
    requires AllIn(s, Digit)
    ensures Number(s) < Pow10(|s|)
  {
    if s != [] {
      NumberBound(s[..|s| - 1]);
    }
  }

  lemma FractionBound(f: string)
    requires 1 <= |f| <= 6 && AllIn(f, Digit)
    ensures Number(f) * Pow10(6 - |f|) < MicrosPerSecond
  {
    NumberBound(f);
    var k := 6 - |f|;
    assert Pow10(|f|) * Pow10(k) == 1000000 by {
      if |f| == 1 { assert Pow10(k) == 100000; }
      else if |f| == 2 { assert Pow10(k) == 10000; }
      else if |f| == 3 { assert Pow10(k) == 1000; }
      else if |f| == 4 { assert Pow10(k) == 100; }
      else if |f| == 5 { assert Pow10(k) == 10; }
    }
    assert Number(f) * Pow10(k) < Pow10(|f|) * Pow10(k) by {
      MulLess(Number(f), Pow10(|f|), Pow10(k));
    }
  }

  lemma MulLess(a: nat, b: nat, c: nat)
    requires a < b && c > 0
    ensures a * c < b * c
  {
  }

  /** `%m-%d-%Y`: month, day and a four-digit year. */
  function ParseDate(date: string): (r: Option<(int, int, int)>)
    ensures r.Some? ==> r.value.0 < 10000 && 1 <= r.value.1 <= 12 && 1 <= r.value.2 <= 31
  {
    var (m, rest) :- E.Token(date, Digit, '-');
    var month :- Small(m, 1, 12);
    var (d, y) :- E.Token(rest, Digit, '-');
    var day :- Small(d, 1, 31);
    if |y| == 4 && AllIn(y, Digit) then
      NumberBound(y);
      Some((Number(y), month, day))
    else None
  }

  /** Two digits, the first at most 5: `[0-5]\d` at the start of `s`. */
  predicate SixtyAt(s: string) {
    |s| >= 2 && '0' <= s[0] <= '5' && IsDigit(s[1])
  }

  /** The optional seconds part of `%z` after `+HH[:]MM`, in seconds and
      microseconds. Text the pattern does not take is left over, which
      strptime rejects; the two colons must agree. */
  function ZoneSeconds(rest: string, colon1: bool): Option<(nat, nat)> {
    if rest == [] then Some((0, 0))
    else
      var colon2 := rest[0] == ':';
      var t := if colon2 then rest[1..] else rest;
      if !SixtyAt(t) || colon1 != colon2 then None
      else
        var f := t[2..];
        if f == [] then Some((Number(t[..2]), 0))
        else if f[0] == '.' then
          var micro :- Fraction(f[1..]);
          Some((Number(t[..2]), micro))
        else None
  }

  function SignOf(c: char): int {
    if c == '-' then -1 else 1
  }

  /** The groups of a `%z` value other than `Z`: sign, hours, minutes,
      seconds, microseconds. */
  datatype ZoneFields = ZoneFields(sign: int, hours: nat, minutes: nat, seconds: nat, micro: nat)

  /** What the `%z` pattern takes from `z` (other than `Z`). */
  function ScanZone(z: string): Option<ZoneFields> {
    if |z| < 5 || (z[0] != '+' && z[0] != '-') || !IsDigit(z[1]) || !IsDigit(z[2]) then None
    else
      var colon1 := z[3] == ':';
      var m := if colon1 then z[4..] else z[3..];
      if !SixtyAt(m) then None
      else
        var (secs, micro) :- ZoneSeconds(m[2..], colon1);
        Some(ZoneFields(SignOf(z[0]), Number(z[1..3]), Number(m[..2]), secs, micro))
  }

  /** The signed offset the groups denote, in microseconds. */
  function ZoneOffset(f: ZoneFields): int {
    f.sign * (((f.hours * 60 + f.minutes) * 60 + f.seconds) * MicrosPerSecond + f.micro)
  }

  /** `%z`: `Z`, or `+HHMM` / `+HH:MM` with optional seconds and fraction,
      as microseconds east of UTC, strictly within a day. */
  function ParseZone(z: string): (r: Option<int>)
    ensures r.Some? ==> -MicrosPerDay < r.value < MicrosPerDay
  {
    if z == "Z" then Some(0)
    else
      var f :- ScanZone(z);
      var off := ZoneOffset(f);
      if -MicrosPerDay < off < MicrosPerDay then Some(off) else None
  }

  /** strptime on the timestamp group of `e`, followed by the `datetime` and
      `timezone` range checks; `None` where Python raises `ValueError`. */
  function Parse(e: E.Envelope): (r: Option<DateTime>)
    ensures r.Some? ==> Valid(r.value)
  {
    var (year, month, day) :- ParseDate(e.date);
    var hour :- Small(e.hour, 0, 23);
    var minute :- Small(e.minute, 0, 59);
    var (s, f) :- E.Token(e.second, Digit, '.');
    var second :- Small(s, 0, 61);
    var micro :- Fraction(f);
    var offset :- ParseZone(e.zone);
    if year < 1 || day > DaysInMonth(year, month) || second > 59 then None
    else Some(DateTime(year, month, day, hour, minute, second, micro, offset))
  }

  /** `%S.%f` needs the dot and at least one fraction digit: whole seconds
      are rejected. */
  lemma NeedsFraction(e: E.Envelope)
    ensures Parse(e).Some? ==> E.Token(e.second, Digit, '.').Some?
  {
  }

  /** `_days_before_year` of Python's datetime. */
  function DaysBeforeYear(y: int): int
    requires y >= 1
  {
    var z := y - 1;
    z * 365 + z / 4 - z / 100 + z / 400
  }

  /** `_days_before_month` of Python's datetime. */
  function DaysBeforeMonth(y: int, m: int): int
    requires 1 <= m <= 12
  {
    [0, 31, 59, 90, 120, 151, 181, 212, 243, 273, 304, 334][m - 1]
      + if m > 2 && IsLeap(y) then 1 else 0
  }

  /** `date.toordinal()`: day 1 is 0001-01-01. */
  function Ordinal(y: int, m: int, d: int): int
    requires y >= 1 && 1 <= m <= 12
  {
    DaysBeforeYear(y) + DaysBeforeMonth(y, m) + d
  }

  /** The ordinal of 1970-01-01. */
  const EpochOrdinal := 719163

  /** Microseconds since 1970-01-01 00:00 UTC. */
  function Instant(dt: DateTime): int
    requires Valid(dt)
  {
    var days := Ordinal(dt.year, dt.month, dt.day) - EpochOrdinal;
    ((days * 24 + dt.hour) * 60 + dt.minute) * MicrosPerMinute
      + dt.second * MicrosPerSecond + dt.micro - dt.offset
  }

  /** The day after a valid date. */
  function NextDay(y: int, m: int, d: int): (r: (int, int, int))
    requires y >= 1 && 1 <= m <= 12 && 1 <= d <= DaysInMonth(y, m)
    ensures r.0 >= 1 && 1 <= r.1 <= 12 && 1 <= r.2 <= DaysInMonth(r.0, r.1)
  {
    if d < DaysInMonth(y, m) then (y, m, d + 1)
    else if m < 12 then (y, m + 1, 1)
    else (y + 1, 1, 1)
  }

  /** Consecutive calendar days have consecutive ordinals, across month
      and year ends and leap days alike. */
  lemma OrdinalNextDay(y: int, m: int, d: int)
    requires y >= 1 && 1 <= m <= 12 && 1 <= d <= DaysInMonth(y, m)
    ensures var (y', m', d') := NextDay(y, m, d); Ordinal(y', m', d') == Ordinal(y, m, d) + 1
  {
    if d == DaysInMonth(y, m) && m == 12 {
      YearLength(y);
    }
  }

  lemma YearLength(y: int)
    requires y >= 1
    ensures DaysBeforeYear(y + 1) == DaysBeforeYear(y) + if IsLeap(y) then 366 else 365
  {
    var z := y - 1;
    assert (z + 1) / 4 == z / 4 + (if y % 4 == 0 then 1 else 0);
    assert (z + 1) / 100 == z / 100 + (if y % 100 == 0 then 1 else 0);
    assert (z + 1) / 400 == z / 400 + (if y % 400 == 0 then 1 else 0);
  }

  /** The two-digit writing of `n`, character by character. */
  lemma PadTwo(n: nat)
    requires n < 100
    ensures Pad(n, 2) == [DigitChar(n / 10), DigitChar(n % 10)]
  {
    assert Pow10(1) == 10 && Pow10(2) == 100;
    assert Pad(n / 10 / 10, 0) == [];
    assert n / 10 % 10 == n / 10;
    assert Pad(n / 10, 1) == [] + [DigitChar(n / 10)];
    assert Pad(n, 2) == Pad(n / 10, 1) + [DigitChar(n % 10)];
  }

  /** `%z` as `strftime` writes a whole-minute offset: `+HHMM` / `-HHMM`. */
  function FormatZone(offset: int): (z: string)
    requires offset % MicrosPerMinute == 0 && -MicrosPerDay < offset < MicrosPerDay
    ensures |z| == 5
  {
    var minutes := (if offset < 0 then -offset else offset) / MicrosPerMinute;
    [if offset < 0 then '-' else '+'] + (Pad(minutes / 60, 2) + Pad(minutes % 60, 2))
  }

  /** `Pow10(digits)` units of `Pow10(6 - digits)` microseconds make a
      second. */
  lemma FractionUnits(digits: nat)
    requires 1 <= digits <= 6
    ensures Pow10(digits) * Pow10(6 - digits) == MicrosPerSecond
  {
    if digits == 1 { assert Pow10(5) == 100000; }
    else if digits == 2 { assert Pow10(4) == 10000; }
    else if digits == 3 { assert Pow10(3) == 1000; }
    else if digits == 4 { assert Pow10(2) == 100; }
    else if digits == 5 { assert Pow10(1) == 10; }
    else { assert Pow10(6) == 1000000; }
  }

  /** A sub-second count that fits `digits` digits, in microseconds. */
  lemma FractionFits(micro: nat, digits: nat)
    requires 1 <= digits <= 6 && micro < MicrosPerSecond && micro % Pow10(6 - digits) == 0
    ensures micro / Pow10(6 - digits) < Pow10(digits)
    ensures micro / Pow10(6 - digits) * Pow10(6 - digits) == micro
  {
    var unit := Pow10(6 - digits);
    FractionUnits(digits);
    if micro / unit >= Pow10(digits) {
      MulLessEq(Pow10(digits), micro / unit, unit);
    }
  }

  lemma MulLessEq(a: nat, b: nat, c: nat)
    requires a <= b
    ensures a * c <= b * c
  {
  }

  /** `micro` written with `digits` fraction digits. */
  function FractionText(micro: nat, digits: nat): (f: string)
    requires 1 <= digits <= 6 && micro < MicrosPerSecond && micro % Pow10(6 - digits) == 0
    ensures |f| == digits && AllIn(f, Digit)
  {
    FractionFits(micro, digits);
    Pad(micro / Pow10(6 - digits), digits)
  }

  /** The timestamp of `dt` written into the groups of `e` the way a
      logger formats it: `MM-DD-YYYY HH:MM:SS.f +HHMM`, with `digits`
      fraction digits (three for splunkd's milliseconds). */
  function Stamp(dt: DateTime, digits: nat, e: E.Envelope): E.Envelope
    requires Valid(dt) && dt.offset % MicrosPerMinute == 0
    requires 1 <= digits <= 6 && dt.micro % Pow10(6 - digits) == 0
  {
    e.(date := Pad(dt.month, 2) + (['-'] + (Pad(dt.day, 2) + (['-'] + Pad(dt.year, 4)))),
       hour := Pad(dt.hour, 2),
       minute := Pad(dt.minute, 2),
       second := Pad(dt.second, 2) + (['.'] + FractionText(dt.micro, digits)),
       zone := FormatZone(dt.offset))
  }

  lemma SmallPad(n: nat, lo: nat, hi: nat)
    requires lo <= n <= hi && n < 100
    ensures Small(Pad(n, 2), lo, hi) == Some(n)
  {
    NumberPad(n, 2);
  }

  /** `%f` pads on the right: `k` digits for `n` read as `n` units of
      `10^(6-k)` microseconds. */
  lemma FractionPad(n: nat, k: nat)
    requires 1 <= k <= 6 && n < Pow10(k)
    ensures Fraction(Pad(n, k)) == Some(n * Pow10(6 - k))
  {
    NumberPad(n, k);
  }

  lemma ParseDateStamp(y: nat, m: nat, d: nat)
    requires 1 <= y <= 9999 && 1 <= m <= 12 && 1 <= d <= 31
    ensures ParseDate(Pad(m, 2) + (['-'] + (Pad(d, 2) + (['-'] + Pad(y, 4))))) == Some((y, m, d))
  {
    E.TokenOf(Pad(m, 2), '-', Pad(d, 2) + (['-'] + Pad(y, 4)), Digit);
    E.TokenOf(Pad(d, 2), '-', Pad(y, 4), Digit);
    SmallPad(m, 1, 12);
    SmallPad(d, 1, 31);
    NumberPad(y, 4);
  }

  /** `+HHMM` read as hours and minutes. */
  lemma ScanZoneDigits(sign: char, hh: nat, mm: nat)
    requires sign == '+' || sign == '-'
    requires hh < 100 && mm < 60
    ensures ScanZone([sign] + (Pad(hh, 2) + Pad(mm, 2))) == Some(ZoneFields(SignOf(sign), hh, mm, 0, 0))
  {
    PadTwo(hh);
    PadTwo(mm);
    var z := [sign] + (Pad(hh, 2) + Pad(mm, 2));
    assert z[1..3] == Pad(hh, 2) && z[3..] == Pad(mm, 2);
    NumberPad(hh, 2);
    NumberPad(mm, 2);
    assert Pad(mm, 2)[..2] == Pad(mm, 2) && Pad(mm, 2)[2..] == [];
  }

  lemma MinutesToMicros(minutes: int)
    ensures (minutes * 60 + 0) * MicrosPerSecond + 0 == minutes * MicrosPerMinute
  {
  }

  /** The sign, hours and minutes `FormatZone` writes denote the offset. */
  lemma ZoneMagnitude(offset: int)
    requires offset % MicrosPerMinute == 0 && -MicrosPerDay < offset < MicrosPerDay
    ensures var minutes := (if offset < 0 then -offset else offset) / MicrosPerMinute;
            ZoneOffset(ZoneFields(SignOf(if offset < 0 then '-' else '+'), minutes / 60, minutes % 60, 0, 0)) == offset
  {
    var minutes := (if offset < 0 then -offset else offset) / MicrosPerMinute;
    var hh, mm := minutes / 60, minutes % 60;
    assert minutes * MicrosPerMinute == (if offset < 0 then -offset else offset);
    assert hh * 60 + mm == minutes;
    MinutesToMicros(hh * 60 + mm);
  }

  /** Reading back a written whole-minute offset gives the offset. */
  lemma ParseFormatZone(offset: int)
    requires offset % MicrosPerMinute == 0 && -MicrosPerDay < offset < MicrosPerDay
    ensures ParseZone(FormatZone(offset)) == Some(offset)
  {
    var minutes := (if offset < 0 then -offset else offset) / MicrosPerMinute;
    ScanZoneDigits(if offset < 0 then '-' else '+', minutes / 60, minutes % 60);
    ZoneMagnitude(offset);
    assert FormatZone(offset) != "Z";
  }

  /** `%S.%f` reads back a written seconds group. */
  lemma SecondsStamp(second: nat, micro: nat, digits: nat)
    requires second <= 59
    requires 1 <= digits <= 6 && micro < MicrosPerSecond && micro % Pow10(6 - digits) == 0
    ensures E.Token(Pad(second, 2) + (['.'] + FractionText(micro, digits)), Digit, '.')
              == Some((Pad(second, 2), FractionText(micro, digits)))
    ensures Small(Pad(second, 2), 0, 61) == Some(second)
    ensures Fraction(FractionText(micro, digits)) == Some(micro)
  {
    FractionFits(micro, digits);
    E.TokenOf(Pad(second, 2), '.', FractionText(micro, digits), Digit);
    SmallPad(second, 0, 61);
    FractionPad(micro / Pow10(6 - digits), digits);
  }

  /** strptime reads back exactly the datetime the logger wrote, with any
      number of fraction digits from one to six, whatever the other groups
      hold. */
  lemma ParseStamp(dt: DateTime, digits: nat, e: E.Envelope)
    requires Valid(dt) && dt.offset % MicrosPerMinute == 0
    requires 1 <= digits <= 6 && dt.micro % Pow10(6 - digits) == 0
    ensures Parse(Stamp(dt, digits, e)) == Some(dt)
  {
    ParseDateStamp(dt.year, dt.month, dt.day);
    SmallPad(dt.hour, 0, 23);
    SmallPad(dt.minute, 0, 59);
    SecondsStamp(dt.second, dt.micro, digits);
    ParseFormatZone(dt.offset);
  }
}

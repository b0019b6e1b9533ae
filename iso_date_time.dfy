/**
 * The part of `ZonedDateTime.parse(text, DateTimeFormatter.ISO_DATE_TIME)` the
 * rate feed exercises, and its rendering with the pattern `yyyy/MM/dd HH:mm:ss`.
 *
 * Accepted text (ISO 8601 extended format, section 4.3.2 complete representation,
 * with the optional parts ISO_DATE_TIME allows):
 *   YYYY-MM-DD ('T' | 't') hh:mm [ :ss [ . 0-9 digits ] ] offset
 *   offset = 'Z' | ('+' | '-') hh:mm [ :ss ]
 * with the date checked against the proleptic Gregorian calendar, hh <= 23,
 * mm, ss <= 59, and the offset within +-18:00. Nothing may follow the offset.
 */
module IsoDateTime {
  import opened Wrappers

  datatype LocalDateTime = LocalDateTime(year: int, month: int, day: int, hour: int, minute: int, second: int, nano: int)

  /** A date-time with a fixed offset, in seconds east of UTC. */
  datatype ZonedDateTime = ZonedDateTime(local: LocalDateTime, offsetSeconds: int)

  const MaxOffsetSeconds := 18 * 3600

  predicate IsLeapYear(y: int) {
    y % 4 == 0 && (y % 100 != 0 || y % 400 == 0)
  }

  function DaysInMonth(y: int, m: int): int
    requires 1 <= m <= 12
  {
    if m == 2 then (if IsLeapYear(y) then 29 else 28)
    else if m == 4 || m == 6 || m == 9 || m == 11 then 30
    else 31
  }

  /** The fields a strict ISO resolver lets through, for a four-digit year. */
  predicate ValidLocal(t: LocalDateTime) {
    && 0 <= t.year <= 9999
    && 1 <= t.month <= 12
    && 1 <= t.day <= DaysInMonth(t.year, t.month)
    && 0 <= t.hour <= 23
    && 0 <= t.minute <= 59
    && 0 <= t.second <= 59
    && 0 <= t.nano < 1000000000
  }

  predicate ValidZoned(z: ZonedDateTime) {
    ValidLocal(z.local) && -MaxOffsetSeconds <= z.offsetSeconds <= MaxOffsetSeconds
  }

  predicate IsDigit(c: char) {
    '0' <= c <= '9'
  }

  function DigitValue(c: char): nat
    requires IsDigit(c)
  {
    c as int - '0' as int
  }

  function DigitChar(d: nat): (c: char)
    requires d < 10
    ensures IsDigit(c) && DigitValue(c) == d
  {
    ('0' as int + d) as char
  }

  predicate DigitsAt(s: string, i: int, n: nat) {
    0 <= i && i + n <= |s| && forall j :: i <= j < i + n ==> IsDigit(s[j])
  }

  function Pow10(n: nat): (p: nat)
    ensures p >= 1
  {
    if n == 0 then 1 else 10 * Pow10(n - 1)
  }

  /** The number the `n` decimal digits at index `i` spell. */
  function NumberAt(s: string, i: int, n: nat): (v: nat)
    requires DigitsAt(s, i, n)
    ensures v < Pow10(n)
  {
    if n == 0 then 0 else NumberAt(s, i, n - 1) * 10 + DigitValue(s[i + n - 1])
  }

  /** How many digits, at most `max`, start at index `i`. */
  function DigitRun(s: string, i: int, max: nat): (n: nat)
    requires 0 <= i <= |s|
    ensures n <= max && DigitsAt(s, i, n)
    ensures i + n < |s| && n < max ==> !IsDigit(s[i + n])
    decreases max
  {
    if max == 0 || i == |s| || !IsDigit(s[i]) then 0 else 1 + DigitRun(s, i + 1, max - 1)
  }

  /** Seconds, nanoseconds, and the index after the optional `:ss[.fraction]`. */
  datatype TimeTail = TimeTail(second: int, nano: int, next: int)

  function SecondsAt(s: string, i: int): (t: TimeTail)
    requires 0 <= i <= |s|
    ensures i <= t.next <= |s|
    ensures 0 <= t.second && 0 <= t.nano
    ensures t.next == i ==> t == TimeTail(0, 0, i)
    ensures t.next != i ==>
      && t.next >= i + 3 && s[i] == ':' && DigitsAt(s, i + 1, 2) && t.second == NumberAt(s, i + 1, 2)
    ensures t.next == i + 3 ==> t.nano == 0
    ensures t.next > i + 3 ==>
      && s[i + 3] == '.' && t.next - (i + 4) <= 9 && DigitsAt(s, i + 4, t.next - (i + 4))
      && t.nano == NumberAt(s, i + 4, t.next - (i + 4)) * Pow10(9 - (t.next - (i + 4)))
    ensures i + 3 <= |s| && s[i] == ':' && DigitsAt(s, i + 1, 2) ==> t.next >= i + 3
    ensures t.next >= i + 3 && i + 3 < |s| && s[i + 3] == '.' ==> t.next >= i + 4
    ensures t.next >= i + 4 && t.next < |s| && t.next - (i + 4) < 9 ==> !IsDigit(s[t.next])
  {
    if i + 3 <= |s| && s[i] == ':' && DigitsAt(s, i + 1, 2) then
      var second := NumberAt(s, i + 1, 2);
      if i + 3 < |s| && s[i + 3] == '.' then
        var n := DigitRun(s, i + 4, 9);
        TimeTail(second, NumberAt(s, i + 4, n) * Pow10(9 - n), i + 4 + n)
      else TimeTail(second, 0, i + 3)
    else TimeTail(0, 0, i)
  }

  /** The offset that ends the text, in seconds; None if the rest is not an offset. */
  function OffsetAt(s: string, i: int): (off: Option<int>)
    requires 0 <= i <= |s|
    ensures off.Some? ==> -MaxOffsetSeconds <= off.value <= MaxOffsetSeconds && i < |s|
    ensures off.Some? && i < |s| && s[i] == 'Z' ==> |s| == i + 1 && off.value == 0
    ensures off.Some? && i < |s| && s[i] != 'Z' ==>
      && (|s| == i + 6 || |s| == i + 9) && (s[i] == '+' || s[i] == '-')
      && DigitsAt(s, i + 1, 2) && s[i + 3] == ':' && DigitsAt(s, i + 4, 2)
      && (|s| == i + 9 ==> s[i + 6] == ':' && DigitsAt(s, i + 7, 2))
      && NumberAt(s, i + 4, 2) <= 59 && (|s| == i + 9 ==> NumberAt(s, i + 7, 2) <= 59)
      && var total := NumberAt(s, i + 1, 2) * 3600 + NumberAt(s, i + 4, 2) * 60
                      + (if |s| == i + 9 then NumberAt(s, i + 7, 2) else 0);
         off.value == (if s[i] == '-' then -total else total)
    ensures i + 1 == |s| && s[i] == 'Z' ==> off == Some(0)
    ensures
      && (|s| == i + 6 || |s| == i + 9) && (s[i] == '+' || s[i] == '-')
      && DigitsAt(s, i + 1, 2) && s[i + 3] == ':' && DigitsAt(s, i + 4, 2)
      && (|s| == i + 9 ==> s[i + 6] == ':' && DigitsAt(s, i + 7, 2))
      && NumberAt(s, i + 4, 2) <= 59 && (|s| == i + 9 ==> NumberAt(s, i + 7, 2) <= 59)
      && NumberAt(s, i + 1, 2) * 3600 + NumberAt(s, i + 4, 2) * 60
         + (if |s| == i + 9 then NumberAt(s, i + 7, 2) else 0) <= MaxOffsetSeconds
      ==> off.Some?
  {
    var rest := |s| - i;
    if rest == 1 && s[i] == 'Z' then Some(0)
    else if (rest == 6 || rest == 9) && (s[i] == '+' || s[i] == '-')
      && DigitsAt(s, i + 1, 2) && s[i + 3] == ':' && DigitsAt(s, i + 4, 2)
      && (rest == 9 ==> s[i + 6] == ':' && DigitsAt(s, i + 7, 2))
    then
      var hours := NumberAt(s, i + 1, 2);
      var minutes := NumberAt(s, i + 4, 2);
      var seconds := if rest == 9 then NumberAt(s, i + 7, 2) else 0;
      var total := hours * 3600 + minutes * 60 + seconds;
      if minutes > 59 || seconds > 59 || total > MaxOffsetSeconds then None
      else Some(if s[i] == '-' then -total else total)
    else None
  }

  /** The fixed-position prefix `YYYY-MM-DDThh:mm`. */
  predicate HasDateHourMinute(s: string) {
    && |s| >= 16
    && DigitsAt(s, 0, 4) && s[4] == '-' && DigitsAt(s, 5, 2) && s[7] == '-' && DigitsAt(s, 8, 2)
    && (s[10] == 'T' || s[10] == 't')
    && DigitsAt(s, 11, 2) && s[13] == ':' && DigitsAt(s, 14, 2)
  }

  /** `ZonedDateTime.parse(s, ISO_DATE_TIME)`; None where it throws. */
  function Parse(s: string): (r: Option<ZonedDateTime>)
    ensures r.Some? ==> ValidZoned(r.value)
    ensures r.Some? ==> HasDateHourMinute(s)
    ensures r.Some? ==>
      && r.value.local.year == NumberAt(s, 0, 4) && r.value.local.month == NumberAt(s, 5, 2)
      && r.value.local.day == NumberAt(s, 8, 2) && r.value.local.hour == NumberAt(s, 11, 2)
      && r.value.local.minute == NumberAt(s, 14, 2)
      && var tail := SecondsAt(s, 16);
         && r.value.local.second == tail.second && r.value.local.nano == tail.nano
         && tail.next < |s| && OffsetAt(s, tail.next) == Some(r.value.offsetSeconds)
    ensures HasDateHourMinute(s) && OffsetAt(s, SecondsAt(s, 16).next).Some? && r.None? ==>
      !ValidLocal(LocalDateTime(NumberAt(s, 0, 4), NumberAt(s, 5, 2), NumberAt(s, 8, 2),
        NumberAt(s, 11, 2), NumberAt(s, 14, 2), SecondsAt(s, 16).second, SecondsAt(s, 16).nano))
  {
    if !HasDateHourMinute(s) then None
    else
      var tail := SecondsAt(s, 16);
      match OffsetAt(s, tail.next)
      case None => None
      case Some(offset) =>
        var local := LocalDateTime(NumberAt(s, 0, 4), NumberAt(s, 5, 2), NumberAt(s, 8, 2),
                                   NumberAt(s, 11, 2), NumberAt(s, 14, 2), tail.second, tail.nano);
        if ValidLocal(local) then Some(ZonedDateTime(local, offset)) else None
  }

  /** The year-of-era that the pattern letter `y` prints: year 0 is 1 BC. */
  function YearOfEra(year: int): int {
    if year >= 1 then year else 1 - year
  }

  /** The shape `dddd/dd/dd dd:dd:dd` the pattern `yyyy/MM/dd HH:mm:ss` yields for a
      year of era below 10000. */
  predicate DisplayShape(r: string) {
    && |r| == 19
    && (forall i :: 0 <= i < 19 && i != 4 && i != 7 && i != 10 && i != 13 && i != 16 ==> IsDigit(r[i]))
    && r[4] == '/' && r[7] == '/' && r[10] == ' ' && r[13] == ':' && r[16] == ':'
  }

  /** `yyyy/MM/dd` of a year below 10000. */
  function DatePart(y: nat, month: nat, day: nat): (p: string)
    requires y < 10000 && month < 100 && day < 100
    ensures |p| == 10 && p[4] == '/' && p[7] == '/'
    ensures DigitsAt(p, 0, 4) && NumberAt(p, 0, 4) == y
    ensures DigitsAt(p, 5, 2) && NumberAt(p, 5, 2) == month
    ensures DigitsAt(p, 8, 2) && NumberAt(p, 8, 2) == day
  {
    var p := [ DigitChar(y / 1000), DigitChar(y / 100 % 10), DigitChar(y / 10 % 10), DigitChar(y % 10), '/',
               DigitChar(month / 10), DigitChar(month % 10), '/',
               DigitChar(day / 10), DigitChar(day % 10) ];
    FourDigits(p, 0, y);
    TwoDigits(p, 5, month);
    TwoDigits(p, 8, day);
    p
  }

  /** `HH:mm:ss`. */
  function TimePart(hour: nat, minute: nat, second: nat): (p: string)
    requires hour < 100 && minute < 100 && second < 100
    ensures |p| == 8 && p[2] == ':' && p[5] == ':'
    ensures DigitsAt(p, 0, 2) && NumberAt(p, 0, 2) == hour
    ensures DigitsAt(p, 3, 2) && NumberAt(p, 3, 2) == minute
    ensures DigitsAt(p, 6, 2) && NumberAt(p, 6, 2) == second
  {
    var p := [ DigitChar(hour / 10), DigitChar(hour % 10), ':',
               DigitChar(minute / 10), DigitChar(minute % 10), ':',
               DigitChar(second / 10), DigitChar(second % 10) ];
    TwoDigits(p, 0, hour);
    TwoDigits(p, 3, minute);
    TwoDigits(p, 6, second);
    p
  }

  /** Digits keep their value when text is appended after them ... */
  lemma {:induction false} NumberAtAppend(a: string, b: string, i: int, n: nat)
    requires DigitsAt(a, i, n)
    ensures DigitsAt(a + b, i, n) && NumberAt(a + b, i, n) == NumberAt(a, i, n)
  {
    if n > 0 {
      NumberAtAppend(a, b, i, n - 1);
      assert (a + b)[i + n - 1] == a[i + n - 1];
    }
  }

  /** ... or before them. */
  lemma {:induction false} NumberAtPrepend(a: string, b: string, i: int, n: nat)
    requires DigitsAt(b, i, n)
    ensures DigitsAt(a + b, |a| + i, n) && NumberAt(a + b, |a| + i, n) == NumberAt(b, i, n)
  {
    if n > 0 {
      NumberAtPrepend(a, b, i, n - 1);
      assert (a + b)[|a| + i + n - 1] == b[i + n - 1];
    }
  }

  /** `zonedDateTime.format(ofPattern("yyyy/MM/dd HH:mm:ss"))`: the local fields in the
      value's own offset, the year as year of era; the offset and the fraction are not printed. */
  function Format(z: ZonedDateTime): (r: string)
    requires ValidZoned(z)
    ensures DisplayShape(r)
    ensures && NumberAt(r, 0, 4) == YearOfEra(z.local.year)
            && NumberAt(r, 5, 2) == z.local.month
            && NumberAt(r, 8, 2) == z.local.day
            && NumberAt(r, 11, 2) == z.local.hour
            && NumberAt(r, 14, 2) == z.local.minute
            && NumberAt(r, 17, 2) == z.local.second
  {
    var t := z.local;
    var date := DatePart(YearOfEra(t.year), t.month, t.day);
    var time := TimePart(t.hour, t.minute, t.second);
    var head := date + [' '];
    var r := head + time;
    assert r == date + ([' '] + time);
    NumberAtAppend(date, [' '] + time, 0, 4);
    NumberAtAppend(date, [' '] + time, 5, 2);
    NumberAtAppend(date, [' '] + time, 8, 2);
    NumberAtPrepend(head, time, 0, 2);
    NumberAtPrepend(head, time, 3, 2);
    NumberAtPrepend(head, time, 6, 2);
    ShapeOfDigits(r);
    r
  }

  /** The canonical ISO 8601 text `YYYY-MM-DDThh:mm:ss+hh:mm` of a whole-second value
      whose offset is a whole number of minutes. */
  function ToIso(z: ZonedDateTime): (s: string)
    requires CanonicalIso(z)
    ensures |s| == 25
  {
    var t := z.local;
    var a := if z.offsetSeconds < 0 then -z.offsetSeconds else z.offsetSeconds;
    [ DigitChar(t.year / 1000), DigitChar(t.year / 100 % 10), DigitChar(t.year / 10 % 10), DigitChar(t.year % 10), '-',
      DigitChar(t.month / 10), DigitChar(t.month % 10), '-',
      DigitChar(t.day / 10), DigitChar(t.day % 10), 'T',
      DigitChar(t.hour / 10), DigitChar(t.hour % 10), ':',
      DigitChar(t.minute / 10), DigitChar(t.minute % 10), ':',
      DigitChar(t.second / 10), DigitChar(t.second % 10),
      if z.offsetSeconds < 0 then '-' else '+',
      DigitChar(a / 3600 / 10), DigitChar(a / 3600 % 10), ':',
      DigitChar(a % 3600 / 60 / 10), DigitChar(a % 3600 / 60 % 10) ]
  }

  lemma TwoDigits(s: string, i: int, n: nat)
    requires n < 100 && 0 <= i && i + 2 <= |s|
    requires s[i] == DigitChar(n / 10) && s[i + 1] == DigitChar(n % 10)
    ensures DigitsAt(s, i, 2) && NumberAt(s, i, 2) == n
  {
    assert NumberAt(s, i, 1) == n / 10;
  }

  lemma FourDigits(s: string, i: int, n: nat)
    requires n < 10000 && 0 <= i && i + 4 <= |s|
    requires s[i] == DigitChar(n / 1000) && s[i + 1] == DigitChar(n / 100 % 10)
    requires s[i + 2] == DigitChar(n / 10 % 10) && s[i + 3] == DigitChar(n % 10)
    ensures DigitsAt(s, i, 4) && NumberAt(s, i, 4) == n
  {
    assert NumberAt(s, i, 1) == n / 1000;
    assert NumberAt(s, i, 2) == n / 100;
    assert NumberAt(s, i, 3) == n / 10;
  }

  lemma ShapeOfDigits(r: string)
    requires |r| == 19
    requires DigitsAt(r, 0, 4) && DigitsAt(r, 5, 2) && DigitsAt(r, 8, 2)
    requires DigitsAt(r, 11, 2) && DigitsAt(r, 14, 2) && DigitsAt(r, 17, 2)
    requires r[4] == '/' && r[7] == '/' && r[10] == ' ' && r[13] == ':' && r[16] == ':'
    ensures DisplayShape(r)
  {
  }

  predicate CanonicalIso(z: ZonedDateTime) {
    ValidZoned(z) && z.local.nano == 0 && z.offsetSeconds % 60 == 0
  }

  lemma IsoDateHourMinute(z: ZonedDateTime)
    requires CanonicalIso(z)
    ensures var s := ToIso(z);
      && HasDateHourMinute(s)
      && NumberAt(s, 0, 4) == z.local.year && NumberAt(s, 5, 2) == z.local.month
      && NumberAt(s, 8, 2) == z.local.day && NumberAt(s, 11, 2) == z.local.hour
      && NumberAt(s, 14, 2) == z.local.minute
  {
    var s := ToIso(z);
    FourDigits(s, 0, z.local.year);
    TwoDigits(s, 5, z.local.month);
    TwoDigits(s, 8, z.local.day);
    TwoDigits(s, 11, z.local.hour);
    TwoDigits(s, 14, z.local.minute);
  }

  lemma IsoSeconds(z: ZonedDateTime)
    requires CanonicalIso(z)
    ensures SecondsAt(ToIso(z), 16) == TimeTail(z.local.second, 0, 19)
  {
    var s := ToIso(z);
    TwoDigits(s, 17, z.local.second);
  }

  lemma IsoOffset(z: ZonedDateTime)
    requires CanonicalIso(z)
    ensures OffsetAt(ToIso(z), 19) == Some(z.offsetSeconds)
  {
    var s := ToIso(z);
    var a := if z.offsetSeconds < 0 then -z.offsetSeconds else z.offsetSeconds;
    TwoDigits(s, 20, a / 3600);
    TwoDigits(s, 23, a % 3600 / 60);
    assert a == a / 3600 * 3600 + a % 3600 / 60 * 60;
  }

  /** Parsing the canonical text gives back the value. */
  lemma ParseToIso(z: ZonedDateTime)
    requires CanonicalIso(z)
    ensures Parse(ToIso(z)) == Some(z)
  {
    IsoDateHourMinute(z);
    IsoSeconds(z);
    IsoOffset(z);
  }
}

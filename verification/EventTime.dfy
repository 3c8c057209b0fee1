/** UTC row times from ISO 8601 text: Flink's regular expression against Python's parser. */
module EventTime {

  /** The zone suffix of a timestamp: `Z`, or a signed offset of one to three two-digit parts (hours, minutes,
      seconds), with or without colons between them, and possibly a decimal mark and digits for the fraction of
      a second. */
  datatype Zone =
    | Zulu
    | Offset(negative: bool, colons: bool, parts: seq<nat>, fraction: string)

  /** A timestamp: local seconds since the epoch, the fraction in microseconds, the zone. */
  datatype Stamp = Stamp(localSeconds: int, micros: nat, zone: Zone)

  const SECOND: int := 1_000_000

  predicate IsDigit(c: char) {
    '0' <= c <= '9'
  }

  /** Empty, or a mark and at least one digit. */
  ghost predicate GoodFraction(f: string) {
    f == "" || (|f| >= 2 && f[0] in {'.', ','} && forall i :: 1 <= i < |f| ==> IsDigit(f[i]))
  }

  ghost predicate GoodZone(z: Zone) {
    z.Zulu? || (1 <= |z.parts| <= 3 && (forall i :: 0 <= i < |z.parts| ==> z.parts[i] < 100) && GoodFraction(z.fraction))
  }

  ghost predicate GoodStamp(s: Stamp) {
    GoodZone(s.zone) && s.micros < SECOND
  }

  function DigitValue(c: char): nat
    requires IsDigit(c)
  {
    c as int - '0' as int
  }

  /** The first six digits of a fraction as microseconds; further ones are cut off. */
  function Micros(digits: string, unit: nat): nat
    requires forall i :: 0 <= i < |digits| ==> IsDigit(digits[i])
  {
    if digits == [] || unit == 0 then 0 else DigitValue(digits[0]) * unit + Micros(digits[1..], unit / 10)
  }

  /** Digit `i` of a fraction; missing ones count as zero. */
  function DigitAt(digits: string, i: nat): int
    requires forall k :: 0 <= k < |digits| ==> IsDigit(digits[k])
  {
    if i < |digits| then digits[i] as int - '0' as int else 0
  }

  function Rest(digits: string, i: nat): string {
    if i < |digits| then digits[i..] else ""
  }

  lemma MicrosStep(digits: string, i: nat, unit: nat)
    requires unit > 0 && forall k :: 0 <= k < |digits| ==> IsDigit(digits[k])
    ensures Micros(Rest(digits, i), unit) == DigitAt(digits, i) * unit + Micros(Rest(digits, i + 1), unit / 10)
  {
    if i < |digits| { assert digits[i..][1..] == Rest(digits, i + 1); }
  }

  /** The fraction in microseconds: the first six digits by place, the further ones cut off. */
  lemma SixDigits(digits: string)
    requires forall k :: 0 <= k < |digits| ==> IsDigit(digits[k])
    ensures Micros(digits, 100_000)
            == DigitAt(digits, 0) * 100_000 + DigitAt(digits, 1) * 10_000 + DigitAt(digits, 2) * 1_000
               + DigitAt(digits, 3) * 100 + DigitAt(digits, 4) * 10 + DigitAt(digits, 5)
  {
    hide Micros, DigitAt, IsDigit;
    assert Rest(digits, 0) == digits;
    MicrosStep(digits, 0, 100_000);
    MicrosStep(digits, 1, 10_000);
    MicrosStep(digits, 2, 1_000);
    LastThree(digits);
  }

  lemma LastThree(digits: string)
    requires forall k :: 0 <= k < |digits| ==> IsDigit(digits[k])
    ensures Micros(Rest(digits, 3), 100) == DigitAt(digits, 3) * 100 + DigitAt(digits, 4) * 10 + DigitAt(digits, 5)
  {
    assert Micros(Rest(digits, 6), 0) == 0;
    hide Micros, Rest, DigitAt, IsDigit;
    MicrosStep(digits, 3, 100);
    MicrosStep(digits, 4, 10);
    MicrosStep(digits, 5, 1);
  }

  /** One hour, two minutes and three and a quarter seconds west of UTC. */
  lemma WestByExample()
    ensures var z := Offset(true, true, [1, 2, 3], ".25");
            GoodZone(z) && Render(z) == "-01:02:03.25" && ZoneMicros(z) == -3_723_250_000
  {
    hide Micros;
    var z := Offset(true, true, [1, 2, 3], ".25");
    assert z.fraction[1..] == "25";
    SixDigits("25");
    assert TwoDigits(1) == "01" && TwoDigits(2) == "02" && TwoDigits(3) == "03";
  }

  /** Half a second east of it, without colons; and no offset. */
  lemma EastByExample()
    ensures var z := Offset(false, false, [0, 30, 0], ",5");
            GoodZone(z) && Render(z) == "+003000,5" && ZoneMicros(z) == 1_800_500_000
    ensures Render(Zulu) == "Z" && ZoneMicros(Zulu) == 0
  {
    hide Micros;
    var z := Offset(false, false, [0, 30, 0], ",5");
    assert z.fraction[1..] == "5";
    SixDigits("5");
    assert TwoDigits(0) == "00" && TwoDigits(30) == "30";
  }

  function Part(z: Zone, i: nat): nat
    requires z.Offset?
  {
    if i < |z.parts| then z.parts[i] else 0
  }

  /** The offset from UTC in microseconds. */
  ghost function ZoneMicros(z: Zone): int
    requires GoodZone(z)
  {
    if z.Zulu? then 0 else
      (if z.negative then -1 else 1)
      * ((Part(z, 0) * 3600 + Part(z, 1) * 60 + Part(z, 2)) * SECOND
         + if z.fraction == "" then 0 else Micros(z.fraction[1..], 100_000))
  }

  /** Microseconds since the epoch in UTC, as `parse_event` normalises them. */
  ghost function SparkMicros(s: Stamp): int
    requires GoodStamp(s)
  {
    s.localSeconds * SECOND + s.micros - ZoneMicros(s.zone)
  }

  function TwoDigits(n: nat): string
    requires n < 100
  {
    ['0' + (n / 10) as char, '0' + (n % 10) as char]
  }

  ghost function Render(z: Zone): string
    requires GoodZone(z)
  {
    if z.Zulu? then "Z" else
      var sep := if z.colons then ":" else "";
      [if z.negative then '-' else '+'] + TwoDigits(z.parts[0])
      + (if |z.parts| > 1 then sep + TwoDigits(z.parts[1]) else "")
      + (if |z.parts| > 2 then sep + TwoDigits(z.parts[2]) else "")
      + z.fraction
  }

  /** Minutes of offset by `([+-])([0-9][0-9]):([0-9][0-9])$`; no match counts as zero. */
  function FlinkOffsetMinutes(text: string): int {
    var n := |text|;
    if n >= 6 && text[n - 6] in {'+', '-'} && IsDigit(text[n - 5]) && IsDigit(text[n - 4])
       && text[n - 3] == ':' && IsDigit(text[n - 2]) && IsDigit(text[n - 1]) then
      (if text[n - 6] == '-' then -1 else 1)
      * ((DigitValue(text[n - 5]) * 10 + DigitValue(text[n - 4])) * 60 + (DigitValue(text[n - 2]) * 10 + DigitValue(text[n - 1])))
    else 0
  }

  /** Flink's row time of a timestamp whose text is `body` followed by its zone: whole seconds in UTC. */
  ghost function FlinkSeconds(s: Stamp, body: string): int
    requires GoodStamp(s)
  {
    s.localSeconds - 60 * FlinkOffsetMinutes(body + Render(s.zone))
  }

  /** `±HH:MM`, the form the expression was written for. */
  predicate HourMinute(z: Zone) {
    z.Offset? && z.colons && |z.parts| == 2 && z.fraction == ""
  }

  lemma TailOf(body: string, tail: string, k: nat)
    requires 1 <= k <= |tail|
    ensures (body + tail)[|body + tail| - k] == tail[|tail| - k]
  {
  }

  lemma DigitsReadBack(n: nat)
    requires n < 100
    ensures var t := TwoDigits(n); IsDigit(t[0]) && IsDigit(t[1]) && DigitValue(t[0]) * 10 + DigitValue(t[1]) == n
  {
  }

  lemma HourMinuteIsRead(body: string, z: Zone)
    requires GoodZone(z) && HourMinute(z)
    ensures 60 * FlinkOffsetMinutes(body + Render(z)) * SECOND == ZoneMicros(z)
  {
    hide FlinkOffsetMinutes, ZoneMicros;
    var tail, h, m := Render(z), TwoDigits(z.parts[0]), TwoDigits(z.parts[1]);
    assert tail == [if z.negative then '-' else '+', h[0], h[1], ':', m[0], m[1]];
    DigitsReadBack(z.parts[0]);
    DigitsReadBack(z.parts[1]);
    TailOf(body, tail, 6);
    TailOf(body, tail, 5);
    TailOf(body, tail, 4);
    TailOf(body, tail, 3);
    TailOf(body, tail, 2);
    TailOf(body, tail, 1);
    MinutesRead(body + tail, z.negative, z.parts[0], z.parts[1]);
    HourMinuteMicros(z);
  }

  lemma MinutesRead(text: string, negative: bool, h: nat, m: nat)
    requires |text| >= 6 && h < 100 && m < 100
    requires var n := |text|;
             && text[n - 6] == (if negative then '-' else '+') && text[n - 3] == ':'
             && text[n - 5..n - 3] == TwoDigits(h) && text[n - 2..] == TwoDigits(m)
    ensures FlinkOffsetMinutes(text) == (if negative then -1 else 1) * (h * 60 + m)
  {
    var n := |text|;
    DigitsReadBack(h);
    DigitsReadBack(m);
    assert text[n - 5] == text[n - 5..n - 3][0] && text[n - 4] == text[n - 5..n - 3][1];
    assert text[n - 2] == text[n - 2..][0] && text[n - 1] == text[n - 2..][1];
  }

  lemma HourMinuteMicros(z: Zone)
    requires GoodZone(z) && HourMinute(z)
    ensures ZoneMicros(z) == (if z.negative then -1 else 1) * (z.parts[0] * 60 + z.parts[1]) * 60 * SECOND
  {
  }

  /** The third character from the end of any other zone is no colon, or the sixth is no sign. */
  lemma OtherZonesAreNotRead(body: string, z: Zone)
    requires GoodZone(z) && !HourMinute(z)
    ensures FlinkOffsetMinutes(body + Render(z)) == 0
  {
    hide FlinkOffsetMinutes;
    var tail := Render(z);
    if z.Zulu? {
      TailOf(body, tail, 1);
      NoMatch(body + tail);
    } else if z.fraction != "" {
      FractionTail(z);
      TailOf(body, tail, 3);
      NoMatch(body + tail);
    } else {
      PlainTail(z);
      TailOf(body, tail, 3);
      if |tail| >= 6 { TailOf(body, tail, 6); }
      NoMatch(body + tail);
    }
  }

  lemma NoMatch(text: string)
    requires |text| >= 1
    requires || !IsDigit(text[|text| - 1])
             || (|text| >= 3 && text[|text| - 3] != ':')
             || (|text| >= 6 && text[|text| - 6] !in {'+', '-'})
    ensures FlinkOffsetMinutes(text) == 0
  {
  }

  lemma FractionTail(z: Zone)
    requires GoodZone(z) && z.Offset? && z.fraction != ""
    ensures var t := Render(z); |t| >= 3 && t[|t| - 3] != ':'
  {
    var t, f := Render(z), z.fraction;
    var last := TwoDigits(z.parts[|z.parts| - 1]);
    var front := t[..|t| - |f| - 2];
    assert t == front + last + f;
    DigitsReadBack(z.parts[|z.parts| - 1]);
    if |f| >= 3 { assert t[|t| - 3] == f[|f| - 3]; } else { assert t[|t| - 3] == last[1]; }
  }

  lemma PlainTail(z: Zone)
    requires GoodZone(z) && z.Offset? && z.fraction == "" && !HourMinute(z)
    ensures var t := Render(z); |t| >= 3 && (t[|t| - 3] == ':' ==> |t| >= 6 && t[|t| - 6] !in {'+', '-'})
  {
    DigitsReadBack(z.parts[0]);
    if |z.parts| > 1 { DigitsReadBack(z.parts[1]); }
  }

  /** The expression reads `±HH:MM` and takes every other zone for zero. */
  lemma OffsetIsRead(body: string, z: Zone)
    requires GoodZone(z)
    ensures 60 * FlinkOffsetMinutes(body + Render(z)) * SECOND == if HourMinute(z) then ZoneMicros(z) else 0
  {
    hide FlinkOffsetMinutes, Render, ZoneMicros;
    if HourMinute(z) { HourMinuteIsRead(body, z); } else { OtherZonesAreNotRead(body, z); }
  }

  /** Flink's row time is Spark's event time cut to the second exactly when the zone is `±HH:MM` or its offset does
      not move the instant across a second. */
  lemma SameSecondIff(s: Stamp, body: string)
    requires GoodStamp(s)
    ensures FlinkSeconds(s, body) == SparkMicros(s) / SECOND
            <==> HourMinute(s.zone) || 0 <= s.micros - ZoneMicros(s.zone) < SECOND
  {
    hide FlinkOffsetMinutes, Render, ZoneMicros;
    OffsetIsRead(body, s.zone);
    if HourMinute(s.zone) {
      WholeSeconds(FlinkSeconds(s, body), s.micros);
    }
  }

  lemma WholeSeconds(seconds: int, micros: nat)
    requires micros < SECOND
    ensures (seconds * SECOND + micros) / SECOND == seconds
  {
  }

  /** For every RFC 3339 timestamp (section 5.6), both layers put the event in the same window. */
  lemma SameWindow(s: Stamp, body: string, size: nat)
    requires GoodStamp(s) && (s.zone.Zulu? || HourMinute(s.zone)) && size > 0
    ensures FlinkSeconds(s, body) / size == (SparkMicros(s) / SECOND) / size
    ensures FlinkSeconds(s, body) / 3600 == SparkMicros(s) / (3600 * SECOND)
  {
    hide FlinkOffsetMinutes, Render;
    SameSecondIff(s, body);
    HoursAgree(SparkMicros(s));
  }

  lemma HoursAgree(micros: int)
    ensures (micros / SECOND) / 3600 == micros / (3600 * SECOND)
  {
  }

  /** Offsets Python accepts and the expression does not see: one with seconds moves the hour. */
  lemma SecondsInOffsetMoveTheHour()
    ensures var s := Stamp(3599, 0, Offset(true, true, [0, 0, 1], ""));
            GoodStamp(s) && FlinkSeconds(s, "1970-01-01T00:59:59") / 3600 != SparkMicros(s) / SECOND / 3600
  {
    hide FlinkOffsetMinutes, Render, Micros;
    OffsetIsRead("1970-01-01T00:59:59", Offset(true, true, [0, 0, 1], ""));
  }

  /** So does one without a colon. */
  lemma OffsetWithoutColonMovesTheHour()
    ensures var s := Stamp(36_000, 0, Offset(false, false, [5, 30], ""));
            GoodStamp(s) && FlinkSeconds(s, "1970-01-01T10:00:00") / 3600 != SparkMicros(s) / SECOND / 3600
  {
    hide FlinkOffsetMinutes, Render, Micros;
    OffsetIsRead("1970-01-01T10:00:00", Offset(false, false, [5, 30], ""));
  }

  /** And a fraction alone moves the second. */
  lemma FractionInOffsetMovesTheSecond()
    ensures var s := Stamp(36_000, 0, Offset(false, true, [0, 0, 0], ".5"));
            GoodStamp(s) && FlinkSeconds(s, "1970-01-01T10:00:00") != SparkMicros(s) / SECOND
  {
    hide FlinkOffsetMinutes, Render;
    var half := Offset(false, true, [0, 0, 0], ".5");
    assert half.fraction[1..] == "5";
    assert Micros("5", 100_000) == 500_000;
    OffsetIsRead("1970-01-01T10:00:00", half);
  }
}

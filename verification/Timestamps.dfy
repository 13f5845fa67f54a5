/** The two timestamp normalizers of the browser applications, on UTF-16 text. */
module Timestamps {

  import opened Options
  import opened Calendar

  /** A UTF-16 code unit. */
  type Unit = x: int | 0 <= x < 0x10000
  type Text = seq<Unit>

  /** The first and the second half of a surrogate pair. */
  predicate High(u: Unit) { 0xd800 <= u <= 0xdbff }
  predicate Low(u: Unit) { 0xdc00 <= u <= 0xdfff }

  const DASH: Unit := 45
  const PLUS: Unit := 43
  const COLON: Unit := 58
  const DOT: Unit := 46
  const TEE: Unit := 84
  const ZED: Unit := 90

  predicate Digit(u: Unit) { 48 <= u <= 57 }

  predicate Digits(t: Text) { forall i :: 0 <= i < |t| ==> Digit(t[i]) }

  function Two(a: Unit, b: Unit): int { (a - 48) * 10 + (b - 48) }

  /** The two digits of a number below 100. */
  function Hi(n: int): Unit
    requires 0 <= n < 100
  {
    48 + n / 10
  }

  function Lo(n: int): Unit
    requires 0 <= n < 100
  {
    48 + n % 10
  }

  function Write4(n: int): Text
    requires 0 <= n < 10000
  {
    [Hi(n / 100), Lo(n / 100), Hi(n % 100), Lo(n % 100)]
  }

  /** `Z`, or an offset of hours and minutes. */
  datatype Zone = Zulu | Offset(ahead: bool, hours: int, minutes: int)

  datatype Stamp = Stamp(year: int, month: int, day: int, hour: int, minute: int, second: int, fraction: Text, zone: Zone)

  // ---------------------------------------------------------------- the pattern

  /** `\d{4}-\d{2}-\d{2}T\d{2}:\d{2}:\d{2}` at the beginning. */
  predicate Head(s: Text) {
    && |s| >= 19
    && Digits(s[0..4]) && s[4] == DASH && Digits(s[5..7]) && s[7] == DASH && Digits(s[8..10]) && s[10] == TEE
    && Digits(s[11..13]) && s[13] == COLON && Digits(s[14..16]) && s[16] == COLON && Digits(s[17..19])
  }

  function Run(t: Text): nat {
    if t != [] && Digit(t[0]) then 1 + Run(t[1..]) else 0
  }

  lemma {:induction false} RunBound(t: Text)
    ensures Run(t) <= |t| && Digits(t[..Run(t)])
  {
    if t != [] && Digit(t[0]) { RunBound(t[1..]); }
  }

  function ZoneOf(t: Text): Option<Zone> {
    if t == [ZED] then Some(Zulu)
    else if |t| == 6 && (t[0] == PLUS || t[0] == DASH) && Digits(t[1..3]) && t[3] == COLON && Digits(t[4..6])
    then Some(Offset(t[0] == PLUS, Two(t[1], t[2]), Two(t[4], t[5])))
    else None
  }

  /** Fraction and zone. */
  function TailOf(t: Text): Option<(Text, Zone)> {
    if t != [] && t[0] == DOT then
      RunBound(t[1..]);
      var n := Run(t[1..]);
      if n == 0 then None
      else
        var zone := ZoneOf(t[1 + n..]);
        if zone.None? then None else Some((t[1..1 + n], zone.value))
    else
      var zone := ZoneOf(t);
      if zone.None? then None else Some(([], zone.value))
  }

  /** `TIMESTAMP.exec`. */
  function Match(s: Text): Option<Stamp> {
    if !Head(s) then None
    else
      var tail := TailOf(s[19..]);
      if tail.None? then None
      else
        Some(Stamp(Two(s[0], s[1]) * 100 + Two(s[2], s[3]), Two(s[5], s[6]), Two(s[8], s[9]),
                   Two(s[11], s[12]), Two(s[14], s[15]), Two(s[17], s[18]), tail.value.0, tail.value.1))
  }

  // ---------------------------------------------------------------- the instant it names

  function DigitAt(t: Text, i: nat): int {
    if i < |t| then (t[i] as int) - 48 else 0
  }

  /** The first three fraction digits, padded. */
  function Millis(fraction: Text): int { DigitAt(fraction, 0) * 100 + DigitAt(fraction, 1) * 10 + DigitAt(fraction, 2) }

  function ClockIn(p: Stamp): Clock { Clock(p.hour, p.minute, p.second, Millis(p.fraction)) }

  predicate ZoneInRange(z: Zone) { z.Zulu? || (z.hours <= 23 && z.minutes <= 59) }

  function ZoneMs(z: Zone): int {
    match z
    case Zulu => 0
    case Offset(ahead, hours, minutes) => (if ahead then 1 else -1) * (hours * 3600000 + minutes * 60000)
  }

  /** `new Date(value)` for a date and a time that exist. */
  function Instant(p: Stamp): Time {
    MakeDate(MakeDay(p.year, p.month - 1, p.day), MakeTime(ClockIn(p)) - ZoneMs(p.zone))
  }

  function WriteYear(y: int): Text {
    if 0 <= y <= 9999 then Write4(y)
    else
      var magnitude := (if y < 0 then -y else y) % 1000000;
      [if y < 0 then DASH else PLUS, Hi(magnitude / 10000), Lo(magnitude / 10000)] + Write4(magnitude % 10000)
  }

  /** From the month to the second. */
  function WriteFields(month: int, day: int, c: Clock): Text
    requires 0 <= month < 100 && 0 <= day < 100 && RealClock(c)
  {
    [DASH, Hi(month), Lo(month), DASH, Hi(day), Lo(day), TEE, Hi(c.hour), Lo(c.hour), COLON,
     Hi(c.minute), Lo(c.minute), COLON, Hi(c.second), Lo(c.second)]
  }

  function WriteTail(ms: int): Text
    requires 0 <= ms < 1000
  {
    [DOT] + WriteMillis(ms) + [ZED]
  }

  function WriteMillis(ms: int): Text
    requires 0 <= ms < 1000
  {
    [48 + ms / 100, Hi(ms % 100), Lo(ms % 100)]
  }

  predicate Writable(date: Date, c: Clock) { 0 <= date.month < 12 && 1 <= date.day <= 31 && RealClock(c) }

  function WriteTime(date: Date, c: Clock): Text
    requires Writable(date, c)
  {
    WriteYear(date.year) + WriteFields(date.month + 1, date.day, c) + WriteTail(c.ms)
  }

  lemma TimesAreWritable(t: Time)
    requires ProperTime(t)
    ensures Writable(DateOf(t.day), ClockOf(t))
  {
    DateOfIsReal(t.day);
    ClockIsReal(t);
  }

  /** `toISOString`. */
  function Iso(t: Time): Text
    requires ProperTime(t)
  {
    TimesAreWritable(t);
    WriteTime(DateOf(t.day), ClockOf(t))
  }

  // ---------------------------------------------------------------- the two normalizers

  predicate FineFraction(fraction: Text) {
    |fraction| <= 3 || (|fraction| <= 6 && forall i :: 3 <= i < |fraction| ==> fraction[i] == 48)
  }

  function Canonical(p: Stamp): Text { Iso(Instant(p)) }

  predicate PresentationAccepts(p: Stamp) {
    ZoneInRange(p.zone) && ReturnsFromUtc(p.year, p.month, p.day, ClockIn(p))
  }

  predicate AcceptsWith(p: Stamp, daysInMonth: int) {
    ZoneInRange(p.zone) && WithinMonth(p.year, p.month, p.day, ClockIn(p), daysInMonth)
  }

  predicate ManifestAccepts(p: Stamp) { AcceptsWith(p, LastDayOf(p.year, p.month)) }

  /** Its date must return from UTC unchanged. */
  function NormalizePresentation(s: Text): Option<Text> {
    var p := Match(s);
    if p.None? then (if Head(s) then None else Some(s))
    else if !FineFraction(p.value.fraction) then Some(s)
    else if PresentationAccepts(p.value) then Some(Canonical(p.value)) else Some(s)
  }

  /** Its day must not exceed the days of the month. */
  function NormalizeManifest(s: Text): Option<Text> {
    var p := Match(s);
    if p.None? then (if Head(s) then None else Some(s))
    else if |p.value.fraction| > 3 then None
    else if ManifestAccepts(p.value) then Some(Canonical(p.value)) else Some(s)
  }

  // ---------------------------------------------------------------- what a match is made of

  lemma TwoDigits(a: Unit, b: Unit)
    requires Digit(a) && Digit(b)
    ensures 0 <= Two(a, b) < 100 && Hi(Two(a, b)) == a && Lo(Two(a, b)) == b
  {
  }

  lemma WrittenTwo(n: int)
    requires 0 <= n < 100
    ensures Digit(Hi(n)) && Digit(Lo(n)) && Two(Hi(n), Lo(n)) == n
  {
  }

  predicate ProperStamp(p: Stamp) {
    && 0 <= p.year < 10000 && 0 <= p.month < 100 && 0 <= p.day < 100
    && 0 <= p.hour < 100 && 0 <= p.minute < 100 && 0 <= p.second < 100 && Digits(p.fraction)
    && ProperZone(p.zone)
  }

  predicate ProperZone(z: Zone) { z.Offset? ==> 0 <= z.hours < 100 && 0 <= z.minutes < 100 }

  lemma ZoneIsProper(t: Text)
    requires ZoneOf(t).Some?
    ensures ProperZone(ZoneOf(t).value)
  {
    if t != [ZED] {
      TwoDigits(t[1..3][0], t[1..3][1]);
      TwoDigits(t[4..6][0], t[4..6][1]);
    }
  }

  lemma TailIsProper(t: Text)
    requires TailOf(t).Some?
    ensures Digits(TailOf(t).value.0) && ProperZone(TailOf(t).value.1)
  {
    if t != [] && t[0] == DOT {
      var rest, n := t[1..], Run(t[1..]);
      RunBound(rest);
      assert t[1..1 + n] == rest[..n];
      ZoneIsProper(t[1 + n..]);
    } else {
      ZoneIsProper(t);
    }
  }

  lemma MatchIsProper(s: Text)
    requires Match(s).Some?
    ensures ProperStamp(Match(s).value)
  {
    TailIsProper(s[19..]);
    TwoDigits(s[0..4][0], s[0..4][1]);
    TwoDigits(s[0..4][2], s[0..4][3]);
    TwoDigits(s[5..7][0], s[5..7][1]);
    TwoDigits(s[8..10][0], s[8..10][1]);
    TwoDigits(s[11..13][0], s[11..13][1]);
    TwoDigits(s[14..16][0], s[14..16][1]);
    TwoDigits(s[17..19][0], s[17..19][1]);
  }

  lemma MillisInRange(fraction: Text)
    requires Digits(fraction)
    ensures 0 <= Millis(fraction) <= 999
  {
  }

  // ---------------------------------------------------------------- canonical text

  lemma FourDigits(a: Unit, b: Unit, c: Unit, d: Unit, y: int)
    requires Digit(a) && Digit(b) && Digit(c) && Digit(d) && y == Two(a, b) * 100 + Two(c, d)
    ensures 0 <= y < 10000 && Write4(y) == [a, b, c, d]
  {
    TwoDigits(a, b);
    TwoDigits(c, d);
    assert y / 100 == Two(a, b) && y % 100 == Two(c, d);
  }

  lemma Hundreds(a: int, b: int, n: int)
    requires 0 <= b < 100 && n == a * 100 + b
    ensures n / 100 == a && n % 100 == b
  {
  }

  lemma MillisOf(n: int, h: int, t: int)
    requires 0 <= n < 1000 && n / 100 == h && n % 100 == t
    ensures WriteMillis(n) == [48 + h, Hi(t), Lo(t)]
  {
  }

  lemma ThreeDigits(f: Text)
    requires Digits(f) && |f| == 3
    ensures 0 <= Millis(f) < 1000 && WriteMillis(Millis(f)) == f
  {
    var h, t, n := f[0] as int - 48, Two(f[1], f[2]), Millis(f);
    TwoDigits(f[1], f[2]);
    Hundreds(h, t, n);
    MillisOf(n, h, t);
  }

  lemma WrittenMillis(ms: int)
    requires 0 <= ms < 1000
    ensures Digits(WriteMillis(ms)) && Millis(WriteMillis(ms)) == ms
  {
    WrittenTwo(ms % 100);
  }

  /** The head of a text that matches, digit by digit. */
  lemma HeadSpelled(s: Text, p: Stamp)
    requires Head(s) && ProperStamp(p)
    requires p.year == Two(s[0], s[1]) * 100 + Two(s[2], s[3])
    requires p.month == Two(s[5], s[6]) && p.day == Two(s[8], s[9])
    requires p.hour == Two(s[11], s[12]) && p.minute == Two(s[14], s[15]) && p.second == Two(s[17], s[18])
    ensures s[..4] == Write4(p.year)
    ensures RealClock(ClockIn(p)) ==> s[4..19] == WriteFields(p.month, p.day, ClockIn(p))
  {
    HeadDigits(s);
    FourDigits(s[0], s[1], s[2], s[3], p.year);
    TwoDigits(s[5], s[6]);
    TwoDigits(s[8], s[9]);
    TwoDigits(s[11], s[12]);
    TwoDigits(s[14], s[15]);
    TwoDigits(s[17], s[18]);
  }

  lemma HeadDigits(s: Text)
    requires Head(s)
    ensures Digit(s[0]) && Digit(s[1]) && Digit(s[2]) && Digit(s[3]) && Digit(s[5]) && Digit(s[6])
    ensures Digit(s[8]) && Digit(s[9]) && Digit(s[11]) && Digit(s[12]) && Digit(s[14]) && Digit(s[15])
    ensures Digit(s[17]) && Digit(s[18])
  {
    assert Digit(s[0..4][0]) && Digit(s[0..4][1]) && Digit(s[0..4][2]) && Digit(s[0..4][3]);
    assert Digit(s[5..7][0]) && Digit(s[5..7][1]) && Digit(s[8..10][0]) && Digit(s[8..10][1]);
    assert Digit(s[11..13][0]) && Digit(s[11..13][1]) && Digit(s[14..16][0]) && Digit(s[14..16][1]);
    assert Digit(s[17..19][0]) && Digit(s[17..19][1]);
  }

  lemma TailSpelled(t: Text)
    requires TailOf(t).Some? && TailOf(t).value.1 == Zulu && |TailOf(t).value.0| == 3
    ensures t == [DOT] + TailOf(t).value.0 + [ZED]
  {
    var rest := t[1..];
    RunBound(rest);
    assert t[1..1 + Run(rest)] == rest[..Run(rest)];
    assert t == [t[0]] + t[1..4] + t[4..];
  }

  /** `p` is what the pattern captures in `s`. */
  predicate Reads(s: Text, p: Stamp) {
    && Head(s) && TailOf(s[19..]) == Some((p.fraction, p.zone))
    && p.year == Two(s[0], s[1]) * 100 + Two(s[2], s[3])
    && p.month == Two(s[5], s[6]) && p.day == Two(s[8], s[9])
    && p.hour == Two(s[11], s[12]) && p.minute == Two(s[14], s[15]) && p.second == Two(s[17], s[18])
  }

  lemma MatchReads(s: Text, p: Stamp)
    ensures Match(s) == Some(p) <==> Reads(s, p)
  {
  }

  lemma ReadsProper(s: Text, p: Stamp)
    requires Reads(s, p)
    ensures ProperStamp(p)
  {
    MatchReads(s, p);
    MatchIsProper(s);
  }

  lemma ThreeParts(s: Text, a: Text, b: Text, c: Text)
    requires |s| >= 19 && a == s[..4] && b == s[4..19] && c == s[19..]
    ensures s == a + b + c
  {
  }

  /** A text in UTC with three fraction digits is just its fields written out. */
  lemma MatchSpelled(s: Text, p: Stamp)
    requires Reads(s, p) && ProperStamp(p) && p.zone == Zulu && |p.fraction| == 3 && RealClock(ClockIn(p))
    ensures s[..4] == Write4(p.year) && s[4..19] == WriteFields(p.month, p.day, ClockIn(p))
    ensures s[19..] == WriteTail(Millis(p.fraction))
  {
    HeadSpelled(s, p);
    TailSpelled(s[19..]);
    ThreeDigits(p.fraction);
  }

  lemma WrittenTail(ms: int)
    requires 0 <= ms < 1000
    ensures TailOf(WriteTail(ms)) == Some((WriteMillis(ms), Zulu))
  {
    var f := WriteMillis(ms);
    var t := WriteTail(ms);
    WrittenMillis(ms);
    var three := [f[0], f[1], f[2], ZED];
    var two := [f[1], f[2], ZED];
    var one := [f[2], ZED];
    assert t[1..] == three && three[1..] == two && two[1..] == one && one[1..] == [ZED];
    assert Run([ZED]) == 0;
    assert Run(one) == 1;
    assert Run(two) == 2;
    assert Run(three) == 3;
    assert t[4..] == [ZED] && t[1..4] == f;
  }

  lemma WrittenYear(y: int, rest: Text)
    requires 0 <= y < 10000
    ensures var s := Write4(y) + rest;
            Digits(s[0..4]) && Two(s[0], s[1]) * 100 + Two(s[2], s[3]) == y && s[4..] == rest
  {
    WrittenTwo(y / 100);
    WrittenTwo(y % 100);
  }

  /** The fields behind the year. */
  predicate Fields(t: Text, month: int, day: int, c: Clock) {
    && |t| >= 15
    && t[0] == DASH && Digits(t[1..3]) && t[3] == DASH && Digits(t[4..6]) && t[6] == TEE
    && Digits(t[7..9]) && t[9] == COLON && Digits(t[10..12]) && t[12] == COLON && Digits(t[13..15])
    && Two(t[1], t[2]) == month && Two(t[4], t[5]) == day
    && Two(t[7], t[8]) == c.hour && Two(t[10], t[11]) == c.minute && Two(t[13], t[14]) == c.second
  }

  lemma WrittenFields(month: int, day: int, c: Clock)
    requires 0 <= month < 100 && 0 <= day < 100 && RealClock(c)
    ensures Fields(WriteFields(month, day, c), month, day, c)
  {
    WrittenTwo(month);
    WrittenTwo(day);
    WrittenTwo(c.hour);
    WrittenTwo(c.minute);
    WrittenTwo(c.second);
  }

  lemma FieldsExtend(t: Text, rest: Text, month: int, day: int, c: Clock)
    requires Fields(t, month, day, c)
    ensures Fields(t + rest, month, day, c)
  {
    var u := t + rest;
    assert u[1..3] == t[1..3] && u[4..6] == t[4..6] && u[7..9] == t[7..9] && u[10..12] == t[10..12] && u[13..15] == t[13..15];
  }

  lemma FieldsFollow(s: Text, month: int, day: int, c: Clock)
    requires |s| >= 19 && Digits(s[0..4]) && Fields(s[4..], month, day, c)
    ensures Head(s) && Two(s[5], s[6]) == month && Two(s[8], s[9]) == day
    ensures Two(s[11], s[12]) == c.hour && Two(s[14], s[15]) == c.minute && Two(s[17], s[18]) == c.second
  {
    var t := s[4..];
    assert s[5..7] == t[1..3] && s[8..10] == t[4..6] && s[11..13] == t[7..9] && s[14..16] == t[10..12] && s[17..19] == t[13..15];
  }

  lemma WrittenParts(year: Text, fields: Text, tail: Text, s: Text)
    requires |year| == 4 && |fields| == 15 && s == year + fields + tail
    ensures s == year + (fields + tail) && s[4..] == fields + tail && s[19..] == tail && |s| >= 19
  {
  }

  /** Written out, fields are read back. */
  lemma MatchWritten(y: int, month: int, day: int, c: Clock, s: Text)
    requires 0 <= y < 10000 && 0 <= month < 100 && 0 <= day < 100 && RealClock(c)
    requires s == Write4(y) + WriteFields(month, day, c) + WriteTail(c.ms)
    ensures Reads(s, Stamp(y, month, day, c.hour, c.minute, c.second, WriteMillis(c.ms), Zulu))
  {
    var fields, tail := WriteFields(month, day, c), WriteTail(c.ms);
    WrittenParts(Write4(y), fields, tail, s);
    WrittenYear(y, fields + tail);
    WrittenFields(month, day, c);
    FieldsExtend(fields, tail, month, day, c);
    FieldsFollow(s, month, day, c);
    WrittenTail(c.ms);
  }

  // ---------------------------------------------------------------- idempotence

  predicate Possible(p: Stamp) {
    ZoneInRange(p.zone) && RealDate(p.year, p.month - 1, p.day) && ClockInRange(ClockIn(p))
  }

  lemma UtcInstant(p: Stamp)
    requires ProperStamp(p) && Possible(p) && p.zone == Zulu
    ensures RealClock(ClockIn(p)) && Instant(p) == Time(MonthDay(p.year, p.month - 1, p.day), MakeTime(ClockIn(p)))
    ensures ClockOf(Instant(p)) == ClockIn(p) && DateOf(Instant(p).day) == Date(p.year, p.month - 1, p.day)
  {
    MillisInRange(p.fraction);
    SameYear(p.year, p.month - 1, p.day);
    ClockReturns(MonthDay(p.year, p.month - 1, p.day), ClockIn(p));
    RealDateReturns(p.year, p.month - 1, p.day);
  }

  /** A possible time in UTC with three fraction digits is already canonical. */
  lemma CanonicalIsSelf(s: Text, p: Stamp)
    requires Reads(s, p) && ProperStamp(p) && Possible(p) && p.zone == Zulu && |p.fraction| == 3
    ensures Canonical(p) == s
  {
    UtcInstant(p);
    MatchSpelled(s, p);
    ThreeParts(s, Write4(p.year), WriteFields(p.month, p.day, ClockIn(p)), WriteTail(Millis(p.fraction)));
    IsoOf(Instant(p), p.year, p.month, p.day, ClockIn(p));
  }

  lemma IsoOf(t: Time, y: int, month: int, day: int, c: Clock)
    requires ProperTime(t) && DateOf(t.day) == Date(y, month - 1, day) && ClockOf(t) == c && 0 <= y <= 9999
    ensures RealClock(c) && 0 <= month < 100 && 0 <= day < 100
    ensures Iso(t) == Write4(y) + WriteFields(month, day, c) + WriteTail(c.ms)
  {
    TimesAreWritable(t);
  }

  /** What `toISOString` writes in a four-digit year, reads as the same fields in UTC. */
  lemma ReadsIso(t: Time, date: Date, c: Clock)
    requires ProperTime(t) && date == DateOf(t.day) && c == ClockOf(t) && 0 <= date.year <= 9999
    ensures RealClock(c) && RealDate(date.year, date.month, date.day)
    ensures Reads(Iso(t), Stamp(date.year, date.month + 1, date.day, c.hour, c.minute, c.second, WriteMillis(c.ms), Zulu))
  {
    DateOfIsReal(t.day);
    ClockIsReal(t);
    IsoOf(t, date.year, date.month + 1, date.day, c);
    MatchWritten(date.year, date.month + 1, date.day, c, Iso(t));
  }

  lemma IsoIsCanonical(t: Time) returns (p: Stamp)
    requires ProperTime(t) && 0 <= DateOf(t.day).year <= 9999
    ensures Reads(Iso(t), p) && Canonical(p) == Iso(t) && |p.fraction| == 3 && p.zone == Zulu
  {
    var date, c := DateOf(t.day), ClockOf(t);
    ReadsIso(t, date, c);
    p := Stamp(date.year, date.month + 1, date.day, c.hour, c.minute, c.second, WriteMillis(c.ms), Zulu);
    WrittenMillis(c.ms);
    ReadsProper(Iso(t), p);
    CanonicalIsSelf(Iso(t), p);
  }

  lemma LongYear(t: Time)
    requires ProperTime(t) && !(0 <= DateOf(t.day).year <= 9999)
    ensures !Head(Iso(t))
  {
    assert Iso(t)[0..4][0] == Iso(t)[0];
  }

  lemma CanonicalTextIsFixed(s: Text, p: Stamp)
    requires Reads(s, p) && Canonical(p) == s && |p.fraction| == 3
    ensures NormalizePresentation(s) == Some(s) && NormalizeManifest(s) == Some(s)
  {
    MatchReads(s, p);
  }

  /** Written times stay as they are, in either application. */
  lemma IsoIsFixed(t: Time, s: Text)
    requires ProperTime(t) && s == Iso(t)
    ensures NormalizePresentation(s) == Some(s) && NormalizeManifest(s) == Some(s)
  {
    if 0 <= DateOf(t.day).year <= 9999 {
      var p := IsoIsCanonical(t);
      CanonicalTextIsFixed(s, p);
    } else {
      LongYear(t);
    }
  }

  lemma ResultIsIso(s: Text, r: Text) returns (t: Time)
    requires r != s && (NormalizePresentation(s) == Some(r) || NormalizeManifest(s) == Some(r))
    ensures ProperTime(t) && r == Iso(t)
  {
    t := Instant(Match(s).value);
  }

  /** Both normalizers are idempotent. */
  lemma PresentationIsIdempotent(s: Text, r: Text)
    requires NormalizePresentation(s) == Some(r)
    ensures NormalizePresentation(r) == Some(r)
  {
    if r != s {
      var t := ResultIsIso(s, r);
      IsoIsFixed(t, r);
    }
  }

  lemma ManifestIsIdempotent(s: Text, r: Text)
    requires NormalizeManifest(s) == Some(r)
    ensures NormalizeManifest(r) == Some(r)
  {
    if r != s {
      var t := ResultIsIso(s, r);
      IsoIsFixed(t, r);
    }
  }

  // ---------------------------------------------------------------- agreement

  lemma PresentationAcceptsIff(p: Stamp)
    requires ProperStamp(p)
    ensures PresentationAccepts(p) <==> p.year >= 100 && Possible(p)
  {
    MillisInRange(p.fraction);
    if p.year >= 100 {
      ReturnsFromUtcIsReal(p.year, p.month, p.day, ClockIn(p));
    } else {
      FirstCenturyNeverReturns(p.year, p.month, p.day, ClockIn(p));
    }
  }

  lemma AcceptsWithIff(p: Stamp, daysInMonth: int)
    requires RightDays(p.year, p.month, daysInMonth)
    ensures AcceptsWith(p, daysInMonth) <==> p.year >= 1 && Possible(p)
  {
    WithinMonthIsReal(p.year, p.month, p.day, ClockIn(p), daysInMonth);
  }

  lemma LastDayIsRight(y: int, month: int)
    requires y >= 1 && 1 <= month <= 12
    ensures RightDays(y, month, LastDayOf(y, month))
  {
    DaysAreRight(y, month);
  }

  lemma ManifestAcceptsIff(p: Stamp)
    requires p.year >= 1 && 1 <= p.month <= 12
    ensures ManifestAccepts(p) <==> Possible(p)
  {
    LastDayIsRight(p.year, p.month);
    AcceptsWithIff(p, LastDayOf(p.year, p.month));
  }

  lemma CanonicalIsZulu(s: Text, p: Stamp)
    requires Reads(s, p) && Canonical(p) == s
    ensures p.zone == Zulu && |p.fraction| == 3
  {
    var t := Instant(p);
    if 0 <= DateOf(t.day).year <= 9999 {
      var q := IsoIsCanonical(t);
      MatchReads(s, p);
      MatchReads(s, q);
    } else {
      LongYear(t);
    }
  }

  lemma AgreeBy(s: Text, p: Stamp, possible: bool)
    requires Match(s) == Some(p) && p.year >= 0
    requires PresentationAccepts(p) <==> p.year >= 100 && possible
    requires ManifestAccepts(p) <==> p.year >= 1 && possible
    ensures NormalizePresentation(s) == NormalizeManifest(s)
       <==> |p.fraction| <= 3 && (p.year == 0 || p.year >= 100 || !possible || Canonical(p) == s)
  {
  }

  lemma AcceptedByBoth(p: Stamp)
    requires ProperStamp(p)
    ensures PresentationAccepts(p) <==> p.year >= 100 && Possible(p)
    ensures ManifestAccepts(p) <==> p.year >= 1 && Possible(p)
  {
    PresentationAcceptsIff(p);
    if p.year >= 1 && 1 <= p.month <= 12 { ManifestAcceptsIff(p); }
  }

  /** On a text that is a timestamp the two agree exactly when it has at most three fraction digits and
      lies outside the years 1 to 99, or names no possible time, or is canonical already. */
  lemma NormalizersAgreeExactly(s: Text, p: Stamp)
    requires Match(s) == Some(p)
    ensures NormalizePresentation(s) == NormalizeManifest(s)
       <==> && |p.fraction| <= 3
            && (p.year == 0 || p.year >= 100 || !Possible(p) || (p.zone == Zulu && |p.fraction| == 3))
  {
    MatchReads(s, p);
    ReadsProper(s, p);
    AcceptedByBoth(p);
    AgreeBy(s, p, Possible(p));
    CanonicalIffZulu(s, p);
  }

  lemma CanonicalIffZulu(s: Text, p: Stamp)
    requires Reads(s, p) && ProperStamp(p)
    ensures Possible(p) ==> (Canonical(p) == s <==> p.zone == Zulu && |p.fraction| == 3)
  {
    if Canonical(p) == s { CanonicalIsZulu(s, p); }
    if Possible(p) && p.zone == Zulu && |p.fraction| == 3 { CanonicalIsSelf(s, p); }
  }

  /** On any other text they always agree. */
  lemma NormalizersAgreeElsewhere(s: Text)
    requires Match(s).None?
    ensures NormalizePresentation(s) == NormalizeManifest(s) == if Head(s) then None else Some(s)
  {
  }
}

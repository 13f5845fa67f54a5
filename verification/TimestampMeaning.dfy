/** What the timestamp normalizers do to a text, said of its spelling and of the moment it names. */
module TimestampMeaning {

  import opened Options
  import opened Calendar
  import opened Timestamps

  // ---------------------------------------------------------------- spelling

  function SpellFraction(fraction: Text): Text { if fraction == [] then [] else [DOT] + fraction }

  function SpellZone(z: Zone): Text
    requires ProperZone(z)
  {
    match z
    case Zulu => [ZED]
    case Offset(ahead, hours, minutes) =>
      [if ahead then PLUS else DASH, Hi(hours), Lo(hours), COLON, Hi(minutes), Lo(minutes)]
  }

  function SpellHead(p: Stamp): Text
    requires ProperStamp(p)
  {
    [Hi(p.year / 100), Lo(p.year / 100), Hi(p.year % 100), Lo(p.year % 100), DASH, Hi(p.month), Lo(p.month), DASH,
     Hi(p.day), Lo(p.day), TEE, Hi(p.hour), Lo(p.hour), COLON, Hi(p.minute), Lo(p.minute), COLON, Hi(p.second), Lo(p.second)]
  }

  /** Date, time, an optional fraction, and the zone. */
  function Spell(p: Stamp): Text
    requires ProperStamp(p)
  {
    SpellHead(p) + SpellFraction(p.fraction) + SpellZone(p.zone)
  }

  lemma OffsetWasSpelled(t: Text, z: Zone)
    requires |t| == 6 && (t[0] == PLUS || t[0] == DASH) && t[3] == COLON
    requires Digit(t[1]) && Digit(t[2]) && Digit(t[4]) && Digit(t[5])
    requires z == Offset(t[0] == PLUS, Two(t[1], t[2]), Two(t[4], t[5]))
    ensures ProperZone(z) && t == SpellZone(z)
  {
    TwoDigits(t[1], t[2]);
    TwoDigits(t[4], t[5]);
    assert t == [t[0], t[1], t[2], t[3], t[4], t[5]];
  }

  lemma ZoneWasSpelled(t: Text, z: Zone)
    requires ZoneOf(t) == Some(z)
    ensures ProperZone(z) && t == SpellZone(z)
  {
    if t != [ZED] {
      assert t[1..3][0] == t[1] && t[1..3][1] == t[2] && t[4..6][0] == t[4] && t[4..6][1] == t[5];
      OffsetWasSpelled(t, z);
    }
  }

  lemma ZoneReads(z: Zone)
    requires ProperZone(z)
    ensures ZoneOf(SpellZone(z)) == Some(z)
  {
    var t := SpellZone(z);
    if z.Offset? {
      WrittenTwo(z.hours);
      WrittenTwo(z.minutes);
      assert t[1..3] == [t[1], t[2]] && t[4..6] == [t[4], t[5]];
    }
  }

  lemma {:induction false} RunIs(t: Text, rest: Text)
    requires Digits(t) && rest != [] && !Digit(rest[0])
    ensures Run(t + rest) == |t|
  {
    if t == [] {
      assert t + rest == rest;
    } else {
      assert (t + rest)[1..] == t[1..] + rest;
      RunIs(t[1..], rest);
    }
  }

  lemma ZoneStarts(z: Zone)
    requires ProperZone(z)
    ensures SpellZone(z) != [] && !Digit(SpellZone(z)[0]) && SpellZone(z)[0] != DOT
  {
  }

  lemma FractionReads(fraction: Text, zone: Text, z: Zone)
    requires Digits(fraction) && fraction != [] && zone != [] && !Digit(zone[0]) && ZoneOf(zone) == Some(z)
    ensures TailOf([DOT] + fraction + zone) == Some((fraction, z))
  {
    var t := [DOT] + fraction + zone;
    RunIs(fraction, zone);
    assert t[1..] == fraction + zone;
    assert t[1 + |fraction|..] == zone && t[1..1 + |fraction|] == fraction;
  }

  lemma TailReads(fraction: Text, z: Zone)
    requires Digits(fraction) && ProperZone(z)
    ensures TailOf(SpellFraction(fraction) + SpellZone(z)) == Some((fraction, z))
  {
    ZoneStarts(z);
    ZoneReads(z);
    if fraction == [] {
      assert [] + SpellZone(z) == SpellZone(z);
    } else {
      FractionReads(fraction, SpellZone(z), z);
    }
  }

  lemma ThreeWays(t: Text, n: nat)
    requires 1 + n <= |t|
    ensures t == ([t[0]] + t[1..1 + n]) + t[1 + n..]
  {
  }

  lemma TailWasSpelled(t: Text, fraction: Text, z: Zone)
    requires TailOf(t) == Some((fraction, z))
    ensures Digits(fraction) && ProperZone(z) && t == SpellFraction(fraction) + SpellZone(z)
  {
    TailIsProper(t);
    if t[0] == DOT {
      var rest := t[1..];
      var n := Run(rest);
      RunBound(rest);
      ZoneWasSpelled(t[1 + n..], z);
      ThreeWays(t, n);
    } else {
      ZoneWasSpelled(t, z);
    }
  }

  lemma HeadReads(p: Stamp, tail: Text)
    requires ProperStamp(p)
    ensures var s := SpellHead(p) + tail;
            && Head(s) && s[19..] == tail
            && p.year == Two(s[0], s[1]) * 100 + Two(s[2], s[3])
            && p.month == Two(s[5], s[6]) && p.day == Two(s[8], s[9])
            && p.hour == Two(s[11], s[12]) && p.minute == Two(s[14], s[15]) && p.second == Two(s[17], s[18])
  {
    WrittenTwo(p.year / 100);
    WrittenTwo(p.year % 100);
    WrittenTwo(p.month);
    WrittenTwo(p.day);
    WrittenTwo(p.hour);
    WrittenTwo(p.minute);
    WrittenTwo(p.second);
    var s := SpellHead(p) + tail;
    assert s[0..4] == [s[0], s[1], s[2], s[3]] && s[5..7] == [s[5], s[6]] && s[8..10] == [s[8], s[9]];
    assert s[11..13] == [s[11], s[12]] && s[14..16] == [s[14], s[15]] && s[17..19] == [s[17], s[18]];
  }

  lemma HeadWasSpelled(s: Text, p: Stamp)
    requires Reads(s, p) && ProperStamp(p)
    ensures s[..19] == SpellHead(p)
  {
    HeadDigits(s);
    TwoDigits(s[0], s[1]);
    TwoDigits(s[2], s[3]);
    TwoDigits(s[5], s[6]);
    TwoDigits(s[8], s[9]);
    TwoDigits(s[11], s[12]);
    TwoDigits(s[14], s[15]);
    TwoDigits(s[17], s[18]);
    assert p.year / 100 == Two(s[0], s[1]) && p.year % 100 == Two(s[2], s[3]);
  }

  lemma WasSpelled(s: Text, p: Stamp)
    requires Reads(s, p)
    ensures ProperStamp(p) && s == Spell(p)
  {
    ReadsProper(s, p);
    HeadWasSpelled(s, p);
    TailWasSpelled(s[19..], p.fraction, p.zone);
    assert s == s[..19] + s[19..];
    Regroup(SpellHead(p), SpellFraction(p.fraction), SpellZone(p.zone));
  }

  lemma Regroup(a: Text, b: Text, c: Text)
    ensures a + (b + c) == (a + b) + c
  {
  }

  lemma SpelledReads(p: Stamp)
    requires ProperStamp(p)
    ensures Reads(Spell(p), p)
  {
    var tail := SpellFraction(p.fraction) + SpellZone(p.zone);
    Regroup(SpellHead(p), SpellFraction(p.fraction), SpellZone(p.zone));
    HeadReads(p, tail);
    TailReads(p.fraction, p.zone);
  }

  /** The pattern takes a text apart exactly as it is spelled. */
  lemma ReadsExactly(s: Text, p: Stamp)
    ensures Reads(s, p) <==> ProperStamp(p) && s == Spell(p)
  {
    if Reads(s, p) { WasSpelled(s, p); }
    if ProperStamp(p) { SpelledReads(p); }
  }

  // ---------------------------------------------------------------- moments

  /** Milliseconds that the clock of a zone is ahead of UTC. */
  function Lead(z: Zone): int {
    match z
    case Zulu => 0
    case Offset(true, hours, minutes) => 60000 * (60 * hours + minutes)
    case Offset(false, hours, minutes) => -60000 * (60 * hours + minutes)
  }

  /** Milliseconds since 1970 on the clock of the stamp's own zone. */
  function LocalTime(p: Stamp): int
    requires 1 <= p.month <= 12
  {
    86400000 * MonthDay(p.year, p.month - 1, p.day)
    + 3600000 * p.hour + 60000 * p.minute + 1000 * p.second + Millis(p.fraction)
  }

  /** The first three fraction digits, or as many zeros as there are too few. */
  function ThreeOf(fraction: Text): Text { (fraction + [48, 48, 48])[..3] }

  /** A day of the calendar, and a time and an offset of less than a day. */
  predicate Exists(p: Stamp) {
    && 1 <= p.month <= 12 && 1 <= p.day <= DaysInMonth(Leap(p.year), p.month - 1)
    && p.hour <= 23 && p.minute <= 59 && p.second <= 59
    && (p.zone.Offset? ==> p.zone.hours <= 23 && p.zone.minutes <= 59)
  }

  lemma PossibleExactly(p: Stamp)
    ensures Possible(p) <==> Exists(p)
  {
  }

  /** The same moment in UTC, to the millisecond. */
  predicate InUtc(p: Stamp, q: Stamp) {
    && Exists(p) && Exists(q) && q.zone == Zulu && q.fraction == ThreeOf(p.fraction)
    && LocalTime(q) + Lead(p.zone) == LocalTime(p)
  }

  lemma WrittenThree(fraction: Text)
    requires Digits(fraction)
    ensures 0 <= Millis(fraction) < 1000 && WriteMillis(Millis(fraction)) == ThreeOf(fraction)
  {
    var three := ThreeOf(fraction);
    assert Digits(three) && |three| == 3;
    assert Millis(three) == Millis(fraction);
    ThreeDigits(three);
  }

  function TotalMs(t: Time): int { 86400000 * t.day + t.ms }

  lemma MadeDate(day: int, ms: int)
    ensures TotalMs(MakeDate(day, ms)) == 86400000 * day + ms && ProperTime(MakeDate(day, ms))
  {
  }

  lemma ZoneMsIs(z: Zone)
    ensures ZoneMs(z) == Lead(z)
  {
  }

  lemma InstantIs(p: Stamp)
    requires 1 <= p.month <= 12
    ensures ProperTime(Instant(p)) && TotalMs(Instant(p)) + Lead(p.zone) == LocalTime(p)
    ensures Instant(p).ms == (MakeTime(ClockIn(p)) - Lead(p.zone)) % 86400000
  {
    SameYear(p.year, p.month - 1, p.day);
    MadeDate(MonthDay(p.year, p.month - 1, p.day), MakeTime(ClockIn(p)) - ZoneMs(p.zone));
    ZoneMsIs(p.zone);
  }

  lemma LastThousand(x: int, k: int, f: int)
    requires x == 1000 * k + f && 0 <= f < 1000
    ensures (x % 86400000) % 1000 == f
  {
    var d := x / 86400000;
    assert x % 86400000 == 1000 * (k - 86400 * d) + f;
  }

  function WholeSeconds(p: Stamp): int {
    3600 * p.hour + 60 * p.minute + p.second
    - match p.zone
      case Zulu => 0
      case Offset(true, hours, minutes) => 60 * (60 * hours + minutes)
      case Offset(false, hours, minutes) => -60 * (60 * hours + minutes)
  }

  lemma MillisStay(p: Stamp)
    requires 1 <= p.month <= 12 && Digits(p.fraction)
    ensures Instant(p).ms % 1000 == Millis(p.fraction)
  {
    InstantIs(p);
    MillisInRange(p.fraction);
    LastThousand(MakeTime(ClockIn(p)) - Lead(p.zone), WholeSeconds(p), Millis(p.fraction));
  }

  /** The stamp of a date and a clock in UTC. */
  function UtcStamp(date: Date, c: Clock, fraction: Text): Stamp {
    Stamp(date.year, date.month + 1, date.day, c.hour, c.minute, c.second, fraction, Zulu)
  }

  lemma UtcStampTime(date: Date, c: Clock, fraction: Text, t: Time)
    requires RealDate(date.year, date.month, date.day) && RealClock(c) && Millis(fraction) == c.ms
    requires MonthDay(date.year, date.month, date.day) == t.day && MakeTime(c) == t.ms
    ensures LocalTime(UtcStamp(date, c, fraction)) == TotalMs(t) && Exists(UtcStamp(date, c, fraction))
  {
  }

  /** What is written of an instant names it, in UTC. */
  lemma WrittenNames(p: Stamp, t: Time, date: Date, c: Clock)
    requires ProperStamp(p) && Exists(p) && t == Instant(p) && date == DateOf(t.day) && c == ClockOf(t)
    ensures ProperTime(t) && RealClock(c)
    ensures InUtc(p, Stamp(date.year, date.month + 1, date.day, c.hour, c.minute, c.second, WriteMillis(c.ms), Zulu))
  {
    InstantIs(p);
    MillisStay(p);
    DateOfIsReal(t.day);
    ClockIsReal(t);
    WrittenThree(p.fraction);
    assert Millis(ThreeOf(p.fraction)) == Millis(p.fraction);
    UtcStampTime(date, c, ThreeOf(p.fraction), t);
  }

  // ---------------------------------------------------------------- the two normalizers

  /** The same moment in UTC, unless the year has left the four digits; then no longer a timestamp. */
  ghost predicate Rewritten(p: Stamp, r: Text) {
    Head(r) ==> exists q :: Reads(r, q) && InUtc(p, q)
  }

  lemma CanonicalIsRewritten(p: Stamp)
    requires ProperStamp(p) && Exists(p)
    ensures Rewritten(p, Canonical(p))
  {
    var t := Instant(p);
    InstantIs(p);
    if 0 <= DateOf(t.day).year <= 9999 {
      var date, c := DateOf(t.day), ClockOf(t);
      WrittenNames(p, t, date, c);
      ReadsIso(t, date, c);
    } else {
      LongYear(t);
    }
  }

  predicate ZerosAfterThree(fraction: Text) {
    |fraction| <= 6 && forall i :: 3 <= i < |fraction| ==> fraction[i] == 48
  }

  /** In the presentation, a text with the beginning of a timestamp must be one; a possible time from the
      year 100 on, no finer than milliseconds, is rewritten in UTC; all else stays. */
  lemma PresentationExactly(s: Text)
    ensures NormalizePresentation(s).None? <==> Head(s) && forall p :: !Reads(s, p)
    ensures !Head(s) ==> NormalizePresentation(s) == Some(s)
    ensures forall p :: Reads(s, p) ==>
              var r := NormalizePresentation(s).value;
              if ZerosAfterThree(p.fraction) && p.year >= 100 && Exists(p) then Rewritten(p, r) else r == s
  {
    forall p ensures Match(s) == Some(p) <==> Reads(s, p) { MatchReads(s, p); }
    forall p | Reads(s, p)
      ensures var r := NormalizePresentation(s).value;
              if ZerosAfterThree(p.fraction) && p.year >= 100 && Exists(p) then Rewritten(p, r) else r == s
    {
      ReadsProper(s, p);
      PresentationAcceptsIff(p);
      PossibleExactly(p);
      if Exists(p) { CanonicalIsRewritten(p); }
    }
  }

  /** In the manifest, more than three fraction digits are refused as well, and possible times are rewritten
      from the year 1 on. */
  lemma ManifestExactly(s: Text)
    ensures NormalizeManifest(s).None? <==> Head(s) && forall p :: Reads(s, p) ==> |p.fraction| > 3
    ensures !Head(s) ==> NormalizeManifest(s) == Some(s)
    ensures forall p :: Reads(s, p) && |p.fraction| <= 3 ==>
              var r := NormalizeManifest(s).value;
              if p.year >= 1 && Exists(p) then Rewritten(p, r) else r == s
  {
    forall p ensures Match(s) == Some(p) <==> Reads(s, p) { MatchReads(s, p); }
    forall p | Reads(s, p) && |p.fraction| <= 3
      ensures var r := NormalizeManifest(s).value;
              if p.year >= 1 && Exists(p) then Rewritten(p, r) else r == s
    {
      ReadsProper(s, p);
      ManifestAcceptsYears(p);
      if Exists(p) { CanonicalIsRewritten(p); }
    }
  }

  lemma ManifestAcceptsYears(p: Stamp)
    requires ProperStamp(p)
    ensures ManifestAccepts(p) <==> p.year >= 1 && Exists(p)
  {
    PossibleExactly(p);
    if p.year >= 1 && 1 <= p.month <= 12 { ManifestAcceptsIff(p); }
  }
}

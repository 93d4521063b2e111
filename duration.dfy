/**
 * The elapsed-time text written to `fix_duration_estimate` (dukeoutages.py, update_tracker):
 * Python's timedelta keeps a floored day count and a second count in [0, 86400), and the
 * code prints `"{days}d {hours}h {minutes}m {seconds}s"` from them by integer division.
 * Elapsed time is a whole number of seconds here and may be negative.
 */
module Duration {
  import opened Wrappers

  const SecondsPerDay := 86400
  const SecondsPerHour := 3600
  const SecondsPerMinute := 60

  datatype Parts = Parts(days: int, hours: int, minutes: int, seconds: int)

  /** `duration.days`, `duration.seconds // 3600`, `(duration.seconds // 60) % 60`, `duration.seconds % 60`. */
  function Split(elapsed: int): (p: Parts)
    ensures 0 <= p.hours < 24 && 0 <= p.minutes < 60 && 0 <= p.seconds < 60
    ensures p.days * SecondsPerDay + p.hours * SecondsPerHour + p.minutes * SecondsPerMinute + p.seconds == elapsed
  {
    var daySeconds := elapsed % SecondsPerDay;
    Parts(elapsed / SecondsPerDay, daySeconds / SecondsPerHour, (daySeconds / SecondsPerMinute) % 60,
          daySeconds % SecondsPerMinute)
  }

  /** The components are the only ones in range that add up to the elapsed time. */
  lemma SplitUnique(elapsed: int, p: Parts)
    requires 0 <= p.hours < 24 && 0 <= p.minutes < 60 && 0 <= p.seconds < 60
    requires p.days * SecondsPerDay + p.hours * SecondsPerHour + p.minutes * SecondsPerMinute + p.seconds == elapsed
    ensures p == Split(elapsed)
  {
    var q := Split(elapsed);
    var r := p.hours * SecondsPerHour + p.minutes * SecondsPerMinute + p.seconds;
    var rq := q.hours * SecondsPerHour + q.minutes * SecondsPerMinute + q.seconds;
    assert 0 <= r < SecondsPerDay && 0 <= rq < SecondsPerDay;
    assert p.days == q.days;
    assert p.hours == q.hours;
    assert p.minutes == q.minutes;
  }

  predicate IsDigit(c: char) {
    '0' <= c <= '9'
  }

  predicate AllDigits(s: string) {
    forall k :: 0 <= k < |s| ==> IsDigit(s[k])
  }

  function DigitChar(d: nat): (c: char)
    requires d < 10
    ensures IsDigit(c) && c as int - '0' as int == d
  {
    ('0' as int + d) as char
  }

  /** Python's `str` of a non-negative int: decimal, no leading zeros. */
  function NatToString(n: nat): (s: string)
    ensures |s| > 0 && AllDigits(s)
  {
    if n < 10 then [DigitChar(n)] else NatToString(n / 10) + [DigitChar(n % 10)]
  }

  /** Python's `str` of an int. */
  function IntToString(i: int): (s: string)
    ensures |s| > 0
  {
    if i < 0 then "-" + NatToString(-i) else NatToString(i)
  }

  /** The text `update_tracker` stores for an elapsed time. */
  function Format(elapsed: int): string {
    Text(Split(elapsed))
  }

  /** `"{days}d {hours}h {minutes}m {seconds}s"`. */
  function Text(p: Parts): string
    requires 0 <= p.hours && 0 <= p.minutes && 0 <= p.seconds
  {
    IntToString(p.days) + ("d " + Clock(p))
  }

  // ---- Reading the text back: the inverse of Format ----

  function DigitsValue(s: string): nat
    requires AllDigits(s)
  {
    if s == [] then 0 else DigitsValue(s[..|s| - 1]) * 10 + (s[|s| - 1] as int - '0' as int)
  }

  function LeadingDigits(s: string): (n: nat)
    ensures n <= |s| && AllDigits(s[..n])
  {
    if s == [] || !IsDigit(s[0]) then 0
    else
      var n := 1 + LeadingDigits(s[1..]);
      assert s[..n] == [s[0]] + s[1..][..n - 1];
      n
  }

  function ReadNat(s: string): Option<(nat, string)> {
    var n := LeadingDigits(s);
    if n == 0 then None else Some((DigitsValue(s[..n]), s[n..]))
  }

  function ReadInt(s: string): Option<(int, string)> {
    if |s| > 0 && s[0] == '-' then
      var magnitude :- ReadNat(s[1..]);
      Some((-(magnitude.0 as int), magnitude.1))
    else
      ReadNat(s)
  }

  function Expect(s: string, lit: string): Option<string> {
    if |lit| <= |s| && s[..|lit|] == lit then Some(s[|lit|..]) else None
  }

  /** A decimal number followed by its unit text. */
  function ReadField(s: string, unit: string): Option<(nat, string)> {
    var number :- ReadNat(s);
    var after :- Expect(number.1, unit);
    Some((number.0, after))
  }

  /** Reads `"{d}d {h}h {m}m {s}s"` back into a number of seconds. */
  function Parse(s: string): Option<int> {
    var days :- ReadInt(s);
    var rest :- Expect(days.1, "d ");
    var clock :- ParseClock(rest);
    Some(days.0 * SecondsPerDay + clock)
  }

  /** Reads `"{h}h {m}m {s}s"`, the part of the text after the days. */
  function ParseClock(s: string): Option<int> {
    var hours :- ReadField(s, "h ");
    var minutes :- ReadField(hours.1, "m ");
    var seconds :- ReadField(minutes.1, "s");
    if seconds.1 == [] then Some(hours.0 * SecondsPerHour + minutes.0 * SecondsPerMinute + seconds.0) else None
  }

  lemma {:induction false} DigitsOfNat(n: nat)
    ensures DigitsValue(NatToString(n)) == n
  {
    var s := NatToString(n);
    if n >= 10 {
      DigitsOfNat(n / 10);
      assert s[..|s| - 1] == NatToString(n / 10);
    }
  }

  lemma {:induction false} LeadingDigitsOfConcat(ds: string, rest: string)
    requires AllDigits(ds)
    requires rest == [] || !IsDigit(rest[0])
    ensures LeadingDigits(ds + rest) == |ds|
  {
    if ds != [] {
      assert (ds + rest)[1..] == ds[1..] + rest;
      LeadingDigitsOfConcat(ds[1..], rest);
    }
  }

  lemma ReadNatOf(n: nat, rest: string)
    requires rest == [] || !IsDigit(rest[0])
    ensures ReadNat(NatToString(n) + rest) == Some((n, rest))
  {
    var ds := NatToString(n);
    LeadingDigitsOfConcat(ds, rest);
    assert (ds + rest)[..|ds|] == ds;
    assert (ds + rest)[|ds|..] == rest;
    DigitsOfNat(n);
  }

  lemma ReadNegativeOf(n: nat, rest: string)
    requires rest == [] || !IsDigit(rest[0])
    ensures ReadInt("-" + NatToString(n) + rest) == Some((-(n as int), rest))
  {
    var s := "-" + NatToString(n) + rest;
    assert s[0] == '-';
    assert s[1..] == NatToString(n) + rest;
    ReadNatOf(n, rest);
  }

  lemma ReadIntOf(i: int, rest: string)
    requires rest == [] || !IsDigit(rest[0])
    ensures ReadInt(IntToString(i) + rest) == Some((i, rest))
  {
    if i < 0 {
      ReadNegativeOf(-i, rest);
    } else {
      var ds := NatToString(i);
      assert IsDigit((ds + rest)[0]);
      ReadNatOf(i, rest);
    }
  }

  lemma ExpectOf(lit: string, rest: string)
    ensures Expect(lit + rest, lit) == Some(rest)
  {
    assert (lit + rest)[..|lit|] == lit;
    assert (lit + rest)[|lit|..] == rest;
  }

  lemma ReadFieldOf(n: nat, unit: string, rest: string)
    requires |unit| > 0 && !IsDigit(unit[0])
    ensures ReadField(NatToString(n) + unit + rest, unit) == Some((n, rest))
  {
    assert NatToString(n) + unit + rest == NatToString(n) + (unit + rest);
    ReadNatOf(n, unit + rest);
    ExpectOf(unit, rest);
  }

  /** The stored text determines the elapsed time: reading it back gives the number of seconds. */
  lemma ParseFormat(elapsed: int)
    ensures Parse(Format(elapsed)) == Some(elapsed)
  {
    ParseText(Split(elapsed));
  }

  lemma ParseText(p: Parts)
    requires 0 <= p.hours && 0 <= p.minutes && 0 <= p.seconds
    ensures Parse(Text(p)) == Some(p.days * SecondsPerDay + p.hours * SecondsPerHour + p.minutes * SecondsPerMinute + p.seconds)
  {
    var t1 := Clock(p);
    ReadIntOf(p.days, "d " + t1);
    ExpectOf("d ", t1);
    ParseClockOf(p);
  }

  /** `"{hours}h {minutes}m {seconds}s"`, the text after the days. */
  function Clock(p: Parts): string
    requires 0 <= p.hours && 0 <= p.minutes && 0 <= p.seconds
  {
    NatToString(p.hours) + "h " + (NatToString(p.minutes) + "m " + (NatToString(p.seconds) + "s"))
  }

  lemma ReadLastFieldOf(n: nat, unit: string)
    requires |unit| > 0 && !IsDigit(unit[0])
    ensures ReadField(NatToString(n) + unit, unit) == Some((n, []))
  {
    assert NatToString(n) + unit == NatToString(n) + unit + [];
    ReadFieldOf(n, unit, []);
  }

  lemma ParseClockOf(p: Parts)
    requires 0 <= p.hours && 0 <= p.minutes && 0 <= p.seconds
    ensures ParseClock(Clock(p)) == Some(p.hours * SecondsPerHour + p.minutes * SecondsPerMinute + p.seconds)
  {
    var t3 := NatToString(p.seconds) + "s";
    var t2 := NatToString(p.minutes) + "m " + t3;
    ReadFieldOf(p.hours, "h ", t2);
    ReadFieldOf(p.minutes, "m ", t3);
    ReadLastFieldOf(p.seconds, "s");
  }

  /** Different elapsed times are stored as different texts. */
  lemma FormatInjective(e1: int, e2: int)
    requires Format(e1) == Format(e2)
    ensures e1 == e2
  {
    ParseFormat(e1);
    ParseFormat(e2);
  }

  /** The worked example: 90061 seconds is one day, one hour, one minute and one second. */
  lemma FormatExample()
    ensures Format(90061) == "1d 1h 1m 1s"
  {
    assert Split(90061) == Parts(1, 1, 1, 1);
    assert NatToString(1) == "1";
    assert IntToString(1) == "1";
  }

  /** A 25-hour outage reads as one day and one hour. */
  lemma FormatNotCalendarAware()
    ensures Format(25 * SecondsPerHour) == "1d 1h 0m 0s"
  {
    assert Split(90000) == Parts(1, 1, 0, 0);
    assert NatToString(1) == "1";
    assert NatToString(0) == "0";
  }

  /**
   * A start estimate one second in the future (clock skew between the database and the
   * host) gives days of -1 and a non-negative clock part, as `timedelta` normalises it.
   */
  lemma FormatNegative()
    ensures Format(-1) == "-1d 23h 59m 59s"
  {
    assert Split(-1) == Parts(-1, 23, 59, 59);
    assert NatToString(1) == "1";
    assert IntToString(-1) == "-1";
    assert NatToString(23) == "23";
    assert NatToString(59) == "59";
  }
}

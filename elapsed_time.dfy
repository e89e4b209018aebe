/** `formatDuration` of the dashboard's elapsed-time hook: a millisecond count
    shown as seconds, as minutes and seconds, or as hours and minutes. */
module ElapsedTime {
  import opened Text

  /** What a formatted duration says: its numbers and which of the three forms it has. */
  datatype Shown = Seconds(seconds: int) | MinutesSeconds(mins: nat, secs: nat) | HoursMinutes(hours: nat, mins: nat)

  /** When `shown` is a truthful reading of `ms`: the seconds form below one
      minute, rounded to the nearest second; the minutes form below one hour,
      whole minutes plus the remainder rounded to the nearest second; the hours
      form from one hour on, whole hours and whole minutes, seconds dropped. */
  ghost predicate Describes(shown: Shown, ms: int)
  {
    match shown
    case Seconds(s) =>
      ms < 60000 && 2000 * s - 1000 <= 2 * ms < 2000 * s + 1000
    case MinutesSeconds(m, s) =>
      1 <= m < 60 && m * 60000 <= ms < (m + 1) * 60000
      && 2000 * s - 1000 <= 2 * (ms - m * 60000) < 2000 * s + 1000
    case HoursMinutes(h, m) =>
      h >= 1 && m < 60 && (h * 60 + m) * 60000 <= ms < (h * 60 + m + 1) * 60000
  }

  /** Reads back a string of the three forms "Ns", "Nm Ss" and "Hh Mm". */
  function Parse(s: string): Option<Shown>
  {
    match TakeInt(s)
    case None => None
    case Some((a, rest)) =>
      if rest == "s" then Some(Seconds(a))
      else if a >= 0 && |rest| >= 2 && (rest[..2] == "m " || rest[..2] == "h ") then
        match TakeNat(rest[2..])
        case None => None
        case Some((b, tail)) =>
          if rest[..2] == "m " && tail == "s" then Some(MinutesSeconds(a, b))
          else if rest[..2] == "h " && tail == "m" then Some(HoursMinutes(a, b))
          else None
      else None
  }

  /** Formats a duration in milliseconds. */
  function FormatDuration(ms: int): (r: string)
    ensures Parse(r).Some? && Describes(Parse(r).value, ms)
  {
    if ms < 60000 then
      var secs := RoundHalfUp(ms, 1000);
      TakeIntRoundTrip(secs, "s");
      IntToString(secs) + "s"
    else
      var mins := ms / 60000;
      var secs := RoundHalfUp(ms % 60000, 1000);
      if mins < 60 then
        MinutesForm(ms, mins, secs);
        NatToString(mins) + "m " + NatToString(secs) + "s"
      else
        var hours := mins / 60;
        var remainMins := mins % 60;
        HoursForm(ms, mins, hours, remainMins);
        NatToString(hours) + "h " + NatToString(remainMins) + "m"
  }

  lemma MinutesForm(ms: int, mins: int, secs: int)
    requires 60000 <= ms && mins == ms / 60000 && mins < 60
    requires secs == RoundHalfUp(ms % 60000, 1000)
    ensures mins >= 1 && secs >= 0
    ensures Describes(MinutesSeconds(mins, secs), ms)
    ensures Parse(NatToString(mins) + "m " + NatToString(secs) + "s") == Some(MinutesSeconds(mins, secs))
  {
    assert ms == mins * 60000 + ms % 60000;
    ReadPair(mins, 'm', secs, 's');
    var rest := "m " + NatToString(secs) + "s";
    assert rest[..2] == "m " && rest[2..] == NatToString(secs) + "s";
    assert NatToString(mins) + "m " + NatToString(secs) + "s" == NatToString(mins) + ['m', ' '] + NatToString(secs) + ['s'];
  }

  lemma HoursForm(ms: int, mins: int, hours: int, remainMins: int)
    requires 60000 <= ms && mins == ms / 60000 && mins >= 60
    requires hours == mins / 60 && remainMins == mins % 60
    ensures hours >= 1 && 0 <= remainMins < 60
    ensures Describes(HoursMinutes(hours, remainMins), ms)
    ensures Parse(NatToString(hours) + "h " + NatToString(remainMins) + "m") == Some(HoursMinutes(hours, remainMins))
  {
    assert ms == mins * 60000 + ms % 60000;
    assert mins == hours * 60 + remainMins;
    ReadPair(hours, 'h', remainMins, 'm');
    var rest := "h " + NatToString(remainMins) + "m";
    assert rest[..2] == "h " && rest[2..] == NatToString(remainMins) + "m";
    assert NatToString(hours) + "h " + NatToString(remainMins) + "m" == NatToString(hours) + ['h', ' '] + NatToString(remainMins) + ['m'];
  }

  lemma ReadPair(a: nat, unitA: char, b: nat, unitB: char)
    requires !IsDigit(unitA) && !IsDigit(unitB)
    ensures
      var s := NatToString(a) + [unitA, ' '] + NatToString(b) + [unitB];
      TakeInt(s) == Some((a as int, [unitA, ' '] + NatToString(b) + [unitB]))
      && TakeNat(NatToString(b) + [unitB]) == Some((b, [unitB]))
  {
    var tail := [unitA, ' '] + NatToString(b) + [unitB];
    TakeIntOfNat(a, tail);
    assert NatToString(a) + [unitA, ' '] + NatToString(b) + [unitB] == NatToString(a) + tail;
    TakeNatRoundTrip(b, [unitB]);
  }

  /** At most one reading describes a duration. */
  lemma DescribesUnique(x: Shown, y: Shown, ms: int)
    requires Describes(x, ms) && Describes(y, ms)
    ensures x == y
  {
    match x
    case Seconds(s) =>
      RoundHalfUpUnique(ms, 1000, s);
      RoundHalfUpUnique(ms, 1000, y.seconds);
    case MinutesSeconds(m, s) =>
      assert y.MinutesSeconds?;
      StepUnique(m, y.mins, 60000, ms);
      RoundHalfUpUnique(ms - m * 60000, 1000, s);
      RoundHalfUpUnique(ms - m * 60000, 1000, y.secs);
    case HoursMinutes(h, m) =>
      assert y.HoursMinutes?;
      StepUnique(h * 60 + m, y.hours * 60 + y.mins, 60000, ms);
      QuotRemUnique(h, m, y.hours, y.mins, 60);
  }

  /** A number, a two-character separator and a second number, each spelled canonically. */
  lemma TwoNumberSpelling(s: string, a: int, rest: string, b: nat, tail: string)
    requires TakeInt(s) == Some((a, rest)) && a >= 0 && |rest| >= 2
    requires TakeNat(rest[2..]) == Some((b, tail))
    ensures s == NatToString(a) + rest[..2] + NatToString(b) + tail
  {
    TakeIntCanonical(s, a, rest);
    TakeNatCanonical(rest[2..], b, tail);
    RegroupAfterTwo(s, IntToString(a), rest, NatToString(b), tail);
  }

  /** Parse accepts one spelling per reading: the numbers as NatToString
      (or IntToString) writes them, in the form's fixed frame. */
  lemma ParseSpelling(s: string)
    requires Parse(s).Some?
    ensures match Parse(s).value
      case Seconds(a) => s == IntToString(a) + "s"
      case MinutesSeconds(a, b) => s == NatToString(a) + "m " + NatToString(b) + "s"
      case HoursMinutes(a, b) => s == NatToString(a) + "h " + NatToString(b) + "m"
  {
    var (a, rest) := TakeInt(s).value;
    if rest == "s" {
      TakeIntCanonical(s, a, rest);
    } else {
      var (b, tail) := TakeNat(rest[2..]).value;
      TwoNumberSpelling(s, a, rest, b, tail);
    }
  }

  /** Two strings with the same reading are the same string. */
  lemma ParseInjective(s1: string, s2: string)
    requires Parse(s1).Some? && Parse(s1) == Parse(s2)
    ensures s1 == s2
  {
    ParseSpelling(s1);
    ParseSpelling(s2);
  }

  /** The contract of FormatDuration fixes its output: any string that reads
      back as a true description of `ms` is the formatted one. */
  lemma OutputDetermined(ms: int, r: string)
    requires Parse(r).Some? && Describes(Parse(r).value, ms)
    ensures r == FormatDuration(ms)
  {
    var f := FormatDuration(ms);
    DescribesUnique(Parse(r).value, Parse(f).value, ms);
    ParseInjective(r, f);
  }

  /** In the minutes form the seconds lie in 0..60; 60 appears when the
      remainder rounds up (119500 ms reads "1m 60s"). */
  lemma MinutesFormSeconds(ms: int)
    requires 60000 <= ms < 3600000
    ensures Parse(FormatDuration(ms)).value.MinutesSeconds?
    ensures Parse(FormatDuration(ms)).value.secs <= 60
  {
  }

  lemma SixtySecondsReachable()
    ensures FormatDuration(119500) == "1m 60s"
  {
  }

  /** Which of the three forms is shown depends only on the thresholds of one
      minute and one hour. */
  lemma FormByThreshold(ms: int)
    ensures Parse(FormatDuration(ms)).value.Seconds? <==> ms < 60000
    ensures Parse(FormatDuration(ms)).value.MinutesSeconds? <==> 60000 <= ms < 3600000
    ensures Parse(FormatDuration(ms)).value.HoursMinutes? <==> 3600000 <= ms
  {
  }

  lemma SecondsExamples()
    ensures FormatDuration(0) == "0s"
    ensures FormatDuration(1499) == "1s"
    ensures FormatDuration(1500) == "2s"
    ensures FormatDuration(59999) == "60s"
  {
    ZeroSeconds();
    RoundedSeconds();
    SixtySeconds();
  }

  lemma ZeroSeconds()
    ensures FormatDuration(0) == "0s"
  {
    assert RoundHalfUp(0, 1000) == 0;
    assert IntToString(0) == "0";
  }

  lemma RoundedSeconds()
    ensures FormatDuration(1499) == "1s"
    ensures FormatDuration(1500) == "2s"
  {
    assert RoundHalfUp(1499, 1000) == 1 && RoundHalfUp(1500, 1000) == 2;
    assert IntToString(1) == "1" && IntToString(2) == "2";
  }

  lemma SixtySeconds()
    ensures FormatDuration(59999) == "60s"
  {
    assert RoundHalfUp(59999, 1000) == 60;
    assert NatToString(60) == "60";
    assert IntToString(60) == "60";
  }

  lemma MinutesExamples()
    ensures FormatDuration(60000) == "1m 0s"
    ensures FormatDuration(90000) == "1m 30s"
    ensures FormatDuration(59 * 60000 + 59000) == "59m 59s"
  {
    OneMinute();
    NinetySeconds();
    AlmostAnHour();
  }

  lemma OneMinute()
    ensures FormatDuration(60000) == "1m 0s"
  {
    assert RoundHalfUp(0, 1000) == 0;
    assert NatToString(1) + "m " + NatToString(0) + "s" == "1m 0s";
  }

  lemma NinetySeconds()
    ensures FormatDuration(90000) == "1m 30s"
  {
    assert 90000 % 60000 == 30000 && RoundHalfUp(30000, 1000) == 30;
    assert NatToString(30) == "30";
    assert NatToString(1) + "m " + NatToString(30) + "s" == "1m 30s";
  }

  lemma AlmostAnHour()
    ensures FormatDuration(59 * 60000 + 59000) == "59m 59s"
  {
    assert (59 * 60000 + 59000) / 60000 == 59 && (59 * 60000 + 59000) % 60000 == 59000;
    assert RoundHalfUp(59000, 1000) == 59;
    assert NatToString(59) == "59";
    assert NatToString(59) + "m " + NatToString(59) + "s" == "59m 59s";
  }

  lemma HoursExamples()
    ensures FormatDuration(60 * 60000) == "1h 0m"
    ensures FormatDuration(10 * 60 * 60000 + 45 * 60000) == "10h 45m"
    ensures FormatDuration(24 * 60 * 60000) == "24h 0m"
  {
    OneHour();
    TenHoursFortyFive();
    OneDay();
  }

  lemma OneHour()
    ensures FormatDuration(60 * 60000) == "1h 0m"
  {
    assert (60 * 60000) / 60000 == 60 && 60 / 60 == 1 && 60 % 60 == 0;
    assert NatToString(1) + "h " + NatToString(0) + "m" == "1h 0m";
  }

  lemma TenHoursFortyFive()
    ensures FormatDuration(10 * 60 * 60000 + 45 * 60000) == "10h 45m"
  {
    assert (10 * 60 * 60000 + 45 * 60000) / 60000 == 645;
    assert 645 / 60 == 10 && 645 % 60 == 45;
    assert NatToString(10) == "10" && NatToString(45) == "45";
    assert NatToString(10) + "h " + NatToString(45) + "m" == "10h 45m";
  }

  lemma OneDay()
    ensures FormatDuration(24 * 60 * 60000) == "24h 0m"
  {
    assert (24 * 60 * 60000) / 60000 == 1440;
    assert 1440 / 60 == 24 && 1440 % 60 == 0;
    assert NatToString(24) == "24";
    assert NatToString(24) + "h " + NatToString(0) + "m" == "24h 0m";
  }
}

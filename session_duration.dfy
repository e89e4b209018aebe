/** `formatSessionDuration` of the status-line entry point: the time since the
    transcript's session started, in whole minutes or hours and minutes.
    The clock reading is an input: `elapsed` is `Date.now()` minus the session
    start, or None when the transcript has no session start. */
module SessionDuration {
  import opened Text

  /** What a formatted session duration says. */
  datatype Shown = NoSession | UnderAMinute | Minutes(mins: nat) | HoursMinutes(hours: nat, remainder: nat)

  /** When `shown` is a truthful reading of `elapsed` milliseconds: nothing
      without a session, "<1m" below one whole minute (negative readings
      included), whole minutes below one hour, else whole hours and minutes. */
  ghost predicate Describes(shown: Shown, elapsed: Option<int>)
  {
    match shown
    case NoSession => elapsed.None?
    case UnderAMinute => elapsed.Some? && elapsed.value < 60000
    case Minutes(m) =>
      elapsed.Some? && 1 <= m < 60 && m * 60000 <= elapsed.value < (m + 1) * 60000
    case HoursMinutes(h, m) =>
      elapsed.Some? && h >= 1 && m < 60
      && (h * 60 + m) * 60000 <= elapsed.value < (h * 60 + m + 1) * 60000
  }

  /** Reads back the four forms "", "<1m", "Nm" and "Hh Mm". */
  function Parse(s: string): Option<Shown>
  {
    if s == "" then Some(NoSession)
    else if s == "<1m" then Some(UnderAMinute)
    else
      match TakeNat(s)
      case None => None
      case Some((a, rest)) =>
        if rest == "m" then Some(Minutes(a))
        else if |rest| >= 2 && rest[..2] == "h " then
          match TakeNat(rest[2..])
          case Some((b, tail)) => if tail == "m" then Some(HoursMinutes(a, b)) else None
          case None => None
        else None
  }

  function FormatSessionDuration(elapsed: Option<int>): (r: string)
    ensures Parse(r).Some? && Describes(Parse(r).value, elapsed)
  {
    match elapsed
    case None => ""
    case Some(ms) =>
      var mins := ms / 60000;
      if mins < 1 then "<1m"
      else if mins < 60 then
        MinutesForm(ms, mins);
        NatToString(mins) + "m"
      else
        var hours := mins / 60;
        var remainingMins := mins % 60;
        HoursForm(ms, mins, hours, remainingMins);
        NatToString(hours) + "h " + NatToString(remainingMins) + "m"
  }

  lemma MinutesForm(ms: int, mins: int)
    requires mins == ms / 60000 && 1 <= mins < 60
    ensures Describes(Minutes(mins), Some(ms))
    ensures Parse(NatToString(mins) + "m") == Some(Minutes(mins))
  {
    assert ms == mins * 60000 + ms % 60000;
    TakeNatRoundTrip(mins, "m");
    var s := NatToString(mins) + "m";
    assert s != "" && s != "<1m" by {
      assert s[0] == NatToString(mins)[0];
    }
  }

  lemma HoursForm(ms: int, mins: int, hours: int, remainingMins: int)
    requires mins == ms / 60000 && mins >= 60
    requires hours == mins / 60 && remainingMins == mins % 60
    ensures hours >= 1 && 0 <= remainingMins < 60
    ensures Describes(HoursMinutes(hours, remainingMins), Some(ms))
    ensures Parse(NatToString(hours) + "h " + NatToString(remainingMins) + "m")
            == Some(HoursMinutes(hours, remainingMins))
  {
    assert ms == mins * 60000 + ms % 60000;
    assert mins == hours * 60 + remainingMins;
    HoursText(hours, remainingMins);
  }

  /** "Hh Mm" reads back as its two numbers. */
  lemma HoursText(hours: nat, remainingMins: nat)
    ensures Parse(NatToString(hours) + "h " + NatToString(remainingMins) + "m")
            == Some(HoursMinutes(hours, remainingMins))
  {
    var tail := "h " + NatToString(remainingMins) + "m";
    TakeNatRoundTrip(hours, tail);
    TakeNatRoundTrip(remainingMins, "m");
    var s := NatToString(hours) + "h " + NatToString(remainingMins) + "m";
    assert s == NatToString(hours) + tail;
    assert tail[..2] == "h " && tail[2..] == NatToString(remainingMins) + "m";
    assert s != "" && s != "<1m" by {
      assert s[0] == NatToString(hours)[0];
    }
  }

  /** The hours form splits the whole minutes exactly: H * 60 + M is the minute count. */
  lemma HoursSplitMinutes(ms: int)
    requires ms >= 3600000
    ensures Parse(FormatSessionDuration(Some(ms))).value.HoursMinutes?
    ensures var shown := Parse(FormatSessionDuration(Some(ms))).value;
            shown.hours * 60 + shown.remainder == ms / 60000 && shown.remainder < 60
  {
    var shown := Parse(FormatSessionDuration(Some(ms))).value;
    var q := ms / 60000;
    assert q * 60000 <= ms < (q + 1) * 60000;
    var k := shown.hours * 60 + shown.remainder;
    assert k * 60000 <= ms < (k + 1) * 60000;
    var x := k - q;
    assert -60000 < x * 60000 < 60000;
    MulBeyondOne(x, 60000);
  }

  /** At most one reading describes an elapsed time. */
  lemma DescribesUnique(x: Shown, y: Shown, elapsed: Option<int>)
    requires Describes(x, elapsed) && Describes(y, elapsed)
    ensures x == y
  {
    match x
    case NoSession =>
    case UnderAMinute =>
    case Minutes(m) =>
      assert y.Minutes?;
      StepUnique(m, y.mins, 60000, elapsed.value);
    case HoursMinutes(h, m) =>
      assert y.HoursMinutes?;
      StepUnique(h * 60 + m, y.hours * 60 + y.remainder, 60000, elapsed.value);
      QuotRemUnique(h, m, y.hours, y.remainder, 60);
  }

  /** Hours, a space and minutes, each spelled canonically. */
  lemma TwoNumberSpelling(s: string, a: nat, rest: string, b: nat, tail: string)
    requires TakeNat(s) == Some((a, rest)) && |rest| >= 2
    requires TakeNat(rest[2..]) == Some((b, tail))
    ensures s == NatToString(a) + rest[..2] + NatToString(b) + tail
  {
    TakeNatCanonical(s, a, rest);
    TakeNatCanonical(rest[2..], b, tail);
    RegroupAfterTwo(s, NatToString(a), rest, NatToString(b), tail);
  }

  /** Parse accepts one spelling per reading. */
  lemma ParseSpelling(s: string)
    requires Parse(s).Some?
    ensures match Parse(s).value
      case NoSession => s == ""
      case UnderAMinute => s == "<1m"
      case Minutes(a) => s == NatToString(a) + "m"
      case HoursMinutes(a, b) => s == NatToString(a) + "h " + NatToString(b) + "m"
  {
    if s != "" && s != "<1m" {
      var (a, rest) := TakeNat(s).value;
      if rest == "m" {
        TakeNatCanonical(s, a, rest);
      } else {
        var (b, tail) := TakeNat(rest[2..]).value;
        TwoNumberSpelling(s, a, rest, b, tail);
      }
    }
  }

  /** Two strings with the same reading are the same string: the argument
      of ElapsedTime.ParseInjective, over this module's Parse. */
  lemma ParseInjective(s1: string, s2: string)
    requires Parse(s1).Some? && Parse(s1) == Parse(s2)
    ensures s1 == s2
  {
    ParseSpelling(s1);
    ParseSpelling(s2);
  }

  /** The contract of FormatSessionDuration fixes its output: any string that
      reads back as a true description of `elapsed` is the formatted one. */
  lemma OutputDetermined(elapsed: Option<int>, r: string)
    requires Parse(r).Some? && Describes(Parse(r).value, elapsed)
    ensures r == FormatSessionDuration(elapsed)
  {
    var f := FormatSessionDuration(elapsed);
    DescribesUnique(Parse(r).value, Parse(f).value, elapsed);
    ParseInjective(r, f);
  }

  lemma Examples()
    ensures FormatSessionDuration(None) == ""
    ensures FormatSessionDuration(Some(-5000)) == "<1m"
    ensures FormatSessionDuration(Some(59999)) == "<1m"
    ensures FormatSessionDuration(Some(60000)) == "1m"
  {
    assert NatToString(1) + "m" == "1m";
  }
}

/** The plan-usage reader of the dashboard: a scanner over the text printed by
    the `/usage` command, which finds the session and weekly percentages and
    reset times, and a cache in front of the fetch that refetches at most once
    a minute and never runs two fetches at once. Spawning the command and the
    clock are not part of this model: a fetch result and `now` are inputs. */
module Usage {
  import opened Text

  /** What a successful parse yields; the weekly fields may be missing. */
  datatype UsageData = UsageData(
    sessionPercent: nat,
    sessionResetTime: string,
    weekPercent: Option<nat>,
    weekResetTime: Option<string>)

  // ---------------------------------------------------------------------
  // Unanchored search: String.prototype.match without the global flag

  /** The first starting position, left to right and the end of the line
      included, at which the anchored matcher `at` succeeds. */
  function FirstMatch<T>(at: string -> Option<T>, line: string): Option<T>
    decreases |line|
  {
    if at(line).Some? then at(line)
    else if line == [] then None
    else FirstMatch(at, line[1..])
  }

  lemma {:induction false} FirstMatchLeftmost<T>(at: string -> Option<T>, line: string)
    ensures FirstMatch(at, line).None? <==> forall i :: 0 <= i <= |line| ==> at(line[i..]).None?
    ensures FirstMatch(at, line).Some? ==>
      exists i :: 0 <= i <= |line| && at(line[i..]) == FirstMatch(at, line) &&
        forall j :: 0 <= j < i ==> at(line[j..]).None?
    decreases |line|
  {
    assert line[0..] == line;
    if at(line).None? {
      if line == [] {
        assert forall i :: 0 <= i <= |line| ==> line[i..] == line;
      } else {
        FirstMatchLeftmost(at, line[1..]);
        forall i | 1 <= i <= |line|
          ensures at(line[i..]) == at(line[1..][i - 1..])
        {
          assert line[i..] == line[1..][i - 1..];
        }
        if FirstMatch(at, line).Some? {
          var i :| 0 <= i <= |line| - 1 && at(line[1..][i..]) == FirstMatch(at, line) &&
            forall j :: 0 <= j < i ==> at(line[1..][j..]).None?;
          assert at(line[i + 1..]) == FirstMatch(at, line);
        }
      }
    }
  }

  // ---------------------------------------------------------------------
  // The regular expression /(\d+)%\s*used/

  /** The match of `(\d+)%\s*used` starting exactly at `s[0]`, if any, with
      the value of its digit group. Backing the greedy `\d+` or `\s*` off
      never helps: a shorter run leaves a digit where `%` is needed or a space
      where `u` is needed. */
  function PercentAt(s: string): Option<nat>
  {
    var k := DigitRun(s);
    if k == 0 || k >= |s| || s[k] != '%' then None
    else
      var after := s[k + 1..];
      if StartsWith(after[LeadingSpace(after)..], "used") then Some(DecimalValue(s[..k])) else None
  }

  /** `line.match(/(\d+)%\s*used/)` followed by `parseInt` of the group: the
      leftmost match. */
  function PercentMatch(line: string): Option<nat>
    decreases |line|
  {
    if line == [] then None
    else if PercentAt(line).Some? then PercentAt(line)
    else PercentMatch(line[1..])
  }

  /** PercentMatch is the leftmost match: it fails exactly when no position
      starts a match, and otherwise comes from a position before which none does. */
  lemma PercentMatchLeftmost(line: string)
    ensures PercentMatch(line).None? <==> forall i :: 0 <= i <= |line| ==> PercentAt(line[i..]).None?
    ensures PercentMatch(line).Some? ==>
      exists i :: 0 <= i <= |line| && PercentAt(line[i..]) == PercentMatch(line) &&
        forall j :: 0 <= j < i ==> PercentAt(line[j..]).None?
  {
    PercentMatchIsFirst(line);
    FirstMatchLeftmost(PercentAt, line);
  }

  lemma {:induction false} PercentMatchIsFirst(line: string)
    ensures PercentMatch(line) == FirstMatch(PercentAt, line)
    decreases |line|
  {
    if line != [] {
      PercentMatchIsFirst(line[1..]);
    }
  }

  // ---------------------------------------------------------------------
  // The regular expression /Resets?\s+(.+?)(?:\s*\(|$)/

  /** `\s*\(` matches at the start of `s`. */
  predicate OpenParenAfterSpace(s: string)
  {
    var w := LeadingSpace(s);
    w < |s| && s[w] == '('
  }

  /** The lazy group `(.+?)` followed by `(?:\s*\(|$)`, trying the group
      lengths `c`, `c + 1`, ... in turn; the group cannot cross a line
      terminator, and `$` (no multiline flag) is the end of the input. */
  function LazyCapture(s: string, c: nat): Option<string>
    requires c >= 1
    decreases |s| - c
  {
    if c > |s| || IsLineTerminator(s[c - 1]) then None
    else if OpenParenAfterSpace(s[c..]) || c == |s| then Some(s[..c])
    else LazyCapture(s, c + 1)
  }

  /** `\s+` followed by the group: the greedy whitespace run is tried at its
      full length `w` first, then one character shorter, down to one. */
  function SpaceThenCapture(t: string, w: nat): Option<string>
    requires w <= LeadingSpace(t)
  {
    if w == 0 then None
    else if LazyCapture(t[w..], 1).Some? then LazyCapture(t[w..], 1)
    else SpaceThenCapture(t, w - 1)
  }

  /** The match of the reset expression starting exactly at `s[0]`: the
      optional `s` of `Resets?` is taken first and dropped only when that fails. */
  function ResetAt(s: string): Option<string>
  {
    if !StartsWith(s, "Reset") then None
    else
      var withS := if |s| > 5 && s[5] == 's' then SpaceThenCapture(s[6..], LeadingSpace(s[6..])) else None;
      if withS.Some? then withS else SpaceThenCapture(s[5..], LeadingSpace(s[5..]))
  }

  /** `line.match(/Resets?\s+(.+?)(?:\s*\(|$)/)`: the group of the leftmost match. */
  function ResetMatch(line: string): Option<string>
    decreases |line|
  {
    if ResetAt(line).Some? then ResetAt(line)
    else if line == [] then None
    else ResetMatch(line[1..])
  }

  /** ResetMatch is the leftmost match, the end of the line included as a
      starting position. */
  lemma ResetMatchLeftmost(line: string)
    ensures ResetMatch(line).None? <==> forall i :: 0 <= i <= |line| ==> ResetAt(line[i..]).None?
    ensures ResetMatch(line).Some? ==>
      exists i :: 0 <= i <= |line| && ResetAt(line[i..]) == ResetMatch(line) &&
        forall j :: 0 <= j < i ==> ResetAt(line[j..]).None?
  {
    ResetMatchIsFirst(line);
    FirstMatchLeftmost(ResetAt, line);
  }

  lemma {:induction false} ResetMatchIsFirst(line: string)
    ensures ResetMatch(line) == FirstMatch(ResetAt, line)
    decreases |line|
  {
    if line != [] {
      ResetMatchIsFirst(line[1..]);
    }
  }

  /** A line holding a numeral, a percent sign and the word "used" yields the numeral's value. */
  lemma PercentMatchNumeral(n: nat, rest: string)
    ensures PercentMatch(NatToString(n) + "% used" + rest) == Some(n)
  {
    var ds := NatToString(n);
    var s := ds + "% used" + rest;
    DigitRunOfNumeral(ds, "% used" + rest);
    assert s == ds + ("% used" + rest);
    assert s[..|ds|] == ds;
    assert s[|ds|] == '%';
    var after := s[|ds| + 1..];
    assert after == " used" + rest;
    assert LeadingSpace(after) == 1 by {
      assert IsJsWhitespace(after[0]) && !IsJsWhitespace(after[1]);
    }
    assert after[1..][..4] == "used";
  }

  /** A line without a percent sign never matches. */
  lemma {:induction false} NoPercentSign(line: string)
    requires '%' !in line
    ensures PercentMatch(line) == None
    decreases |line|
  {
    if line != [] {
      var k := DigitRun(line);
      assert k < |line| ==> line[k] != '%';
      NoPercentSign(line[1..]);
    }
  }

  /** A line without the letter `R` never matches the reset expression. */
  lemma {:induction false} NoResetWord(line: string)
    requires 'R' !in line
    ensures ResetMatch(line) == None
    decreases |line|
  {
    if line != [] {
      assert line[0] != 'R';
      NoResetWord(line[1..]);
    }
  }

  /** A reset time that starts and ends with a visible character, holds no
      parenthesis and no line break, and is followed by a space and a
      parenthesis, is captured whole. */
  lemma ResetLine(t: string, rest: string)
    requires t != [] && !IsJsWhitespace(t[0]) && !IsJsWhitespace(t[|t| - 1])
    requires '(' !in t
    requires forall i :: 0 <= i < |t| ==> !IsLineTerminator(t[i])
    ensures ResetMatch("Resets " + t + " (" + rest) == Some(t)
    ensures Trim(t) == t
  {
    var s := "Resets " + t + " (" + rest;
    var u := s[6..];
    assert u == " " + t + " (" + rest;
    assert LeadingSpace(u) == 1 by {
      assert IsJsWhitespace(u[0]) && u[1] == t[0];
    }
    var v := t + " (" + rest;
    assert u[1..] == v;
    CaptureRuns(v, t, rest, 1);
    assert s[..5] == "Reset" && s[5] == 's';
    TrimVisible(t);
  }

  lemma {:induction false} CaptureRuns(v: string, t: string, rest: string, c: nat)
    requires v == t + " (" + rest
    requires t != [] && !IsJsWhitespace(t[|t| - 1])
    requires '(' !in t
    requires forall i :: 0 <= i < |t| ==> !IsLineTerminator(t[i])
    requires 1 <= c <= |t|
    ensures LazyCapture(v, c) == Some(t)
    decreases |t| - c
  {
    assert v[c - 1] == t[c - 1];
    if c == |t| {
      assert v[c..] == " (" + rest;
      assert LeadingSpace(v[c..]) == 1 by {
        assert IsJsWhitespace(v[c..][0]) && !IsJsWhitespace(v[c..][1]);
      }
      assert v[..c] == t;
    } else {
      var tail := v[c..];
      var w := LeadingSpace(tail);
      assert tail[|t| - 1 - c] == t[|t| - 1];
      assert w <= |t| - 1 - c;
      assert tail[w] == t[c + w];
      CaptureRuns(v, t, rest, c + 1);
    }
  }

  lemma TrimVisible(t: string)
    requires t != [] && !IsJsWhitespace(t[0]) && !IsJsWhitespace(t[|t| - 1])
    ensures Trim(t) == t
  {
    assert LeadingSpace(t) == 0;
    assert t[0..] == t;
    assert TrailingSpace(t) == 0;
  }

  /** A needle whose first character is absent from the haystack does not occur in it. */
  lemma {:induction false} NotContainedWithoutFirst(haystack: string, needle: string)
    requires needle != [] && needle[0] !in haystack
    ensures !Contains(haystack, needle)
    decreases |haystack|
  {
    if |needle| <= |haystack| {
      assert haystack[0] != needle[0];
      NotContainedWithoutFirst(haystack[1..], needle);
    }
  }

  // ---------------------------------------------------------------------
  // The line scanner of parseOutput

  /** The loop variables of the scanner. */
  datatype ScanState = ScanState(
    inSession: bool,
    inWeek: bool,
    sessionPercent: nat,
    sessionResetTime: string,
    weekPercent: Option<nat>,
    weekResetTime: Option<string>)

  const Initial: ScanState := ScanState(false, false, 0, "", None, None)

  const SESSION_HEADER: string := "Current session"
  const WEEK_HEADER: string := "Current week"

  /** `!weekResetTime`: still missing, or the empty string. */
  predicate WeekResetMissing(st: ScanState)
  {
    st.weekResetTime.None? || st.weekResetTime.value == ""
  }

  /** One iteration of the scanner's loop. */
  function ScanLine(st: ScanState, line: string): ScanState
  {
    if Contains(line, SESSION_HEADER) then st.(inSession := true, inWeek := false)
    else if Contains(line, WEEK_HEADER) then st.(inSession := false, inWeek := true)
    else ScanMatches(st, PercentMatch(line), ResetMatch(line))
  }

  /** The rest of one iteration, on a line with neither header, once the two
      expressions have found `percentMatch` and `resetMatch`. */
  function ScanMatches(st: ScanState, percentMatch: Option<nat>, resetMatch: Option<string>): ScanState
  {
    var st1 := if st.inSession && percentMatch.Some? then st.(sessionPercent := percentMatch.value, inSession := false) else st;
    var st2 := if st1.inSession && resetMatch.Some? then st1.(sessionResetTime := Trim(resetMatch.value)) else st1;
    var st3 := if st2.inWeek && percentMatch.Some? && st2.weekPercent.None? then st2.(weekPercent := percentMatch) else st2;
    if st3.inWeek && resetMatch.Some? && WeekResetMissing(st3) then
      st3.(weekResetTime := Some(Trim(resetMatch.value)), inWeek := false)
    else st3
  }

  /** The scanner after the lines `lines`, one iteration per line in order. */
  function ScanLines(st: ScanState, lines: seq<string>): ScanState
  {
    if lines == [] then st else ScanLine(ScanLines(st, lines[..|lines| - 1]), lines[|lines| - 1])
  }

  /** The result: present only when a session percentage above zero or a
      non-empty session reset time was found. */
  function Finish(st: ScanState): Option<UsageData>
  {
    if st.sessionPercent > 0 || st.sessionResetTime != "" then
      Some(UsageData(st.sessionPercent, st.sessionResetTime, st.weekPercent, st.weekResetTime))
    else None
  }

  /** What `parseOutput` yields for `output`. */
  function ParseUsage(output: string): Option<UsageData>
  {
    Finish(ScanLines(Initial, Split(output, '\n')))
  }

  /** `parseOutput`: splits the output into lines and scans them in order. */
  method ParseOutput(output: string) returns (r: Option<UsageData>)
    ensures r == ParseUsage(output)
    ensures r.Some? ==> r.value.sessionPercent > 0 || r.value.sessionResetTime != ""
  {
    var lines := Split(output, '\n');
    var sessionPercent: nat := 0;
    var sessionResetTime := "";
    var weekPercent: Option<nat> := None;
    var weekResetTime: Option<string> := None;
    var inSession := false;
    var inWeek := false;
    var i := 0;
    while i < |lines|
      invariant 0 <= i <= |lines|
      invariant ScanLines(Initial, lines[..i])
                == ScanState(inSession, inWeek, sessionPercent, sessionResetTime, weekPercent, weekResetTime)
    {
      ghost var before := ScanState(inSession, inWeek, sessionPercent, sessionResetTime, weekPercent, weekResetTime);
      var line := lines[i];
      ScanStep(Initial, lines, i);
      if Contains(line, SESSION_HEADER) {
        inSession := true;
        inWeek := false;
      } else if Contains(line, WEEK_HEADER) {
        inSession := false;
        inWeek := true;
      } else {
        var percentMatch := PercentMatch(line);
        var resetMatch := ResetMatch(line);
        if inSession && percentMatch.Some? {
          sessionPercent := percentMatch.value;
          inSession := false;
        }
        ghost var st1 := ScanState(inSession, inWeek, sessionPercent, sessionResetTime, weekPercent, weekResetTime);
        assert st1 == if before.inSession && percentMatch.Some? then before.(sessionPercent := percentMatch.value, inSession := false) else before;
        if inSession && resetMatch.Some? {
          sessionResetTime := Trim(resetMatch.value);
        }
        ghost var st2 := ScanState(inSession, inWeek, sessionPercent, sessionResetTime, weekPercent, weekResetTime);
        assert st2 == if st1.inSession && resetMatch.Some? then st1.(sessionResetTime := Trim(resetMatch.value)) else st1;
        if inWeek && percentMatch.Some? && weekPercent.None? {
          weekPercent := percentMatch;
        }
        assert ScanState(inSession, inWeek, sessionPercent, sessionResetTime, weekPercent, weekResetTime)
               == if st2.inWeek && percentMatch.Some? && st2.weekPercent.None? then st2.(weekPercent := percentMatch) else st2;
        if inWeek && resetMatch.Some? && (weekResetTime.None? || weekResetTime.value == "") {
          weekResetTime := Some(Trim(resetMatch.value));
          inWeek := false;
        }
      }
      assert ScanState(inSession, inWeek, sessionPercent, sessionResetTime, weekPercent, weekResetTime)
             == ScanLine(before, line);
      i := i + 1;
    }
    assert lines[..i] == lines;
    if sessionPercent > 0 || sessionResetTime != "" {
      return Some(UsageData(sessionPercent, sessionResetTime, weekPercent, weekResetTime));
    }
    return None;
  }

  /** A line with neither header never opens a section, and outside both
      sections it changes nothing: only header lines start collecting. */
  lemma ScanLineOutsideSections(st: ScanState, line: string)
    requires !Contains(line, SESSION_HEADER) && !Contains(line, WEEK_HEADER)
    ensures ScanLine(st, line).inSession ==> st.inSession
    ensures ScanLine(st, line).inWeek ==> st.inWeek
    ensures !st.inSession && !st.inWeek ==> ScanLine(st, line) == st
  {
  }

  /** A header line only switches the sections; it contributes no data. */
  lemma HeaderOnlyToggles(st: ScanState, line: string)
    ensures Contains(line, SESSION_HEADER) ==>
      ScanLine(st, line) == st.(inSession := true, inWeek := false)
    ensures !Contains(line, SESSION_HEADER) && Contains(line, WEEK_HEADER) ==>
      ScanLine(st, line) == st.(inSession := false, inWeek := true)
  {
  }

  /** The scanner is never in both sections at once. */
  lemma {:induction false} SectionsExclusive(lines: seq<string>)
    ensures !(ScanLines(Initial, lines).inSession && ScanLines(Initial, lines).inWeek)
  {
    if lines != [] {
      SectionsExclusive(lines[..|lines| - 1]);
    }
  }

  /** In the session section, the first percentage is kept and ends the
      section; a reset time on that same line is not read. */
  lemma SessionPercentEndsSection(st: ScanState, line: string)
    requires st.inSession && !st.inWeek
    requires !Contains(line, SESSION_HEADER) && !Contains(line, WEEK_HEADER)
    requires PercentMatch(line).Some?
    ensures ScanLine(st, line) == st.(sessionPercent := PercentMatch(line).value, inSession := false)
  {
  }

  /** In the session section, a reset time before the percentage replaces the
      one read so far. */
  lemma SessionResetOverwrites(st: ScanState, line: string)
    requires st.inSession && !st.inWeek
    requires !Contains(line, SESSION_HEADER) && !Contains(line, WEEK_HEADER)
    requires PercentMatch(line).None? && ResetMatch(line).Some?
    ensures ScanLine(st, line) == st.(sessionResetTime := Trim(ResetMatch(line).value))
  {
  }

  /** Outside the session section, lines without the session header leave
      the session data alone: later reset lines are ignored. */
  lemma {:induction false} SessionClosed(st: ScanState, lines: seq<string>)
    requires !st.inSession
    requires forall k :: 0 <= k < |lines| ==> !Contains(lines[k], SESSION_HEADER)
    ensures var end := ScanLines(st, lines);
      !end.inSession && end.sessionPercent == st.sessionPercent && end.sessionResetTime == st.sessionResetTime
  {
    if lines != [] {
      SessionClosed(st, lines[..|lines| - 1]);
    }
  }

  /** Only the first weekly percentage is kept, whatever follows. */
  lemma {:induction false} WeekPercentFirst(st: ScanState, lines: seq<string>)
    requires st.weekPercent.Some?
    ensures ScanLines(st, lines).weekPercent == st.weekPercent
  {
    if lines != [] {
      WeekPercentFirst(st, lines[..|lines| - 1]);
    }
  }

  /** Only the first non-empty weekly reset time is kept, whatever follows. */
  lemma {:induction false} WeekResetFirst(st: ScanState, lines: seq<string>)
    requires !WeekResetMissing(st)
    ensures ScanLines(st, lines).weekResetTime == st.weekResetTime
  {
    if lines != [] {
      WeekResetFirst(st, lines[..|lines| - 1]);
    }
  }

  /** The weekly reset time ends the week section. */
  lemma WeekResetEndsSection(st: ScanState, line: string)
    requires st.inWeek && !st.inSession && WeekResetMissing(st)
    requires !Contains(line, SESSION_HEADER) && !Contains(line, WEEK_HEADER)
    requires ResetMatch(line).Some?
    ensures ScanLine(st, line).weekResetTime == Some(Trim(ResetMatch(line).value))
    ensures !ScanLine(st, line).inWeek
  {
  }

  /** Without a session header nothing is found, whatever week data the output holds. */
  lemma NoSessionHeaderNoData(output: string)
    requires forall k :: 0 <= k < |Split(output, '\n')| ==> !Contains(Split(output, '\n')[k], SESSION_HEADER)
    ensures ParseUsage(output) == None
  {
    SessionClosed(Initial, Split(output, '\n'));
  }

  const SAMPLE: seq<string> := [
    "Current session",
    "Resets in 3 hours (approx)",
    "12% used",
    "",
    "Current week",
    "45% used",
    "Resets in 2 days (approx)"]

  lemma ScanSnoc(st: ScanState, lines: seq<string>, line: string)
    ensures ScanLines(st, lines + [line]) == ScanLine(ScanLines(st, lines), line)
  {
    assert (lines + [line])[..|lines|] == lines;
  }

  /** A line with neither header, no percentage and no reset time changes nothing. */
  lemma PlainLine(st: ScanState, line: string)
    requires 'C' !in line && '%' !in line && 'R' !in line
    ensures Reads(line, None, None) && ScanLine(st, line) == st
  {
    NotContainedWithoutFirst(line, SESSION_HEADER);
    NotContainedWithoutFirst(line, WEEK_HEADER);
    NoPercentSign(line);
    NoResetWord(line);
  }

  /** The facts about a line of the form "Resets <t> (<rest>" that holds
      neither header nor a percent sign. */
  lemma ResetOnlyLine(t: string, rest: string, line: string)
    requires line == "Resets " + t + " (" + rest
    requires t != [] && !IsJsWhitespace(t[0]) && !IsJsWhitespace(t[|t| - 1])
    requires '(' !in t
    requires forall i :: 0 <= i < |t| ==> !IsLineTerminator(t[i])
    requires 'C' !in t && 'C' !in rest && '%' !in t && '%' !in rest
    ensures !Contains(line, SESSION_HEADER) && !Contains(line, WEEK_HEADER)
    ensures PercentMatch(line) == None && ResetMatch(line) == Some(t) && Trim(t) == t
  {
    assert 'C' !in line && '%' !in line by {
      forall i | 0 <= i < |line| ensures line[i] != 'C' && line[i] != '%' {
        if i < 7 {
        } else if i < 7 + |t| {
          assert line[i] == t[i - 7];
        } else if i < 9 + |t| {
        } else {
          assert line[i] == rest[i - 9 - |t|];
        }
      }
    }
    NotContainedWithoutFirst(line, SESSION_HEADER);
    NotContainedWithoutFirst(line, WEEK_HEADER);
    NoPercentSign(line);
    ResetLine(t, rest);
  }

  /** A line of the form "<n>% used" holds neither 'C' nor 'R'. */
  lemma PercentLineLetters(n: nat, line: string)
    requires line == NatToString(n) + "% used"
    ensures 'C' !in line && 'R' !in line
  {
    var digits := NatToString(n);
    forall i | 0 <= i < |line| ensures line[i] != 'C' && line[i] != 'R' {
      if i < |digits| {
        assert line[i] == digits[i];
        assert IsDigit(line[i]);
      } else {
        assert line[i] == "% used"[i - |digits|];
      }
    }
  }

  /** The facts about a line of the form "<n>% used". */
  lemma PercentOnlyLine(n: nat, line: string)
    requires line == NatToString(n) + "% used"
    ensures !Contains(line, SESSION_HEADER) && !Contains(line, WEEK_HEADER)
    ensures PercentMatch(line) == Some(n) && ResetMatch(line) == None
  {
    assert PercentMatch(line) == Some(n) by {
      PercentMatchNumeral(n, "");
      assert line + "" == line;
    }
    PercentLineLetters(n, line);
    NotContainedWithoutFirst(line, SESSION_HEADER);
    NotContainedWithoutFirst(line, WEEK_HEADER);
    NoResetWord(line);
  }

  /** A line with neither header on which the two expressions find `percent` and `reset`. */
  predicate Reads(line: string, percent: Option<nat>, reset: Option<string>)
  {
    !Contains(line, SESSION_HEADER) && !Contains(line, WEEK_HEADER)
    && PercentMatch(line) == percent && ResetMatch(line) == reset
  }

  /** Output shaped like the sample: a session block (header, reset time,
      percentage, plain line) followed by a week block (header, percentage,
      reset time). */
  lemma ScanTwoSections(st: ScanState, session: seq<string>, week: seq<string>, t1: string, p1: nat, p2: nat, t2: string)
    requires !st.inSession && !st.inWeek && st.weekPercent.None? && st.weekResetTime.None?
    requires |session| == 4 && |week| == 3
    requires Contains(session[0], SESSION_HEADER)
    requires Reads(session[1], None, Some(t1)) && Trim(t1) == t1
    requires Reads(session[2], Some(p1), None)
    requires Reads(session[3], None, None)
    requires !Contains(week[0], SESSION_HEADER) && Contains(week[0], WEEK_HEADER)
    requires Reads(week[1], Some(p2), None)
    requires Reads(week[2], None, Some(t2)) && Trim(t2) == t2
    ensures ScanLines(st, session + week)
            == st.(sessionResetTime := t1, sessionPercent := p1, weekPercent := Some(p2), weekResetTime := Some(t2))
  {
    SessionBlock(st, session, t1, p1);
    WeekBlock(st.(sessionResetTime := t1, sessionPercent := p1), week, p2, t2);
    ScanAppend(st, session, week);
  }

  /** The session block of the sample: header, reset time, percentage, plain line. */
  lemma SessionBlock(st: ScanState, lines: seq<string>, t1: string, p1: nat)
    requires !st.inSession && !st.inWeek
    requires |lines| == 4
    requires Contains(lines[0], SESSION_HEADER)
    requires Reads(lines[1], None, Some(t1)) && Trim(t1) == t1
    requires Reads(lines[2], Some(p1), None)
    requires Reads(lines[3], None, None)
    ensures ScanLines(st, lines) == st.(sessionResetTime := t1, sessionPercent := p1)
  {
    assert lines[..0] == [];
    var s1 := st.(inSession := true);
    assert ScanLines(st, lines[..1]) == s1 by {
      ScanStep(st, lines, 0);
      HeaderOnlyToggles(st, lines[0]);
    }
    var s2 := s1.(sessionResetTime := t1);
    assert ScanLines(st, lines[..2]) == s2 by {
      ScanStep(st, lines, 1);
      SessionResetStep(s1, lines[1], t1);
    }
    var s3 := s2.(sessionPercent := p1, inSession := false);
    assert ScanLines(st, lines[..3]) == s3 by {
      ScanStep(st, lines, 2);
      SessionPercentStep(s2, lines[2], p1);
    }
    assert ScanLines(st, lines[..4]) == s3 by {
      ScanStep(st, lines, 3);
      QuietStep(s3, lines[3]);
    }
    assert lines[..4] == lines;
  }

  /** The week block of the sample: header, percentage, reset time. */
  lemma WeekBlock(st: ScanState, lines: seq<string>, p2: nat, t2: string)
    requires !st.inSession && !st.inWeek && st.weekPercent.None? && st.weekResetTime.None?
    requires |lines| == 3
    requires !Contains(lines[0], SESSION_HEADER) && Contains(lines[0], WEEK_HEADER)
    requires Reads(lines[1], Some(p2), None)
    requires Reads(lines[2], None, Some(t2)) && Trim(t2) == t2
    ensures ScanLines(st, lines) == st.(weekPercent := Some(p2), weekResetTime := Some(t2))
  {
    assert lines[..0] == [];
    var s1 := st.(inWeek := true);
    assert ScanLines(st, lines[..1]) == s1 by {
      ScanStep(st, lines, 0);
      HeaderOnlyToggles(st, lines[0]);
    }
    var s2 := s1.(weekPercent := Some(p2));
    assert ScanLines(st, lines[..2]) == s2 by {
      ScanStep(st, lines, 1);
      WeekPercentStep(s1, lines[1], p2);
    }
    assert ScanLines(st, lines[..3]) == s2.(weekResetTime := Some(t2), inWeek := false) by {
      ScanStep(st, lines, 2);
      WeekResetStep(s2, lines[2], t2);
    }
    assert lines[..3] == lines;
  }

  /** Scanning two runs of lines is scanning the first, then the second from where it left off. */
  lemma {:induction false} ScanAppend(st: ScanState, a: seq<string>, b: seq<string>)
    ensures ScanLines(st, a + b) == ScanLines(ScanLines(st, a), b)
    decreases |b|
  {
    if b == [] {
      assert a + b == a;
    } else {
      var init := b[..|b| - 1];
      ScanAppend(st, a, init);
      assert (a + b)[..|a + b| - 1] == a + init;
    }
  }

  /** A line that matches neither expression leaves the scanner as it was. */
  lemma QuietStep(st: ScanState, line: string)
    requires Reads(line, None, None)
    ensures ScanLine(st, line) == st
  {
  }

  /** In the session section, a reset time already trimmed is stored as it is. */
  lemma SessionResetStep(st: ScanState, line: string, t: string)
    requires st.inSession && !st.inWeek
    requires Reads(line, None, Some(t)) && Trim(t) == t
    ensures ScanLine(st, line) == st.(sessionResetTime := t)
  {
  }

  /** In the session section, a percentage is stored and ends the section. */
  lemma SessionPercentStep(st: ScanState, line: string, p: nat)
    requires st.inSession && !st.inWeek
    requires Reads(line, Some(p), None)
    ensures ScanLine(st, line) == st.(sessionPercent := p, inSession := false)
  {
  }

  /** In the week section, the first percentage is stored. */
  lemma WeekPercentStep(st: ScanState, line: string, p: nat)
    requires !st.inSession && st.inWeek && st.weekPercent.None?
    requires Reads(line, Some(p), None)
    ensures ScanLine(st, line) == st.(weekPercent := Some(p))
  {
  }

  /** In the week section, the first reset time is stored and ends the section. */
  lemma WeekResetStep(st: ScanState, line: string, t: string)
    requires !st.inSession && st.inWeek && st.weekResetTime.None?
    requires Reads(line, None, Some(t)) && Trim(t) == t
    ensures ScanLine(st, line) == st.(weekResetTime := Some(t), inWeek := false)
  {
  }

  /** Scanning the first `i + 1` lines is scanning the first `i` and then line `i`. */
  lemma ScanStep(st: ScanState, lines: seq<string>, i: nat)
    requires i < |lines|
    ensures ScanLines(st, lines[..i + 1]) == ScanLine(ScanLines(st, lines[..i]), lines[i])
  {
    ScanSnoc(st, lines[..i], lines[i]);
    assert lines[..i] + [lines[i]] == lines[..i + 1];
  }

  lemma SampleReads1()
    ensures Reads(SAMPLE[1], None, Some("in 3 hours")) && Trim("in 3 hours") == "in 3 hours"
  {
    ResetOnlyLine("in 3 hours", "approx)", SAMPLE[1]);
  }

  lemma SampleReads2()
    ensures Reads(SAMPLE[2], Some(12), None)
  {
    assert NatToString(12) == "12" by { assert 12 / 10 == 1; }
    PercentOnlyLine(12, SAMPLE[2]);
  }

  lemma SampleReads3()
    ensures Reads(SAMPLE[3], None, None)
  {
    PlainLine(Initial, SAMPLE[3]);
  }

  lemma SampleReads5()
    ensures Reads(SAMPLE[5], Some(45), None)
  {
    assert NatToString(45) == "45" by { assert 45 / 10 == 4; }
    PercentOnlyLine(45, SAMPLE[5]);
  }

  lemma SampleReads6()
    ensures Reads(SAMPLE[6], None, Some("in 2 days")) && Trim("in 2 days") == "in 2 days"
  {
    ResetOnlyLine("in 2 days", "approx)", SAMPLE[6]);
  }

  lemma SampleSplits()
    ensures Split(Join(SAMPLE, "\n"), '\n') == SAMPLE
  {
    SplitJoin(SAMPLE, '\n');
  }

  lemma SampleHeaders()
    ensures Contains(SAMPLE[0], SESSION_HEADER)
    ensures !Contains(SAMPLE[4], SESSION_HEADER) && Contains(SAMPLE[4], WEEK_HEADER)
  {
    assert StartsWith(SAMPLE[0], SESSION_HEADER);
    assert StartsWith(SAMPLE[4], WEEK_HEADER);
  }

  /** Seven lines are their first four followed by their last three. */
  lemma FourThenThree(lines: seq<string>)
    requires |lines| == 7
    ensures lines[..4] + lines[4..] == lines
    ensures forall k :: 0 <= k < 4 ==> lines[..4][k] == lines[k]
    ensures forall k :: 0 <= k < 3 ==> lines[4..][k] == lines[4 + k]
  {
  }

  /** The sample output: both sections, each with a percentage and a reset time. */
  lemma SampleOutput(output: string)
    requires output == Join(SAMPLE, "\n")
    ensures ParseUsage(output) == Some(UsageData(12, "in 3 hours", Some(45), Some("in 2 days")))
  {
    var lines := Split(output, '\n');
    SampleSplits();
    assert lines == SAMPLE;
    SampleHeaders();
    SampleReads1();
    SampleReads2();
    SampleReads3();
    SampleReads5();
    SampleReads6();
    FourThenThree(lines);
    var session := lines[..4];
    var week := lines[4..];
    ScanTwoSections(Initial, session, week, "in 3 hours", 12, 45, "in 2 days");
  }

  const UNRECOGNISED: seq<string> := ["No usage data", "Nothing to see here"]

  lemma UnrecognisedLines()
    ensures forall k :: 0 <= k < |UNRECOGNISED| ==> 'C' !in UNRECOGNISED[k]
  {
  }

  /** Output without a session header is not usage data. */
  lemma UnrecognisedOutput(output: string)
    requires output == Join(UNRECOGNISED, "\n")
    ensures ParseUsage(output) == None
  {
    var lines := Split(output, '\n');
    SplitJoin(UNRECOGNISED, '\n');
    UnrecognisedLines();
    forall k | 0 <= k < |lines|
      ensures !Contains(lines[k], SESSION_HEADER)
    {
      NotContainedWithoutFirst(lines[k], SESSION_HEADER);
    }
    NoSessionHeaderNoData(output);
  }

  // ---------------------------------------------------------------------
  // The cache in front of the fetch

  /** Results at most this old (in milliseconds) are served from the cache. */
  const MIN_INTERVAL: int := 60000

  /** How the synchronous part of `read` ends: with an answer, or by starting
      a fetch whose completion answers later. */
  datatype ReadOutcome = Answered(value: Option<UsageData>) | FetchStarted

  /** `UsageReader`: `read` is split at its `await` into BeginRead and
      CompleteFetch; `fetchStartedAt` keeps the `now` that the suspended read
      sampled before the fetch. */
  class UsageReader {
    var cache: Option<UsageData>
    var lastFetch: int
    var fetching: bool
    var fetchStartedAt: int

    constructor()
      ensures cache == None && lastFetch == 0 && !fetching
    {
      cache := None;
      lastFetch := 0;
      fetching := false;
      fetchStartedAt := 0;
    }

    /** The cache answers at time `now`: it holds a result fetched less than a minute earlier. */
    predicate Fresh(now: int)
      reads this
    {
      cache.Some? && now - lastFetch < MIN_INTERVAL
    }

    /** `read` at time `now` up to its `await`: a fresh cache answers; a
        fetch in flight answers with the cache as it is, possibly empty;
        otherwise a fetch starts and nothing else changes. */
    method BeginRead(now: int) returns (outcome: ReadOutcome)
      modifies this
      ensures old(Fresh(now)) ==> outcome == Answered(old(cache)) && unchanged(this)
      ensures !old(Fresh(now)) && old(fetching) ==> outcome == Answered(old(cache)) && unchanged(this)
      ensures !old(Fresh(now)) && !old(fetching) ==>
        outcome == FetchStarted && fetching && fetchStartedAt == now
        && cache == old(cache) && lastFetch == old(lastFetch)
    {
      if cache.Some? && now - lastFetch < MIN_INTERVAL {
        return Answered(cache);
      }
      if fetching {
        return Answered(cache);
      }
      fetching := true;
      fetchStartedAt := now;
      return FetchStarted;
    }

    /** The rest of `read` once the fetch yields `result` (None when the
        command failed, timed out or printed nothing usable): a result is
        cached and stamped with the time the read began; the flight ends
        either way; the answer is the cache. */
    method CompleteFetch(result: Option<UsageData>) returns (value: Option<UsageData>)
      requires fetching
      modifies this
      ensures !fetching && fetchStartedAt == old(fetchStartedAt)
      ensures result.Some? ==> cache == result && lastFetch == old(fetchStartedAt)
      ensures result.None? ==> cache == old(cache) && lastFetch == old(lastFetch)
      ensures value == cache
    {
      if result.Some? {
        cache := result;
        lastFetch := fetchStartedAt;
      }
      fetching := false;
      value := cache;
    }

    /** `invalidate`: forgets the cached result so the next read fetches. */
    method Invalidate()
      modifies this
      ensures cache == None && lastFetch == 0
      ensures fetching == old(fetching) && fetchStartedAt == old(fetchStartedAt)
    {
      cache := None;
      lastFetch := 0;
    }
  }

  /** Two reads less than a minute apart: one fetch, and the second read
      answers with the very result of the first. */
  method CachedWithinInterval(t0: int, t1: int, fetched: UsageData)
    returns (first: Option<UsageData>, second: Option<UsageData>, fetches: int)
    requires t1 - t0 < MIN_INTERVAL
    ensures first == Some(fetched) && second == first && fetches == 1
  {
    var reader := new UsageReader();
    var outcome := reader.BeginRead(t0);
    fetches := if outcome.FetchStarted? then 1 else 0;
    first := reader.CompleteFetch(Some(fetched));
    outcome := reader.BeginRead(t1);
    fetches := fetches + if outcome.FetchStarted? then 1 else 0;
    second := outcome.value;
  }

  /** A read that arrives while the first read's fetch is in flight answers
      at once with the empty cache and starts no fetch; the first read then
      answers with the fetched result. */
  method OverlappingReads(t0: int, t1: int, fetched: UsageData)
    returns (first: Option<UsageData>, second: Option<UsageData>, fetches: int)
    ensures second == None && first == Some(fetched) && fetches == 1
  {
    var reader := new UsageReader();
    var firstOutcome := reader.BeginRead(t0);
    fetches := if firstOutcome.FetchStarted? then 1 else 0;
    var secondOutcome := reader.BeginRead(t1);
    fetches := fetches + if secondOutcome.FetchStarted? then 1 else 0;
    second := secondOutcome.value;
    first := reader.CompleteFetch(Some(fetched));
  }
}

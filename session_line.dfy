/** `renderSessionLine` of the status line: the model name, the context bar
    and percentage, optional rule / MCP-server / duration parts joined with
    " | ", then the token detail and the compaction warning near the limit.
    The model name and the context percentage come from stdin helpers that
    are not part of this model; they are inputs here. */
module SessionLine {
  import opened Text
  import opened Colors

  /** `context_window.current_usage` of the stdin payload; each count may be missing. */
  datatype CurrentUsage = CurrentUsage(
    inputTokens: Option<nat>,
    cacheCreationInputTokens: Option<nat>,
    cacheReadInputTokens: Option<nat>)

  /** The `?? 0` of the source: a missing count reads as zero. */
  function OrZero(n: Option<nat>): nat
  {
    match n
    case Some(v) => v
    case None => 0
  }

  /** A token count for display: the plain number below one thousand, whole
      thousands with "k" below one million, millions to one decimal with "M". */
  function FormatTokens(n: nat): (r: string)
    ensures n < 1000 ==> TakeNat(r) == Some((n, ""))
    ensures 1000 <= n < 1000000 ==> TakeNat(r) == Some((RoundHalfUp(n, 1000), "k"))
    ensures n >= 1000000 ==>
      var tenths := RoundHalfUp(n, 100000);
      TakeNat(r) == Some((tenths / 10, ['.', DigitChar(tenths % 10), 'M']))
  {
    if n >= 1000000 then
      var tenths := RoundHalfUp(n, 100000);
      TakeNatRoundTrip(tenths / 10, ['.', DigitChar(tenths % 10), 'M']);
      NatToString(tenths / 10) + ['.', DigitChar(tenths % 10), 'M']
    else if n >= 1000 then
      TakeNatRoundTrip(RoundHalfUp(n, 1000), "k");
      NatToString(RoundHalfUp(n, 1000)) + "k"
    else
      TakeNatRoundTrip(n, "");
      assert NatToString(n) + "" == NatToString(n);
      NatToString(n)
  }

  const RULES_ICON: string := "\U{1F4CB}"
  const MCP_ICON: string := "\U{1F50C}"
  const TIMER_ICON: string := "\U{23F1}\U{FE0F}"
  const WARNING_ICON: string := "\U{26A0}\U{FE0F}"

  function HeadPart(model: string, percent: int, bar: string): string
  {
    Cyan("[" + model + "]") + (" " + bar + " " + GetContextColor(percent) + IntToString(percent) + "%" + RESET)
  }

  function RulesPart(rulesCount: int): string
  {
    Dim(RULES_ICON + " " + IntToString(rulesCount) + " rules")
  }

  function McpPart(mcpCount: int): string
  {
    Dim(MCP_ICON + " " + IntToString(mcpCount) + " MCPs")
  }

  function DurationPart(sessionDuration: string): string
  {
    Dim(TIMER_ICON + " " + sessionDuration)
  }

  function PushIf(parts: seq<string>, condition: bool, part: string): seq<string>
  {
    if condition then parts + [part] else parts
  }

  /** The parts in the order they are pushed. */
  function Parts(model: string, percent: int, bar: string, rulesCount: int, mcpCount: int, sessionDuration: string): seq<string>
  {
    var withRules := PushIf([HeadPart(model, percent, bar)], rulesCount > 0, RulesPart(rulesCount));
    var withMcp := PushIf(withRules, mcpCount > 0, McpPart(mcpCount));
    PushIf(withMcp, sessionDuration != "", DurationPart(sessionDuration))
  }

  /** The token detail, before styling: the input count and the sum of the
      two cache counts. */
  function TokenDetail(u: CurrentUsage): string
  {
    " (in: " + FormatTokens(OrZero(u.inputTokens)) + ", cache: "
    + FormatTokens(OrZero(u.cacheCreationInputTokens) + OrZero(u.cacheReadInputTokens)) + ")"
  }

  function TokenSuffix(percent: int, usage: Option<CurrentUsage>): string
  {
    if percent >= 85 && usage.Some? then Dim(TokenDetail(usage.value)) else ""
  }

  function CompactWarning(percent: int): string
  {
    if percent >= 95 then " " + Red(WARNING_ICON + " COMPACT") else ""
  }

  /** The pushes of the parts array, in source order. */
  method CollectParts(model: string, percent: int, bar: string, rulesCount: int, mcpCount: int,
                      sessionDuration: string)
    returns (parts: seq<string>)
    ensures parts == Parts(model, percent, bar, rulesCount, mcpCount, sessionDuration)
  {
    parts := [HeadPart(model, percent, bar)];
    ghost var before := parts;
    if rulesCount > 0 {
      parts := parts + [RulesPart(rulesCount)];
    }
    assert parts == PushIf(before, rulesCount > 0, RulesPart(rulesCount));
    before := parts;
    if mcpCount > 0 {
      parts := parts + [McpPart(mcpCount)];
    }
    assert parts == PushIf(before, mcpCount > 0, McpPart(mcpCount));
    before := parts;
    if sessionDuration != "" {
      parts := parts + [DurationPart(sessionDuration)];
    }
  }

  /** The two `+=` of the session line: the token detail, then the
      compaction warning, each only when its condition holds. */
  method AppendSuffixes(joined: string, percent: int, usage: Option<CurrentUsage>) returns (text: string)
    ensures text == joined + TokenSuffix(percent, usage) + CompactWarning(percent)
  {
    text := joined;
    if percent >= 85 {
      if usage.Some? {
        text := text + TokenSuffix(percent, usage);
      }
    }
    assert text == joined + TokenSuffix(percent, usage);
    if percent >= 95 {
      text := text + CompactWarning(percent);
    }
  }

  /** Renders the session line; None where building the ten-cell bar throws
      (a percentage outside -5..104, whose cell counts would be negative). */
  method RenderSessionLine(model: string, percent: int, rulesCount: int, mcpCount: int,
                           sessionDuration: string, usage: Option<CurrentUsage>)
    returns (line: Option<string>)
    ensures line.Some? <==> ColoredBar(percent, 10).Some?
    ensures line.Some? ==>
      line.value == Join(Parts(model, percent, ColoredBar(percent, 10).value, rulesCount, mcpCount, sessionDuration), " | ")
                    + TokenSuffix(percent, usage) + CompactWarning(percent)
  {
    var barOrThrow := ColoredBar(percent, 10);
    if barOrThrow.None? {
      return None;
    }
    var parts := CollectParts(model, percent, barOrThrow.value, rulesCount, mcpCount, sessionDuration);
    var text := AppendSuffixes(Join(parts, " | "), percent, usage);
    return Some(text);
  }

  /** The parts differ from one another: each optional part starts with the
      faint style and its own icon, the first part with cyan. */
  lemma PartsDistinct(model: string, percent: int, bar: string, r: int, m: int, d: string)
    ensures HeadPart(model, percent, bar) != RulesPart(r)
    ensures HeadPart(model, percent, bar) != McpPart(m)
    ensures HeadPart(model, percent, bar) != DurationPart(d)
    ensures RulesPart(r) != McpPart(m) && RulesPart(r) != DurationPart(d) && McpPart(m) != DurationPart(d)
  {
    HeadLeads(model, percent, bar);
    RulesLeads(r);
    McpLeads(m);
    DurationLeads(d);
  }

  /** The first part has the cyan parameter digit at index 2. */
  lemma HeadLeads(model: string, percent: int, bar: string)
    ensures |HeadPart(model, percent, bar)| > 2 && HeadPart(model, percent, bar)[2] == '3'
  {
    var bracketed := "[" + model + "]";
    CyanLeads(bracketed);
  }

  lemma RulesLeads(r: int)
    ensures |RulesPart(r)| > 4 && RulesPart(r)[2] == '2' && RulesPart(r)[4] == RULES_ICON[0]
  {
    DimLeads(RULES_ICON + " " + IntToString(r) + " rules");
  }

  lemma McpLeads(m: int)
    ensures |McpPart(m)| > 4 && McpPart(m)[2] == '2' && McpPart(m)[4] == MCP_ICON[0]
  {
    DimLeads(MCP_ICON + " " + IntToString(m) + " MCPs");
  }

  lemma DurationLeads(d: string)
    ensures |DurationPart(d)| > 4 && DurationPart(d)[2] == '2' && DurationPart(d)[4] == TIMER_ICON[0]
  {
    DimLeads(TIMER_ICON + " " + d);
  }

  /** A faint text has the parameter digit 2 at index 2 and its own first character at index 4. */
  lemma DimLeads(t: string)
    requires t != []
    ensures |Dim(t)| > 4 && Dim(t)[2] == '2' && Dim(t)[4] == t[0]
  {
    assert Dim(t) == DIM + t + RESET;
  }

  /** A cyan text has the parameter digit 3 at index 2. */
  lemma CyanLeads(t: string)
    ensures |Cyan(t)| > 2 && Cyan(t)[2] == '3'
  {
    assert Cyan(t) == CYAN + t + RESET;
  }

  /** The first part is always there and comes first; each optional part is
      present exactly when its condition holds, in the fixed order rules,
      MCP servers, duration. */
  lemma PartsPresence(model: string, percent: int, bar: string, rulesCount: int, mcpCount: int, sessionDuration: string)
    ensures var parts := Parts(model, percent, bar, rulesCount, mcpCount, sessionDuration);
      parts == [HeadPart(model, percent, bar)]
               + (if rulesCount > 0 then [RulesPart(rulesCount)] else [])
               + (if mcpCount > 0 then [McpPart(mcpCount)] else [])
               + (if sessionDuration != "" then [DurationPart(sessionDuration)] else [])
      && parts[0] == HeadPart(model, percent, bar)
      && (RulesPart(rulesCount) in parts <==> rulesCount > 0)
      && (McpPart(mcpCount) in parts <==> mcpCount > 0)
      && (DurationPart(sessionDuration) in parts <==> sessionDuration != "")
      && |parts| == 1 + (if rulesCount > 0 then 1 else 0) + (if mcpCount > 0 then 1 else 0)
                      + (if sessionDuration != "" then 1 else 0)
  {
    PartsDistinct(model, percent, bar, rulesCount, mcpCount, sessionDuration);
    OptionalPresence(HeadPart(model, percent, bar), RulesPart(rulesCount), McpPart(mcpCount),
                     DurationPart(sessionDuration), rulesCount > 0, mcpCount > 0, sessionDuration != "");
  }

  lemma OptionalPresence(h: string, a: string, b: string, c: string, withA: bool, withB: bool, withC: bool)
    requires h != a && h != b && h != c && a != b && a != c && b != c
    ensures var parts := PushIf(PushIf(PushIf([h], withA, a), withB, b), withC, c);
      parts == [h] + (if withA then [a] else []) + (if withB then [b] else []) + (if withC then [c] else [])
      && parts[0] == h && (a in parts <==> withA) && (b in parts <==> withB) && (c in parts <==> withC)
      && |parts| == 1 + (if withA then 1 else 0) + (if withB then 1 else 0) + (if withC then 1 else 0)
  {
  }

  /** The rendered line begins with the first part. */
  lemma {:induction false} JoinStartsWithFirst(parts: seq<string>, sep: string)
    requires |parts| >= 1
    ensures StartsWith(Join(parts, sep), parts[0])
  {
    if |parts| > 1 {
      assert Join(parts, sep) == parts[0] + (sep + Join(parts[1..], sep));
    }
  }

  /** The token detail is shown exactly at 85 percent and above when the
      usage block is present; it reports the input count and the sum of the
      cache-creation and cache-read counts, a missing count being zero. */
  lemma TokenSuffixShown(percent: int, usage: Option<CurrentUsage>)
    ensures TokenSuffix(percent, usage) != "" <==> percent >= 85 && usage.Some?
    ensures TokenSuffix(percent, usage) != "" ==>
      var u := usage.value;
      Unstyle(TokenSuffix(percent, usage))
        == Some(Styled(2, " (in: " + FormatTokens(OrZero(u.inputTokens)) + ", cache: "
                          + FormatTokens(OrZero(u.cacheCreationInputTokens) + OrZero(u.cacheReadInputTokens)) + ")"))
  {
    if percent >= 85 && usage.Some? {
      var t := TokenDetail(usage.value);
      assert t[0] == ' ';
      DimLeads(t);
    }
  }

  /** The compaction warning is shown exactly at 95 percent and above, in red,
      and it is the last thing on the line. */
  lemma CompactWarningShown(percent: int)
    ensures CompactWarning(percent) != "" <==> percent >= 95
    ensures percent >= 95 ==> Unstyle(CompactWarning(percent)[1..]) == Some(Styled(31, WARNING_ICON + " COMPACT"))
  {
    if percent >= 95 {
      assert CompactWarning(percent)[1..] == Red(WARNING_ICON + " COMPACT");
    }
  }

  lemma FormatTokensExamples()
    ensures FormatTokens(0) == "0"
    ensures FormatTokens(999) == "999"
    ensures FormatTokens(1500) == "2k"
  {
    assert NatToString(99) == "99";
    assert RoundHalfUp(1500, 1000) == 2;
  }
}

/** The terminal colour helpers of the status line: SGR escape sequences
    (Select Graphic Rendition, section 8.3.117 of ECMA-48), wrappers that
    style a text and reset the style after it, the threshold colour of the
    context-window percentage and the coloured progress bar. */
module Colors {
  import opened Text

  const ESC: char := '\U{1B}'

  /** The SGR control sequence `ESC [ p m` with one numeric parameter. */
  function Sgr(param: nat): string
  {
    [ESC, '['] + NatToString(param) + "m"
  }

  const RESET: string := "\U{1B}[0m"
  const BOLD: string := "\U{1B}[1m"
  const DIM: string := "\U{1B}[2m"

  const BLACK: string := "\U{1B}[30m"
  const RED: string := "\U{1B}[31m"
  const GREEN: string := "\U{1B}[32m"
  const YELLOW: string := "\U{1B}[33m"
  const BLUE: string := "\U{1B}[34m"
  const MAGENTA: string := "\U{1B}[35m"
  const CYAN: string := "\U{1B}[36m"
  const WHITE: string := "\U{1B}[37m"

  const BG_BLACK: string := "\U{1B}[40m"
  const BG_RED: string := "\U{1B}[41m"
  const BG_GREEN: string := "\U{1B}[42m"
  const BG_YELLOW: string := "\U{1B}[43m"
  const BG_BLUE: string := "\U{1B}[44m"
  const BG_MAGENTA: string := "\U{1B}[45m"
  const BG_CYAN: string := "\U{1B}[46m"
  const BG_WHITE: string := "\U{1B}[47m"

  /** Each named code is the SGR sequence of its ECMA-48 parameter: 0 reset,
      1 bold, 2 faint, 30..37 foreground colours, 40..47 background colours. */
  lemma CodesAreSgr()
    ensures RESET == Sgr(0) && BOLD == Sgr(1) && DIM == Sgr(2)
    ensures BLACK == Sgr(30) && RED == Sgr(31) && GREEN == Sgr(32) && YELLOW == Sgr(33)
    ensures BLUE == Sgr(34) && MAGENTA == Sgr(35) && CYAN == Sgr(36) && WHITE == Sgr(37)
    ensures BG_BLACK == Sgr(40) && BG_RED == Sgr(41) && BG_GREEN == Sgr(42) && BG_YELLOW == Sgr(43)
    ensures BG_BLUE == Sgr(44) && BG_MAGENTA == Sgr(45) && BG_CYAN == Sgr(46) && BG_WHITE == Sgr(47)
  {
    forall ones | 0 <= ones <= 7
      ensures Sgr(30 + ones) == [ESC, '[', '3', DigitChar(ones), 'm']
      ensures Sgr(40 + ones) == [ESC, '[', '4', DigitChar(ones), 'm']
    {
      TwoDigitSgr(3, ones);
      TwoDigitSgr(4, ones);
    }
  }

  lemma TwoDigitSgr(tens: nat, ones: nat)
    requires 1 <= tens <= 9 && ones <= 9
    ensures Sgr(tens * 10 + ones) == [ESC, '[', DigitChar(tens), DigitChar(ones), 'm']
  {
    var n := tens * 10 + ones;
    assert n / 10 == tens && n % 10 == ones;
    assert NatToString(n) == [DigitChar(tens), DigitChar(ones)];
  }

  /** A text shown with one SGR parameter and followed by a reset. */
  datatype Styled = Styled(param: nat, text: string)

  /** Reads a string of the form `ESC [ p m` text `ESC [ 0 m` back into its parts. */
  function Unstyle(s: string): Option<Styled>
  {
    if |s| >= 2 + |RESET| && s[..2] == [ESC, '['] && s[|s| - |RESET|..] == RESET then
      match TakeNat(s[2..|s| - |RESET|])
      case Some((param, rest)) =>
        if rest != [] && rest[0] == 'm' then Some(Styled(param, rest[1..])) else None
      case None => None
    else None
  }

  /** Styling a text with parameter `param` and resetting after it loses nothing. */
  lemma UnstyleStyled(param: nat, text: string)
    ensures Unstyle(Sgr(param) + text + RESET) == Some(Styled(param, text))
  {
    var s := Sgr(param) + text + RESET;
    var inner := NatToString(param) + "m" + text;
    assert s[..2] == [ESC, '['];
    assert s[|s| - |RESET|..] == RESET;
    assert s[2..|s| - |RESET|] == NatToString(param) + ("m" + text);
    TakeNatRoundTrip(param, "m" + text);
  }

  function Green(text: string): (r: string)
    ensures Unstyle(r) == Some(Styled(32, text))
  {
    CodesAreSgr();
    UnstyleStyled(32, text);
    GREEN + text + RESET
  }

  function Yellow(text: string): (r: string)
    ensures Unstyle(r) == Some(Styled(33, text))
  {
    CodesAreSgr();
    UnstyleStyled(33, text);
    YELLOW + text + RESET
  }

  function Red(text: string): (r: string)
    ensures Unstyle(r) == Some(Styled(31, text))
  {
    CodesAreSgr();
    UnstyleStyled(31, text);
    RED + text + RESET
  }

  function Cyan(text: string): (r: string)
    ensures Unstyle(r) == Some(Styled(36, text))
  {
    CodesAreSgr();
    UnstyleStyled(36, text);
    CYAN + text + RESET
  }

  function Magenta(text: string): (r: string)
    ensures Unstyle(r) == Some(Styled(35, text))
  {
    CodesAreSgr();
    UnstyleStyled(35, text);
    MAGENTA + text + RESET
  }

  function Dim(text: string): (r: string)
    ensures Unstyle(r) == Some(Styled(2, text))
  {
    CodesAreSgr();
    UnstyleStyled(2, text);
    DIM + text + RESET
  }

  function Bold(text: string): (r: string)
    ensures Unstyle(r) == Some(Styled(1, text))
  {
    CodesAreSgr();
    UnstyleStyled(1, text);
    BOLD + text + RESET
  }

  /** Red from 85 percent on, yellow from 70, green below. */
  function GetContextColor(percent: int): (r: string)
    ensures r == RED <==> percent >= 85
    ensures r == YELLOW <==> 70 <= percent < 85
    ensures r == GREEN <==> percent < 70
  {
    if percent >= 85 then RED
    else if percent >= 70 then YELLOW
    else GREEN
  }

  const FULL_BLOCK: char := '\U{2588}'
  const LIGHT_SHADE: char := '\U{2591}'

  /** Number of filled cells of a bar `width` cells wide: `percent` of the
      width, rounded to the nearest cell, halves up. */
  function Filled(percent: int, width: int): (f: int)
    ensures 200 * f - 100 <= 2 * percent * width < 200 * f + 100
  {
    RoundHalfUp(percent * width, 100)
  }

  /** The progress bar: the threshold colour, the filled cells, the faint
      style, the empty cells and a reset. None where `repeat` throws a
      RangeError because a cell count is negative. */
  function ColoredBar(percent: int, width: int): (r: Option<string>)
    ensures r.Some? <==> 0 <= Filled(percent, width) <= width
    ensures r.Some? ==>
      var f := Filled(percent, width);
      r.value == GetContextColor(percent) + seq(f, _ => FULL_BLOCK) + DIM
                 + seq(width - f, _ => LIGHT_SHADE) + RESET
  {
    var filled := Filled(percent, width);
    var empty := width - filled;
    var color := GetContextColor(percent);
    match (Repeat(FULL_BLOCK, filled), Repeat(LIGHT_SHADE, empty))
    case (Some(full), Some(light)) =>
      assert full == seq(filled, _ => FULL_BLOCK);
      assert light == seq(empty, _ => LIGHT_SHADE);
      Some(color + full + DIM + light + RESET)
    case _ => None
  }

  lemma {:induction false} CountCells(c: char, d: char, n: nat)
    ensures multiset(seq(n, _ => c))[c] == n
    ensures d != c ==> multiset(seq(n, _ => c))[d] == 0
  {
    if n > 0 {
      var s := seq(n, _ => c);
      assert s == seq(n - 1, _ => c) + [c];
      CountCells(c, d, n - 1);
    }
  }

  /** The bar holds exactly `filled` full cells and `width - filled` light
      cells, so together they are as many as the bar is wide. */
  lemma BarCells(percent: int, width: int)
    requires ColoredBar(percent, width).Some?
    ensures var bar := ColoredBar(percent, width).value;
      var f := Filled(percent, width);
      multiset(bar)[FULL_BLOCK] == f && multiset(bar)[LIGHT_SHADE] == width - f
      && multiset(bar)[FULL_BLOCK] + multiset(bar)[LIGHT_SHADE] == width
  {
    var f := Filled(percent, width);
    var color := GetContextColor(percent);
    CountCells(FULL_BLOCK, LIGHT_SHADE, f);
    CountCells(LIGHT_SHADE, FULL_BLOCK, width - f);
    assert FULL_BLOCK !in color && LIGHT_SHADE !in color;
    assert FULL_BLOCK !in DIM && LIGHT_SHADE !in DIM;
    assert FULL_BLOCK !in RESET && LIGHT_SHADE !in RESET;
    assert multiset(color)[FULL_BLOCK] == 0 && multiset(color)[LIGHT_SHADE] == 0;
    assert multiset(DIM)[FULL_BLOCK] == 0 && multiset(DIM)[LIGHT_SHADE] == 0;
    assert multiset(RESET)[FULL_BLOCK] == 0 && multiset(RESET)[LIGHT_SHADE] == 0;
  }

  /** A percentage in 0..100 on a bar of non-negative width never throws;
      0 percent fills nothing and 100 percent fills the whole bar. */
  lemma BarOnPercentRange(percent: int, width: int)
    requires 0 <= percent <= 100 && width >= 0
    ensures ColoredBar(percent, width).Some?
    ensures percent == 0 ==> Filled(percent, width) == 0
    ensures percent == 100 ==> Filled(percent, width) == width
  {
    var f := Filled(percent, width);
    assert 0 <= percent * width <= 100 * width;
    MulBeyondOne(f - width, 100);
    MulBeyondOne(f, 100);
    if percent == 100 {
      RoundHalfUpUnique(percent * width, 100, width);
    }
  }

  /** More percent never fills fewer cells. */
  lemma FilledMonotone(p: int, q: int, width: int)
    requires p <= q && width >= 0
    ensures Filled(p, width) <= Filled(q, width)
  {
    var a, b := Filled(p, width), Filled(q, width);
    assert p * width <= q * width;
    MulBeyondOne(a - b, 100);
  }
}

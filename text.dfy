/** Shared string and number helpers used by the status-line and reader modules:
    JavaScript's whitespace class and trim, decimal formatting of integers,
    `String.prototype.split` on one character, `Array.prototype.join`,
    `String.prototype.repeat` and `Math.round`. */
module Text {

  datatype Option<+T> = None | Some(value: T)

  /** The characters JavaScript's `\s` and `String.prototype.trim` treat as
      whitespace: WhiteSpace and LineTerminator of ECMA-262. */
  predicate IsJsWhitespace(c: char)
  {
    c == ' ' || c == '\t' || c == '\n' || c == '\U{0B}' || c == '\U{0C}' || c == '\r'
    || c == '\U{A0}' || c == '\U{1680}' || ('\U{2000}' <= c <= '\U{200A}')
    || c == '\U{2028}' || c == '\U{2029}' || c == '\U{202F}' || c == '\U{205F}'
    || c == '\U{3000}' || c == '\U{FEFF}'
  }

  /** The characters a regular expression's `.` does not match (without the `s` flag). */
  predicate IsLineTerminator(c: char)
  {
    c == '\n' || c == '\r' || c == '\U{2028}' || c == '\U{2029}'
  }

  predicate IsBlank(s: string)
  {
    forall i :: 0 <= i < |s| ==> IsJsWhitespace(s[i])
  }

  /** Number of leading whitespace characters of `s`. */
  function LeadingSpace(s: string): (k: nat)
    ensures k <= |s|
    ensures forall i :: 0 <= i < k ==> IsJsWhitespace(s[i])
    ensures k < |s| ==> !IsJsWhitespace(s[k])
  {
    if s == [] || !IsJsWhitespace(s[0]) then 0 else 1 + LeadingSpace(s[1..])
  }

  /** Number of trailing whitespace characters of `s`. */
  function TrailingSpace(s: string): (k: nat)
    ensures k <= |s|
    ensures forall i :: |s| - k <= i < |s| ==> IsJsWhitespace(s[i])
    ensures k < |s| ==> !IsJsWhitespace(s[|s| - 1 - k])
  {
    if s == [] || !IsJsWhitespace(s[|s| - 1]) then 0 else 1 + TrailingSpace(s[..|s| - 1])
  }

  /** `String.prototype.trim`: the result is the slice of `s` that starts and
      ends with a non-whitespace character, or empty when `s` is blank. */
  function Trim(s: string): (r: string)
    ensures exists a, b :: 0 <= a <= b <= |s| && r == s[a..b] && IsBlank(s[..a]) && IsBlank(s[b..])
    ensures r == [] <==> IsBlank(s)
    ensures r != [] ==> !IsJsWhitespace(r[0]) && !IsJsWhitespace(r[|r| - 1])
  {
    var a := LeadingSpace(s);
    if a == |s| then
      LeadingBlank(s, a);
      assert s[a..] == [];
      []
    else
      var k := TrailingSpace(s);
      TrimCut(s, a, k);
      s[a..|s| - k]
  }

  /** When `s` is not blank, its trailing blank run stops after its first
      non-blank character, which starts what `Trim` keeps. */
  lemma TrimCut(s: string, a: nat, k: nat)
    requires a == LeadingSpace(s) && a < |s| && k == TrailingSpace(s)
    ensures a < |s| - k && IsBlank(s[..a]) && IsBlank(s[|s| - k..]) && !IsBlank(s)
    ensures !IsJsWhitespace(s[a]) && !IsJsWhitespace(s[|s| - k - 1])
  {
    LeadingBlank(s, a);
    TrailingBlank(s, k);
  }

  /** The leading run `LeadingSpace` measures is blank, and covers `s` only when `s` is blank. */
  lemma LeadingBlank(s: string, a: nat)
    requires a == LeadingSpace(s)
    ensures IsBlank(s[..a])
    ensures a == |s| <==> IsBlank(s)
  {
    if a == |s| {
      assert s[..a] == s;
    }
  }

  /** The trailing run `TrailingSpace` measures is blank, and a string that
      starts with a non-blank character is not covered by it. */
  lemma TrailingBlank(s: string, k: nat)
    requires k == TrailingSpace(s)
    ensures k <= |s| && IsBlank(s[|s| - k..])
    ensures forall i :: 0 <= i < |s| && !IsJsWhitespace(s[i]) ==> i < |s| - k
    ensures k < |s| ==> !IsJsWhitespace(s[|s| - 1 - k])
  {
    var tail := s[|s| - k..];
    forall i | 0 <= i < |tail| ensures IsJsWhitespace(tail[i]) {
      assert tail[i] == s[|s| - k + i];
    }
  }

  predicate StartsWith(s: string, prefix: string)
  {
    |prefix| <= |s| && s[..|prefix|] == prefix
  }

  /** `haystack.includes(needle)`: `needle` occurs at some position of `haystack`. */
  predicate Contains(haystack: string, needle: string)
    decreases |haystack|
  {
    |needle| <= |haystack|
    && (StartsWith(haystack, needle) || Contains(haystack[1..], needle))
  }

  predicate IsDigit(c: char)
  {
    '0' <= c <= '9'
  }

  predicate IsDigits(s: string)
  {
    forall i :: 0 <= i < |s| ==> IsDigit(s[i])
  }

  function DigitValue(c: char): (d: nat)
    requires IsDigit(c)
    ensures d < 10
  {
    (c - '0') as nat
  }

  function DigitChar(d: nat): (c: char)
    requires d < 10
    ensures IsDigit(c) && DigitValue(c) == d
  {
    ('0' as int + d) as char
  }

  /** `parseInt(s, 10)` on a string of ASCII digits. */
  function DecimalValue(s: string): nat
    requires IsDigits(s)
  {
    if s == [] then 0 else DecimalValue(s[..|s| - 1]) * 10 + DigitValue(s[|s| - 1])
  }

  /** The decimal numeral JavaScript prints for a non-negative integer. */
  function NatToString(n: nat): (r: string)
    ensures r != [] && IsDigits(r) && DecimalValue(r) == n
    ensures r[0] == '0' ==> r == "0"
    ensures n < 10 <==> |r| == 1
  {
    if n < 10 then [DigitChar(n)]
    else
      var prefix := NatToString(n / 10);
      var r := prefix + [DigitChar(n % 10)];
      assert r[..|r| - 1] == prefix;
      r
  }

  /** The decimal numeral JavaScript prints for an integer (a `-` sign when negative). */
  function IntToString(i: int): (r: string)
    ensures r != [] && (r[0] == '-' <==> i < 0)
    ensures i >= 0 ==> r == NatToString(i)
    ensures i < 0 ==> r[1..] == NatToString(-i)
  {
    if i < 0 then "-" + NatToString(-i) else NatToString(i)
  }

  /** Reads back what IntToString writes. */
  function ParseInt(s: string): Option<int>
  {
    if s != [] && s[0] == '-' && IsDigits(s[1..]) && s[1..] != [] then Some(-(DecimalValue(s[1..]) as int))
    else if s != [] && IsDigits(s) then Some(DecimalValue(s))
    else None
  }

  lemma IntToStringRoundTrip(i: int)
    ensures ParseInt(IntToString(i)) == Some(i)
  {
    var r := IntToString(i);
    if i < 0 {
      assert r[1..] == NatToString(-i);
    } else {
      assert r == NatToString(i);
    }
  }

  /** Length of the run of ASCII digits at the start of `s`. */
  function DigitRun(s: string): (k: nat)
    ensures k <= |s| && IsDigits(s[..k])
    ensures k < |s| ==> !IsDigit(s[k])
  {
    if s == [] || !IsDigit(s[0]) then 0
    else
      var k := 1 + DigitRun(s[1..]);
      assert s[..k] == [s[0]] + s[1..][..k - 1];
      k
  }

  /** Reads the decimal numeral at the start of `s` (the whole run of digits)
      and returns its value with the rest of `s`. Only the numerals
      NatToString writes are accepted: a run with a leading zero is refused
      unless it is "0" itself. */
  function TakeNat(s: string): Option<(nat, string)>
  {
    var k := DigitRun(s);
    if k == 0 || (k > 1 && s[0] == '0') then None else Some((DecimalValue(s[..k]), s[k..]))
  }

  /** Like TakeNat, with an optional leading minus sign; "-0" is refused,
      as IntToString never writes it. */
  function TakeInt(s: string): Option<(int, string)>
  {
    if s != [] && s[0] == '-' then
      match TakeNat(s[1..])
      case Some((n, rest)) => if n == 0 then None else Some((-(n as int), rest))
      case None => None
    else
      match TakeNat(s)
      case Some((n, rest)) => Some((n as int, rest))
      case None => None
  }

  lemma {:induction false} DigitRunOfNumeral(ds: string, t: string)
    requires IsDigits(ds)
    requires t == [] || !IsDigit(t[0])
    ensures DigitRun(ds + t) == |ds|
  {
    if ds != [] {
      assert (ds + t)[1..] == ds[1..] + t;
      DigitRunOfNumeral(ds[1..], t);
    }
  }

  /** A numeral written by NatToString is read back by TakeNat, up to the
      first non-digit that follows it. */
  lemma TakeNatRoundTrip(n: nat, t: string)
    requires t == [] || !IsDigit(t[0])
    ensures TakeNat(NatToString(n) + t) == Some((n, t))
  {
    var ds := NatToString(n);
    DigitRunOfNumeral(ds, t);
    assert (ds + t)[..|ds|] == ds;
    assert (ds + t)[|ds|..] == t;
  }

  lemma TakeIntRoundTrip(i: int, t: string)
    requires t == [] || !IsDigit(t[0])
    ensures TakeInt(IntToString(i) + t) == Some((i, t))
  {
    if i < 0 {
      assert IntToString(i) == "-" + NatToString(-i);
      TakeIntOfNegative(-i, t);
    } else {
      TakeIntOfNat(i, t);
    }
  }

  /** A numeral after a minus sign is read back by TakeInt as its negation. */
  lemma TakeIntOfNegative(n: nat, t: string)
    requires n > 0
    requires t == [] || !IsDigit(t[0])
    ensures TakeInt("-" + NatToString(n) + t) == Some((-(n as int), t))
  {
    TakeNatRoundTrip(n, t);
    var rest := NatToString(n) + t;
    var s := "-" + NatToString(n) + t;
    assert s == ['-'] + rest;
    assert s[1..] == rest;
    TakeIntMinus(s, n, t);
  }

  /** A leading minus sign followed by a numeral reads as its negation. */
  lemma TakeIntMinus(s: string, n: nat, t: string)
    requires s != [] && s[0] == '-' && n > 0 && TakeNat(s[1..]) == Some((n, t))
    ensures TakeInt(s) == Some((-(n as int), t))
  {
  }

  /** A numeral without a sign is read back by TakeInt as a non-negative number. */
  lemma TakeIntOfNat(n: nat, t: string)
    requires t == [] || !IsDigit(t[0])
    ensures TakeInt(NatToString(n) + t) == Some((n as int, t))
  {
    TakeNatRoundTrip(n, t);
    var ds := NatToString(n);
    assert IsDigit(ds[0]);
    assert (ds + t)[0] == ds[0];
  }

  /** A numeral without a leading zero (other than "0" itself) is the one
      NatToString writes for its value. */
  lemma {:induction false} NatToStringOfDecimal(ds: string)
    requires ds != [] && IsDigits(ds) && (|ds| > 1 ==> ds[0] != '0')
    ensures NatToString(DecimalValue(ds)) == ds
    decreases |ds|
  {
    if |ds| > 1 {
      var init := ds[..|ds| - 1];
      var last := ds[|ds| - 1];
      assert init[0] == ds[0];
      LeadingDigitPositive(init);
      NatToStringOfDecimal(init);
      var n := DecimalValue(ds);
      assert n == DecimalValue(init) * 10 + DigitValue(last);
      assert n / 10 == DecimalValue(init) && n % 10 == DigitValue(last);
      assert DigitChar(DigitValue(last)) == last;
      assert ds == init + [last];
    } else {
      assert DigitChar(DigitValue(ds[0])) == ds[0];
    }
  }

  /** A numeral that does not start with '0' has a positive value. */
  lemma {:induction false} LeadingDigitPositive(ds: string)
    requires ds != [] && IsDigits(ds) && ds[0] != '0'
    ensures DecimalValue(ds) > 0
    decreases |ds|
  {
    if |ds| > 1 {
      var init := ds[..|ds| - 1];
      assert init[0] == ds[0];
      LeadingDigitPositive(init);
    } else {
      assert DigitValue(ds[0]) > 0;
    }
  }

  /** What TakeNat accepts is spelled exactly as NatToString writes it. */
  lemma TakeNatCanonical(s: string, n: nat, t: string)
    requires TakeNat(s) == Some((n, t))
    ensures s == NatToString(n) + t
  {
    var k := DigitRun(s);
    NatToStringOfDecimal(s[..k]);
    assert s == s[..k] + s[k..];
  }

  /** Splitting off two characters after a prefix and regluing them. */
  lemma RegroupAfterTwo(s: string, x: string, rest: string, y: string, tail: string)
    requires s == x + rest && |rest| >= 2 && rest[2..] == y + tail
    ensures s == x + rest[..2] + y + tail
  {
    assert rest == rest[..2] + rest[2..];
  }

  /** What TakeInt accepts is spelled exactly as IntToString writes it. */
  lemma TakeIntCanonical(s: string, i: int, t: string)
    requires TakeInt(s) == Some((i, t))
    ensures s == IntToString(i) + t
  {
    if s != [] && s[0] == '-' {
      TakeIntMinusCanonical(s, i, t);
    } else {
      TakeNatCanonical(s, i, t);
    }
  }

  lemma TakeIntMinusCanonical(s: string, i: int, t: string)
    requires s != [] && s[0] == '-'
    requires TakeInt(s) == Some((i, t))
    ensures s == IntToString(i) + t
  {
    var n: nat := -i;
    var u := s[1..];
    assert s == [s[0]] + u;
    assert TakeNat(u) == Some((n, t));
    assert u == NatToString(n) + t by { TakeNatCanonical(u, n, t); }
  }


  /** `Math.round(n / d)` for a positive `d`, computed exactly: halves round up. */
  function RoundHalfUp(n: int, d: int): (r: int)
    requires d > 0
    ensures 2 * r * d - d <= 2 * n < 2 * r * d + d
  {
    var r := (2 * n + d) / (2 * d);
    assert r * (2 * d) <= 2 * n + d < r * (2 * d) + 2 * d;
    r
  }

  /** The rounding is the unique integer within half a step of `n / d`. */
  lemma RoundHalfUpUnique(n: int, d: int, q: int)
    requires d > 0
    requires 2 * q * d - d <= 2 * n < 2 * q * d + d
    ensures q == RoundHalfUp(n, d)
  {
    var r := RoundHalfUp(n, d);
    var x := q - r;
    assert 2 * q * d - 2 * r * d == 2 * x * d;
    assert -2 * d < 2 * x * d < 2 * d;
    MulBeyondOne(x, d);
  }

  lemma MulBeyondOne(x: int, d: int)
    requires d > 0
    ensures x >= 1 ==> x * d >= d
    ensures x <= -1 ==> x * d <= -d
  {
    if x >= 1 {
      assert x * d == d + (x - 1) * d;
    } else if x <= -1 {
      assert x * d == -d + (x + 1) * d;
    }
  }

  /** Only one whole number of steps `d` reaches `v` without passing it. */
  lemma StepUnique(x: int, y: int, d: int, v: int)
    requires d > 0
    requires x * d <= v < (x + 1) * d && y * d <= v < (y + 1) * d
    ensures x == y
  {
    var z := x - y;
    assert z * d == x * d - y * d;
    assert -d < z * d < d;
    MulBeyondOne(z, d);
  }

  /** A number splits into a quotient and a remainder below `d` in one way only. */
  lemma QuotRemUnique(q1: int, r1: int, q2: int, r2: int, d: int)
    requires d > 0 && 0 <= r1 < d && 0 <= r2 < d
    requires q1 * d + r1 == q2 * d + r2
    ensures q1 == q2 && r1 == r2
  {
    var z := q1 - q2;
    assert z * d == r2 - r1;
    MulBeyondOne(z, d);
  }

  /** `String.prototype.repeat`, which throws a RangeError for a negative count. */
  function Repeat(c: char, n: int): (r: Option<string>)
    ensures r.Some? <==> n >= 0
    ensures r.Some? ==> |r.value| == n && forall i :: 0 <= i < n ==> r.value[i] == c
  {
    if n < 0 then None else Some(seq(n, _ => c))
  }

  /** `String.prototype.split` on a one-character separator: the pieces
      between the occurrences of `sep`, in order, one more than their count. */
  function Split(s: string, sep: char): (pieces: seq<string>)
    ensures |pieces| >= 1
    ensures forall k :: 0 <= k < |pieces| ==> sep !in pieces[k]
    decreases |s|
  {
    if sep !in s then [s]
    else
      var i := IndexOf(s, sep);
      [s[..i]] + Split(s[i + 1..], sep)
  }

  function IndexOf(s: string, c: char): (i: nat)
    requires c in s
    ensures i < |s| && s[i] == c && c !in s[..i]
  {
    if s[0] == c then 0 else 1 + IndexOf(s[1..], c)
  }

  /** `Array.prototype.join`. */
  function Join(parts: seq<string>, sep: string): string
  {
    if |parts| == 0 then ""
    else if |parts| == 1 then parts[0]
    else parts[0] + sep + Join(parts[1..], sep)
  }

  /** Join works left to right: one more part adds the separator and the part at the end. */
  lemma {:induction false} JoinSnoc(parts: seq<string>, sep: string, p: string)
    requires parts != []
    ensures Join(parts + [p], sep) == Join(parts, sep) + sep + p
    decreases |parts|
  {
    if |parts| > 1 {
      assert (parts + [p])[1..] == parts[1..] + [p];
      JoinSnoc(parts[1..], sep, p);
    }
  }

  /** Joining the pieces of a split with the separator gives back the input. */
  lemma {:induction false} JoinSplit(s: string, sep: char)
    ensures Join(Split(s, sep), [sep]) == s
    decreases |s|
  {
    if sep in s {
      var i := IndexOf(s, sep);
      var rest := s[i + 1..];
      var pieces := Split(s, sep);
      assert pieces == [s[..i]] + Split(rest, sep);
      assert pieces[1..] == Split(rest, sep);
      assert Join(pieces, [sep]) == s[..i] + [sep] + Join(Split(rest, sep), [sep]);
      JoinSplit(rest, sep);
      assert s == s[..i] + [sep] + rest;
    }
  }

  lemma {:induction false} IndexOfFirst(a: string, sep: char, b: string)
    requires sep !in a
    ensures IndexOf(a + [sep] + b, sep) == |a|
  {
    if a != [] {
      assert (a + [sep] + b)[1..] == a[1..] + [sep] + b;
      IndexOfFirst(a[1..], sep, b);
    }
  }

  /** Splitting at a first separator gives the text before it, then the split of the rest. */
  lemma SplitFirst(a: string, sep: char, rest: string)
    requires sep !in a
    ensures Split(a + [sep] + rest, sep) == [a] + Split(rest, sep)
  {
    var s := a + [sep] + rest;
    assert s[|a|] == sep;
    IndexOfFirst(a, sep, rest);
    assert s[..|a|] == a;
    assert s[|a| + 1..] == rest;
  }

  /** Splitting a join on a separator that occurs in none of the parts gives
      back the parts. */
  lemma {:induction false} SplitJoin(parts: seq<string>, sep: char)
    requires |parts| >= 1
    requires forall k :: 0 <= k < |parts| ==> sep !in parts[k]
    ensures Split(Join(parts, [sep]), sep) == parts
  {
    if |parts| > 1 {
      var rest := Join(parts[1..], [sep]);
      assert Join(parts, [sep]) == parts[0] + [sep] + rest;
      SplitFirst(parts[0], sep, rest);
      SplitJoin(parts[1..], sep);
      assert parts == [parts[0]] + parts[1..];
    } else {
      assert Join(parts, [sep]) == parts[0];
    }
  }
}

/**
 * Python's string primitives as both scripts use them: str.strip, str.upper,
 * str.lower, f-string formatting of an int, iteration over the lines of a text
 * file opened in universal-newline mode, and a loop writing one item per line.
 */
module Text {

  /** Python's str.isspace on one character: the C0 separators, space, NEL,
      NBSP and the Unicode space separators U+1680, U+2000-U+200A, U+2028,
      U+2029, U+202F, U+205F and U+3000. */
  predicate IsSpace(c: char) {
    var n := c as int;
    (9 <= n <= 13) || (28 <= n <= 32) || n == 0x85 || n == 0xA0 || n == 0x1680
    || (0x2000 <= n <= 0x200A) || n == 0x2028 || n == 0x2029 || n == 0x202F
    || n == 0x205F || n == 0x3000
  }

  /** Removes leading whitespace. */
  function StripStart(s: string): (r: string)
    ensures |r| <= |s| && r == s[|s| - |r|..]
    ensures r == [] || !IsSpace(r[0])
    ensures forall k :: 0 <= k < |s| - |r| ==> IsSpace(s[k])
  {
    if |s| > 0 && IsSpace(s[0]) then StripStart(s[1..]) else s
  }

  /** Removes trailing whitespace. */
  function StripEnd(s: string): (r: string)
    ensures |r| <= |s| && r == s[..|r|]
    ensures r == [] || !IsSpace(r[|r| - 1])
    ensures forall k :: |r| <= k < |s| ==> IsSpace(s[k])
  {
    if |s| > 0 && IsSpace(s[|s| - 1]) then StripEnd(s[..|s| - 1]) else s
  }

  /** Python's str.strip() with no argument. */
  function Strip(s: string): string {
    StripStart(StripEnd(s))
  }

  /** What strip promises: the result is an inner slice of the input, only
      whitespace was removed, and the result neither starts nor ends with it. */
  lemma StripSpec(s: string)
    ensures exists i, j :: (0 <= i <= j <= |s| && Strip(s) == s[i..j]
                            && (forall k :: 0 <= k < i ==> IsSpace(s[k]))
                            && (forall k :: j <= k < |s| ==> IsSpace(s[k])))
    ensures Strip(s) == [] || (!IsSpace(Strip(s)[0]) && !IsSpace(Strip(s)[|Strip(s)| - 1]))
  {
    var e := StripEnd(s);
    var r := StripStart(e);
    var i, j := |e| - |r|, |e|;
    assert Strip(s) == r == s[i..j];
    forall k | 0 <= k < i ensures IsSpace(s[k]) {
      assert s[k] == e[k];
    }
    assert forall k :: j <= k < |s| ==> IsSpace(s[k]);
    if r != [] {
      assert r[|r| - 1] == e[|e| - 1];
    }
  }

  /** A string with no whitespace at either end is its own strip. */
  lemma StripOfTrimmed(s: string)
    requires s != [] && !IsSpace(s[0]) && !IsSpace(s[|s| - 1])
    ensures Strip(s) == s
  {
  }

  /** A trailing newline never survives strip: iterating a file yields lines
      with their '\n', and stripping removes it. */
  lemma StripDropsNewline(s: string)
    ensures Strip(s + "\n") == Strip(s)
  {
    assert (s + "\n")[..|s|] == s;
  }

  /** str.upper on one character, for the ASCII letters. */
  function UpperChar(c: char): char {
    if 'a' <= c <= 'z' then (c as int - 32) as char else c
  }

  /** str.lower on one character, for the ASCII letters. */
  function LowerChar(c: char): char {
    if 'A' <= c <= 'Z' then (c as int + 32) as char else c
  }

  /** str.upper: the result has no lower-case letter, and only the case of
      letters changes, so it lower-cases exactly as the input does. */
  function Upper(s: string): (r: string)
    ensures |r| == |s|
    ensures forall k :: 0 <= k < |s| ==> r[k] == UpperChar(s[k])
    ensures IsUpper(r)
    ensures Lower(r) == Lower(s)
  {
    var r := seq(|s|, k requires 0 <= k < |s| => UpperChar(s[k]));
    assert forall k :: 0 <= k < |s| ==> LowerChar(r[k]) == LowerChar(s[k]);
    r
  }

  /** str.lower: the result has no upper-case letter, and only the case of
      letters changes, so each of its characters upper-cases exactly as the
      input's does. */
  function Lower(s: string): (r: string)
    ensures |r| == |s|
    ensures forall k :: 0 <= k < |s| ==> r[k] == LowerChar(s[k])
    ensures forall k :: 0 <= k < |r| ==> !('A' <= r[k] <= 'Z')
    ensures forall k :: 0 <= k < |r| ==> UpperChar(r[k]) == UpperChar(s[k])
  {
    seq(|s|, k requires 0 <= k < |s| => LowerChar(s[k]))
  }

  /** No lower-case letter: what upper-casing leaves unchanged. */
  predicate IsUpper(s: string) {
    forall k :: 0 <= k < |s| ==> !('a' <= s[k] <= 'z')
  }

  lemma IsUpperFixed(s: string)
    ensures IsUpper(s) <==> Upper(s) == s
  {
    if Upper(s) == s {
      forall k | 0 <= k < |s| ensures !('a' <= s[k] <= 'z') {
        assert Upper(s)[k] == s[k];
      }
    }
  }

  /** Upper-casing a character never makes or removes whitespace. */
  lemma UpperCharKeepsSpace(c: char)
    ensures IsSpace(UpperChar(c)) <==> IsSpace(c)
  {
  }

  /** Upper-casing leaves no lower-case letter and keeps whitespace and line
      breaks where they were, so an upper-cased stripped line is still
      stripped. */
  lemma UpperKeepsShape(s: string)
    ensures IsUpper(Upper(s))
    ensures s != [] ==> (IsSpace(Upper(s)[0]) <==> IsSpace(s[0]))
    ensures s != [] ==> (IsSpace(Upper(s)[|s| - 1]) <==> IsSpace(s[|s| - 1]))
    ensures '\n' !in s ==> '\n' !in Upper(s)
    ensures '\r' !in s ==> '\r' !in Upper(s)
  {
    if s != [] {
      UpperCharKeepsSpace(s[0]);
      UpperCharKeepsSpace(s[|s| - 1]);
    }
    if '\n' !in s && '\r' !in s {
      forall k | 0 <= k < |s| ensures Upper(s)[k] != '\n' && Upper(s)[k] != '\r' {
        assert s[k] != '\n' && s[k] != '\r';
      }
    }
  }

  /** Lower-casing never introduces a line break. */
  lemma LowerKeepsNewline(s: string)
    ensures '\n' !in s ==> '\n' !in Lower(s)
  {
    if '\n' !in s {
      forall k | 0 <= k < |s| ensures Lower(s)[k] != '\n' {
        assert s[k] != '\n';
      }
    }
  }

  /** Lower-casing loses nothing on upper-case strings: two strings that are
      already upper case and lower-case to the same string are equal. */
  lemma LowerInjectiveOnUpper(a: string, b: string)
    requires IsUpper(a) && IsUpper(b) && Lower(a) == Lower(b)
    ensures a == b
  {
    assert |a| == |b|;
    forall k | 0 <= k < |a| ensures a[k] == b[k] {
      assert LowerChar(a[k]) == LowerChar(b[k]);
    }
  }

  // ---------------------------------------------------------------------
  // Text files: universal newlines, line iteration, writing lines

  /** Universal-newline translation applied when a file is opened for reading
      in text mode: "\r\n" and a lone '\r' both become '\n'. */
  function Universal(s: string): (r: string)
    ensures '\r' !in r
    decreases |s|
  {
    if s == [] then []
    else if s[0] == '\r' then "\n" + Universal(if |s| > 1 && s[1] == '\n' then s[2..] else s[1..])
    else [s[0]] + Universal(s[1..])
  }

  /** Text without carriage returns is read back unchanged. */
  lemma {:induction false} UniversalWithoutCR(s: string)
    requires '\r' !in s
    ensures Universal(s) == s
    decreases |s|
  {
    if s != [] {
      assert '\r' !in s[1..];
      UniversalWithoutCR(s[1..]);
    }
  }

  /** A carriage return after a run of text without one becomes a line
      break, and swallows a '\n' that directly follows it. */
  lemma {:induction false} UniversalBreak(a: string, b: string)
    requires '\r' !in a
    ensures Universal(a + "\r" + b) == a + "\n" + Universal(if b != [] && b[0] == '\n' then b[1..] else b)
    decreases |a|
  {
    var s := a + "\r" + b;
    if a == [] {
      assert s[0] == '\r' && s[1..] == b;
      if b != [] && b[0] == '\n' {
        assert s[2..] == b[1..];
      }
    } else {
      assert s[0] == a[0] && s[1..] == a[1..] + "\r" + b;
      UniversalBreak(a[1..], b);
      assert a == [a[0]] + a[1..];
    }
  }

  /** Length of the first line of a non-empty text: up to and including the
      first '\n', or the whole text when it has none. */
  function LineLength(s: string): (n: nat)
    requires s != []
    ensures 1 <= n <= |s|
    ensures forall k :: 0 <= k < n - 1 ==> s[k] != '\n'
    ensures n < |s| ==> s[n - 1] == '\n'
  {
    if s[0] == '\n' || |s| == 1 then 1 else 1 + LineLength(s[1..])
  }

  function Concat(ls: seq<string>): string {
    if ls == [] then [] else ls[0] + Concat(ls[1..])
  }

  /** The lines iterating over a text file yields: each keeps its '\n', only the last
      may lack one, and together they are the whole text. */
  function Lines(s: string): (ls: seq<string>)
    ensures Concat(ls) == s
    ensures forall i :: 0 <= i < |ls| ==> ls[i] != []
    ensures forall i :: 0 <= i < |ls| - 1 ==> ls[i][|ls[i]| - 1] == '\n'
    ensures forall i, k :: 0 <= i < |ls| && 0 <= k < |ls[i]| - 1 ==> ls[i][k] != '\n'
    decreases |s|
  {
    if s == [] then []
    else
      var n := LineLength(s);
      assert s == s[..n] + s[n..];
      [s[..n]] + Lines(s[n..])
  }

  /** The text written by writing each item followed by a newline, in order. */
  function JoinLines(ls: seq<string>): string {
    if ls == [] then [] else ls[0] + "\n" + JoinLines(ls[1..])
  }

  /** Each item followed by its newline: the lines, one per item, whose
      concatenation is the text written line by line. */
  function Terminated(ls: seq<string>): (r: seq<string>)
    ensures |r| == |ls|
    ensures forall i :: 0 <= i < |ls| ==> r[i] == ls[i] + "\n"
    ensures Concat(r) == JoinLines(ls)
    decreases |ls|
  {
    if ls == [] then []
    else
      var rest := Terminated(ls[1..]);
      var r := [ls[0] + "\n"] + rest;
      assert r[0] == ls[0] + "\n" && r[1..] == rest;
      assert forall i :: 1 <= i < |ls| ==> r[i] == rest[i - 1] && ls[1..][i - 1] == ls[i];
      r
  }

  /** The terminated lines of a non-empty list: its first item's line, then
      the rest's. */
  lemma TerminatedCons(ls: seq<string>)
    requires ls != []
    ensures Terminated(ls)[0] == ls[0] + "\n" && Terminated(ls)[1..] == Terminated(ls[1..])
  {
  }

  /** A line without a newline, followed by one, is the first line. */
  lemma FirstLineLength(l: string, rest: string)
    requires '\n' !in l
    ensures LineLength(l + "\n" + rest) == |l| + 1
  {
    var s := l + "\n" + rest;
    var n := LineLength(s);
    assert s[|l|] == '\n';
    assert forall k :: 0 <= k < |l| ==> s[k] == l[k];
  }

  /** Reading back what was written line by line yields one newline-terminated
      line per item, provided no item holds a newline itself. */
  lemma {:induction false} LinesOfJoin(ls: seq<string>)
    requires forall i :: 0 <= i < |ls| ==> '\n' !in ls[i]
    ensures Lines(JoinLines(ls)) == Terminated(ls)
    decreases |ls|
  {
    if ls != [] {
      var s, l, rest := JoinLines(ls), ls[0], JoinLines(ls[1..]);
      var n := |l| + 1;
      assert s == l + "\n" + rest;
      FirstLineLength(l, rest);
      assert s[..n] == l + "\n" && s[n..] == rest;
      LinesOfJoin(ls[1..]);
      assert Lines(s) == [l + "\n"] + Terminated(ls[1..]);
    }
  }

  /** A text written line by line holds no carriage return unless an item does. */
  lemma {:induction false} JoinLinesWithoutCR(ls: seq<string>)
    requires forall i :: 0 <= i < |ls| ==> '\r' !in ls[i]
    ensures '\r' !in JoinLines(ls)
    decreases |ls|
  {
    if ls != [] {
      JoinLinesWithoutCR(ls[1..]);
    }
  }

  /** The text a file just opened for writing holds after each item has
      been written followed by a newline, in order. */
  method WriteLines(ls: seq<string>) returns (content: string)
    ensures content == JoinLines(ls)
  {
    content := [];
    for i := 0 to |ls|
      invariant content + JoinLines(ls[i..]) == JoinLines(ls)
    {
      assert ls[i..][1..] == ls[i + 1..];
      content := content + ls[i] + "\n";
    }
    assert ls[|ls|..] == [];
  }

  // ---------------------------------------------------------------------
  // Integers in f-strings

  predicate IsDigit(c: char) {
    '0' <= c <= '9'
  }

  function DigitChar(d: nat): (c: char)
    requires d < 10
    ensures IsDigit(c) && c as int - '0' as int == d
  {
    ('0' as int + d) as char
  }

  /** Decimal digits of n, most significant first, no leading zero. */
  function NatToString(n: nat): (s: string)
    ensures s != [] && forall k :: 0 <= k < |s| ==> IsDigit(s[k])
    ensures s[0] == '0' ==> n == 0
  {
    if n < 10 then [DigitChar(n)] else NatToString(n / 10) + [DigitChar(n % 10)]
  }

  /** The value of a string of decimal digits. */
  function DigitsValue(s: string): nat
    requires forall k :: 0 <= k < |s| ==> IsDigit(s[k])
  {
    if s == [] then 0
    else
      assert IsDigit(s[|s| - 1]);
      DigitsValue(s[..|s| - 1]) * 10 + (s[|s| - 1] as int - '0' as int)
  }

  lemma {:induction false} DigitsRoundTrip(n: nat)
    ensures DigitsValue(NatToString(n)) == n
  {
    if n >= 10 {
      var s := NatToString(n);
      assert s[..|s| - 1] == NatToString(n / 10);
      DigitsRoundTrip(n / 10);
    }
  }

  /** f"{n}" for an int: a minus sign before the digits of a negative value. */
  function IntToString(n: int): string {
    if n < 0 then "-" + NatToString(-n) else NatToString(n)
  }

  /** A printed integer starts with '-' exactly when it is negative. */
  lemma SignShows(n: int)
    ensures IntToString(n) != [] && (IntToString(n)[0] == '-' <==> n < 0)
  {
    if n >= 0 {
      assert IsDigit(NatToString(n)[0]);
    }
  }

  /** Different integers print differently. */
  lemma IntToStringInjective(a: int, b: int)
    requires IntToString(a) == IntToString(b)
    ensures a == b
  {
    SignShows(a);
    SignShows(b);
    if a < 0 && b < 0 {
      assert NatToString(-a) == IntToString(a)[1..] == NatToString(-b);
      DigitsRoundTrip(-a);
      DigitsRoundTrip(-b);
    } else if a >= 0 && b >= 0 {
      DigitsRoundTrip(a);
      DigitsRoundTrip(b);
    }
  }
}

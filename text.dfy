/**
 * The Python string and path operations the slideshow script relies on, stated as
 * functions over `string` (a `seq<char>`): `str(n)` of a non-negative integer, the
 * `{n:03d}` zero padding, `startswith`/`endswith`, an ASCII `lower()`, the text after the
 * last separator (`s.split(c)[-1]`), `strip()`, `splitlines()`, `os.path.join`, and the
 * bound beyond which Python cannot turn an integer into a float.
 */
module Text {

  // ---------------------------------------------------------------------------
  // Decimal digits

  predicate IsDigit(c: char) { '0' <= c <= '9' }

  predicate AllDigits(s: string) { forall i :: 0 <= i < |s| ==> IsDigit(s[i]) }

  function DigitChar(d: nat): (c: char)
    requires d < 10
    ensures IsDigit(c) && c as int - '0' as int == d
  {
    ('0' as int + d) as char
  }

  function DigitValue(c: char): nat
    requires IsDigit(c)
  {
    c as int - '0' as int
  }

  /** Python's `str(n)` for a non-negative integer: no sign, no leading zero. */
  function Decimal(n: nat): (s: string)
    ensures |s| > 0 && AllDigits(s)
    ensures s[0] == '0' ==> n == 0 && |s| == 1
    decreases n
  {
    if n < 10 then [DigitChar(n)] else Decimal(n / 10) + [DigitChar(n % 10)]
  }

  /** The value of a string of decimal digits (leading zeros allowed). */
  function DigitsValue(s: string): nat
    requires AllDigits(s)
  {
    if s == [] then 0 else 10 * DigitsValue(s[..|s| - 1]) + DigitValue(s[|s| - 1])
  }

  /** Reading back what `Decimal` writes gives the number. */
  lemma {:induction false} DecimalRoundTrip(n: nat)
    ensures DigitsValue(Decimal(n)) == n
    decreases n
  {
    if n >= 10 {
      var s := Decimal(n);
      assert s[..|s| - 1] == Decimal(n / 10);
      DecimalRoundTrip(n / 10);
    }
  }

  function Zeros(k: nat): (z: string)
    ensures |z| == k && forall i :: 0 <= i < k ==> z[i] == '0'
  {
    if k == 0 then [] else Zeros(k - 1) + ['0']
  }

  /** Leading zeros do not change the value of a digit string. */
  lemma {:induction false} LeadingZerosValue(k: nat, s: string)
    requires AllDigits(s)
    ensures AllDigits(Zeros(k) + s) && DigitsValue(Zeros(k) + s) == DigitsValue(s)
    decreases |s|
  {
    var t := Zeros(k) + s;
    if s == [] {
      assert t == Zeros(k);
      ZerosValue(k);
    } else {
      assert t[..|t| - 1] == Zeros(k) + s[..|s| - 1];
      LeadingZerosValue(k, s[..|s| - 1]);
    }
  }

  lemma {:induction false} ZerosValue(k: nat)
    ensures AllDigits(Zeros(k)) && DigitsValue(Zeros(k)) == 0
  {
    if k > 0 {
      assert Zeros(k)[..k - 1] == Zeros(k - 1);
      ZerosValue(k - 1);
    }
  }

  /** The `{s:0>w}` padding of a digit string, as `{i:0wd}` applies it to `str(i)`. */
  function ZeroPad(s: string, width: nat): (r: string)
    ensures |r| == if |s| >= width then |s| else width
    ensures r[|r| - |s|..] == s
    ensures forall i :: 0 <= i < |r| - |s| ==> r[i] == '0'
  {
    if |s| >= width then s else Zeros(width - |s|) + s
  }

  /** `{i:03d}` for a non-negative `i` denotes `i` and nothing else. */
  lemma PaddedDecimalValue(i: nat, width: nat)
    ensures AllDigits(ZeroPad(Decimal(i), width))
    ensures DigitsValue(ZeroPad(Decimal(i), width)) == i
  {
    var s := Decimal(i);
    DecimalRoundTrip(i);
    if |s| < width {
      LeadingZerosValue(width - |s|, s);
    }
  }

  // ---------------------------------------------------------------------------
  // Prefixes, suffixes and case

  predicate StartsWith(s: string, prefix: string)
  {
    |prefix| <= |s| && s[..|prefix|] == prefix
  }

  predicate EndsWith(s: string, suffix: string)
  {
    |suffix| <= |s| && s[|s| - |suffix|..] == suffix
  }

  function LowerChar(c: char): char
  {
    if 'A' <= c <= 'Z' then (c as int + 32) as char else c
  }

  /** `s.lower()`, for the ASCII letters. */
  function Lower(s: string): (r: string)
    ensures |r| == |s| && forall i :: 0 <= i < |s| ==> r[i] == LowerChar(s[i])
  {
    seq(|s|, i requires 0 <= i < |s| => LowerChar(s[i]))
  }

  lemma LowerAppend(a: string, b: string)
    ensures Lower(a + b) == Lower(a) + Lower(b)
  {
  }

  // ---------------------------------------------------------------------------
  // Splitting

  /** `s.split(c)[-1]`: everything after the last `c`, or all of `s` when it has none. */
  function AfterLast(s: string, c: char): (r: string)
    ensures |r| <= |s| && r == s[|s| - |r|..]
    ensures c !in r
    ensures |r| < |s| ==> s[|s| - |r| - 1] == c
  {
    if s == [] then []
    else if s[|s| - 1] == c then []
    else AfterLast(s[..|s| - 1], c) + [s[|s| - 1]]
  }

  /** The position of the first `c` in `s`, or `|s|` when there is none. */
  function IndexOf(s: string, c: char): (i: nat)
    ensures i <= |s| && c !in s[..i]
    ensures i < |s| ==> s[i] == c
  {
    if s == [] then 0
    else if s[0] == c then 0
    else 1 + IndexOf(s[1..], c)
  }

  lemma {:induction false} IndexOfAbsent(s: string, c: char)
    requires c !in s
    ensures IndexOf(s, c) == |s|
  {
    if s != [] {
      assert forall x :: x in s[1..] ==> x in s;
      IndexOfAbsent(s[1..], c);
    }
  }

  /** Past a prefix without `c`, the first `c` is the first `c` of the rest. */
  lemma {:induction false} IndexOfPast(a: string, b: string, c: char)
    requires c !in a
    ensures IndexOf(a + b, c) == |a| + IndexOf(b, c)
  {
    if a == [] {
      assert a + b == b;
    } else {
      assert (a + b)[1..] == a[1..] + b;
      assert forall x :: x in a[1..] ==> x in a;
      IndexOfPast(a[1..], b, c);
    }
  }

  /** `a + "/" + b` splits at its first `/` back into `a` and `b` when `a` has none. */
  lemma SplitAtSlash(a: string, b: string)
    requires '/' !in a
    ensures IndexOf(a + "/" + b, '/') == |a|
    ensures (a + "/" + b)[..|a|] == a && (a + "/" + b)[|a| + 1..] == b
  {
    assert a + "/" + b == a + ("/" + b);
    IndexOfPast(a, "/" + b, '/');
  }

  /** The number of times `c` occurs in `s`. */
  function Count(s: string, c: char): nat
  {
    if s == [] then 0 else Count(s[..|s| - 1], c) + (if s[|s| - 1] == c then 1 else 0)
  }

  lemma {:induction false} CountZero(s: string, c: char)
    ensures Count(s, c) == 0 <==> c !in s
  {
    if s != [] {
      CountZero(s[..|s| - 1], c);
      assert s == s[..|s| - 1] + [s[|s| - 1]];
    }
  }

  lemma {:induction false} CountAppend(a: string, b: string, c: char)
    ensures Count(a + b, c) == Count(a, c) + Count(b, c)
    decreases |b|
  {
    if b != [] {
      assert (a + b)[..|a + b| - 1] == a + b[..|b| - 1];
      CountAppend(a, b[..|b| - 1], c);
    } else {
      assert a + b == a;
    }
  }

  // ---------------------------------------------------------------------------
  // Whitespace and lines

  /** Python's `str.isspace()` for one character. */
  predicate IsSpace(c: char)
  {
    (9 <= c as int <= 13) || (28 <= c as int <= 32) || c as int == 0x85 || c as int == 0xA0
    || c as int == 0x1680 || (0x2000 <= c as int <= 0x200A) || c as int == 0x2028
    || c as int == 0x2029 || c as int == 0x202F || c as int == 0x205F || c as int == 0x3000
  }

  /** The line boundaries of Python's `str.splitlines()` (`\r\n` is one boundary). */
  predicate IsLineBreak(c: char)
  {
    (10 <= c as int <= 13) || (28 <= c as int <= 30) || c as int == 0x85
    || c as int == 0x2028 || c as int == 0x2029
  }

  /** Every line boundary is whitespace, so `strip()` removes a trailing one. */
  lemma BreakIsSpace(c: char)
    ensures IsLineBreak(c) ==> IsSpace(c)
  {
  }

  predicate NoLineBreak(s: string) { forall i :: 0 <= i < |s| ==> !IsLineBreak(s[i]) }

  /** `s.lstrip()` */
  function TrimStart(s: string): (r: string)
    ensures |r| <= |s| && r == s[|s| - |r|..]
    ensures r == [] || !IsSpace(r[0])
    ensures forall i :: 0 <= i < |s| - |r| ==> IsSpace(s[i])
  {
    if s == [] || !IsSpace(s[0]) then s
    else
      SpacesBefore(s, TrimStart(s[1..]));
      TrimStart(s[1..])
  }

  lemma SpacesBefore(s: string, r: string)
    requires s != [] && IsSpace(s[0]) && |r| <= |s| - 1
    requires forall i :: 0 <= i < |s| - 1 - |r| ==> IsSpace(s[1..][i])
    ensures forall i :: 0 <= i < |s| - |r| ==> IsSpace(s[i])
  {
    forall i | 0 < i < |s| - |r| ensures IsSpace(s[i]) {
      assert s[i] == s[1..][i - 1];
    }
  }

  /** `s.rstrip()` */
  function TrimEnd(s: string): (r: string)
    ensures |r| <= |s| && r == s[..|r|]
    ensures r == [] || !IsSpace(r[|r| - 1])
    ensures forall i :: |r| <= i < |s| ==> IsSpace(s[i])
  {
    if s != [] && IsSpace(s[|s| - 1]) then TrimEnd(s[..|s| - 1]) else s
  }

  /** `s.strip()`: what is left starts and ends with a non-space character. */
  function Strip(s: string): (r: string)
    ensures r == [] || (!IsSpace(r[0]) && !IsSpace(r[|r| - 1]))
    ensures |r| <= |s|
  {
    TrimEnd(TrimStart(s))
  }

  /** Text that neither starts nor ends with a space is its own `strip()`. */
  lemma StripUnspaced(s: string)
    requires s != [] && !IsSpace(s[0]) && !IsSpace(s[|s| - 1])
    ensures Strip(s) == s
  {
    assert TrimStart(s) == s;
  }

  /** Where the first line of `s` ends: its first line boundary, or `|s|`. */
  function FirstBreak(s: string): (i: nat)
    ensures i <= |s| && NoLineBreak(s[..i])
    ensures i < |s| ==> IsLineBreak(s[i])
  {
    if s == [] then 0
    else if IsLineBreak(s[0]) then 0
    else 1 + FirstBreak(s[1..])
  }

  /** The length of the boundary at `i`: two for `\r\n`, one otherwise. */
  function BreakLength(s: string, i: nat): nat
    requires i < |s|
  {
    if s[i] == '\r' && i + 1 < |s| && s[i + 1] == '\n' then 2 else 1
  }

  /**
   * `s.splitlines()`: the pieces between line boundaries; a boundary at the very end
   * does not start another (empty) line, and the empty string has no lines.
   */
  function SplitLines(s: string): (lines: seq<string>)
    ensures s == [] <==> lines == []
    decreases |s|
  {
    if s == [] then []
    else if FirstBreak(s) == |s| then [s]
    else [s[..FirstBreak(s)]] + SplitLines(s[NextLine(s)..])
  }

  /** Where the line after the first boundary starts. */
  function NextLine(s: string): (j: nat)
    requires FirstBreak(s) < |s|
    ensures FirstBreak(s) < j <= |s|
  {
    FirstBreak(s) + BreakLength(s, FirstBreak(s))
  }

  function LastOf(lines: seq<string>): string
    requires lines != []
  {
    lines[|lines| - 1]
  }

  /** `last` is a non-empty line that ends `s` and starts `s` or follows a line boundary. */
  predicate IsFinalLine(s: string, last: string)
  {
    |last| > 0 && NoLineBreak(last) && EndsWith(s, last)
    && (|last| < |s| ==> IsLineBreak(s[|s| - |last| - 1]))
  }

  /** A line that ends the text after a boundary ends the whole text. */
  lemma SuffixAfterBreak(s: string, j: nat, last: string)
    requires 0 < j <= |s| && IsLineBreak(s[j - 1])
    requires IsFinalLine(s[j..], last)
    ensures IsFinalLine(s, last)
  {
    var rest := s[j..];
    assert s[|s| - |last|..] == rest[|rest| - |last|..];
    if |last| < |rest| {
      assert rest[|rest| - |last| - 1] == s[|s| - |last| - 1];
    }
  }

  /**
   * When `s` does not end with a line boundary, its last line is the non-empty run of
   * characters after the last boundary.
   */
  lemma {:induction false} SplitLinesLast(s: string)
    requires s != [] && !IsLineBreak(s[|s| - 1])
    ensures SplitLines(s) != [] && IsFinalLine(s, LastOf(SplitLines(s)))
    decreases |s|
  {
    var i := FirstBreak(s);
    if i == |s| {
      SplitLinesWhole(s);
    } else {
      var j := SplitLinesFirst(s);
      var rest := s[j..];
      assert rest[|rest| - 1] == s[|s| - 1];
      SplitLinesLast(rest);
      SuffixAfterBreak(s, j, LastOf(SplitLines(rest)));
    }
  }

  /** Text without a line boundary is one line. */
  lemma SplitLinesWhole(s: string)
    requires s != [] && FirstBreak(s) == |s|
    ensures SplitLines(s) == [s] && IsFinalLine(s, LastOf(SplitLines(s)))
  {
    assert s[..|s|] == s;
  }

  /**
   * Text with a line boundary is the line before it followed by the lines of what comes
   * after it; `j` is where that rest starts, just past the boundary.
   */
  lemma SplitLinesFirst(s: string) returns (j: nat)
    requires s != [] && FirstBreak(s) < |s|
    ensures 0 < j <= |s| && IsLineBreak(s[j - 1])
    ensures s[j..] != [] ==> LastOf(SplitLines(s)) == LastOf(SplitLines(s[j..]))
  {
    j := NextLine(s);
    assert IsLineBreak(s[FirstBreak(s)]);
  }

  /** One line boundary as `splitlines()` consumes it: `\r\n`, or a single boundary character. */
  predicate IsBoundary(t: string)
  {
    t == "\r\n" || (|t| == 1 && IsLineBreak(t[0]))
  }

  /** `lines[0] + seps[0] + lines[1] + seps[1] + ...` */
  function Interleave(lines: seq<string>, seps: seq<string>): string
    requires |lines| == |seps|
  {
    if lines == [] then [] else lines[0] + seps[0] + Interleave(lines[1..], seps[1..])
  }

  /**
   * `lines`, each followed by its boundary in `seps`, spell out `s`: no line holds a
   * boundary, every line but the last is followed by one, the last is followed by one or
   * by nothing, a line and its boundary are never both empty (so a trailing boundary
   * starts no extra line), and a lone `\r` is never followed by `\n` (so `\r\n` is one
   * boundary). These conditions admit exactly one decomposition of `s`.
   */
  predicate Splits(s: string, lines: seq<string>, seps: seq<string>)
  {
    |seps| == |lines| && Interleave(lines, seps) == s
    && (forall k :: 0 <= k < |lines| ==> NoLineBreak(lines[k]) && |lines[k]| + |seps[k]| > 0)
    && (forall k :: 0 <= k < |lines| ==> IsBoundary(seps[k]) || (k == |lines| - 1 && seps[k] == []))
    && (forall k :: 0 <= k < |lines| && seps[k] == "\r" ==>
          !StartsWith(Interleave(lines[k + 1..], seps[k + 1..]), "\n"))
  }

  /** `splitlines()` cuts `s` at its line boundaries; `seps` are the boundaries it drops. */
  lemma {:induction false} SplitLinesSplits(s: string) returns (seps: seq<string>)
    ensures Splits(s, SplitLines(s), seps)
    decreases |s|
  {
    if s == [] {
      seps := [];
    } else if FirstBreak(s) == |s| {
      seps := [[]];
      assert s[..|s|] == s;
      assert Interleave([s], seps) == s + [] + Interleave([], []);
    } else {
      var j := NextLine(s);
      var restSeps := SplitLinesSplits(s[j..]);
      seps := [s[FirstBreak(s)..j]] + restSeps;
      SplitsCons(s, FirstBreak(s), j, SplitLines(s[j..]), restSeps);
      assert SplitLines(s) == [s[..FirstBreak(s)]] + SplitLines(s[j..]);
    }
  }

  /**
   * Conversely, the decomposition is unique: any lines that spell out `s` in this way are
   * exactly what `splitlines()` returns.
   */
  lemma {:induction false} SplitsAreSplitLines(s: string, lines: seq<string>, seps: seq<string>)
    requires Splits(s, lines, seps)
    ensures SplitLines(s) == lines
    decreases |lines|
  {
    if lines != [] {
      var rest := Interleave(lines[1..], seps[1..]);
      SplitsTail(s, lines, seps);
      SplitsAreSplitLines(rest, lines[1..], seps[1..]);
      if seps[0] == [] {
        assert |lines| == 1 && s == lines[0];
        assert FirstBreak(s) == |s|;
      } else {
        SplitsFirstLine(s, lines[0], seps[0], rest);
        assert lines == [lines[0]] + lines[1..];
      }
    }
  }

  /** Dropping the first line and its boundary leaves a decomposition of the rest. */
  lemma SplitsTail(s: string, lines: seq<string>, seps: seq<string>)
    requires Splits(s, lines, seps) && lines != []
    ensures s == lines[0] + seps[0] + Interleave(lines[1..], seps[1..])
    ensures Splits(Interleave(lines[1..], seps[1..]), lines[1..], seps[1..])
  {
    var ls, ss := lines[1..], seps[1..];
    forall k | 0 <= k < |ls|
      ensures NoLineBreak(ls[k]) && |ls[k]| + |ss[k]| > 0
      ensures IsBoundary(ss[k]) || (k == |ls| - 1 && ss[k] == [])
    {
      assert ls[k] == lines[k + 1] && ss[k] == seps[k + 1];
    }
    forall k | 0 <= k < |ls| && ss[k] == "\r"
      ensures !StartsWith(Interleave(ls[k + 1..], ss[k + 1..]), "\n")
    {
      assert ss[k] == seps[k + 1];
      assert ls[k + 1..] == lines[k + 2..] && ss[k + 1..] == seps[k + 2..];
    }
  }

  /** A line, a boundary and a rest: the line is where `splitlines()` cuts first. */
  lemma SplitsFirstLine(s: string, line: string, sep: string, rest: string)
    requires s == line + sep + rest && NoLineBreak(line) && IsBoundary(sep)
    requires sep == "\r" ==> !StartsWith(rest, "\n")
    ensures FirstBreak(s) == |line| < |s| && NextLine(s) == |line| + |sep|
    ensures s[..|line|] == line && s[|line| + |sep|..] == rest
  {
    assert s[..|line|] == line;
    FirstBreakAt(s, |line|);
    if sep == "\r\n" {
      assert s[|line| + 1] == '\n';
    } else if |line| + 1 < |s| {
      assert s[|line| + 1] == rest[0];
    }
    assert s[|line| + |sep|..] == rest;
  }

  /** A boundary with none before it is the first one. */
  lemma {:induction false} FirstBreakAt(s: string, i: nat)
    requires i < |s| && NoLineBreak(s[..i]) && IsLineBreak(s[i])
    ensures FirstBreak(s) == i
  {
    if i > 0 {
      assert s[..i][0] == s[0];
      assert s[1..][..i - 1] == s[..i][1..];
      FirstBreakAt(s[1..], i - 1);
    }
  }

  /** The first line and its boundary in front of a decomposition of the rest. */
  lemma SplitsCons(s: string, i: nat, j: nat, lines: seq<string>, seps: seq<string>)
    requires i < |s| && FirstBreak(s) == i && j == NextLine(s)
    requires Splits(s[j..], lines, seps)
    ensures Splits(s, [s[..i]] + lines, [s[i..j]] + seps)
  {
    SplitsHead(s, i, j);
    SplitsPrepend(s[..i], s[i..j], s[j..], lines, seps);
    ThreeParts(s, i, j);
  }

  lemma ThreeParts(s: string, i: nat, j: nat)
    requires i <= j <= |s|
    ensures s[..i] + s[i..j] + s[j..] == s
  {
    assert s[..i] + s[i..j] == s[..j];
  }

  /** A line without a boundary, then a boundary, then a decomposed rest, is decomposed. */
  lemma SplitsPrepend(line: string, sep: string, rest: string, lines: seq<string>, seps: seq<string>)
    requires NoLineBreak(line) && IsBoundary(sep)
    requires sep == "\r" ==> !StartsWith(rest, "\n")
    requires Splits(rest, lines, seps)
    ensures Splits(line + sep + rest, [line] + lines, [sep] + seps)
  {
    var ls, ss := [line] + lines, [sep] + seps;
    assert ls[1..] == lines && ss[1..] == seps;
    assert Interleave(ls, ss) == line + sep + rest;
    forall k | 0 <= k < |ls|
      ensures NoLineBreak(ls[k]) && |ls[k]| + |ss[k]| > 0
      ensures IsBoundary(ss[k]) || (k == |ls| - 1 && ss[k] == [])
    {
      if k > 0 {
        assert ls[k] == lines[k - 1] && ss[k] == seps[k - 1];
      }
    }
    forall k | 0 <= k < |ls| && ss[k] == "\r"
      ensures !StartsWith(Interleave(ls[k + 1..], ss[k + 1..]), "\n")
    {
      if k > 0 {
        assert ls[k + 1..] == lines[k..] && ss[k + 1..] == seps[k..];
        assert ss[k] == seps[k - 1];
      }
    }
  }

  /** The boundary after the first line is a whole boundary and not half of a `\r\n`. */
  lemma SplitsHead(s: string, i: nat, j: nat)
    requires i < |s| && FirstBreak(s) == i && j == NextLine(s)
    ensures IsBoundary(s[i..j])
    ensures s[i..j] == "\r" ==> !StartsWith(s[j..], "\n")
  {
    BoundaryWhole(s, i);
    BoundaryNotHalf(s, i);
  }

  /** The characters `splitlines()` drops at a boundary form one boundary. */
  lemma BoundaryWhole(s: string, i: nat)
    requires i < |s| && IsLineBreak(s[i])
    ensures IsBoundary(s[i..i + BreakLength(s, i)])
  {
    if BreakLength(s, i) == 1 {
      assert s[i..i + 1] == [s[i]];
    }
  }

  /** A `\r` dropped on its own is not followed by `\n`. */
  lemma BoundaryNotHalf(s: string, i: nat)
    requires i < |s|
    ensures s[i..i + BreakLength(s, i)] == "\r" ==> !StartsWith(s[i + BreakLength(s, i)..], "\n")
  {
    if BreakLength(s, i) == 1 && i + 1 < |s| {
      assert s[i + 1..][..1] == [s[i + 1]];
    }
  }

  // ---------------------------------------------------------------------------
  // Python floats

  /** 2^970, the weight of half a unit in the last place of the largest finite double. */
  const TwoTo970: nat := 0x400_0000_0000_0000_0000_0000_0000_0000_0000_0000_0000_0000_0000_0000_0000_0000_0000_0000_0000_0000_0000_0000_0000_0000_0000_0000_0000_0000_0000_0000_0000_0000_0000_0000_0000_0000_0000_0000_0000_0000_0000_0000_0000_0000_0000_0000_0000_0000_0000_0000_0000_0000_0000_0000_0000_0000_0000_0000_0000_0000_0000

  /**
   * The least magnitude that does not fit a double: 2^1024 - 2^970. A value at or above it
   * rounds to 2^1024, so `float(n)` and `n * x` raise `OverflowError` for such an integer
   * `n`, and `a / b` raises it for integers whose quotient is that large.
   */
  const DoubleOverflow: nat := 0x3F_FFFF_FFFF_FFFF * TwoTo970

  // ---------------------------------------------------------------------------
  // Paths

  /** What `os.path.join` puts in front of a relative name: the directory, followed by `/`
    * unless it is empty or already ends with one. */
  function DirPrefix(dir: string): string
  {
    if dir == [] || EndsWith(dir, "/") then dir else dir + "/"
  }

  /** `os.path.join(dir, name)` on POSIX: an absolute name replaces the directory. */
  function PathJoin(dir: string, name: string): (p: string)
    ensures EndsWith(p, name)
    ensures !StartsWith(name, "/") ==>
      StartsWith(p, dir)
      && |p| == |dir| + |name| + (if dir == [] || EndsWith(dir, "/") then 0 else 1)
      && (dir != [] ==> |name| < |p| && p[|p| - |name| - 1] == '/')
  {
    if StartsWith(name, "/") then name
    else
      assert DirPrefix(dir)[..|dir|] == dir;
      assert (DirPrefix(dir) + name)[..|dir|] == dir;
      DirPrefix(dir) + name
  }

  /** Helper: a relative name is joined by the else branch of `PathJoin`. */
  lemma JoinRelative(dir: string, name: string)
    requires name != [] && name[0] != '/'
    ensures PathJoin(dir, name) == DirPrefix(dir) + name
  {
    assert name[..1] == [name[0]];
  }

  /** Joining never changes the extension a lower-cased name ends with. */
  lemma JoinKeepsExtension(dir: string, name: string, ext: string)
    requires '/' !in ext
    ensures EndsWith(Lower(PathJoin(dir, name)), ext) <==> EndsWith(Lower(name), ext)
  {
    if !StartsWith(name, "/") && dir != [] {
      var a := if EndsWith(dir, "/") then dir[..|dir| - 1] else dir;
      assert PathJoin(dir, name) == a + "/" + name;
      SlashKeepsExtension(a, name, ext);
    }
  }

  lemma SlashKeepsExtension(a: string, name: string, ext: string)
    requires '/' !in ext
    ensures EndsWith(Lower(a + "/" + name), ext) <==> EndsWith(Lower(name), ext)
  {
    var lp := Lower(a + "/" + name);
    LowerAppend(a + "/", name);
    LowerAppend(a, "/");
    assert lp == Lower(a) + "/" + Lower(name);
    if |ext| <= |name| {
      assert lp[|lp| - |ext|..] == Lower(name)[|name| - |ext|..];
    } else if EndsWith(lp, ext) {
      SuffixReachesSlash(Lower(a), Lower(name), ext);
      assert false;
    }
  }

  lemma SuffixReachesSlash(a: string, b: string, ext: string)
    requires |ext| > |b| && EndsWith(a + "/" + b, ext)
    ensures '/' in ext
  {
    var p := a + "/" + b;
    var k := |ext| - |b| - 1;
    assert ext[k] == p[|p| - |ext| + k];
  }
}

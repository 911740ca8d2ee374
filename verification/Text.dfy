/** Python text primitives on `string`: whitespace, stripping, `find`, `rfind` of a newline. */
module Text {

  /** Code points of Python's whitespace, as inclusive ranges. */
  const SPACE_RANGES: seq<(char, char)> :=
    [('\U{0009}', '\U{000D}'), ('\U{001C}', '\U{0020}'), ('\U{0085}', '\U{0085}'),
     ('\U{00A0}', '\U{00A0}'), ('\U{1680}', '\U{1680}'), ('\U{2000}', '\U{200A}'),
     ('\U{2028}', '\U{2029}'), ('\U{202F}', '\U{202F}'), ('\U{205F}', '\U{205F}'),
     ('\U{3000}', '\U{3000}')]

  /** `str.isspace` for one character; `strip`, `rstrip` and the `\s` of a regex all use this set. */
  predicate IsSpace(c: char) {
    exists k | 0 <= k < |SPACE_RANGES| :: SPACE_RANGES[k].0 <= c <= SPACE_RANGES[k].1
  }

  lemma SpaceFacts()
    ensures IsSpace(' ') && IsSpace('\t') && IsSpace('\n') && !IsSpace('#') && !IsSpace('-')
  {
    assert SPACE_RANGES[0].0 <= '\t' < '\n' <= SPACE_RANGES[0].1;
    assert SPACE_RANGES[1].0 <= ' ' <= SPACE_RANGES[1].1;
  }

  /** Which of the ranges a character would be in. */
  function RangeOf(c: char): nat {
    if c <= '\U{000D}' then 0 else if c <= '\U{0020}' then 1 else if c <= '\U{0085}' then 2
    else if c <= '\U{00A0}' then 3 else if c <= '\U{1680}' then 4 else if c <= '\U{200A}' then 5
    else if c <= '\U{2029}' then 6 else if c <= '\U{202F}' then 7 else if c <= '\U{205F}' then 8 else 9
  }

  lemma SpaceInRange(c: char)
    ensures IsSpace(c) <==> var range := SPACE_RANGES[RangeOf(c)]; range.0 <= c <= range.1
  {
  }

  /** The 29 whitespace characters one by one. */
  lemma SpacesAre(c: char)
    ensures IsSpace(c) <==>
            c in ['\U{0009}', '\U{000A}', '\U{000B}', '\U{000C}', '\U{000D}', '\U{001C}', '\U{001D}', '\U{001E}',
                  '\U{001F}', '\U{0020}', '\U{0085}', '\U{00A0}', '\U{1680}', '\U{2000}', '\U{2001}', '\U{2002}',
                  '\U{2003}', '\U{2004}', '\U{2005}', '\U{2006}', '\U{2007}', '\U{2008}', '\U{2009}', '\U{200A}',
                  '\U{2028}', '\U{2029}', '\U{202F}', '\U{205F}', '\U{3000}']
  {
    hide IsSpace, SPACE_RANGES;
    SpaceRanges(c);
  }

  lemma SpaceRanges(c: char)
    ensures IsSpace(c) <==>
            || '\U{0009}' <= c <= '\U{000D}' || '\U{001C}' <= c <= '\U{0020}'
            || c in ['\U{0085}', '\U{00A0}', '\U{1680}']
            || '\U{2000}' <= c <= '\U{200A}' || '\U{2028}' <= c <= '\U{2029}'
            || c in ['\U{202F}', '\U{205F}', '\U{3000}']
  {
    SpaceInRange(c);
    hide IsSpace;
  }

  /** Every character of `s[from..to]` is whitespace. */
  predicate SpaceIn(s: string, from: int, to: int) {
    forall i | from <= i < to && 0 <= i < |s| :: IsSpace(s[i])
  }

  predicate Blank(s: string) {
    SpaceIn(s, 0, |s|)
  }

  /** Neither end of `s` is whitespace. */
  predicate Trimmed(s: string) {
    s == [] || (!IsSpace(s[0]) && !IsSpace(s[|s| - 1]))
  }

  /** `s.rstrip()`: the longest prefix that does not end in whitespace. */
  function Rstrip(s: string): (r: string)
    ensures r <= s && SpaceIn(s, |r|, |s|)
    ensures r == [] || !IsSpace(r[|r| - 1])
  {
    if s != [] && IsSpace(s[|s| - 1]) then Rstrip(s[..|s| - 1]) else s
  }

  lemma RstripIs(s: string, r: string)
    requires r <= s && SpaceIn(s, |r|, |s|)
    requires r == [] || !IsSpace(r[|r| - 1])
    ensures Rstrip(s) == r
  {
    assert |Rstrip(s)| == |r|;
  }

  /** `s.lstrip()`: the longest suffix that does not start with whitespace. */
  function Lstrip(s: string): (r: string)
    ensures |r| <= |s| && r == s[|s| - |r|..] && SpaceIn(s, 0, |s| - |r|)
    ensures r == [] || !IsSpace(r[0])
  {
    if s != [] && IsSpace(s[0]) then Lstrip(s[1..]) else s
  }

  /** `s.strip()`. */
  function Strip(s: string): (r: string)
    ensures Trimmed(r)
  {
    Rstrip(Lstrip(s))
  }

  lemma LstripAt(s: string) returns (i: nat)
    ensures i <= |s| && Lstrip(s) == s[i..] && SpaceIn(s, 0, i)
  {
    hide IsSpace;
    i := |s| - |Lstrip(s)|;
  }

  lemma RstripAt(s: string) returns (k: nat)
    ensures k <= |s| && Rstrip(s) == s[..k] && SpaceIn(s, k, |s|)
  {
    hide IsSpace;
    k := |Rstrip(s)|;
  }

  /** Stripping removes whitespace on both sides and nothing else. */
  lemma StripSlice(s: string) returns (i: nat, j: nat)
    ensures i <= j <= |s| && Strip(s) == s[i..j]
    ensures SpaceIn(s, 0, i) && SpaceIn(s, j, |s|)
  {
    hide IsSpace, SpaceIn, Lstrip, Rstrip;
    i := LstripAt(s);
    var k := RstripAt(s[i..]);
    j := i + k;
    assert s[i..][..k] == s[i..j];
    SpaceInTail(s, i, k);
  }

  lemma SpaceInTail(s: string, i: nat, k: nat)
    requires i + k <= |s| && SpaceIn(s[i..], k, |s| - i)
    ensures SpaceIn(s, i + k, |s|)
  {
    hide IsSpace;
    forall m | i + k <= m < |s|
      ensures IsSpace(s[m])
    {
      assert s[i..][m - i] == s[m];
    }
  }

  /** `s[i..j]` is empty or starts and ends with something other than whitespace. */
  predicate TrimmedIn(s: string, i: nat, j: nat) {
    i <= j <= |s| && (i < j ==> !IsSpace(s[i]) && !IsSpace(s[j - 1]))
  }

  lemma TrimmedInIff(s: string, i: nat, j: nat)
    requires i <= j <= |s|
    ensures Trimmed(s[i..j]) <==> TrimmedIn(s, i, j)
  {
    hide IsSpace;
    var t := s[i..j];
    assert i < j ==> t[0] == s[i] && t[|t| - 1] == s[j - 1];
  }

  lemma OneCore(s: string, i: nat, j: nat, a: nat, b: nat)
    requires TrimmedIn(s, i, j) && SpaceIn(s, 0, i) && SpaceIn(s, j, |s|)
    requires TrimmedIn(s, a, b) && SpaceIn(s, 0, a) && SpaceIn(s, b, |s|)
    ensures (a == i && b == j) || (a == b && i == j)
  {
    hide IsSpace;
  }

  lemma StripIs(s: string, i: nat, j: nat)
    requires i <= j <= |s| && SpaceIn(s, 0, i) && SpaceIn(s, j, |s|)
    requires Trimmed(s[i..j])
    ensures Strip(s) == s[i..j]
  {
    var a, b := StripSlice(s);
    var t := Strip(s);
    assert Trimmed(t);
    hide IsSpace, SpaceIn, Strip, Trimmed;
    TrimmedInIff(s, i, j);
    TrimmedInIff(s, a, b);
    OneCore(s, i, j, a, b);
    assert a == b ==> s[a..b] == [] && s[i..j] == [];
  }

  lemma StripTrimmed(s: string)
    requires Trimmed(s)
    ensures Strip(s) == s
  {
    assert s[0..|s|] == s;
    StripIs(s, 0, |s|);
  }

  /** Pattern `p` occurs in `s` at offset `i`. */
  predicate At(s: string, i: int, p: string) {
    0 <= i && i + |p| <= |s| && s[i..i + |p|] == p
  }

  /** `p in s`. */
  predicate Contains(s: string, p: string) {
    exists i | 0 <= i <= |s| :: At(s, i, p)
  }

  /** `s.find(p, from)`: the first occurrence at or after `from`, or -1. */
  function Find(s: string, p: string, from: nat := 0): (r: int)
    ensures r == -1 ==> forall i | from <= i :: !At(s, i, p)
    ensures r != -1 ==> from <= r && At(s, r, p) && forall i | from <= i < r :: !At(s, i, p)
    decreases |s| - from
  {
    if from + |p| > |s| then -1
    else if At(s, from, p) then from
    else Find(s, p, from + 1)
  }

  /** One past the last newline before `i`, or 0: the start of the line that holds offset `i`. */
  function LineStart(s: string, i: nat): (r: nat)
    requires i <= |s|
    ensures r <= i
    ensures forall k | r <= k < i :: s[k] != '\n'
    ensures r == 0 || s[r - 1] == '\n'
  {
    if i == 0 || s[i - 1] == '\n' then i else LineStart(s, i - 1)
  }

  /** Every line followed by a newline, concatenated. */
  function Lines(lines: seq<string>): string {
    if lines == [] then "" else lines[0] + "\n" + Lines(lines[1..])
  }

  lemma {:induction false} LinesConcat(xs: seq<string>, ys: seq<string>)
    ensures Lines(xs + ys) == Lines(xs) + Lines(ys)
  {
    if xs == [] {
      assert xs + ys == ys;
    } else {
      assert (xs + ys)[1..] == xs[1..] + ys;
      LinesConcat(xs[1..], ys);
      assert Lines(xs + ys) == (xs[0] + "\n") + (Lines(xs[1..]) + Lines(ys));
    }
  }

  /** `sep.join(parts)`. */
  function Join(sep: string, parts: seq<string>): string {
    if parts == [] then ""
    else if |parts| == 1 then parts[0]
    else parts[0] + sep + Join(sep, parts[1..])
  }

  lemma {:induction false} JoinLines(parts: seq<string>)
    requires parts != []
    ensures Join("\n", parts) + "\n" == Lines(parts)
  {
    if |parts| == 1 {
      assert parts[1..] == [];
    } else {
      JoinLines(parts[1..]);
    }
  }

  /** A character at which `str.splitlines` ends a line. */
  predicate IsLineBreak(c: char) {
    || '\U{000A}' <= c <= '\U{000D}'
    || '\U{001C}' <= c <= '\U{001E}'
    || c == '\U{0085}' || c == '\U{2028}' || c == '\U{2029}'
  }

  /** Line feed, tabulations, carriage return, separators, next line. */
  lemma LineBreaksAre(c: char)
    ensures IsLineBreak(c) <==>
            c in ['\U{000A}', '\U{000B}', '\U{000C}', '\U{000D}', '\U{001C}', '\U{001D}', '\U{001E}', '\U{0085}',
                  '\U{2028}', '\U{2029}']
  {
  }

  predicate OneLine(s: string) {
    forall i | 0 <= i < |s| :: !IsLineBreak(s[i])
  }

  function FirstBreak(s: string): (r: nat)
    ensures r <= |s| && OneLine(s[..r])
    ensures r < |s| ==> IsLineBreak(s[r])
  {
    if s == [] || IsLineBreak(s[0]) then 0 else 1 + FirstBreak(s[1..])
  }

  /** Characters of the line break at offset `i`. */
  function BreakWidth(s: string, i: nat): (w: nat)
    requires i < |s|
    ensures 0 < w && i + w <= |s|
  {
    if s[i] == '\r' && i + 1 < |s| && s[i + 1] == '\n' then 2 else 1
  }

  /** `s.splitlines()`. */
  function Splitlines(s: string): seq<string>
    decreases |s|
  {
    if s == [] then []
    else
      var i := FirstBreak(s);
      if i == |s| then [s] else [s[..i]] + Splitlines(s[i + BreakWidth(s, i)..])
  }

  lemma FirstBreakOf(line: string, rest: string)
    requires OneLine(line)
    ensures FirstBreak(line + "\n" + rest) == |line|
  {
    var s := line + "\n" + rest;
    var r := FirstBreak(s);
    assert s[|line|] == '\n' && forall k | 0 <= k < |line| :: s[k] == line[k];
  }

  lemma FirstBreakInside(s: string)
    requires !OneLine(s)
    ensures FirstBreak(s) < |s| && IsLineBreak(s[FirstBreak(s)])
  {
    assert s[..|s|] == s;
  }

  lemma FirstBreakIsAt(s: string, i: nat)
    requires i < |s| && IsLineBreak(s[i]) && OneLine(s[..i])
    ensures FirstBreak(s) == i
  {
    hide IsLineBreak;
    var r := FirstBreak(s);
    assert forall k | 0 <= k < i :: s[k] == s[..i][k];
    assert forall k | 0 <= k < r :: s[k] == s[..r][k];
  }

  /** A text cut at its first line break. */
  lemma CutLine(s: string, i: nat, w: nat)
    requires i < |s| && FirstBreak(s) == i && BreakWidth(s, i) == w
    ensures Splitlines(s) == [s[..i]] + Splitlines(s[i + w..])
  {
  }

  /** A newline always ends a line: the lines before it and after it are cut independently. */
  lemma {:induction false} SplitlinesAppend(a: string, b: string)
    ensures Splitlines(a + "\n" + b) == Splitlines(a + "\n") + Splitlines(b)
    decreases |a|
  {
    hide OneLine, FirstBreak, IsLineBreak, Splitlines;
    var t := a + "\n";
    var s := t + b;
    var i := NewlineBreaks(a, b);
    var w := BreakWidth(t, i);
    SameWidth(t, b, i);
    CutLine(t, i, w);
    CutLine(s, i, w);
    assert s[..i] == t[..i];
    if i + w == |t| {
      assert s[i + w..] == b && t[i + w..] == "";
      NoLines();
      assert [t[..i]] + [] == [t[..i]];
    } else {
      var rest := a[i + w..];
      assert s[i + w..] == rest + "\n" + b && t[i + w..] == rest + "\n";
      SplitlinesAppend(rest, b);
      FirstThenRest(t[..i], Splitlines(rest + "\n"), Splitlines(b));
    }
  }

  lemma NoLines()
    ensures Splitlines("") == []
  {
  }

  lemma FirstThenRest(x: string, xs: seq<string>, ys: seq<string>)
    ensures [x] + (xs + ys) == ([x] + xs) + ys
  {
  }

  /** What follows a text that ends in a newline does not widen its line breaks. */
  lemma SameWidth(t: string, b: string, i: nat)
    requires i < |t| && t[|t| - 1] == '\n'
    ensures BreakWidth(t + b, i) == BreakWidth(t, i)
  {
    assert i + 1 < |t| ==> (t + b)[i + 1] == t[i + 1];
  }

  lemma NewlineBreaks(a: string, b: string) returns (i: nat)
    ensures i <= |a| && FirstBreak(a + "\n") == i && FirstBreak(a + "\n" + b) == i
  {
    var t := a + "\n";
    i := FirstBreak(t);
    assert t[|a|] == '\n';
    hide IsLineBreak;
    assert (t + b)[..i] == t[..i];
    FirstBreakIsAt(t + b, i);
  }

  lemma SplitlinesFrom(head: string, rest: string)
    requires head == "" || head[|head| - 1] == '\n'
    ensures Splitlines(head + rest) == Splitlines(head) + Splitlines(rest)
  {
    hide Splitlines;
    if head == "" {
      NoLines();
      assert head + rest == rest && [] + Splitlines(rest) == Splitlines(rest);
    } else {
      var a := head[..|head| - 1];
      assert head == a + "\n";
      SplitlinesAppend(a, rest);
    }
  }

  /** A line break, with `rest` behind it, that ends a line; only behind the last line there may be none. */
  predicate EndsLine(end: string, line: string, rest: string) {
    || end == "\r\n"
    || (|end| == 1 && IsLineBreak(end[0]) && !(end == "\r" && "\n" <= rest))
    || (end == "" && line != "" && rest == "")
  }

  /** A text is its lines, without breaks inside, each with the break that ends it. */
  ghost predicate CutsInto(s: string, lines: seq<string>)
    decreases |lines|
  {
    if lines == [] then s == ""
    else OneLine(lines[0]) && exists end, rest | EndsLine(end, lines[0], rest) ::
           s == lines[0] + end + rest && CutsInto(rest, lines[1..])
  }

  lemma {:induction false} SplitlinesAre(s: string)
    ensures CutsInto(s, Splitlines(s))
    decreases |s|
  {
    hide OneLine, FirstBreak, IsLineBreak, CutsInto, Splitlines, EndsLine;
    if s == "" {
      NoLines();
      NothingToCut();
    } else {
      var i := FirstBreak(s);
      if i == |s| {
        WholeIsLine(s);
      } else {
        var w := BreakWidth(s, i);
        var line, end, rest := s[..i], s[i..i + w], s[i + w..];
        SplitlinesAre(rest);
        CutLine(s, i, w);
        BreakEnds(s, i);
        CutsOnce(line, end, rest, Splitlines(rest));
        assert s == line + end + rest;
      }
    }
  }

  lemma NothingToCut()
    ensures CutsInto("", [])
  {
  }

  lemma BreakEnds(s: string, i: nat)
    requires i < |s| && IsLineBreak(s[i])
    ensures var w := BreakWidth(s, i); EndsLine(s[i..i + w], s[..i], s[i + w..])
  {
    hide IsLineBreak;
    var w := BreakWidth(s, i);
    if w == 2 {
      assert s[i..i + w] == "\r\n";
    } else {
      assert s[i..i + w] == [s[i]];
      assert "\n" <= s[i + w..] ==> s[i + w] == s[i + w..][0] == '\n';
      assert s[i..i + w] == "\r" ==> s[i] == '\r';
    }
  }

  lemma CutsOnce(line: string, end: string, rest: string, lines: seq<string>)
    requires OneLine(line) && EndsLine(end, line, rest) && CutsInto(rest, lines)
    ensures CutsInto(line + end + rest, [line] + lines)
  {
    hide OneLine, EndsLine;
    assert ([line] + lines)[1..] == lines;
  }

  lemma WholeIsLine(s: string)
    requires s != "" && FirstBreak(s) == |s|
    ensures CutsInto(s, Splitlines(s))
  {
    hide IsLineBreak;
    assert s[..|s|] == s && s == s + "" + "" && [s][1..] == [];
    assert EndsLine("", s, "");
  }

  lemma {:induction false} SplitlinesOfLines(lines: seq<string>)
    requires forall i | 0 <= i < |lines| :: OneLine(lines[i])
    ensures Splitlines(Lines(lines)) == lines
  {
    hide OneLine, FirstBreak, IsLineBreak;
    if lines == [] {
    } else {
      var s, rest := Lines(lines), Lines(lines[1..]);
      FirstBreakOf(lines[0], rest);
      SplitlinesOfLines(lines[1..]);
      assert s == lines[0] + "\n" + rest;
      assert s[|lines[0]|] == '\n';
      assert s[..|lines[0]|] == lines[0] && s[|lines[0]| + 1..] == rest;
    }
  }

  /** Decimal digits of `n`, as an f-string prints them. */
  function Decimal(n: nat): (r: string)
    ensures r != [] && forall i | 0 <= i < |r| :: '0' <= r[i] <= '9'
  {
    if n < 10 then [Digit(n)] else Decimal(n / 10) + [Digit(n % 10)]
  }

  function Digit(d: nat): char
    requires d < 10
  {
    ['0', '1', '2', '3', '4', '5', '6', '7', '8', '9'][d]
  }

  /** `s` is the number `n` in decimal digits, without a leading zero. */
  predicate ReadsAs(s: string, n: nat) {
    && s != "" && (forall i | 0 <= i < |s| :: '0' <= s[i] <= '9')
    && (|s| > 1 ==> s[0] != '0')
    && Number(s) == n
  }

  /** The value of a digit string, place by place. */
  function Number(s: string): int {
    if s == "" then 0 else 10 * Number(s[..|s| - 1]) + (s[|s| - 1] as int - '0' as int)
  }

  lemma {:induction false} DecimalReads(n: nat)
    ensures ReadsAs(Decimal(n), n)
  {
    if n < 10 {
      var s := Decimal(n);
      assert s == [Digit(n)] && s[..|s| - 1] == "";
    } else {
      DecimalReads(n / 10);
      var s := Decimal(n);
      assert s == Decimal(n / 10) + [Digit(n % 10)];
      assert s[..|s| - 1] == Decimal(n / 10) && s[|s| - 1] == Digit(n % 10);
      NoZeroFront(n);
    }
  }

  lemma {:induction false} NoZeroFront(n: nat)
    ensures n > 0 ==> Decimal(n)[0] != '0'
  {
    if n >= 10 {
      NoZeroFront(n / 10);
    }
  }

  // ---------- one character ----------

  lemma CharAt(s: string, i: nat, c: char)
    ensures At(s, i, [c]) <==> i < |s| && s[i] == c
  {
    if i < |s| {
      assert s[i..i + 1] == [s[i]];
    }
  }

  /** Finding one character: the first place it stands at. */
  lemma FindChar(s: string, c: char)
    ensures var k := Find(s, [c]);
            if k == -1 then c !in s else k < |s| && s[k] == c && c !in s[..k]
  {
    hide At;
    forall k: nat
      ensures At(s, k, [c]) <==> k < |s| && s[k] == c
    {
      CharAt(s, k, c);
    }
  }

  lemma FindCharIs(front: string, c: char, rear: string)
    requires c !in front
    ensures Find(front + [c] + rear, [c]) == |front|
  {
    hide Find;
    var s := front + [c] + rear;
    FindChar(s, c);
    assert s[|front|] == c && forall i | 0 <= i < |front| :: s[i] == front[i];
    var k := Find(s, [c]);
    if k != -1 {
      assert forall i | 0 <= i < k :: s[..k][i] == s[i];
    }
  }
}

/** What stack-control reads of the chain in an arbitrary env text, and when that is what was written. */
module ComposeEnvReadBack {
  import opened ComposeEnv
  import opened ComposeEnvChain
  import opened ComposeEnvLaws
  import opened ComposeEnvStack
  import opened Splitting
  import opened Text

  /** The text in front of the line that `Chain` writes. */
  function HeadText(content: string): string {
    var lines := SplitOn(content, '\n');
    var i := FirstAssigned(lines);
    if i == |lines| then Terminated(content) else Lines(lines[..i])
  }

  /** The chain that `Chain` extends. */
  function OldChain(content: string): string {
    var lines := SplitOn(content, '\n');
    var i := FirstAssigned(lines);
    if i == |lines| then DEFAULT else Strip(Assigned(lines[i]).value)
  }

  /** stack-control reads an assignment in front of that line. */
  predicate HeadReads(content: string) {
    exists line <- Splitlines(HeadText(content)) :: Seen(line)
  }

  // ---------- the written text around the chain ----------

  lemma {:induction false} JoinFront(before: seq<string>, line: string, after: seq<string>)
    ensures Join("\n", before + [line] + after)
         == Lines(before) + (line + if after == [] then "" else "\n" + Join("\n", after))
  {
    var all := before + [line] + after;
    if before == [] {
      assert all == [line] + after && all[1..] == after;
    } else {
      JoinFront(before[1..], line, after);
      assert all[1..] == before[1..] + [line] + after;
      var rest := line + if after == [] then "" else "\n" + Join("\n", after);
      assert before[0] + "\n" + (Lines(before[1..]) + rest) == before[0] + "\n" + Lines(before[1..]) + rest;
    }
  }

  lemma {:induction false} LinesEnd(lines: seq<string>)
    ensures Lines(lines) == "" || Lines(lines)[|Lines(lines)| - 1] == '\n'
  {
    if lines == [] {
    } else {
      LinesEnd(lines[1..]);
    }
  }

  /** `HeadText` is empty or ends a line. */
  lemma HeadEnds(content: string)
    ensures var head := HeadText(content); head == "" || head[|head| - 1] == '\n'
  {
    hide Assigned;
    var lines := SplitOn(content, '\n');
    LinesEnd(lines[..FirstAssigned(lines)]);
  }

  lemma WrittenText(content: string, out: string) returns (tail: string)
    requires Chain(content) == Changed(out)
    ensures out == HeadText(content) + (AssignmentLine(OldChain(content) + ":" + OVERRIDE) + tail)
    ensures tail == "" || tail[0] == '\n'
    ensures var value := OldChain(content);
            && Trimmed(value) && '\n' !in value && Files(content) == Parts(value)
  {
    hide Assigned, Strip, IsSpace, AssignmentLine, Parts, OVERRIDE, DEFAULT, Terminated, Chain, Trimmed;
    var before, value, after := ChainShape(content, out);
    var lines := SplitOn(content, '\n');
    if FirstAssigned(lines) == |lines| {
      tail := "\n";
    } else {
      tail := if after == [] then "" else "\n" + Join("\n", after);
      JoinFront(before, AssignmentLine(value + ":" + OVERRIDE), after);
      JoinSplit(out, '\n');
    }
  }

  lemma {:induction false} FirstReadConcat(xs: seq<string>, ys: seq<string>, fallback: string)
    ensures FirstRead(xs + ys, fallback) ==
            if exists line <- xs :: Seen(line) then FirstRead(xs, fallback) else FirstRead(ys, fallback)
  {
    hide Seen;
    if xs == [] {
      assert xs + ys == ys;
    } else {
      assert (xs + ys)[1..] == xs[1..] + ys;
      FirstReadConcat(xs[1..], ys, fallback);
      assert xs == [xs[0]] + xs[1..];
    }
  }

  // ---------- the line that stack-control gets ----------

  /** The written value as far as its first line break. */
  function FirstLine(value: string): string {
    if OneLine(value) then value + ":" + OVERRIDE else value[..FirstBreak(value)]
  }

  lemma ConstantsAreOneLine()
    ensures OneLine(KEY + "=") && OneLine(":" + OVERRIDE)
  {
    assert forall i | 0 <= i < |KEY| :: 'A' <= KEY[i] <= '_';
    assert forall i | 0 <= i < |OVERRIDE| :: '-' <= OVERRIDE[i] <= 'z';
  }

  lemma OneLineJoined(a: string, b: string)
    ensures OneLine(a + b) <==> OneLine(a) && OneLine(b)
  {
    hide IsLineBreak;
    assert forall i | 0 <= i < |a| :: (a + b)[i] == a[i];
    assert forall i | 0 <= i < |b| :: (a + b)[|a| + i] == b[i];
  }

  lemma FirstLineOf(line: string, tail: string)
    requires OneLine(line) && line != "" && (tail == "" || IsLineBreak(tail[0]))
    ensures Splitlines(line + tail) != [] && Splitlines(line + tail)[0] == line
  {
    hide OneLine, IsLineBreak;
    var s := line + tail;
    assert s[..|line|] == line;
    if tail == "" {
      assert s == line;
      FirstBreakNone(s);
    } else {
      assert s[|line|] == tail[0];
      FirstBreakIsAt(s, |line|);
    }
  }

  lemma CutAfterBreak(head: string, value: string, tail: string)
    requires OneLine(head) && !OneLine(value) && head != ""
    ensures var cut := head + value[..FirstBreak(value)];
            OneLine(cut) && exists rest :: head + value + tail == cut + rest && rest != "" && IsLineBreak(rest[0])
  {
    FirstBreakInside(value);
    hide OneLine, IsLineBreak;
    var k := FirstBreak(value);
    OneLineJoined(head, value[..k]);
    var rest := value[k..] + tail;
    assert head + value + tail == head + value[..k] + rest && rest[0] == value[k];
  }

  /** The first line of the written assignment carries the written value up to its first line break. */
  lemma WrittenLine(value: string, tail: string)
    requires tail == "" || tail[0] == '\n'
    ensures var lines := Splitlines(AssignmentLine(value + ":" + OVERRIDE) + tail);
            lines != [] && lines[0] == AssignmentLine(FirstLine(value))
  {
    ConstantsAreOneLine();
    LineBreaks('\n');
    hide OneLine, IsLineBreak, KEY, OVERRIDE, FirstBreak, Splitlines;
    var head, added := KEY + "=", ":" + OVERRIDE;
    assert AssignmentLine(value + ":" + OVERRIDE) + tail == head + value + (added + tail);
    if OneLine(value) {
      OneLineJoined(head, value);
      OneLineJoined(head + value, added);
      assert head + value + (added + tail) == (head + value + added) + tail;
      assert AssignmentLine(FirstLine(value)) == head + value + added;
      FirstLineOf(head + value + added, tail);
    } else {
      CutAfterBreak(head, value, added + tail);
      var cut := head + value[..FirstBreak(value)];
      var rest :| head + value + (added + tail) == cut + rest && rest != "" && IsLineBreak(rest[0]);
      FirstLineOf(cut, rest);
    }
  }

  lemma CoreKeepsFront(value: string)
    requires value != "" && !IsSpace(value[0])
    ensures var w := Rstrip(value); w != "" && w <= value && Trimmed(w) && SpaceIn(value, |w|, |value|)
  {
    hide IsSpace;
  }

  lemma StripIsRstrip(value: string)
    requires value != "" && !IsSpace(value[0])
    ensures Strip(value) == Rstrip(value)
  {
    hide IsSpace, Strip, Rstrip, Trimmed;
    CoreKeepsFront(value);
    var w := Rstrip(value);
    assert value[0..|w|] == w && SpaceIn(value, 0, 0);
    StripIs(value, 0, |w|);
  }

  lemma SpaceBehind(head: string, value: string, n: nat)
    requires n <= |value| && SpaceIn(value, n, |value|)
    ensures SpaceIn(head + value, |head| + n, |head + value|)
  {
    hide IsSpace;
    forall k | |head| + n <= k < |head + value|
      ensures IsSpace((head + value)[k])
    {
      assert (head + value)[k] == value[k - |head|];
    }
  }

  lemma StripAssignment(value: string)
    requires value != "" && !IsSpace(value[0])
    ensures Strip(AssignmentLine(value)) == AssignmentLine(Rstrip(value))
  {
    KeyHead();
    hide KEY, IsSpace, Strip, Rstrip, Trimmed, SpaceIn;
    CoreKeepsFront(value);
    var w, line, n := Rstrip(value), AssignmentLine(value), |KEY| + 1 + |Rstrip(value)|;
    assert value == w + value[|w|..];
    assert line[0..n] == AssignmentLine(w);
    AssignmentIsTrimmed(KEY, w);
    SpaceBehind(KEY + "=", value, |w|);
    assert SpaceIn(line, 0, 0) by { NoSpaceYet(line); }
    StripIs(line, 0, n);
  }

  lemma NoSpaceYet(s: string)
    ensures SpaceIn(s, 0, 0)
  {
  }

  /** An assignment whose value starts with no whitespace is read as that value, stripped. */
  lemma ReadUntrimmed(value: string)
    requires value != "" && !IsSpace(value[0])
    ensures Seen(AssignmentLine(value)) && Read(AssignmentLine(value)).value == Strip(value)
    ensures Strip(value) != "" && Strip(value) <= value
  {
    hide KEY, IsSpace, Strip, Rstrip;
    CoreKeepsFront(value);
    StripAssignment(value);
    StripIsRstrip(value);
    var w := Rstrip(value);
    StripTrimmed(w);
    assert AssignmentLine(w)[|KEY + "="|..] == w;
  }

  lemma FirstLineStarts(value: string)
    requires Trimmed(value)
    ensures FirstLine(value) != "" && !IsSpace(FirstLine(value)[0])
    ensures !OneLine(value) ==> Strip(FirstLine(value)) <= value
  {
    hide IsSpace, IsLineBreak, Strip, OneLine, FirstBreak, OVERRIDE, Trimmed;
    if OneLine(value) {
      WholeLineStarts(value);
    } else {
      BrokenLineStarts(value);
    }
  }

  lemma WholeLineStarts(value: string)
    requires Trimmed(value)
    ensures !IsSpace((value + ":" + OVERRIDE)[0])
  {
    assert !IsSpace(':');
    hide IsSpace, OVERRIDE;
    assert (value + ":" + OVERRIDE)[0] == if value == "" then ':' else value[0];
  }

  lemma BrokenLineStarts(value: string)
    requires Trimmed(value) && !OneLine(value)
    ensures var first := value[..FirstBreak(value)]; first != "" && !IsSpace(first[0]) && Strip(first) <= value
  {
    hide IsSpace, IsLineBreak, Strip, OneLine, FirstBreak;
    FirstBreakInside(value);
    BreakIsSpace(value[FirstBreak(value)]);
    assert FirstBreak(value) > 0;
    ReadUntrimmed(value[..FirstBreak(value)]);
  }

  lemma BreakIsSpace(c: char)
    requires IsLineBreak(c)
    ensures IsSpace(c)
  {
    LineBreaks(c);
    SpaceFacts();
  }

  // ---------- a prefix of a value has no more parts ----------

  lemma {:induction false} PrefixPieces(w: string, x: string, sep: char)
    ensures SplitOn(w, sep)[0] <= SplitOn(w + x, sep)[0]
    ensures |Stripped(SplitOn(w, sep)[1..])| <= |Stripped(SplitOn(w + x, sep)[1..])|
  {
    hide Strip;
    if w == "" {
      assert w + x == x && [""][1..] == [];
    } else {
      assert (w + x)[1..] == w[1..] + x && (w + x)[0] == w[0];
      PrefixPieces(w[1..], x, sep);
      var ws, xs := SplitOn(w[1..], sep), SplitOn(w[1..] + x, sep);
      if w[0] == sep {
        assert SplitOn(w, sep)[1..] == ws && SplitOn(w + x, sep)[1..] == xs;
        if Strip(xs[0]) == "" {
          PrefixIsBlankToo(ws[0], xs[0]);
        }
      } else {
        assert SplitOn(w, sep)[1..] == ws[1..] && SplitOn(w + x, sep)[1..] == xs[1..];
      }
    }
  }

  lemma PrefixIsBlankToo(a: string, b: string)
    requires a <= b && Strip(b) == ""
    ensures Strip(a) == ""
  {
    hide IsSpace;
    var i, j := StripSlice(b);
    assert forall k | 0 <= k < |a| :: a[k] == b[k];
    assert a[0..0] == "";
    hide Strip;
    StripIs(a, 0, 0);
  }

  lemma PrefixHasFewerParts(w: string, value: string)
    requires w <= value
    ensures |Parts(w)| <= |Parts(value)|
  {
    hide Strip;
    var x := value[|w|..];
    assert value == w + x;
    PrefixPieces(w, x, ':');
    var ws, xs := SplitOn(w, ':'), SplitOn(value, ':');
    if Strip(xs[0]) == "" {
      PrefixIsBlankToo(ws[0], xs[0]);
    }
  }

  // ---------- main results ----------

  /** What stack-control runs with after the edit, for every env text. */
  lemma StackAfterChain(content: string, out: string, fallback: string)
    requires Chain(content) == Changed(out)
    ensures StackFiles(out, fallback) ==
            if HeadReads(content) then Parts(FirstRead(Splitlines(HeadText(content)), fallback))
            else if OneLine(OldChain(content)) then Files(content) + [OVERRIDE]
            else Parts(Strip(FirstLine(OldChain(content))))
    ensures !OneLine(OldChain(content)) ==> |Parts(Strip(FirstLine(OldChain(content))))| <= |Files(content)|
  {
    hide Chain, HeadText, OldChain, Files, Splitlines, FirstRead, Parts, Strip, OneLine, AssignmentLine, OVERRIDE;
    hide FirstLine, Trimmed, Seen, Read;
    var tail := WrittenText(content, out);
    var head, value := HeadText(content), OldChain(content);
    var rest := AssignmentLine(value + ":" + OVERRIDE) + tail;
    HeadEnds(content);
    SplitlinesFrom(head, rest);
    FirstReadConcat(Splitlines(head), Splitlines(rest), fallback);
    WrittenLine(value, tail);
    FirstLineStarts(value);
    ReadUntrimmed(FirstLine(value));
    ReadsFirst(Splitlines(rest), fallback);
    WholeChain(value);
    if !OneLine(value) {
      PrefixHasFewerParts(Strip(FirstLine(value)), value);
    }
  }

  lemma ReadsFirst(lines: seq<string>, fallback: string)
    requires lines != [] && Seen(lines[0])
    ensures FirstRead(lines, fallback) == Read(lines[0]).value
  {
  }

  lemma WholeChain(value: string)
    requires Trimmed(value)
    ensures OneLine(value) ==> Parts(Strip(FirstLine(value))) == Parts(value) + [OVERRIDE]
  {
    hide OneLine, OVERRIDE, Parts, Strip, PlainName, IsSpace;
    ExtendedIsTrimmed(value);
    StripTrimmed(value + ":" + OVERRIDE);
    NamesArePlain();
    PartsAppend(value, OVERRIDE);
  }

  /**
   For every env text: after the edit stack-control runs with the files of the chain, in order, and then the
   override, exactly when no line in front of the chain gives it other files and the old chain is one line
   for it, or when a line in front happens to list just those files.
   */
  lemma StackReadsChain(content: string, out: string, fallback: string)
    requires Chain(content) == Changed(out)
    ensures StackFiles(out, fallback) == Files(content) + [OVERRIDE]
       <==> if HeadReads(content)
            then Parts(FirstRead(Splitlines(HeadText(content)), fallback)) == Files(content) + [OVERRIDE]
            else OneLine(OldChain(content))
  {
    hide Chain, StackFiles, HeadReads, HeadText, OldChain, Files, Parts, Strip, OneLine, FirstLine, FirstRead;
    StackAfterChain(content, out, fallback);
  }

  // ---------- before the edit ----------

  lemma {:induction false} TrailingNewline(s: string)
    requires s != ""
    ensures Splitlines(s + "\n") == Splitlines(s) || Splitlines(s + "\n") == Splitlines(s) + [""]
    decreases |s|
  {
    hide OneLine, IsLineBreak, FirstBreak, Splitlines;
    var t := s + "\n";
    var i := BreakOfBoth(s);
    NoLines();
    assert [t[..i]] + [] == [t[..i]];
    if i == |s| {
      WholeLine(s);
      CutLine(t, i, 1);
      assert t[..i] == s && t[i + 1..] == "";
    } else {
      var w := BreakWidth(s, i);
      var rest := s[i + w..];
      CutLine(s, i, w);
      CutLine(t, i, BreakWidth(t, i));
      assert t[..i] == s[..i] && t[|s|] == '\n';
      if rest == "" {
        LastBreak(s, i);
      } else {
        assert BreakWidth(t, i) == w by { assert t[i + 1] == s[i + 1]; }
        assert t[i + w..] == rest + "\n";
        TrailingNewline(rest);
        FirstThenRest(t[..i], Splitlines(rest), [""]);
      }
    }
  }

  lemma WholeLine(s: string)
    requires s != "" && FirstBreak(s) == |s|
    ensures Splitlines(s) == [s]
  {
  }

  /** A newline behind a text that ends in a line break: part of that break, or an empty line. */
  lemma LastBreak(s: string, i: nat)
    requires i < |s| && i + BreakWidth(s, i) == |s|
    ensures var t := s + "\n"; Splitlines(t[i + BreakWidth(t, i)..]) in {[], [""]}
  {
    OneNewline();
    hide Splitlines;
    var t := s + "\n";
    if i + 1 == |s| && s[i] == '\r' {
      assert t[i + 1] == '\n' && t[i + 2..] == "";
    } else {
      assert i + 1 < |s| ==> t[i + 1] == s[i + 1];
      assert t[|s|..] == "\n";
    }
  }

  lemma OneNewline()
    ensures Splitlines("\n") == [""] && Splitlines("") == []
  {
    assert FirstBreak("\n") == 0 && "\n"[..0] == "" && "\n"[1..] == "";
  }

  lemma BreakOfBoth(s: string) returns (i: nat)
    ensures i == FirstBreak(s) && FirstBreak(s + "\n") == i <= |s|
  {
    i := FirstBreak(s);
    var t := s + "\n";
    assert IsLineBreak('\n');
    hide IsLineBreak;
    assert t[..i] == s[..i] && t[i] == if i < |s| then s[i] else '\n';
    FirstBreakIsAt(t, i);
  }

  lemma TerminatedReads(content: string, fallback: string)
    ensures FirstRead(Splitlines(Terminated(content)), fallback) == FirstRead(Splitlines(content), fallback)
    ensures (exists line <- Splitlines(Terminated(content)) :: Seen(line))
       <==> exists line <- Splitlines(content) :: Seen(line)
  {
    hide Splitlines, Seen;
    EmptyIsNotSeen();
    if content != "" {
      TrailingNewline(content);
      FirstReadIgnoresEmpty(Splitlines(content), fallback);
    }
  }

  lemma {:induction false} NothingSeen(lines: seq<string>, fallback: string)
    requires forall line <- lines :: !Seen(line)
    ensures FirstRead(lines, fallback) == fallback
  {
    hide Seen;
    if lines == [] {
    } else {
      NothingSeen(lines[1..], fallback);
    }
  }

  /** The text from the first line the regex matches. */
  function FromAssignment(content: string): string {
    var lines := SplitOn(content, '\n');
    Join("\n", lines[FirstAssigned(lines)..])
  }

  /** What stack-control ran with before the edit, for every env text. */
  lemma StackReadBefore(content: string, fallback: string)
    ensures StackFiles(content, fallback) ==
            if HeadReads(content) then Parts(FirstRead(Splitlines(HeadText(content)), fallback))
            else if Unassigned(SplitOn(content, '\n')) then Parts(fallback)
            else Parts(FirstRead(Splitlines(FromAssignment(content)), fallback))
  {
    hide Parts, Seen, Splitlines, Assigned, FirstRead, Terminated, FromAssignment;
    var lines := SplitOn(content, '\n');
    FirstAssignedMeans(lines);
    if FirstAssigned(lines) == |lines| {
      TerminatedReads(content, fallback);
      if !HeadReads(content) {
        NothingSeen(Splitlines(content), fallback);
      }
    } else {
      HeadAndRest(content);
      HeadEnds(content);
      SplitlinesFrom(HeadText(content), FromAssignment(content));
      FirstReadConcat(Splitlines(HeadText(content)), Splitlines(FromAssignment(content)), fallback);
    }
  }

  lemma HeadAndRest(content: string)
    requires FirstAssigned(SplitOn(content, '\n')) < |SplitOn(content, '\n')|
    ensures content == HeadText(content) + FromAssignment(content)
  {
    hide Assigned, SplitOn, FirstAssigned;
    var lines := SplitOn(content, '\n');
    var i := FirstAssigned(lines);
    JoinSplit(content, '\n');
    JoinAt(lines, i);
  }

  lemma {:induction false} JoinAt(lines: seq<string>, i: nat)
    requires i < |lines|
    ensures Join("\n", lines) == Lines(lines[..i]) + Join("\n", lines[i..])
  {
    if i == 0 {
      assert lines[0..] == lines && Lines(lines[..0]) == "";
    } else {
      JoinAt(lines[1..], i - 1);
      assert lines[..i][1..] == lines[1..][..i - 1] && lines[1..][i - 1..] == lines[i..];
      FrontLine(lines[0], Lines(lines[1..][..i - 1]), Join("\n", lines[i..]));
    }
  }

  lemma FrontLine(line: string, a: string, b: string)
    ensures line + "\n" + (a + b) == line + "\n" + a + b
  {
  }

  lemma FirstAssignedMeans(lines: seq<string>)
    ensures FirstAssigned(lines) == |lines| <==> Unassigned(lines)
  {
    hide Assigned;
    assert FirstAssigned(lines) < |lines| ==> lines[FirstAssigned(lines)] in lines;
  }

  /**
   For every env text: chaining adds exactly the override to the files stack-control runs with if and only if
   no line in front of the chain is read, and it ran with the files of the old chain when that is one line,
   or with all but the last of what it reads of it when it is not.
   */
  lemma ChainExtendsStack(content: string, out: string, fallback: string)
    requires Chain(content) == Changed(out)
    ensures StackFiles(out, fallback) == StackFiles(content, fallback) + [OVERRIDE]
       <==> && !HeadReads(content)
            && if OneLine(OldChain(content)) then StackFiles(content, fallback) == Files(content)
               else Parts(Strip(FirstLine(OldChain(content)))) == StackFiles(content, fallback) + [OVERRIDE]
  {
    hide Chain, StackFiles, HeadReads, HeadText, OldChain, Files, Parts, Strip, OneLine, FirstLine, FirstRead;
    hide OVERRIDE, Splitlines;
    StackAfterChain(content, out, fallback);
    StackReadBefore(content, fallback);
    SameFront(StackFiles(content, fallback), Files(content), OVERRIDE);
  }

  // ---------- a line break inside the value ----------

  /** A form feed inside the value: stack-control reads the part in front of it, and the override is lost. */
  lemma FormFeedInValueLosesOverride(first: string, second: string, fallback: string)
    returns (content: string, out: string)
    requires PlainName(first) && PlainText(first) && '\n' !in first && '\\' !in first
    requires PlainName(second) && '\n' !in second && '\\' !in second
    ensures content == AssignmentLine(first + "\U{000C}" + second)
    ensures Chain(content) == Changed(out)
    ensures StackFiles(content, fallback) == StackFiles(out, fallback) == [first]
  {
    hide AssignmentLine, PlainText, PlainName, Chain, OldChain, HeadText, FromAssignment, HeadReads;
    hide Parts, FirstRead, Splitlines, Strip, OneLine, FirstLine, SplitOn, Files;
    content := AssignmentLine(first + "\U{000C}" + second);
    BrokenShape(first, second);
    out := Chain(content).text;
    StackAfterChain(content, out, fallback);
    StackReadBefore(content, fallback);
    BrokenRead(first, second, fallback);
    Associated(first, "\U{000C}", second);
    SingleName(first);
  }

  lemma BrokenShape(first: string, second: string)
    requires PlainName(first) && PlainText(first) && '\n' !in first && '\\' !in first
    requires PlainName(second) && '\n' !in second && '\\' !in second
    ensures var value := first + "\U{000C}" + second;
            var content := AssignmentLine(value);
            && Chain(content).Changed? && !HeadReads(content) && OldChain(content) == value
            && !Unassigned(SplitOn(content, '\n')) && FromAssignment(content) == content
            && !OneLine(value) && Strip(FirstLine(value)) == first
  {
    hide AssignmentLine, PlainText, PlainName, Assigned, Parts, Strip, Splitlines, OVERRIDE, DEFAULT, OneLine;
    hide FirstBreak, Trimmed;
    var value := first + "\U{000C}" + second;
    var content := AssignmentLine(value);
    BrokenValue(first, second);
    BrokenCut(first, second);
    NamesArePlain();
    AssignedLine(value);
    AssignmentIsOneLine(value);
    SplitWhole(content, '\n');
    StripTrimmed(value);
    NoLines();
    assert [content][..0] == [] && [content][0..] == [content] && Lines([]) == "";
    assert content in [content];
  }

  lemma BrokenCut(first: string, second: string)
    requires PlainName(first) && PlainText(first) && '\n' !in first
    ensures var value := first + "\U{000C}" + second;
            !OneLine(value) && FirstBreak(value) == |first| && value[..|first|] == first && Strip(first) == first
  {
    hide PlainText, FirstBreak, Strip, IsSpace;
    var value := first + "\U{000C}" + second;
    FirstBreakIs(first, "");
    StripTrimmed(first);
    assert value[..|first|] == first && value[|first|] == '\U{000C}';
    FirstBreakIsAt(value, |first|);
  }

  lemma BrokenRead(first: string, second: string, fallback: string)
    requires PlainName(first) && PlainText(first) && '\n' !in first
    ensures FirstRead(Splitlines(AssignmentLine(first + ("\U{000C}" + second))), fallback) == first
  {
    hide PlainText, PlainName, IsLineBreak, OneLine, Splitlines, Read, KEY, FirstBreak, Seen, FirstRead, Trimmed;
    ConstantsAreOneLine();
    FirstBreakIs(first, "");
    PlainIsTrimmed(first);
    ReadLine(first);
    FormFeedBreaks();
    var line, tail := AssignmentLine(first), "\U{000C}" + second;
    OneLineJoined(KEY + "=", first);
    FirstLineOf(line, tail);
    Associated(KEY + "=", first, tail);
    ReadsFirst(Splitlines(line + tail), fallback);
  }

  lemma Associated(a: string, b: string, tail: string)
    ensures a + b + tail == a + (b + tail)
  {
  }

  lemma FormFeedBreaks()
    ensures IsLineBreak('\U{000C}')
  {
  }

  lemma BrokenValue(first: string, second: string)
    requires PlainName(first) && PlainName(second) && '\n' !in first && '\n' !in second
    ensures var value := first + "\U{000C}" + second;
            && value != "" && Trimmed(value) && '\n' !in value && Parts(value) == [value] && value != OVERRIDE
  {
    hide IsSpace;
    var value := first + "\U{000C}" + second;
    assert value[0] == first[0] && value[|value| - 1] == second[|second| - 1];
    NamesArePlain();
    OverrideHasNoFormFeed();
    assert value[|first|] == '\U{000C}';
    hide OVERRIDE;
    SingleName(value);
  }

  lemma OverrideHasNoFormFeed()
    ensures '\U{000C}' !in OVERRIDE
  {
    assert forall i | 0 <= i < |OVERRIDE| :: '-' <= OVERRIDE[i];
  }
}

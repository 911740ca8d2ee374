/** What stack-control makes of the chain, before and after the orchestrator edits it. */
module ComposeEnvStack {
  import opened ComposeEnv
  import opened ComposeEnvChain
  import opened ComposeEnvLaws
  import opened Options
  import opened Splitting
  import opened Text

  /** A whitespace character other than blank, tab and newline. */
  predicate OddSpace(c: char) {
    IsSpace(c) && c != ' ' && c != '\t' && c != '\n'
  }

  predicate PlainText(s: string) {
    forall c <- s :: !OddSpace(c)
  }

  /** The files of the `docker compose` command stack-control builds from an env text. */
  function StackFiles(content: string, fallback: string): seq<string> {
    Parts(FirstRead(Splitlines(content), fallback))
  }

  // ---------- two ways to cut a text into lines ----------

  lemma LineBreaks(c: char)
    ensures IsLineBreak(c) ==> c == '\n' || OddSpace(c)
    ensures IsLineBreak('\n')
  {
    assert SPACE_RANGES[0] == ('\U{0009}', '\U{000D}') && SPACE_RANGES[1] == ('\U{001C}', '\U{0020}');
    assert SPACE_RANGES[2] == ('\U{0085}', '\U{0085}') && SPACE_RANGES[6] == ('\U{2028}', '\U{2029}');
  }

  lemma FirstBreakIs(a: string, b: string)
    requires PlainText(a) && '\n' !in a
    ensures FirstBreak(a + "\n" + b) == |a| && OneLine(a)
  {
    hide OddSpace;
    var s := a + "\n" + b;
    LineBreaks('\n');
    forall i | 0 <= i < |a|
      ensures !IsLineBreak(a[i])
    {
      LineBreaks(a[i]);
    }
    var r := FirstBreak(s);
    assert s[|a|] == '\n' && forall k | 0 <= k < |a| :: s[k] == a[k];
    assert forall k | 0 <= k < r :: s[..r][k] == s[k];
  }

  lemma FirstBreakNone(a: string)
    requires OneLine(a)
    ensures FirstBreak(a) == |a|
  {
    if a != "" {
      FirstBreakNone(a[1..]);
    }
  }

  /** On plain text `splitlines` and `split("\n")` differ only in a last empty piece. */
  lemma {:induction false} SplitlinesPlain(s: string)
    requires PlainText(s)
    ensures SplitOn(s, '\n') == Splitlines(s) || SplitOn(s, '\n') == Splitlines(s) + [""]
    decreases |s|
  {
    hide OddSpace;
    if '\n' !in s {
      SplitWhole(s, '\n');
      FirstBreakIs(s, "");
      FirstBreakNone(s);
    } else {
      var i := SplitPoint(s, '\n');
      var a, b := s[..i], s[i + 1..];
      FirstBreakIs(a, b);
      SplitAtSep(a, '\n', b);
      SplitlinesPlain(b);
      assert Splitlines(s) == [a] + Splitlines(b);
    }
  }

  lemma SplitPoint(s: string, c: char) returns (i: nat)
    requires c in s
    ensures i < |s| && c !in s[..i] && s == s[..i] + [c] + s[i + 1..]
  {
    if s[0] == c {
      i := 0;
    } else {
      var j := SplitPoint(s[1..], c);
      i := j + 1;
      assert s[..i] == [s[0]] + s[1..][..j];
    }
  }

  lemma EmptyIsNotSeen()
    ensures !Seen("")
  {
  }

  lemma {:induction false} FirstReadSkips(before: seq<string>, rest: seq<string>, fallback: string)
    requires forall line <- before :: !Seen(line)
    ensures FirstRead(before + rest, fallback) == FirstRead(rest, fallback)
  {
    hide Seen, Read;
    if before == [] {
      assert before + rest == rest;
    } else {
      assert (before + rest)[1..] == before[1..] + rest;
      FirstReadSkips(before[1..], rest, fallback);
    }
  }

  lemma {:induction false} FirstReadIgnoresEmpty(lines: seq<string>, fallback: string)
    ensures FirstRead(lines + [""], fallback) == FirstRead(lines, fallback)
  {
    EmptyIsNotSeen();
    hide Seen, Read;
    if lines == [] {
      assert lines + [""] == [""] && [""][1..] == [];
    } else {
      assert (lines + [""])[1..] == lines[1..] + [""];
      FirstReadIgnoresEmpty(lines[1..], fallback);
    }
  }

  lemma ReadsSplit(content: string, fallback: string)
    requires PlainText(content)
    ensures FirstRead(Splitlines(content), fallback) == FirstRead(SplitOn(content, '\n'), fallback)
  {
    SplitlinesPlain(content);
    FirstReadIgnoresEmpty(Splitlines(content), fallback);
  }

  // ---------- stack-control's line parser refines the regex ----------

  lemma {:induction false} SkipBlanksIs(s: string, i: nat)
    requires i <= |s| && forall k | 0 <= k < i :: s[k] == ' ' || s[k] == '\t'
    requires i < |s| ==> s[i] != ' ' && s[i] != '\t'
    ensures SkipBlanks(s) == s[i..]
  {
    if i > 0 {
      SkipBlanksIs(s[1..], i - 1);
    }
  }

  lemma AssignedAt(line: string, i: nat)
    requires i <= |line| && SkipBlanks(line) == line[i..] && KEY + "=" <= line[i..]
    ensures Assigned(line) == Some(line[i + |KEY| + 1..])
  {
    hide KEY;
    var name := line[i..];
    var rest := name[|KEY|..];
    assert name[..|KEY| + 1] == KEY + "=";
    assert name[..|KEY|] == KEY && rest[0] == '=';
    SkipBlanksIs(rest, 0);
  }

  lemma NoBlankAt(line: string, i: nat, j: nat)
    requires i < j <= |line| && Trimmed(line[i..j])
    ensures line[i] != ' ' && line[i] != '\t'
  {
    SpaceFacts();
    assert line[i] == line[i..j][0];
  }

  lemma SkipsToCore(line: string) returns (i: nat, j: nat)
    requires PlainText(line) && '\n' !in line && Strip(line) != ""
    ensures i < j <= |line| && Strip(line) == line[i..j] && SpaceIn(line, j, |line|)
    ensures SkipBlanks(line) == line[i..]
  {
    i, j := StripSlice(line);
    hide IsSpace, PlainText;
    BlanksBefore(line, i);
    NoBlankAt(line, i, j);
    SkipBlanksIs(line, i);
  }

  lemma PrefixOfSlice(line: string, i: nat, j: nat, head: string)
    requires i < j <= |line| && head <= line[i..j]
    ensures head <= line[i..] && i + |head| <= j && line[i..j][|head|..] == line[i + |head|..j]
  {
    assert line[i..j][..|head|] == line[i..][..|head|];
  }

  /** What stack-control reads on a plain line, the regex reads too, with the same value. */
  lemma ReadIsAssigned(line: string)
    requires PlainText(line) && '\n' !in line && Read(line).Some?
    ensures Assigned(line).Some? && Strip(Assigned(line).value) == Read(line).value
  {
    hide KEY, PlainText, Assigned, Strip, SkipBlanks, SpaceIn;
    var i, j := SkipsToCore(line);
    PrefixOfSlice(line, i, j, KEY + "=");
    AssignedAt(line, i);
    StripTail(line, i + |KEY| + 1, j);
  }

  lemma BlanksBefore(line: string, i: nat)
    requires PlainText(line) && '\n' !in line && i <= |line| && SpaceIn(line, 0, i)
    ensures forall k | 0 <= k < i :: line[k] == ' ' || line[k] == '\t'
  {
    hide IsSpace;
    assert forall k | 0 <= k < |line| :: line[k] in line;
  }

  lemma StripIsTrimmed(s: string)
    ensures Trimmed(Strip(s))
  {
  }

  lemma SubSlice(s: string, from: nat, j: nat, a: nat, b: nat)
    requires from <= j <= |s| && a <= b <= j - from
    ensures s[from..][a..b] == s[from..j][a..b]
  {
    var t, u := s[from..j], s[from..];
    assert forall i | a <= i < b :: u[i] == s[from + i] && t[i] == s[from + i];
    assert forall i | 0 <= i < b - a :: u[a..b][i] == u[a + i] && t[a..b][i] == t[a + i];
  }

  lemma SpaceAround(s: string, from: nat, j: nat, a: nat, b: nat)
    requires from <= j <= |s| && a <= b <= j - from && SpaceIn(s, j, |s|)
    requires SpaceIn(s[from..j], 0, a) && SpaceIn(s[from..j], b, j - from)
    ensures SpaceIn(s[from..], 0, a) && SpaceIn(s[from..], b, |s| - from)
  {
    hide IsSpace;
    var t, u := s[from..j], s[from..];
    forall k | 0 <= k < a
      ensures IsSpace(u[k])
    {
      assert u[k] == t[k];
    }
    forall k | b <= k < |u|
      ensures IsSpace(u[k])
    {
      assert u[k] == if k < |t| then t[k] else s[from + k];
    }
  }

  /** Whitespace after `j` does not change what stripping gives. */
  lemma StripTail(s: string, from: nat, j: nat)
    requires from <= j <= |s| && SpaceIn(s, j, |s|)
    ensures Strip(s[from..]) == Strip(s[from..j])
  {
    hide IsSpace, Strip, SpaceIn;
    var t := s[from..j];
    var a, b := StripSlice(t);
    var u := s[from..];
    SubSlice(s, from, j, a, b);
    SpaceAround(s, from, j, a, b);
    StripIsTrimmed(t);
    StripIs(u, a, b);
  }

  // ---------- the chained text stays plain ----------

  lemma ConstantsLack(c: char)
    requires OddSpace(c)
    ensures c !in KEY && c !in OVERRIDE && c !in DEFAULT && c != ':' && c != '='
  {
    hide KEY, OVERRIDE, DEFAULT, NameChar;
    KeyLacks(c);
    DefaultChars();
    OverrideChars();
    NameLacks(OVERRIDE, c);
    NameLacks(DEFAULT, c);
    assert !IsSpace(':') && !IsSpace('=');
  }

  lemma KeyLacks(c: char)
    requires OddSpace(c)
    ensures c !in KEY
  {
    forall i | 0 <= i < |KEY|
      ensures KEY[i] != c
    {
      assert 'A' <= KEY[i] <= '_' && !IsSpace(KEY[i]);
    }
  }

  lemma NameLacks(name: string, c: char)
    requires OddSpace(c) && forall i | 0 <= i < |name| :: NameChar(name[i])
    ensures c !in name
  {
    hide IsSpace, NameChar;
    forall i | 0 <= i < |name|
      ensures name[i] != c
    {
      NameCharIsNoSpace(name[i]);
    }
  }

  lemma OldValueLacks(content: string, i: nat, c: char)
    requires c !in content && i < |SplitOn(content, '\n')| && Assigned(SplitOn(content, '\n')[i]).Some?
    ensures c !in Strip(Assigned(SplitOn(content, '\n')[i]).value)
  {
    hide Assigned, Strip;
    var line := SplitOn(content, '\n')[i];
    SplitChars(content, '\n', c);
    AssignedChars(line);
    StripChars(Assigned(line).value);
  }

  lemma ChainedLinesLack(content: string, before: seq<string>, value: string, after: seq<string>, c: char)
    requires c !in content && c !in value && c !in KEY && c !in OVERRIDE && c != ':' && c != '='
    requires forall line <- before + after :: line == "" || line in SplitOn(content, '\n')
    ensures forall line <- before + [AssignmentLine(value + ":" + OVERRIDE)] + after :: c !in line
  {
    hide KEY, OVERRIDE;
    SplitChars(content, '\n', c);
    var assignment := AssignmentLine(value + ":" + OVERRIDE);
    assert c !in assignment;
    forall line <- before + [assignment] + after
      ensures c !in line
    {
      assert line == assignment || line in before + after;
    }
  }

  lemma ChainedLacks(content: string, out: string, c: char)
    requires Chain(content) == Changed(out) && OddSpace(c) && c !in content
    ensures c !in out
  {
    ConstantsLack(c);
    hide IsSpace, KEY, OVERRIDE, DEFAULT, Chain, Strip, Assigned, AssignmentLine, Terminated;
    var before, value, after := ChainShape(content, out);
    var i := FirstAssigned(SplitOn(content, '\n'));
    if i < |SplitOn(content, '\n')| {
      OldValueLacks(content, i, c);
    }
    ChainedLinesLack(content, before, value, after, c);
    JoinChars("\n", SplitOn(out, '\n'), c);
    JoinSplit(out, '\n');
  }

  lemma ChainedIsPlain(content: string, out: string)
    requires Chain(content) == Changed(out) && PlainText(content)
    ensures PlainText(out)
  {
    hide IsSpace, Chain;
    forall c <- out
      ensures !OddSpace(c)
    {
      if OddSpace(c) {
        ChainedLacks(content, out, c);
      }
    }
  }

  // ---------- main results ----------

  lemma UnassignedIsUnseen(lines: seq<string>)
    requires Unassigned(lines) && forall line <- lines :: PlainText(line) && '\n' !in line
    ensures forall line <- lines :: !Seen(line)
  {
    hide Assigned, Read, PlainText;
    forall line <- lines
      ensures !Seen(line)
    {
      if Seen(line) {
        ReadIsAssigned(line);
      }
    }
  }

  lemma LinesArePlain(content: string)
    requires PlainText(content)
    ensures forall line <- SplitOn(content, '\n') :: PlainText(line) && '\n' !in line
  {
    hide IsSpace;
    forall line <- SplitOn(content, '\n'), c <- line
      ensures !OddSpace(c)
    {
      if c !in content {
        SplitChars(content, '\n', c);
      }
    }
  }

  lemma StackReadsChained(out: string, before: seq<string>, value: string, after: seq<string>, fallback: string)
    requires PlainText(out) && Chained(out, before, value, after)
    ensures FirstRead(Splitlines(out), fallback) == value
  {
    hide PlainText, Assigned, Read, AssignmentLine;
    ReadsSplit(out, fallback);
    LinesArePlain(out);
    var line := AssignmentLine(value);
    assert SplitOn(out, '\n') == before + ([line] + after);
    assert forall l <- before :: l in SplitOn(out, '\n');
    UnassignedIsUnseen(before);
    FirstReadSkips(before, [line] + after, fallback);
    ReadLine(value);
  }

  /**
   Whenever the orchestrator reports a change, stack-control runs with the files of the edited
   chain, in order, and then the override file.
   */
  lemma PlainChainIsRead(content: string, out: string, fallback: string)
    requires PlainText(content) && Chain(content) == Changed(out)
    ensures StackFiles(out, fallback) == Files(content) + [OVERRIDE]
  {
    hide Chain, PlainText, Parts, OVERRIDE, PlainName, Chained;
    ChainedIsPlain(content, out);
    var before, value, after := ChainShape(content, out);
    StackReadsChained(out, before, value + ":" + OVERRIDE, after, fallback);
    NamesArePlain();
    PartsAppend(value, OVERRIDE);
  }

  /** What stack-control ran with before the edit: the lines the regex and its own parser agree on. */
  lemma PlainReadBefore(content: string, fallback: string)
    requires PlainText(content)
    ensures var lines := SplitOn(content, '\n');
            var i := FirstAssigned(lines);
            if i == |lines| then StackFiles(content, fallback) == Parts(fallback)
            else if Seen(lines[i]) then StackFiles(content, fallback) == Files(content)
            else StackFiles(content, fallback) == Parts(FirstRead(lines[i + 1..], fallback))
  {
    hide PlainText, Parts, Assigned, Read, Strip, SplitOn;
    ReadsSplit(content, fallback);
    LinesArePlain(content);
    var lines := SplitOn(content, '\n');
    var i := FirstAssigned(lines);
    assert lines == lines[..i] + lines[i..];
    UnassignedIsUnseen(lines[..i]);
    FirstReadSkips(lines[..i], lines[i..], fallback);
    if i < |lines| {
      assert lines[i..][1..] == lines[i + 1..] && lines[i] in lines;
      if Seen(lines[i]) {
        ReadIsAssigned(lines[i]);
      }
    } else {
      assert lines[i..] == [];
    }
  }

  /**
   The two services agree on the files in use: without an assignment, stack-control's own default is the
   one the orchestrator writes; with one, stack-control sees it, or reads the same files further down.
   */
  predicate SameFiles(content: string, fallback: string) {
    var lines := SplitOn(content, '\n');
    var i := FirstAssigned(lines);
    if i == |lines| then Parts(fallback) == [DEFAULT]
    else Seen(lines[i]) || Parts(FirstRead(lines[i + 1..], fallback)) == Files(content)
  }

  /** Chaining only adds the override to the files stack-control runs with, exactly when both agree on them. */
  lemma PlainChainExtends(content: string, out: string, fallback: string)
    requires PlainText(content) && Chain(content) == Changed(out)
    ensures StackFiles(out, fallback) == StackFiles(content, fallback) + [OVERRIDE]
       <==> SameFiles(content, fallback)
  {
    hide Chain, PlainText, StackFiles, Seen, Parts, Strip;
    PlainReadBefore(content, fallback);
    PlainChainIsRead(content, out, fallback);
    SameFront(StackFiles(content, fallback), Files(content), OVERRIDE);
  }

  lemma SameFront(xs: seq<string>, ys: seq<string>, last: string)
    ensures xs + [last] == ys + [last] <==> xs == ys
  {
    assert xs == (xs + [last])[..|xs|] && ys == (ys + [last])[..|ys|];
    assert xs + [last] == ys + [last] ==> |xs + [last]| == |ys + [last]|;
  }

  // ---------- where the two parsers disagree ----------

  /** The regex allows blanks in front of `=`, stack-control does not. */
  lemma SpacedShape(key: string, name: string)
    requires key != "" && name != ""
    ensures var line := key + " =" + name;
            && line[0] == key[0] && line[|line| - 1] == name[|name| - 1]
            && line[|key|] == ' ' && (key + "=")[|key|] == '='
            && line[|key|..] == " =" + name && line[|key|..][1..][1..] == name
  {
    var line := key + " =" + name;
    var tail := " =" + name;
    assert line == key + tail && line[|key|..] == tail && tail[1..][1..] == name;
    assert line[|line| - 1] == tail[|tail| - 1];
  }

  lemma SpacedLine(name: string)
    requires PlainName(name)
    ensures var line := KEY + " =" + name;
            Assigned(line) == Some(name) && !Seen(line)
  {
    hide KEY, IsSpace, Strip;
    KeyHead();
    SpaceFacts();
    var line := KEY + " =" + name;
    SpacedShape(KEY, name);
    StripTrimmed(line);
    var rest := line[|KEY|..];
    assert rest[1..][1..] == name && rest[1..][0] == '=';
    SkipBlanksIs(line, 0);
    SkipBlanksIs(rest, 1);
  }

  /**
   The files stack-control used are lost when its first visible assignment is not the first one the
   regex matches: it ran with `shown` and runs with `hidden` after the edit.
   */
  lemma ChainCanReplaceFiles(hidden: string, shown: string, fallback: string) returns (content: string, out: string)
    requires PlainName(hidden) && PlainName(shown) && PlainText(hidden) && PlainText(shown)
    requires '\n' !in hidden && '\\' !in hidden && '\n' !in shown && hidden != OVERRIDE
    ensures Chain(content) == Changed(out)
    ensures StackFiles(content, fallback) == [shown]
    ensures StackFiles(out, fallback) == [hidden, OVERRIDE]
  {
    hide KEY, OVERRIDE, Trimmed, Assigned, Read, PlainText;
    hide Parts, AssignmentLine, Chain, FirstRead, StackFiles, Strip, Files;
    content := TwoAssignments(hidden, shown);
    out := ChainsFirst(content, hidden);
    assert StackFiles(out, fallback) == [hidden, OVERRIDE] by {
      PlainChainIsRead(content, out, fallback);
      FirstFile(content, hidden);
    }
    assert StackFiles(content, fallback) == [shown] by {
      PlainReadBefore(content, fallback);
      OnlyRead(SplitOn(content, '\n')[1..], shown, fallback);
    }
  }

  /** Without an assignment, stack-control's own default gives way to the default of the orchestrator. */
  lemma UnassignedLosesFallback(content: string, fallback: string) returns (out: string)
    requires PlainText(content) && Unassigned(SplitOn(content, '\n'))
    ensures Chain(content) == Changed(out)
    ensures StackFiles(content, fallback) == Parts(fallback) && StackFiles(out, fallback) == [DEFAULT, OVERRIDE]
  {
    hide PlainText, StackFiles, Assigned, Parts;
    out := Terminated(content) + AssignmentLine(DEFAULT + ":" + OVERRIDE) + "\n";
    PlainReadBefore(content, fallback);
    PlainChainIsRead(content, out, fallback);
  }

  /** An empty assignment counts for the regex and not for stack-control, which then runs the override alone. */
  lemma EmptyAssignmentLosesFiles(fallback: string)
    ensures Chain(KEY + "=") == Changed(KEY + "=:" + OVERRIDE)
    ensures StackFiles(KEY + "=", fallback) == Parts(fallback)
    ensures StackFiles(KEY + "=:" + OVERRIDE, fallback) == [OVERRIDE]
  {
    var content, out := KEY + "=", KEY + "=:" + OVERRIDE;
    EmptyAssignment();
    hide KEY, OVERRIDE, PlainText, StackFiles, Assigned, Parts, Strip, Read, Chain, FirstRead;
    PlainReadBefore(content, fallback);
    assert [content][1..] == [];
    NothingToRead(fallback);
    PlainChainIsRead(content, out, fallback);
  }

  lemma NothingToRead(fallback: string)
    ensures FirstRead([], fallback) == fallback
  {
  }

  lemma KeyLineIsPlain()
    ensures PlainText(KEY + "=")
  {
    hide KEY, IsSpace;
    forall c <- KEY + "="
      ensures !OddSpace(c)
    {
      if OddSpace(c) {
        ConstantsLack(c);
      }
    }
  }

  lemma EmptyAssignment()
    ensures var content := KEY + "=";
            && PlainText(content) && SplitOn(content, '\n') == [content]
            && FirstAssigned([content]) == 0 && !Seen(content) && Files(content) == []
            && Chain(content) == Changed(KEY + "=:" + OVERRIDE)
  {
    hide KEY, OVERRIDE, PlainText, Seen, Assigned, Strip;
    var content := KEY + "=";
    KeyLineIsPlain();
    KeyLineRead();
    NamesArePlain();
    SplitWhole(content, '\n');
    StripTrimmed("");
    assert Parts("") == [] by { assert [""][1..] == []; }
    assert [content][0 := AssignmentLine(":" + OVERRIDE)] == [AssignmentLine(":" + OVERRIDE)];
    assert KEY + "=" + (":" + OVERRIDE) == KEY + "=:" + OVERRIDE;
    assert "" + ":" + OVERRIDE == ":" + OVERRIDE;
  }

  lemma KeyLineRead()
    ensures var line := KEY + "="; Assigned(line) == Some("") && !Seen(line) && '\n' !in line
  {
    hide Strip;
    KeyHead();
    AssignedLine("");
    assert !IsSpace('=');
    hide IsSpace, KEY;
    var line := KEY + "=";
    assert AssignmentLine("") == line;
    StripTrimmed(line);
    StripTrimmed("");
    assert line[|line|..] == "";
  }

  lemma FirstFile(content: string, name: string)
    requires PlainName(name) && Assigned(SplitOn(content, '\n')[0]) == Some(name)
    ensures Files(content) == [name]
  {
    hide Assigned, Parts, Strip;
    StripTrimmed(name);
    SingleName(name);
  }

  lemma OnlyRead(lines: seq<string>, name: string, fallback: string)
    requires PlainName(name) && lines == [AssignmentLine(name)]
    ensures Parts(FirstRead(lines, fallback)) == [name]
  {
    hide Read, Parts, AssignmentLine;
    ReadLine(name);
    SingleName(name);
  }

  lemma TwoAssignments(hidden: string, shown: string) returns (content: string)
    requires PlainName(hidden) && PlainText(hidden) && PlainText(shown) && '\n' !in hidden && '\n' !in shown
    ensures PlainText(content) && SplitOn(content, '\n') == [KEY + " =" + hidden, AssignmentLine(shown)]
    ensures Assigned(KEY + " =" + hidden) == Some(hidden) && !Seen(KEY + " =" + hidden)
  {
    SpacedLine(hidden);
    KeyHead();
    PlainContent(hidden, shown);
    hide KEY, IsSpace, Assigned, Read, PlainText;
    var first := KEY + " =" + hidden;
    content := first + ['\n'] + AssignmentLine(shown);
    SplitAtSep(first, '\n', AssignmentLine(shown));
    SplitWhole(AssignmentLine(shown), '\n');
  }

  lemma ChainsFirst(content: string, name: string) returns (out: string)
    requires var lines := SplitOn(content, '\n'); Assigned(lines[0]) == Some(name)
    requires PlainName(name) && '\\' !in name && name != OVERRIDE
    ensures Chain(content) == Changed(out)
  {
    NamesArePlain();
    hide KEY, OVERRIDE, IsSpace, Assigned, Parts;
    StripTrimmed(name);
    SingleName(name);
    out := Substitute(SplitOn(content, '\n'), 0, name + ":" + OVERRIDE).text;
  }

  lemma SingleName(name: string)
    requires PlainName(name)
    ensures Parts(name) == [name]
  {
    SplitWhole(name, ':');
    StrippedOfPlain([name]);
  }

  lemma PlainContent(hidden: string, shown: string)
    requires PlainText(hidden) && PlainText(shown)
    ensures PlainText(KEY + " =" + hidden + ['\n'] + AssignmentLine(shown))
  {
    forall c <- KEY + " =" + hidden + ['\n'] + AssignmentLine(shown)
      ensures !OddSpace(c)
    {
      if OddSpace(c) {
        ConstantsLack(c);
      }
    }
  }

  /**
   Outside plain text the two services may not even share lines: a form feed hides an assignment from the
   regex and not from stack-control, which goes on running with it after the edit.
   */
  lemma FormFeedHidesAssignment(name: string, fallback: string) returns (content: string, out: string)
    requires PlainName(name) && PlainText(name) && '\n' !in name
    ensures content == "\U{000C}" + AssignmentLine(name)
    ensures Chain(content) == Changed(out) && Files(content) == [DEFAULT]
    ensures StackFiles(out, fallback) == [name]
  {
    hide KEY, OVERRIDE, DEFAULT, PlainText, Assigned, Parts, Strip, Read, AssignmentLine, PlainName;
    hide FirstRead, Splitlines, SplitOn, Chain, Files;
    content := "\U{000C}" + AssignmentLine(name);
    var rest := AssignmentLine(DEFAULT + ":" + OVERRIDE) + "\n";
    out := "\U{000C}" + (AssignmentLine(name) + "\n" + rest);
    FormFeedChain(name);
    FormFeedRead(name, rest, fallback);
    SingleName(name);
  }

  lemma FormFeedChain(name: string)
    requires PlainName(name) && '\n' !in name
    ensures var content, rest := "\U{000C}" + AssignmentLine(name), AssignmentLine(DEFAULT + ":" + OVERRIDE) + "\n";
            && Chain(content) == Changed("\U{000C}" + (AssignmentLine(name) + "\n" + rest))
            && Files(content) == [DEFAULT]
  {
    hide KEY, OVERRIDE, DEFAULT, Assigned, AssignmentLine, PlainName, SplitOn;
    var line, added := AssignmentLine(name), AssignmentLine(DEFAULT + ":" + OVERRIDE);
    var content := "\U{000C}" + line;
    FormFeedLine(name);
    AssignmentIsOneLine(name);
    SplitWhole(content, '\n');
    assert content[|content| - 1] == line[|line| - 1] && line[|line| - 1] in line;
    assert content + "\n" + added + "\n" == "\U{000C}" + (line + "\n" + (added + "\n"));
  }

  lemma FormFeedRead(name: string, rest: string, fallback: string)
    requires PlainName(name) && PlainText(name) && '\n' !in name
    ensures FirstRead(Splitlines("\U{000C}" + (AssignmentLine(name) + "\n" + rest)), fallback) == name
  {
    PlainAssignment(name);
    AssignmentIsOneLine(name);
    ReadLine(name);
    hide PlainText, Read, AssignmentLine, Splitlines;
    var line := AssignmentLine(name);
    AfterFormFeed(line + "\n" + rest);
    AfterPlainLine(line, rest);
    ReadsSecond(line, Splitlines(rest), fallback);
  }

  lemma ReadsSecond(line: string, rest: seq<string>, fallback: string)
    requires Seen(line)
    ensures FirstRead([""] + ([line] + rest), fallback) == Read(line).value
  {
    EmptyIsNotSeen();
    hide Read;
    assert ([""] + ([line] + rest))[1..] == [line] + rest;
  }

  lemma AfterFormFeed(s: string)
    ensures Splitlines("\U{000C}" + s) == [""] + Splitlines(s)
  {
    var t := "\U{000C}" + s;
    assert t[0] == '\U{000C}' && t[1..] == s && t[..0] == "";
    assert FirstBreak(t) == 0;
  }

  lemma AfterPlainLine(line: string, rest: string)
    requires PlainText(line) && '\n' !in line
    ensures Splitlines(line + "\n" + rest) == [line] + Splitlines(rest)
  {
    var t := line + "\n" + rest;
    FirstBreakIs(line, rest);
    hide PlainText, FirstBreak;
    assert t[|line|] == '\n' && t[..|line|] == line && t[|line| + 1..] == rest;
  }

  lemma FormFeedLine(name: string)
    requires PlainName(name)
    ensures Assigned("\U{000C}" + AssignmentLine(name)).None?
    ensures AssignmentLine(name) != ""
  {
    KeyHead();
    hide KEY;
    var content := "\U{000C}" + AssignmentLine(name);
    assert content[0] == '\U{000C}';
  }

  lemma PlainAssignment(name: string)
    requires PlainText(name)
    ensures PlainText(AssignmentLine(name))
  {
    forall c <- AssignmentLine(name)
      ensures !OddSpace(c)
    {
      if OddSpace(c) {
        ConstantsLack(c);
      }
    }
  }
}

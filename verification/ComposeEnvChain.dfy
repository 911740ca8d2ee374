/** Chaining the override file into `.env`: the shape of a chained text, idempotence, and undoing. */
module ComposeEnvChain {
  import opened ComposeEnv
  import opened ComposeEnvLaws
  import opened Options
  import opened Splitting
  import opened Text

  predicate Unassigned(lines: seq<string>) {
    forall line <- lines :: Assigned(line).None?
  }

  /** The files the chain lists before an edit; without an assignment, the default file. */
  function Files(content: string): seq<string> {
    var lines := SplitOn(content, '\n');
    var i := FirstAssigned(lines);
    if i == |lines| then [DEFAULT] else Parts(Strip(Assigned(lines[i]).value))
  }

  // ---------- one assignment line ----------

  /** The characters of the two file names. */
  predicate NameChar(c: char) {
    'a' <= c <= 'z' || c == '-' || c == '.'
  }

  lemma DefaultChars()
    ensures |DEFAULT| > 0 && forall i | 0 <= i < |DEFAULT| :: NameChar(DEFAULT[i])
  {
  }

  lemma OverrideChars()
    ensures |OVERRIDE| > 0 && forall i | 0 <= i < |OVERRIDE| :: NameChar(OVERRIDE[i])
  {
  }

  lemma NameCharIsNoSpace(c: char)
    requires NameChar(c)
    ensures !IsSpace(c)
  {
  }

  lemma NameIsPlain(name: string)
    requires |name| > 0 && forall i | 0 <= i < |name| :: NameChar(name[i])
    ensures PlainName(name) && '\n' !in name && '\\' !in name
  {
    hide IsSpace;
    NameCharIsNoSpace(name[0]);
    NameCharIsNoSpace(name[|name| - 1]);
  }

  lemma NamesArePlain()
    ensures PlainName(DEFAULT) && PlainName(OVERRIDE)
    ensures '\n' !in DEFAULT && '\\' !in DEFAULT && '\n' !in OVERRIDE && '\\' !in OVERRIDE
  {
    hide DEFAULT, OVERRIDE, PlainName, NameChar;
    DefaultChars();
    OverrideChars();
    NameIsPlain(DEFAULT);
    NameIsPlain(OVERRIDE);
  }

  lemma KeyHead()
    ensures |KEY| > 0 && KEY[0] == 'C' && !IsSpace('C') && '\n' !in KEY && IsSpace('\n')
  {
    SpaceFacts();
  }

  lemma AssignedLine(value: string)
    ensures Assigned(AssignmentLine(value)) == Some(value)
  {
    KeyHead();
    hide KEY;
    var line := AssignmentLine(value);
    assert line[0] == KEY[0];
    assert line[|KEY|..] == "=" + value;
  }

  lemma ReadLine(value: string)
    requires value != "" && Trimmed(value)
    ensures Seen(AssignmentLine(value)) && Read(AssignmentLine(value)) == Some(value)
  {
    KeyHead();
    hide KEY, IsSpace, Strip;
    StripTrimmed(value);
    AssignmentIsTrimmed(KEY, value);
    StripTrimmed(AssignmentLine(value));
    assert AssignmentLine(value)[|KEY + "="|..] == value;
  }

  lemma AssignmentIsTrimmed(key: string, value: string)
    requires key != "" && !IsSpace(key[0]) && value != "" && Trimmed(value)
    ensures Trimmed(key + "=" + value)
  {
    hide IsSpace;
    var line := key + "=" + value;
    assert line[0] == key[0] && line[|line| - 1] == value[|value| - 1];
  }

  lemma {:induction false} FirstAssignedIs(before: seq<string>, line: string, after: seq<string>)
    requires Unassigned(before) && Assigned(line).Some?
    ensures FirstAssigned(before + [line] + after) == |before|
  {
    hide Assigned;
    var lines := before + [line] + after;
    assert lines[|before|] == line;
    assert forall k | 0 <= k < |before| :: lines[k] in before;
    assert FirstAssigned(lines) >= |before|;
  }

  // ---------- the shape of a chained text ----------

  /** `value` is the old chain in the form in which `Chain` reprints it. */
  ghost predicate Chained(out: string, before: seq<string>, value: string, after: seq<string>) {
    && SplitOn(out, '\n') == before + [AssignmentLine(value)] + after
    && Unassigned(before)
    && Trimmed(value) && value != "" && '\n' !in value && '\\' !in value
  }

  lemma FilesOfChained(out: string, before: seq<string>, value: string, after: seq<string>)
    requires Chained(out, before, value, after)
    ensures FirstAssigned(SplitOn(out, '\n')) == |before| < |SplitOn(out, '\n')|
    ensures Assigned(SplitOn(out, '\n')[|before|]) == Some(value) && Strip(value) == value
    ensures Files(out) == Parts(value)
  {
    hide Assigned, AssignmentLine, IsSpace;
    AssignedLine(value);
    FirstAssignedIs(before, AssignmentLine(value), after);
    StripTrimmed(value);
  }

  lemma SubstituteChained(lines: seq<string>, i: nat, value: string, out: string)
    requires i < |lines| && FirstAssigned(lines) == i
    requires forall line <- lines :: '\n' !in line
    requires Trimmed(value) && value != "" && '\n' !in value
    requires Substitute(lines, i, value) == Changed(out)
    ensures Chained(out, lines[..i], value, lines[i + 1..])
  {
    hide Assigned, AssignmentLine, IsSpace, SplitOn;
    AssignmentIsOneLine(value);
    var lines' := lines[i := AssignmentLine(value)];
    assert forall line <- lines' :: line == AssignmentLine(value) || line in lines;
    SplitJoin(lines', '\n');
    ReplacedAt(lines, i, AssignmentLine(value));
  }

  lemma AssignmentIsOneLine(value: string)
    requires '\n' !in value
    ensures '\n' !in AssignmentLine(value)
  {
    KeyHead();
    hide KEY;
  }

  lemma ReplacedAt(lines: seq<string>, i: nat, line: string)
    requires i < |lines|
    ensures lines[i := line] == lines[..i] + [line] + lines[i + 1..]
  {
  }

  lemma ExtendedIsTrimmed(value: string)
    requires Trimmed(value)
    ensures var value' := value + ":" + OVERRIDE; Trimmed(value') && value' != ""
  {
    NamesArePlain();
    assert !IsSpace(':');
    hide OVERRIDE, IsSpace;
    var value' := value + ":" + OVERRIDE;
    assert value'[|value'| - 1] == OVERRIDE[|OVERRIDE| - 1];
    assert value'[0] == if value == "" then ':' else value[0];
  }

  /** Lines of the text that gets an assignment appended. */
  lemma AppendedLines(content: string, line: string) returns (head: seq<string>)
    requires '\n' !in line
    ensures SplitOn(Terminated(content) + line + "\n", '\n') == head + [line] + [""]
    ensures head <= SplitOn(content, '\n')
  {
    SplitConcat(line, '\n', "");
    SplitWhole(line, '\n');
    if content == "" {
      head := [];
      assert Terminated(content) + line + "\n" == line + ['\n'] + "";
    } else {
      var t := Terminated(content);
      var t0 := t[..|t| - 1];
      head := SplitOn(t0, '\n');
      assert t + line + "\n" == t0 + ['\n'] + (line + ['\n'] + "");
      SplitConcat(t0, '\n', line + ['\n'] + "");
      if t == content {
        assert content == t0 + ['\n'] + "";
        SplitConcat(t0, '\n', "");
      }
    }
  }

  lemma StripChars(s: string)
    ensures forall c <- Strip(s) :: c in s
  {
    var i, j := StripSlice(s);
  }

  lemma AssignedChars(line: string)
    requires Assigned(line).Some?
    ensures forall c <- Assigned(line).value :: c in line
  {
    hide KEY;
    var name := SkipBlanks(line);
    SkipBlanksChars(line);
    SkipBlanksChars(name[|KEY|..]);
    assert forall c <- SkipBlanks(name[|KEY|..]) :: c in name;
  }

  lemma {:induction false} SkipBlanksChars(s: string)
    ensures forall c <- SkipBlanks(s) :: c in s
  {
    if s != "" && (s[0] == ' ' || s[0] == '\t') {
      SkipBlanksChars(s[1..]);
    }
  }

  lemma OldValue(line: string) returns (value: string)
    requires Assigned(line).Some? && '\n' !in line
    ensures value == Strip(Assigned(line).value) && Trimmed(value) && '\n' !in value
  {
    value := Strip(Assigned(line).value);
    StripChars(Assigned(line).value);
    AssignedChars(line);
  }

  lemma DefaultParts()
    ensures Parts(DEFAULT) == [DEFAULT] && OVERRIDE != DEFAULT
  {
    NamesArePlain();
    assert |OVERRIDE| != |DEFAULT|;
    hide DEFAULT, OVERRIDE;
    SplitWhole(DEFAULT, ':');
    StrippedOfPlain([DEFAULT]);
  }

  /** The branch of `Chain` that appends an assignment. */
  lemma AppendedShape(content: string, value: string) returns (before: seq<string>)
    requires Unassigned(SplitOn(content, '\n'))
    requires Trimmed(value) && value != "" && '\n' !in value && '\\' !in value
    ensures Chained(Terminated(content) + AssignmentLine(value) + "\n", before, value, [""])
    ensures forall line <- before :: line in SplitOn(content, '\n')
  {
    KeyHead();
    hide KEY, IsSpace, Assigned;
    before := AppendedLines(content, AssignmentLine(value));
    var lines := SplitOn(content, '\n');
    forall line <- before
      ensures line in lines && Assigned(line).None?
    {
      var k :| 0 <= k < |before| && before[k] == line;
      assert lines[k] == line;
    }
  }

  /** Both branches of `Chain` that change the text leave it in one shape. */
  lemma ChainShape(content: string, out: string) returns (before: seq<string>, value: string, after: seq<string>)
    requires Chain(content) == Changed(out)
    ensures Chained(out, before, value + ":" + OVERRIDE, after)
    ensures Trimmed(value) && '\n' !in value && '\\' !in value
    ensures Files(content) == Parts(value) && OVERRIDE !in Parts(value)
    ensures forall line <- before + after :: line == "" || line in SplitOn(content, '\n')
    ensures var lines := SplitOn(content, '\n');
            if FirstAssigned(lines) == |lines| then
              value == DEFAULT && out == Terminated(content) + AssignmentLine(value + ":" + OVERRIDE) + "\n"
            else
              value == Strip(Assigned(lines[FirstAssigned(lines)]).value) &&
              before == lines[..FirstAssigned(lines)] && after == lines[FirstAssigned(lines) + 1..]
  {
    NamesArePlain();
    DefaultParts();
    hide Assigned, Strip, IsSpace, Parts, OVERRIDE, DEFAULT;
    var lines := SplitOn(content, '\n');
    var i := FirstAssigned(lines);
    if i == |lines| {
      value, after := DEFAULT, [""];
      ExtendedIsTrimmed(value);
      before := AppendedShape(content, value + ":" + OVERRIDE);
    } else {
      value := OldValue(lines[i]);
      before, after := lines[..i], lines[i + 1..];
      ExtendedIsTrimmed(value);
      SubstituteChained(lines, i, value + ":" + OVERRIDE, out);
    }
  }

  // ---------- chaining twice, and undoing it ----------

  /** A second chain changes nothing; the first one appended the override to the files. */
  lemma ChainTwice(content: string, out: string)
    requires Chain(content) == Changed(out)
    ensures Chain(out) == Unchanged
    ensures Files(out) == Files(content) + [OVERRIDE] && OVERRIDE !in Files(content)
  {
    hide Assigned, Strip, IsSpace, AssignmentLine, Parts, OVERRIDE, DEFAULT, Terminated, PlainName;
    var before, value, after := ChainShape(content, out);
    FilesOfChained(out, before, value + ":" + OVERRIDE, after);
    NamesArePlain();
    PartsAppend(value, OVERRIDE);
  }

  /** The value `Unchain` leaves behind. */
  function Kept(value: string): string {
    if Parts(value) == [] then DEFAULT else Join(":", Parts(value))
  }

  lemma KeptChain(value: string)
    requires Trimmed(value) && '\n' !in value && '\\' !in value && OVERRIDE !in Parts(value)
    ensures Without(Parts(value + ":" + OVERRIDE), OVERRIDE) == Parts(value)
    ensures OVERRIDE in Parts(value + ":" + OVERRIDE)
    ensures Kept(value) == if Parts(value) == [] then DEFAULT else Join(":", Parts(value))
    ensures var kept := Kept(value);
            && Trimmed(kept) && kept != "" && '\n' !in kept && '\\' !in kept
            && Parts(kept) == if Parts(value) == [] then [DEFAULT] else Parts(value)
  {
    NamesArePlain();
    DefaultParts();
    hide OVERRIDE, DEFAULT, IsSpace, PlainName, Strip;
    PartsAppend(value, OVERRIDE);
    WithoutAppended(Parts(value), OVERRIDE);
    DefaultIsTrimmed();
    if Parts(value) != [] {
      StrippedArePlain(SplitOn(value, ':'));
      JoinTrimmed(Parts(value));
      PartsOfJoin(Parts(value));
      PartsChars(value, '\n');
      PartsChars(value, '\\');
      JoinChars(":", Parts(value), '\n');
      JoinChars(":", Parts(value), '\\');
    }
  }

  lemma DefaultIsTrimmed()
    ensures Trimmed(DEFAULT) && DEFAULT != ""
  {
    NamesArePlain();
  }

  lemma {:induction false} StrippedChars(pieces: seq<string>, c: char)
    requires forall piece <- pieces :: c !in piece
    ensures forall part <- Stripped(pieces) :: c !in part
  {
    if pieces == [] {
    } else {
      StripChars(pieces[0]);
      StrippedChars(pieces[1..], c);
    }
  }

  lemma PartsChars(value: string, c: char)
    requires c !in value
    ensures forall part <- Parts(value) :: c !in part
  {
    SplitChars(value, ':', c);
    StrippedChars(SplitOn(value, ':'), c);
  }

  lemma UnchainIsSubstitute(out: string)
    requires var lines := SplitOn(out, '\n');
             var i := FirstAssigned(lines);
             i < |lines| && OVERRIDE in Parts(Strip(Assigned(lines[i]).value))
    ensures var lines := SplitOn(out, '\n');
            var i := FirstAssigned(lines);
            var kept := Without(Parts(Strip(Assigned(lines[i]).value)), OVERRIDE);
            Unchain(out) == Substitute(lines, i, if kept == [] then DEFAULT else Join(":", kept))
  {
    hide Assigned, Strip, AssignmentLine, Parts, Without, OVERRIDE, DEFAULT;
  }

  lemma UnchainChained(out: string, before: seq<string>, value: string, after: seq<string>) returns (back: string)
    requires Chained(out, before, value + ":" + OVERRIDE, after)
    requires Trimmed(value) && '\n' !in value && '\\' !in value && OVERRIDE !in Parts(value)
    ensures Unchain(out) == Changed(back) && Chained(back, before, Kept(value), after)
    ensures Parts(Kept(value)) == if Parts(value) == [] then [DEFAULT] else Parts(value)
  {
    hide Assigned, Strip, Trimmed, AssignmentLine, Kept, Parts, Without, OVERRIDE, DEFAULT;
    KeptChain(value);
    FilesOfChained(out, before, value + ":" + OVERRIDE, after);
    var kept, lines, i := Kept(value), SplitOn(out, '\n'), |before|;
    UnchainIsSubstitute(out);
    back := Substitute(lines, i, kept).text;
    SubstituteChained(lines, i, kept, back);
    assert lines[..i] == before && lines[i + 1..] == after;
  }

  predicate SameBut(xs: seq<string>, ys: seq<string>, i: nat) {
    |xs| == |ys| && forall k | 0 <= k < |xs| && k != i :: xs[k] == ys[k]
  }

  lemma SameAround(before: seq<string>, x: string, y: string, after: seq<string>)
    ensures SameBut(before + [x] + after, before + [y] + after, |before|)
  {
  }

  lemma SameButAt(lines: seq<string>, i: nat, line: string)
    requires i < |lines|
    ensures SameBut(lines, lines[..i] + [line] + lines[i + 1..], i)
  {
  }

  /**
   Unchaining a chained text restores the files in order (the default file when there were none)
   and touches no other line, neither of the chained text nor of the original assignment's text.
   */
  lemma UnchainUndoesChain(content: string, out: string) returns (back: string)
    requires Chain(content) == Changed(out)
    ensures Unchain(out) == Changed(back)
    ensures Files(back) == if Files(content) == [] then [DEFAULT] else Files(content)
    ensures SameBut(SplitOn(out, '\n'), SplitOn(back, '\n'), FirstAssigned(SplitOn(out, '\n')))
    ensures var lines := SplitOn(content, '\n');
            FirstAssigned(lines) < |lines| ==> SameBut(lines, SplitOn(back, '\n'), FirstAssigned(lines))
  {
    hide Assigned, Strip, IsSpace, AssignmentLine, Parts, Kept, Unchain, OVERRIDE, DEFAULT, Terminated;
    hide SameBut, Chain, SplitOn;
    var before, value, after := ChainShape(content, out);
    back := UnchainChained(out, before, value, after);
    FilesOfChained(out, before, value + ":" + OVERRIDE, after);
    FilesOfChained(back, before, Kept(value), after);
    SameAround(before, AssignmentLine(value + ":" + OVERRIDE), AssignmentLine(Kept(value)), after);
    var lines, i := SplitOn(content, '\n'), FirstAssigned(SplitOn(content, '\n'));
    if i < |lines| {
      SameButAt(lines, i, AssignmentLine(Kept(value)));
    }
  }
}

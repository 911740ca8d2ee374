/** What every edit of an env text does, and what stack-control makes of a line, in terms of the text itself. */
module ComposeEnvEdits {
  import opened ComposeEnv
  import opened ComposeEnvChain
  import opened ComposeEnvLaws
  import opened ComposeEnvReadBack
  import opened ComposeEnvStack
  import opened Options
  import opened Splitting
  import opened Text

  // ---------- the regex ----------

  predicate Blanks(s: string) {
    forall i | 0 <= i < |s| :: s[i] == ' ' || s[i] == '\t'
  }

  /** The line assigns this text, blanks allowed around the name. */
  ghost predicate Assigns(line: string, value: string) {
    exists a, b | Blanks(a) && Blanks(b) :: line == a + "COMPOSE_FILE" + b + "=" + value
  }

  lemma {:induction false} SkipBlanksSplit(s: string) returns (a: string)
    ensures Blanks(a) && s == a + SkipBlanks(s)
    ensures SkipBlanks(s) != "" ==> SkipBlanks(s)[0] != ' ' && SkipBlanks(s)[0] != '\t'
  {
    if s != "" && (s[0] == ' ' || s[0] == '\t') {
      var rest := SkipBlanksSplit(s[1..]);
      a := [s[0]] + rest;
      assert s == [s[0]] + s[1..] && SkipBlanks(s) == SkipBlanks(s[1..]);
      hide SkipBlanks;
      assert [s[0]] + (rest + SkipBlanks(s[1..])) == a + SkipBlanks(s[1..]);
    } else {
      a := "";
    }
  }

  lemma {:induction false} SkipsBlanks(a: string, rest: string)
    requires Blanks(a) && rest != "" && rest[0] != ' ' && rest[0] != '\t'
    ensures SkipBlanks(a + rest) == rest
  {
    if a == "" {
      assert a + rest == rest;
    } else {
      assert (a + rest)[1..] == a[1..] + rest;
      SkipsBlanks(a[1..], rest);
    }
  }

  lemma AssignedIff(line: string, value: string)
    ensures Assigned(line) == Some(value) <==> Assigns(line, value)
  {
    hide SkipBlanks;
    var key := "COMPOSE_FILE";
    if Assigned(line) == Some(value) {
      var a := SkipBlanksSplit(line);
      var name := SkipBlanks(line);
      var b := SkipBlanksSplit(name[|key|..]);
      Pieces(name, key, b, value);
      assert line == a + key + b + "=" + value;
    }
    if Assigns(line, value) {
      var a, b :| Blanks(a) && Blanks(b) && line == a + key + b + "=" + value;
      var tail := "=" + value;
      var name := key + (b + tail);
      assert line == a + name && name[0] == 'C';
      SkipsBlanks(a, name);
      assert name[|key|..] == b + tail;
      SkipsBlanks(b, tail);
      assert tail[1..] == value;
    }
  }

  lemma Pieces(name: string, key: string, b: string, value: string)
    requires key <= name && name[|key|..] == b + SkipBlanks(name[|key|..])
    requires var rest := SkipBlanks(name[|key|..]); rest != "" && rest[0] == '=' && rest[1..] == value
    ensures name == key + b + "=" + value
  {
    var rest := SkipBlanks(name[|key|..]);
    assert rest == "=" + value;
  }

  // ---------- the first assignment of a text ----------

  /** `content` is `front`, the first line that assigns, and `rear`. */
  ghost predicate FirstAt(content: string, front: string, line: string, rear: string) {
    && content == front + line + rear && '\n' !in line
    && (front == "" || front[|front| - 1] == '\n') && (rear == "" || rear[0] == '\n')
    && (forall other, value | other in SplitOn(front, '\n') :: !Assigns(other, value))
  }

  /** No line of the text assigns. */
  ghost predicate NowhereAssigned(content: string) {
    forall line, value | line in SplitOn(content, '\n') :: !Assigns(line, value)
  }

  lemma UnassignedIff(lines: seq<string>)
    ensures Unassigned(lines) <==> forall line, value | line in lines :: !Assigns(line, value)
  {
    hide Assigned, Assigns;
    forall line, value
      ensures Assigned(line) == Some(value) <==> Assigns(line, value)
    {
      AssignedIff(line, value);
    }
    if !Unassigned(lines) {
      var line :| line in lines && Assigned(line).Some?;
      assert Assigned(line) == Some(Assigned(line).value);
    }
  }

  /** The lines of a text in front of a place where a line starts. */
  lemma FrontLines(front: string) returns (lines: seq<string>)
    requires front == "" || front[|front| - 1] == '\n'
    ensures Lines(lines) == front
    ensures SplitOn(front, '\n') == lines + [""]
  {
    if front == "" {
      lines := [];
    } else {
      var f := front[..|front| - 1];
      assert front == f + ['\n'] + "";
      lines := SplitOn(f, '\n');
      SplitConcat(f, '\n', "");
      JoinSplit(f, '\n');
      JoinLines(lines);
    }
  }

  lemma LinesOfParts(front: string, line: string, rear: string) returns (before: seq<string>, after: seq<string>)
    requires '\n' !in line
    requires (front == "" || front[|front| - 1] == '\n') && (rear == "" || rear[0] == '\n')
    ensures SplitOn(front + line + rear, '\n') == before + [line] + after
    ensures Lines(before) == front && SplitOn(front, '\n') == before + [""]
    ensures rear == if after == [] then "" else "\n" + Join("\n", after)
  {
    hide SplitOn, Lines, Join;
    before := FrontLines(front);
    var rest := line + rear;
    if rear == "" {
      after := [];
      assert rest == line;
      SplitWhole(line, '\n');
    } else {
      var r := rear[1..];
      assert rear == "\n" + r && rest == line + ['\n'] + r;
      after := SplitOn(r, '\n');
      SplitAtSep(line, '\n', r);
      JoinSplit(r, '\n');
    }
    assert front + line + rear == front + rest;
    if front == "" {
      assert front + rest == rest;
      LinesNone(before);
    } else {
      var f := front[..|front| - 1];
      assert front == f + ['\n'] + "" && front + rest == f + ['\n'] + rest;
      SplitConcat(f, '\n', rest);
      SplitConcat(f, '\n', "");
      SplitWhole("", '\n');
      assert (SplitOn(f, '\n') + [""])[..|before|] == before;
    }
    assert before + ([line] + after) == before + [line] + after;
  }

  lemma LinesNone(lines: seq<string>)
    requires Lines(lines) == ""
    ensures lines == []
  {
  }

  lemma EditAt(content: string, front: string, line: string, rear: string, value: string)
    requires FirstAt(content, front, line, rear) && Assigns(line, value)
    ensures var lines := SplitOn(content, '\n');
            var i := FirstAssigned(lines);
            && i < |lines| && Assigned(lines[i]) == Some(value)
            && forall text :: Substitute(lines, i, text) ==
                 if '\\' in text then Escaped else Changed(front + "COMPOSE_FILE=" + text + rear)
  {
    hide SplitOn, Assigned, Lines, Join, Assigns, AssignmentLine;
    var before, after := LinesOfParts(front, line, rear);
    AssignedIff(line, value);
    UnassignedIff(before);
    assert Unassigned(before) by {
      assert forall other <- before :: other in SplitOn(front, '\n');
    }
    FirstAssignedIs(before, line, after);
    forall text
      ensures Join("\n", SplitOn(content, '\n')[|before| := AssignmentLine(text)])
           == front + "COMPOSE_FILE=" + text + rear
    {
      Written(before, line, after, front, rear, text);
    }
  }

  lemma Written(before: seq<string>, line: string, after: seq<string>, front: string, rear: string, text: string)
    requires Lines(before) == front && rear == if after == [] then "" else "\n" + Join("\n", after)
    ensures Join("\n", (before + [line] + after)[|before| := AssignmentLine(text)])
         == front + "COMPOSE_FILE=" + text + rear
  {
    LineSpelled(text);
    hide Lines, Join, AssignmentLine;
    var written := AssignmentLine(text);
    assert (before + [line] + after)[|before| := written] == before + [written] + after;
    JoinFront(before, written, after);
    Ungrouped(front, "COMPOSE_FILE=", text, rear);
  }

  lemma LineSpelled(text: string)
    ensures AssignmentLine(text) == "COMPOSE_FILE=" + text
  {
    assert KEY + "=" == "COMPOSE_FILE=";
  }

  lemma Ungrouped(a: string, b: string, c: string, d: string)
    ensures a + (b + c + d) == a + b + c + d
  {
  }

  lemma NotEdited(content: string)
    requires NowhereAssigned(content)
    ensures FirstAssigned(SplitOn(content, '\n')) == |SplitOn(content, '\n')|
  {
    hide SplitOn, Assigned, Assigns;
    UnassignedIff(SplitOn(content, '\n'));
    FirstAssignedMeans(SplitOn(content, '\n'));
  }

  lemma FirstPieces(content: string, i: nat) returns (front: string, line: string, rear: string)
    requires i < |SplitOn(content, '\n')|
    ensures var lines := SplitOn(content, '\n');
            && content == front + line + rear && line == lines[i] && front == Lines(lines[..i])
            && (front == "" || front[|front| - 1] == '\n') && (rear == "" || rear[0] == '\n')
  {
    hide Lines, Join, SplitOn;
    var lines := SplitOn(content, '\n');
    var before, after := lines[..i], lines[i + 1..];
    front, line, rear := Lines(before), lines[i], if after == [] then "" else "\n" + Join("\n", after);
    assert lines == before + [line] + after;
    JoinFront(before, line, after);
    JoinSplit(content, '\n');
    LinesEnd(before);
    assert front + (line + rear) == front + line + rear;
  }

  /** Every text has a first assignment, or none. */
  lemma FirstOrNone(content: string)
    ensures NowhereAssigned(content) ||
            exists front, line, rear, value :: FirstAt(content, front, line, rear) && Assigns(line, value)
  {
    var lines := SplitOn(content, '\n');
    var i := FirstAssigned(lines);
    UnassignedIff(lines);
    FirstAssignedMeans(lines);
    if i < |lines| {
      hide Assigned, Assigns, Lines;
      var front, line, rear := FirstPieces(content, i);
      assert Unassigned(lines[..i]);
      FrontUnassigned(lines[..i]);
      AssignedIff(line, Assigned(line).value);
      assert FirstAt(content, front, line, rear) && Assigns(line, Assigned(line).value);
    }
  }

  lemma FrontUnassigned(before: seq<string>)
    requires Unassigned(before) && forall line <- before :: '\n' !in line
    ensures forall other, value | other in SplitOn(Lines(before), '\n') :: !Assigns(other, value)
  {
    hide Assigned, Assigns, Lines, Join;
    UnassignedIff(before);
    LinesPieces(before);
    forall value
      ensures !Assigns("", value)
    {
      NothingAssigned(value);
    }
  }

  lemma NothingAssigned(value: string)
    ensures !Assigns("", value)
  {
  }

  lemma LinesPieces(before: seq<string>)
    requires forall line <- before :: '\n' !in line
    ensures SplitOn(Lines(before), '\n') == before + [""]
  {
    hide SplitOn;
    if before == [] {
      SplitWhole("", '\n');
    } else {
      JoinLines(before);
      SplitJoin(before, '\n');
      var joined := Join("\n", before);
      assert Lines(before) == joined + ['\n'] + "";
      SplitConcat(joined, '\n', "");
      SplitWhole("", '\n');
    }
  }

  // ---------- the two edits ----------

  lemma ChainOf(content: string, front: string, line: string, rear: string, value: string)
    requires FirstAt(content, front, line, rear) && Assigns(line, value)
    ensures Chain(content) ==
            if OVERRIDE in Parts(Strip(value)) then Unchanged
            else if '\\' in Strip(value) then Escaped
            else Changed(front + "COMPOSE_FILE=" + (Strip(value) + ":" + OVERRIDE) + rear)
  {
    hide SplitOn, Assigned, Parts, Strip, FirstAt, Assigns, Substitute, PlainName, OVERRIDE, DEFAULT;
    EditAt(content, front, line, rear, value);
    NamesArePlain();
    EscapeStays(Strip(value), OVERRIDE);
  }

  lemma EscapeStays(value: string, name: string)
    requires '\\' !in name
    ensures '\\' in value + ":" + name <==> '\\' in value
  {
  }

  /**
   Chaining a text with an assignment: nothing if the override is listed, else the override behind the old value
   on that line and the rest of the text as it was.
   */
  lemma ChainAt(content: string, front: string, line: string, rear: string, value: string)
    requires FirstAt(content, front, line, rear) && Assigns(line, value)
    ensures var override := "docker-compose.override.yml";
            Chain(content) ==
            if override in Parts(Strip(value)) then Unchanged
            else if '\\' in Strip(value) then Escaped
            else Changed(front + "COMPOSE_FILE=" + (Strip(value) + ":" + override) + rear)
  {
    ChainOf(content, front, line, rear, value);
    hide Chain, Parts, Strip, FirstAt, Assigns;
  }

  /** Chaining a text without one: default and override on a line of their own at the end. */
  lemma ChainNowhere(content: string)
    requires NowhereAssigned(content)
    ensures Chain(content) ==
            Changed(content + (if content == "" || content[|content| - 1] == '\n' then "" else "\n")
                    + ("COMPOSE_FILE" + "=" + ("docker-compose.yml" + ":" + "docker-compose.override.yml")) + "\n")
  {
    NotEdited(content);
    hide SplitOn, Assigned, FirstAssigned, NowhereAssigned;
    assert content + "" == content;
  }

  /**
   Unchaining any text with an assignment: nothing if the override is not listed, else the other names on that
   line, or the default when there are none, and the rest of the text as it was.
   */
  lemma UnchainAt(content: string, front: string, line: string, rear: string, value: string)
    requires FirstAt(content, front, line, rear) && Assigns(line, value)
    ensures var names := Without(Parts(Strip(value)), "docker-compose.override.yml");
            Unchain(content) ==
            if "docker-compose.override.yml" !in Parts(Strip(value)) then Unchanged
            else if names == [] then Changed(front + "COMPOSE_FILE=" + "docker-compose.yml" + rear)
            else if '\\' in Join(":", names) then Escaped
            else Changed(front + "COMPOSE_FILE=" + Join(":", names) + rear)
  {
    EditAt(content, front, line, rear, value);
    NamesArePlain();
    hide SplitOn, Assigned, Parts, Strip, FirstAt, Assigns, Substitute, Without, Join, PlainName;
  }

  lemma UnchainNowhere(content: string)
    requires NowhereAssigned(content)
    ensures Unchain(content) == Unchanged
  {
    NotEdited(content);
    hide SplitOn, Assigned, FirstAssigned, NowhereAssigned;
  }

  // ---------- names ----------

  /** The parts of a value are the pieces between colons, stripped, the blank ones left out. */
  lemma PartsArePieces(a: string, b: string)
    ensures Parts(a + ":" + b) == Parts(a) + Parts(b)
    ensures ':' !in a ==> Parts(a) == if Strip(a) == "" then [] else [Strip(a)]
  {
    hide SplitOn, Strip;
    SplitConcat(a, ':', b);
    StrippedConcat(SplitOn(a, ':'), SplitOn(b, ':'));
    if ':' !in a {
      SplitWhole(a, ':');
      assert [a][1..] == [];
    }
  }

  /** `Without` drops every occurrence of one name and keeps the others in order. */
  lemma {:induction false} WithoutDrops(xs: seq<string>, ys: seq<string>, drop: string)
    ensures Without(xs + ys, drop) == Without(xs, drop) + Without(ys, drop)
    ensures drop !in xs ==> Without(xs, drop) == xs
    ensures Without([drop], drop) == []
  {
    assert [drop][1..] == [];
    if xs == [] {
      assert xs + ys == ys;
    } else {
      assert (xs + ys)[1..] == xs[1..] + ys;
      WithoutDrops(xs[1..], ys, drop);
      assert xs == [xs[0]] + xs[1..];
    }
  }

  // ---------- the reader ----------

  lemma HeadRead(line: string, a: string, rest: string)
    requires SpaceIn(a, 0, |a|) && line == a + "COMPOSE_FILE=" + rest
    ensures Read(line) == Some(Strip(rest))
  {
    KeyEnds();
    hide IsSpace, Strip;
    StripHead(line, a, "COMPOSE_FILE=", rest);
  }

  /** A head that starts and ends in no whitespace stays in front of what is stripped behind it. */
  lemma StripHead(line: string, a: string, head: string, rest: string)
    requires SpaceIn(a, 0, |a|) && line == a + head + rest
    requires head != "" && !IsSpace(head[0]) && !IsSpace(head[|head| - 1])
    ensures head <= Strip(line) && Strip(Strip(line)[|head|..]) == Strip(rest)
  {
    hide IsSpace, Strip;
    var i, j := StripSlice(rest);
    var n := if i == j then 0 else j;
    var core := head + rest[..n];
    assert SpaceIn(rest, n, |rest|);
    if n > 0 {
      StripEnds(rest, i, j);
    }
    assert core[0] == head[0] && core[|core| - 1] == if n == 0 then head[|head| - 1] else rest[n - 1];
    assert SpaceIn(rest[n..], 0, |rest| - n) by {
      assert forall k | 0 <= k < |rest| - n :: rest[n..][k] == rest[n + k];
    }
    assert line == a + core + rest[n..];
    CoreOf(line, a, core, rest[n..]);
    assert core[|head|..] == rest[..n];
    StripTail(rest, 0, n);
    assert rest[0..] == rest && rest[0..n] == rest[..n];
  }

  lemma CoreOf(line: string, a: string, core: string, b: string)
    requires line == a + core + b && SpaceIn(a, 0, |a|) && SpaceIn(b, 0, |b|) && Trimmed(core)
    ensures Strip(line) == core
  {
    hide IsSpace, Strip;
    assert line[|a|..|a| + |core|] == core;
    assert forall k | 0 <= k < |b| :: line[|a| + |core| + k] == b[k];
    assert SpaceIn(line, 0, |a|) && SpaceIn(line, |a| + |core|, |line|);
    StripIs(line, |a|, |a| + |core|);
  }

  lemma StripEnds(s: string, i: nat, j: nat)
    requires i < j <= |s| && Strip(s) == s[i..j]
    ensures !IsSpace(s[j - 1])
  {
    hide IsSpace, Strip;
    StripIsTrimmed(s);
    assert s[i..j][|s[i..j]| - 1] == s[j - 1];
  }

  lemma KeyEnds()
    ensures !IsSpace('C') && !IsSpace('=')
  {
  }

  lemma SplitHead(line: string, head: string) returns (a: string, rest: string)
    requires head <= Strip(line)
    ensures SpaceIn(a, 0, |a|) && line == a + head + rest
  {
    hide IsSpace, Strip;
    var i, j := StripSlice(line);
    a, rest := line[..i], line[i + |head|..];
    assert line[i..i + |head|] == line[i..j][..|head|];
    assert forall k | 0 <= k < |a| :: a[k] == line[k];
  }

  /** The name, with nothing but whitespace in front of it, then `rest`. */
  ghost predicate Heads(line: string, rest: string) {
    exists a | SpaceIn(a, 0, |a|) :: line == a + "COMPOSE_FILE=" + rest
  }

  /** What stack-control reads of a line: what follows `COMPOSE_FILE=`, if only whitespace is in front of it. */
  lemma ReadIff(line: string, value: string)
    ensures Read(line) == Some(value) <==> exists rest | Heads(line, rest) :: value == Strip(rest)
  {
    hide IsSpace, Strip, SpaceIn;
    if Read(line) == Some(value) {
      var a, rest := SplitHead(line, "COMPOSE_FILE=");
      HeadRead(line, a, rest);
      assert Heads(line, rest);
    }
    if exists rest | Heads(line, rest) :: value == Strip(rest) {
      var rest :| Heads(line, rest) && value == Strip(rest);
      var a :| SpaceIn(a, 0, |a|) && line == a + "COMPOSE_FILE=" + rest;
      HeadRead(line, a, rest);
    }
  }

  /** The first line with a value wins; without one the fallback is used. */
  lemma {:induction false} FirstReadIs(lines: seq<string>, fallback: string, i: nat)
    requires i <= |lines| && forall k | 0 <= k < i :: Read(lines[k]) in [None, Some("")]
    requires i < |lines| ==> Read(lines[i]) !in [None, Some("")]
    ensures Some(FirstRead(lines, fallback)) == if i < |lines| then Read(lines[i]) else Some(fallback)
  {
    hide Read;
    if i == 0 {
    } else {
      assert forall k | 0 <= k < i - 1 :: lines[1..][k] == lines[k + 1];
      FirstReadIs(lines[1..], fallback, i - 1);
    }
  }

  /** Every file behind a flag of its own, in order. */
  lemma {:induction false} FlagsAre(files: seq<string>)
    ensures |FileFlags(files)| == 2 * |files|
    ensures forall i | 0 <= i < |files| :: FileFlags(files)[2 * i] == "-f" && FileFlags(files)[2 * i + 1] == files[i]
  {
    if files == [] {
    } else {
      FlagsAre(files[1..]);
      var rest := FileFlags(files[1..]);
      forall i | 1 <= i < |files|
        ensures FileFlags(files)[2 * i] == "-f" && FileFlags(files)[2 * i + 1] == files[i]
      {
        assert FileFlags(files)[2 * i] == rest[2 * (i - 1)] && FileFlags(files)[2 * i + 1] == rest[2 * (i - 1) + 1];
      }
    }
  }
}

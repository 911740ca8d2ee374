/** The structural checks accept what merge writes, for the right number of binds and no other. */
module IngestBindsValidate {
  import opened BindSources
  import opened IngestBinds
  import opened IngestBindsLaws
  import opened IngestBindsMerge
  import opened Text

  /** No space character and nothing that ends a line. */
  predicate Unbroken(s: string) {
    forall i | 0 <= i < |s| :: s[i] != ' ' && !IsLineBreak(s[i])
  }

  predicate UnbrokenPaths(paths: seq<string>) {
    forall path <- paths :: Unbroken(Strip(path))
  }

  lemma UnbrokenConcat(a: string, b: string)
    requires Unbroken(a) && Unbroken(b)
    ensures Unbroken(a + b)
  {
  }

  predicate Printable(s: string) {
    forall i | 0 <= i < |s| :: '!' <= s[i] <= '~'
  }

  lemma PrintableIsUnbroken(s: string)
    requires Printable(s)
    ensures Unbroken(s)
  {
  }

  lemma UpperIsUnbroken(s: string)
    requires Unbroken(s)
    ensures Unbroken(UpperAscii(s))
  {
  }

  lemma SourceIsUnbroken(path: string, windows: bool)
    requires Unbroken(Strip(path))
    ensures Unbroken(BindSource(path, windows))
  {
    hide IsSpace, Strip, UpperAscii;
    var stripped := Strip(path);
    PrintableIsUnbroken("/");
    PrintableIsUnbroken(":/");
    if "/host/" <= stripped {
      var rest := stripped[6..];
      var slash := Find(rest, "/");
      if slash == -1 {
        UpperIsUnbroken(rest);
        UnbrokenConcat(UpperAscii(rest), ":/");
      } else {
        UpperIsUnbroken(rest[..slash]);
        UnbrokenConcat(UpperAscii(rest[..slash]), ":/");
        UnbrokenConcat(UpperAscii(rest[..slash]) + ":/", rest[slash + 1..]);
      }
      UnbrokenConcat("/", rest);
    }
  }

  lemma TargetIsPrintable(index: nat)
    ensures Printable(Target(index)) && Target(index) != "" && Target(index)[0] == ':'
  {
    var digits := Decimal(index);
  }

  lemma VolumeIsUnbroken(path: string, index: nat, windows: bool)
    requires Unbroken(Strip(path))
    ensures Unbroken(VolumeLine(path, index, windows))
  {
    hide Unbroken, BindSource, Target;
    SourceIsUnbroken(path, windows);
    TargetIsPrintable(index);
    PrintableIsUnbroken(Target(index));
    UnbrokenConcat(BindSource(path, windows), Target(index));
  }

  // ---------- one list item ----------

  lemma BulletIsOneLine(volume: string)
    requires Unbroken(volume)
    ensures OneLine("      - " + volume)
  {
    var line := "      - " + volume;
    forall i | 0 <= i < |line|
      ensures !IsLineBreak(line[i])
    {
      assert i >= 8 ==> line[i] == volume[i - 8];
    }
  }

  /** ASCII letters, digits and punctuation are no whitespace. */
  lemma PrintableIsNoSpace(c: char)
    requires '!' <= c <= '~'
    ensures !IsSpace(c)
  {
  }

  lemma BulletIsBindLine(volume: string)
    requires ':' in volume && '!' <= volume[|volume| - 1] <= '~'
    ensures IsBindLine("      - " + volume)
  {
    hide IsSpace, Strip;
    SpaceFacts();
    PrintableIsNoSpace(volume[|volume| - 1]);
    var line := "      - " + volume;
    var item := "- " + volume;
    assert line[6..|line|] == item && item[|item| - 1] == volume[|volume| - 1];
    assert SpaceIn(line, 0, 6) && Trimmed(item);
    StripIs(line, 6, |line|);
    assert ':' in item && item[0] == '-' && item[1] == ' ';
  }

  lemma BulletHasTarget(source: string, index: nat)
    requires Unbroken(source + Target(index))
    ensures HasTarget("      - " + (source + Target(index)), index)
  {
    hide IsSpace, Target;
    SpaceFacts();
    var target := Target(index);
    var volume := source + target;
    NoBlankKeepsAll(volume);
    WithoutBlanksOfBullet(volume);
    var w := "-" + volume;
    assert w[1 + |source|..1 + |source| + |target|] == target;
    assert At(w, 1 + |source|, target);
  }

  lemma WithoutBlanksOfBullet(volume: string)
    ensures WithoutBlanks("      - " + volume) == "-" + WithoutBlanks(volume)
  {
    WithoutBlanksConcat("      - ", volume);
    assert WithoutBlanks("      - ") == "-";
  }

  lemma Grouped(c: char, a: string, b: string)
    ensures [c] + (a + b) == [c] + a + b
  {
  }

  lemma {:induction false} WithoutBlanksConcat(a: string, b: string)
    ensures WithoutBlanks(a + b) == WithoutBlanks(a) + WithoutBlanks(b)
  {
    if a == "" {
      assert a + b == b;
    } else {
      assert (a + b)[1..] == a[1..] + b && (a + b)[0] == a[0];
      WithoutBlanksConcat(a[1..], b);
      Grouped(a[0], WithoutBlanks(a[1..]), WithoutBlanks(b));
    }
  }

  lemma {:induction false} NoBlankKeepsAll(s: string)
    requires ' ' !in s
    ensures WithoutBlanks(s) == s
  {
    if s == "" {
    } else {
      NoBlankKeepsAll(s[1..]);
    }
  }

  // ---------- the whole slice ----------

  lemma BulletsPass(paths: seq<string>, windows: bool)
    requires UnbrokenPaths(paths)
    ensures var volumes := ExtraVolumes(paths, windows);
            forall k | 0 <= k < |volumes| ::
              var bullet := Bullets(volumes)[k];
              OneLine(bullet) && IsBindLine(bullet) && HasTarget(bullet, k + 1)
  {
    hide IsSpace, Strip, BindSource, OneLine, IsBindLine, HasTarget, Target;
    var volumes := ExtraVolumes(paths, windows);
    forall k | 0 <= k < |volumes|
      ensures var bullet := Bullets(volumes)[k];
              OneLine(bullet) && IsBindLine(bullet) && HasTarget(bullet, k + 1)
    {
      var path := paths[k + 1];
      var source := BindSource(path, windows);
      assert volumes[k] == source + Target(k + 1);
      VolumeIsUnbroken(path, k + 1, windows);
      TargetIsPrintable(k + 1);
      assert volumes[k][|source|] == ':' && volumes[k][|volumes[k]| - 1] == Target(k + 1)[|Target(k + 1)| - 1];
      BulletIsOneLine(volumes[k]);
      BulletIsBindLine(volumes[k]);
      BulletHasTarget(source, k + 1);
    }
  }

  lemma {:induction false} AllBindLines(lines: seq<string>)
    requires forall line <- lines :: IsBindLine(line)
    ensures BindLines(lines) == lines
  {
    if lines == [] {
    } else {
      AllBindLines(lines[1..]);
    }
  }

  lemma {:induction false} TargetsMeans(found: seq<string>, i: nat)
    requires i <= |found|
    ensures TargetsFrom(found, i) == Accepted <==> forall k | i <= k < |found| :: HasTarget(found[k], k + 1)
    decreases |found| - i
  {
    hide HasTarget;
    if i < |found| {
      TargetsMeans(found, i + 1);
    }
  }

  /** Else the first line that lacks its target is reported, counted from 1. */
  lemma {:induction false} BadTargetIs(found: seq<string>, i: nat) returns (k: nat)
    requires i <= |found| && TargetsFrom(found, i) != Accepted
    ensures i <= k < |found| && TargetsFrom(found, i) == BadTarget(k + 1)
    ensures !HasTarget(found[k], k + 1) && forall j | i <= j < k :: HasTarget(found[j], j + 1)
    decreases |found| - i
  {
    hide HasTarget;
    if HasTarget(found[i], i + 1) {
      k := BadTargetIs(found, i + 1);
    } else {
      k := i;
    }
  }

  lemma AsciiIsOneLine(s: string)
    requires forall i | 0 <= i < |s| :: ' ' <= s[i] <= '~'
    ensures OneLine(s)
  {
  }

  /** The BEGIN line is one line and no bind line. */
  lemma BeginLine()
    ensures OneLine(BEGIN) && !IsBindLine(BEGIN)
  {
    hide IsSpace, OneLine, IsBindLine;
    AsciiIsOneLine(BEGIN);
    MarkerEnds();
    assert BEGIN[0] == '#';
    hide BEGIN;
    HashLineIsNoBindLine(BEGIN);
  }

  lemma HashLineIsNoBindLine(s: string)
    requires s != "" && s[0] == '#' && !IsSpace(s[|s| - 1])
    ensures !IsBindLine(s)
  {
    SpaceFacts();
    hide IsSpace;
    StripIs(s, 0, |s|);
    assert s[0..|s|] == s;
  }

  lemma BindLinesAfter(first: string, bullets: seq<string>)
    requires OneLine(first) && !IsBindLine(first)
    requires forall k | 0 <= k < |bullets| :: OneLine(bullets[k]) && IsBindLine(bullets[k])
    ensures BindLines(Splitlines(first + ("\n" + Lines(bullets)))) == bullets
  {
    hide OneLine, IsBindLine;
    var lines := [first] + bullets;
    assert lines[1..] == bullets;
    assert Lines(lines) == first + ("\n" + Lines(bullets));
    SplitlinesOfLines(lines);
    AllBindLines(bullets);
  }

  /** The lines validate sees between the markers of a rendered block. */
  lemma SliceLines(paths: seq<string>, windows: bool)
    requires UnbrokenPaths(paths)
    ensures var volumes := ExtraVolumes(paths, windows);
            BindLines(Splitlines(BEGIN + BlockBody(volumes))) == Bullets(volumes)
  {
    hide BEGIN, OneLine, IsBindLine, HasTarget, ExtraVolumes, Lines, BindLines, Splitlines, UnbrokenPaths;
    BulletsPass(paths, windows);
    BeginLine();
    BindLinesAfter(BEGIN, Bullets(ExtraVolumes(paths, windows)));
  }

  lemma UnbrokenIsOk(paths: seq<string>)
    requires UnbrokenPaths(paths)
    ensures PathsOk(paths)
  {
    SpaceFacts();
  }

  lemma StructureOf(s: string, expected: int, found: seq<string>)
    requires HasBlock(s) && found == BindLines(Splitlines(s[Find(s, BEGIN)..Find(s, END)]))
    ensures Structure(s, expected) ==
            if expected <= 0 then UnexpectedMarkers
            else if |found| != expected then WrongCount(|found|)
            else TargetsFrom(found, 0)
  {
    hide BEGIN, END, BindLines, Splitlines, TargetsFrom;
  }

  lemma SliceOfSplice(a: string, begin: string, body: string, end: string, c: string)
    ensures var m := begin + body + end + "\n";
            (a + m + c)[|a|..|a| + |m| - |end| - 1] == begin + body
  {
  }

  lemma BlockIs(paths: seq<string>, windows: bool)
    requires |paths| >= 2
    ensures ManagedBlock(paths, windows) == BEGIN + BlockBody(ExtraVolumes(paths, windows)) + END + "\n"
  {
    hide BEGIN, END;
  }

  lemma BlockSlice(a: string, paths: seq<string>, windows: bool, c: string)
    requires NoMarker(a) && |paths| >= 2 && PathsOk(paths)
    ensures var s := a + ManagedBlock(paths, windows) + c;
            HasBlock(s) && s[Find(s, BEGIN)..Find(s, END)] == BEGIN + BlockBody(ExtraVolumes(paths, windows))
  {
    hide NoMarker, BEGIN, END, BlockBody, Find, PathsOk, ManagedBlock, ExtraVolumes, Blank, LineEnd;
    FindsBlock(a, paths, windows, c);
    var volumes := ExtraVolumes(paths, windows);
    BlockIs(paths, windows);
    SliceOfSplice(a, BEGIN, BlockBody(volumes), END, c);
  }

  lemma BulletCount(paths: seq<string>, windows: bool)
    requires paths != []
    ensures |Bullets(ExtraVolumes(paths, windows))| == |paths| - 1
  {
  }

  lemma TargetsPass(paths: seq<string>, windows: bool)
    requires UnbrokenPaths(paths)
    ensures TargetsFrom(Bullets(ExtraVolumes(paths, windows)), 0) == Accepted
  {
    hide OneLine, IsBindLine, HasTarget, ExtraVolumes, UnbrokenPaths;
    BulletsPass(paths, windows);
    TargetsMeans(Bullets(ExtraVolumes(paths, windows)), 0);
  }

  lemma StructureOfBlock(a: string, paths: seq<string>, windows: bool, c: string, expected: int)
    requires NoMarker(a) && |paths| >= 2 && UnbrokenPaths(paths)
    ensures Structure(a + ManagedBlock(paths, windows) + c, expected) ==
            if expected <= 0 then UnexpectedMarkers
            else if expected == |paths| - 1 then Accepted
            else WrongCount(|paths| - 1)
  {
    hide NoMarker, ManagedBlock, UnbrokenPaths, Bullets, ExtraVolumes, BEGIN, END;
    hide BlockBody, Find, HasBlock, Splitlines, BindLines, TargetsFrom, Structure;
    var found, s := Bullets(ExtraVolumes(paths, windows)), a + ManagedBlock(paths, windows) + c;
    BulletCount(paths, windows);
    TargetsPass(paths, windows);
    UnbrokenIsOk(paths);
    BlockSlice(a, paths, windows, c);
    SliceLines(paths, windows);
    StructureOf(s, expected, found);
  }

  /** Merge always writes what the structural checks accept, with the count of extra paths. */
  lemma MergedTextIsValid(existing: string, paths: seq<string>, windows: bool, expected: int)
    requires Spliceable(existing) && |paths| >= 2 && UnbrokenPaths(paths)
    ensures Structure(Merge(existing, paths, windows), expected) == Accepted
       <==> expected == |paths| - 1
    ensures expected > 0 && expected != |paths| - 1 ==>
      Structure(Merge(existing, paths, windows), expected) == WrongCount(|paths| - 1)
  {
    hide Structure, Merge, ManagedBlock, Frame, Spliceable;
    FrameHasNoMarker(existing);
    MergeIsFramed(existing, paths, windows);
    StructureOfBlock(Frame(existing).0, paths, windows, Frame(existing).1, expected);
  }
}

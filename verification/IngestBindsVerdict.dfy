/** The verdict of the structural checks on merged text for all paths, those with line breaks included. */
module IngestBindsVerdict {
  import opened BindSources
  import opened IngestBinds
  import opened IngestBindsLaws
  import opened IngestBindsMerge
  import opened IngestBindsStray
  import opened IngestBindsValidate
  import opened Text

  /** A text up to its first line break. */
  function HeadLine(s: string): (r: string)
    ensures r <= s
  {
    s[..FirstBreak(s)]
  }

  /** The first lines of the list items. */
  function HeadItems(volumes: seq<string>): (r: seq<string>)
    ensures |r| == |volumes|
  {
    seq(|volumes|, i requires 0 <= i < |volumes| => "      - " + HeadLine(volumes[i]))
  }

  // ---------- the lines of one item ----------

  lemma {:induction false} LinesHaveNoBlank(s: string)
    requires ' ' !in s
    ensures forall line <- Splitlines(s) :: ' ' !in line
    decreases |s|
  {
    hide OneLine, IsLineBreak;
    if s == "" {
    } else {
      var i := FirstBreak(s);
      if i < |s| {
        LinesHaveNoBlank(s[i + BreakWidth(s, i)..]);
      }
    }
  }

  lemma ItemHasBlank(line: string)
    requires IsBindLine(line)
    ensures ' ' in line
  {
    hide Strip;
    var i, j := StripSlice(line);
    assert Strip(line)[1] == "- "[1] == line[i + 1];
  }

  /** The first line of an item counts exactly when it holds a colon. */
  lemma HeadItem(head: string)
    requires ' ' !in head
    ensures IsBindLine("      - " + head) <==> ':' in head
  {
    hide IsSpace, Strip;
    SpaceFacts();
    PrintableIsNoSpace(':');
    var line := "      - " + head;
    assert forall k | 0 <= k < |head| :: line[8 + k] == head[k];
    assert line[6] == '-' && line[7] == ' ' && forall k | 0 <= k < 8 :: line[k] != ':';
    if ':' in head {
      var k :| 0 <= k < |head| && head[k] == ':';
      var i, j := StripSlice(line);
      assert 8 + k < j;
      assert i <= 6;
      assert Strip(line)[0] == line[i];
      assert Strip(line)[..2] == line[6..8] == "- ";
    }
  }

  lemma HeadOf(volume: string) returns (i: nat)
    ensures i == |"      - "| + |HeadLine(volume)| && FirstBreak("      - " + volume + "\n") == i
    ensures ("      - " + volume + "\n")[..i] == "      - " + HeadLine(volume)
  {
    var indent := "      - ";
    var text := indent + volume + "\n";
    var head := HeadLine(volume);
    i := |indent| + |head|;
    assert text[..i] == indent + head;
    assert OneLine(indent);
    assert if |head| < |volume| then text[i] == volume[|head|] else text[i] == '\n';
    hide IsLineBreak;
    FirstBreakIsAt(text, i);
  }

  lemma ItemLines(volume: string)
    requires ' ' !in volume
    ensures BindLines(Splitlines("      - " + volume + "\n"))
         == if ':' in HeadLine(volume) then ["      - " + HeadLine(volume)] else []
  {
    hide Splitlines, IsBindLine, HeadLine, FirstBreak, IsLineBreak;
    var text := "      - " + volume + "\n";
    var head := HeadLine(volume);
    var i := HeadOf(volume);
    var w := BreakWidth(text, i);
    CutLine(text, i, w);
    var rest := text[i + w..];
    assert rest == (volume + "\n")[|head| + w..];
    LinesHaveNoBlank(rest);
    forall line <- Splitlines(rest)
      ensures !IsBindLine(line)
    {
      if IsBindLine(line) {
        ItemHasBlank(line);
      }
    }
    NoItems(Splitlines(rest));
    assert ' ' !in head;
    HeadItem(head);
    assert ([text[..i]] + Splitlines(rest))[1..] == Splitlines(rest);
  }

  // ---------- all items ----------

  lemma {:induction false} ItemsOfLines(volumes: seq<string>)
    requires forall volume <- volumes :: ' ' !in volume
    ensures BindLines(Splitlines(Lines(Bullets(volumes)))) == BindLines(HeadItems(volumes))
  {
    hide Splitlines, IsBindLine, HeadLine;
    if volumes == [] {
      NoLines();
    } else {
      var first, rest := volumes[0], volumes[1..];
      var bullet := "      - " + first;
      assert Bullets(volumes) == [bullet] + Bullets(rest);
      assert HeadItems(volumes) == ["      - " + HeadLine(first)] + HeadItems(rest);
      ItemsOfLines(rest);
      LinesCons(bullet, Bullets(rest));
      hide Lines, BindLines, Bullets, HeadItems;
      SplitlinesFrom(bullet + "\n", Lines(Bullets(rest)));
      BindLinesConcat(Splitlines(bullet + "\n"), Splitlines(Lines(Bullets(rest))));
      BindLinesConcat(["      - " + HeadLine(first)], HeadItems(rest));
      ItemLines(first);
      assert ' ' !in HeadLine(first);
      HeadItem(HeadLine(first));
      OneItem("      - " + HeadLine(first));
    }
  }

  lemma LinesCons(line: string, lines: seq<string>)
    ensures Lines([line] + lines) == line + "\n" + Lines(lines)
  {
    assert ([line] + lines)[1..] == lines;
  }

  lemma OneItem(line: string)
    ensures BindLines([line]) == if IsBindLine(line) then [line] else []
  {
    hide IsBindLine;
    assert [line][1..] == [];
  }

  lemma VolumesHaveNoBlank(paths: seq<string>, windows: bool)
    requires PathsOk(paths)
    ensures forall volume <- ExtraVolumes(paths, windows) :: ' ' !in volume
  {
    hide VolumeLine, Strip;
    forall k | 1 <= k < |paths|
      ensures ' ' !in VolumeLine(paths[k], k, windows)
    {
      VolumeHasNoBlank(paths[k], k, windows);
    }
  }

  lemma BlockItems(paths: seq<string>, windows: bool)
    requires PathsOk(paths)
    ensures var volumes := ExtraVolumes(paths, windows);
            BindLines(Splitlines(BEGIN + BlockBody(volumes))) == BindLines(HeadItems(volumes))
  {
    hide BEGIN, OneLine, IsBindLine, ExtraVolumes, Lines, BindLines, Splitlines, HeadItems, Bullets, PathsOk;
    var volumes := ExtraVolumes(paths, windows);
    VolumesHaveNoBlank(paths, windows);
    ItemsOfLines(volumes);
    BeginLine();
    OneItem(BEGIN);
    SplitlinesAppend(BEGIN, Lines(Bullets(volumes)));
    assert BEGIN + BlockBody(volumes) == BEGIN + "\n" + Lines(Bullets(volumes));
    LinesCons(BEGIN, []);
    NoMoreLines();
    assert [BEGIN] + [] == [BEGIN] && BEGIN + "\n" + "" == BEGIN + "\n";
    SplitlinesOfLines([BEGIN]);
    BindLinesConcat([BEGIN], Splitlines(Lines(Bullets(volumes))));
    assert [] + BindLines(HeadItems(volumes)) == BindLines(HeadItems(volumes));
  }

  lemma NoMoreLines()
    ensures Lines([]) == ""
  {
  }

  // ---------- the verdict ----------

  /** Is the mount written whole on the first line of its item? */
  predicate MountsOnFirstLine(path: string, index: nat, windows: bool) {
    var source := BindSource(path, windows);
    OneLine(source) || Contains(HeadLine(source), Target(index))
  }

  lemma TargetOnHead(path: string, index: nat, windows: bool)
    requires ' ' !in Strip(path)
    ensures var head := HeadLine(VolumeLine(path, index, windows));
            && ' ' !in head
            && (Contains(head, Target(index)) <==> MountsOnFirstLine(path, index, windows))
  {
    hide BindSource, Target, IsLineBreak, Strip;
    VolumeHasNoBlank(path, index, windows);
    TargetIsPrintable(index);
    PrintableIsUnbroken(Target(index));
    var source, target := BindSource(path, windows), Target(index);
    var volume := source + target;
    if OneLine(source) {
      assert OneLine(volume);
      assert HeadLine(volume) == volume;
      assert At(volume, |source|, target);
    } else {
      FirstBreakInside(source);
      var i := FirstBreak(source);
      assert volume[..i] == source[..i] && volume[i] == source[i];
      FirstBreakIsAt(volume, i);
    }
  }

  lemma ShiftedAt(head: string, i: nat, target: string)
    ensures At("-" + head, i + 1, target) <==> At(head, i, target)
  {
    if i + |target| <= |head| {
      assert ("-" + head)[i + 1..i + 1 + |target|] == head[i..i + |target|];
    }
  }

  lemma FirstAt(s: string, i: nat, target: string)
    requires target != "" && target[0] == ':'
    ensures At(s, i, target) ==> i < |s| && s[i] == ':'
  {
    assert At(s, i, target) ==> s[i..i + |target|][0] == s[i];
  }

  lemma BehindDash(head: string, target: string)
    requires target != "" && target[0] == ':'
    ensures Contains("-" + head, target) <==> Contains(head, target)
    ensures Contains(head, target) ==> ':' in head
  {
    hide At;
    if Contains("-" + head, target) {
      var i :| 0 <= i <= |"-" + head| && At("-" + head, i, target);
      FirstAt("-" + head, i, target);
      assert i > 0;
      ShiftedAt(head, i - 1, target);
    }
    if Contains(head, target) {
      var i :| 0 <= i <= |head| && At(head, i, target);
      FirstAt(head, i, target);
      ShiftedAt(head, i, target);
    }
  }

  lemma TargetBehindDash(head: string, index: nat)
    requires ' ' !in head
    ensures HasTarget("      - " + head, index) <==> Contains(head, Target(index))
    ensures Contains(head, Target(index)) ==> ':' in head
  {
    hide Target, Contains, WithoutBlanks;
    TargetIsPrintable(index);
    WithoutBlanksOfBullet(head);
    NoBlankKeepsAll(head);
    BehindDash(head, Target(index));
  }

  lemma {:induction false} CountedItems(lines: seq<string>)
    ensures |BindLines(lines)| == |lines| ==> forall line <- lines :: IsBindLine(line)
  {
    hide IsBindLine;
    if lines == [] {
    } else {
      CountedItems(lines[1..]);
    }
  }

  /** All items count and mount where they should. */
  lemma AllMounted(items: seq<string>)
    requires forall k | 0 <= k < |items| :: HasTarget(items[k], k + 1) ==> IsBindLine(items[k])
    ensures |BindLines(items)| == |items| && TargetsFrom(BindLines(items), 0) == Accepted
       <==> forall k | 0 <= k < |items| :: HasTarget(items[k], k + 1)
  {
    hide HasTarget, IsBindLine;
    if forall line <- items :: IsBindLine(line) {
      AllBindLines(items);
      TargetsMeans(items, 0);
    } else {
      CountedItems(items);
    }
  }

  lemma ItemIsMounted(paths: seq<string>, windows: bool, k: nat)
    requires PathsOk(paths) && k + 1 < |paths|
    ensures var item := HeadItems(ExtraVolumes(paths, windows))[k];
            && (HasTarget(item, k + 1) <==> MountsOnFirstLine(paths[k + 1], k + 1, windows))
            && (HasTarget(item, k + 1) ==> IsBindLine(item))
  {
    hide VolumeLine, HeadLine, HasTarget, IsBindLine, Target, MountsOnFirstLine, Strip, Contains;
    var head := HeadLine(VolumeLine(paths[k + 1], k + 1, windows));
    TargetOnHead(paths[k + 1], k + 1, windows);
    TargetBehindDash(head, k + 1);
    HeadItem(head);
  }

  lemma ItemsMount(paths: seq<string>, windows: bool)
    requires |paths| >= 2 && PathsOk(paths)
    ensures var found := BindLines(HeadItems(ExtraVolumes(paths, windows)));
            |found| == |paths| - 1 && TargetsFrom(found, 0) == Accepted
            <==> forall k | 1 <= k < |paths| :: MountsOnFirstLine(paths[k], k, windows)
  {
    hide HasTarget, IsBindLine, MountsOnFirstLine, HeadLine, VolumeLine, BindLines, TargetsFrom, PathsOk;
    var items := HeadItems(ExtraVolumes(paths, windows));
    forall k: nat | k < |items|
      ensures HasTarget(items[k], k + 1) <==> MountsOnFirstLine(paths[k + 1], k + 1, windows)
      ensures HasTarget(items[k], k + 1) ==> IsBindLine(items[k])
    {
      ItemIsMounted(paths, windows, k);
    }
    AllMounted(items);
    assert forall k | 1 <= k < |paths| :: HasTarget(items[k - 1], k) <==> MountsOnFirstLine(paths[k], k, windows);
    assert forall k | 0 <= k < |items| ::
        HasTarget(items[k], k + 1) <==> MountsOnFirstLine(paths[k + 1], k + 1, windows);
  }

  /**
   For paths that may contain line breaks: the checks see the first lines of the list items, and accept a merge
   for the number of extra paths exactly when every mount is whole on the first line of its item.
   */
  lemma MergedTextVerdict(existing: string, paths: seq<string>, windows: bool, expected: int)
    requires Spliceable(existing) && |paths| >= 2 && PathsOk(paths)
    ensures var found := BindLines(HeadItems(ExtraVolumes(paths, windows)));
            Structure(Merge(existing, paths, windows), expected) ==
            if expected <= 0 then UnexpectedMarkers
            else if |found| != expected then WrongCount(|found|)
            else TargetsFrom(found, 0)
    ensures Structure(Merge(existing, paths, windows), |paths| - 1) == Accepted
       <==> forall k | 1 <= k < |paths| :: MountsOnFirstLine(paths[k], k, windows)
  {
    hide Structure, Merge, ManagedBlock, Frame, Spliceable, BindLines, HeadItems, ExtraVolumes, TargetsFrom;
    hide MountsOnFirstLine, PathsOk, NoMarker, Splitlines, Find, BEGIN, END, HasBlock, BlockBody;
    FrameHasNoMarker(existing);
    MergeIsFramed(existing, paths, windows);
    BlockSlice(Frame(existing).0, paths, windows, Frame(existing).1);
    BlockItems(paths, windows);
    var merged, found := Merge(existing, paths, windows), BindLines(HeadItems(ExtraVolumes(paths, windows)));
    StructureOf(merged, expected, found);
    StructureOf(merged, |paths| - 1, found);
    ItemsMount(paths, windows);
  }

  /** A source with a line break and no colon in front of it is refused wherever it stands. */
  lemma BrokenPathIsRefused(path: string, index: nat, windows: bool)
    requires var source := BindSource(path, windows); !OneLine(source) && ':' !in HeadLine(source)
    ensures !MountsOnFirstLine(path, index, windows)
  {
    hide Target, BindSource, HeadLine, Contains, OneLine;
    TargetIsPrintable(index);
    BehindDash(HeadLine(BindSource(path, windows)), Target(index));
  }
}

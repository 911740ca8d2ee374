/** What the structural checks make of a merge over a text with a stray marker. */
module IngestBindsStray {
  import opened IngestBinds
  import opened IngestBindsLaws
  import opened IngestBindsMerge
  import opened IngestBindsValidate
  import opened Splicing
  import opened Text

  /** Over a stray END that comes first, no merge is ever accepted: the markers read as missing. */
  lemma StrayEndIsInvalid(existing: string, paths: seq<string>, windows: bool, expected: int)
    requires StrayMarker(existing) && |paths| >= 2 && PathsOk(paths)
    requires Find(existing, END) != -1
    requires Find(existing, BEGIN) == -1 || Find(existing, END) < Find(existing, BEGIN)
    ensures Structure(Merge(existing, paths, windows), expected) ==
            if expected <= 0 then UnexpectedMarkers else MissingMarkers
  {
    hide Merge, ManagedBlock, Section, BEGIN, END, StrayMarker, IsSpace, SERVICES, MarkerPair, BindLines, Splitlines;
    StrayMerge(existing, paths, windows);
    MarkerEnds();
    PairSymmetric();
    var added := "\n" + Section(existing) + ManagedBlock(paths, windows);
    StaysFirst(existing, added, END, BEGIN);
  }

  // ---------- a stray BEGIN ----------

  lemma {:induction false} BindLinesConcat(xs: seq<string>, ys: seq<string>)
    ensures BindLines(xs + ys) == BindLines(xs) + BindLines(ys)
  {
    hide IsBindLine;
    if xs == [] {
      assert xs + ys == ys;
    } else {
      assert (xs + ys)[1..] == xs[1..] + ys;
      BindLinesConcat(xs[1..], ys);
      FrontFirst(xs[0], BindLines(xs[1..]), BindLines(ys));
    }
  }

  lemma FrontFirst(x: string, xs: seq<string>, ys: seq<string>)
    ensures [x] + (xs + ys) == ([x] + xs) + ys
  {
  }

  /** The list items between a stray BEGIN and the end of the text it stands in. */
  function StrayItems(existing: string): seq<string>
    requires Find(existing, BEGIN) != -1 && Find(existing, BEGIN) <= |Rstrip(existing)|
  {
    BindLines(Splitlines(Rstrip(existing)[Find(existing, BEGIN)..] + "\n"))
  }

  lemma ScaffoldTailHasNoItems()
    ensures BindLines(Splitlines(SCAFFOLD_TAIL)) == []
  {
    hide Splitlines, BindLines, IsBindLine, OneLine, SCAFFOLD_TAIL;
    var a, b, c := "services:", "  orchestrator:", "    volumes:";
    ScaffoldTailLines(a, b, c);
    ScaffoldItems();
    SplitlinesOfLines([a, b, c]);
    NoItems([a, b, c]);
  }

  lemma ScaffoldTailLines(a: string, b: string, c: string)
    requires a == "services:" && b == "  orchestrator:" && c == "    volumes:"
    ensures Lines([a, b, c]) == SCAFFOLD_TAIL
    ensures OneLine(a) && OneLine(b) && OneLine(c)
  {
    hide OneLine, Lines, SCAFFOLD_TAIL;
    ScaffoldTailSpelled(a, b, c);
    AsciiIsOneLine(a);
    AsciiIsOneLine(b);
    AsciiIsOneLine(c);
    ThreeLines(a, b, c);
  }

  lemma ScaffoldTailSpelled(a: string, b: string, c: string)
    requires a == "services:" && b == "  orchestrator:" && c == "    volumes:"
    ensures SCAFFOLD_TAIL == a + "\n" + (b + "\n" + (c + "\n"))
  {
  }

  lemma ThreeLines(a: string, b: string, c: string)
    ensures Lines([a, b, c]) == a + "\n" + (b + "\n" + (c + "\n"))
  {
    assert [a, b, c][1..] == [b, c] && [b, c][1..] == [c] && [c][1..] == [];
    assert Lines([c]) == c + "\n";
  }

  lemma ScaffoldItems()
    ensures !IsBindLine("services:") && !IsBindLine("  orchestrator:") && !IsBindLine("    volumes:")
  {
    hide IsBindLine;
    NoItem("services:", 0);
    NoItem("  orchestrator:", 2);
    NoItem("    volumes:", 4);
  }

  lemma NoItem(line: string, i: nat)
    requires i < |line| && 'a' <= line[i] <= 'z' && forall k | 0 <= k < i :: line[k] == ' '
    ensures !IsBindLine(line)
  {
    PrintableIsNoSpace(line[i]);
    SpaceFacts();
    hide IsSpace, Strip;
    var a, b := StripSlice(line);
    assert a <= i && i < b;
    assert Strip(line)[0] == line[a];
  }

  lemma {:induction false} NoItems(lines: seq<string>)
    requires forall line <- lines :: !IsBindLine(line)
    ensures BindLines(lines) == []
  {
    hide IsBindLine;
    if lines == [] {
    } else {
      NoItems(lines[1..]);
    }
  }

  /** Where the checks find the two markers of such a merge. */
  lemma StrayBeginSlice(existing: string, paths: seq<string>, windows: bool)
    requires StrayMarker(existing) && |paths| >= 2 && UnbrokenPaths(paths)
    requires Find(existing, BEGIN) != -1 && Find(existing, END) == -1
    ensures var merged, b := Merge(existing, paths, windows), Find(existing, BEGIN);
            && Find(merged, BEGIN) == b <= |Rstrip(existing)| && b < Find(merged, END)
            && merged[b..Find(merged, END)]
               == Rstrip(existing)[b..] + "\n" + (Section(existing) + (BEGIN + BlockBody(ExtraVolumes(paths, windows))))
  {
    hide Merge, ManagedBlock, Section, BEGIN, END, IsSpace, SERVICES, MarkerPair, Rstrip, CleanIn, BlockBody, Find;
    hide ExtraVolumes, HasKeywordLine, Blank;
    UnbrokenIsOk(paths);
    Markers();
    MarkerEnds();
    StrayMerge(existing, paths, windows);
    var section, m, r := Section(existing), ManagedBlock(paths, windows), Rstrip(existing);
    var b := Find(existing, BEGIN);
    StaysFirst(existing, "\n" + section + m, BEGIN, END);
    SurvivesTrim(existing, b, BEGIN);
    SectionHasNoMarker(existing, END);
    HeadFirst(r, section, m);
    var head := r + "\n" + section;
    BlockIs(paths, windows);
    StrayEndAt(head, paths, windows);
    SlicePieces(r, b, section, BEGIN + BlockBody(ExtraVolumes(paths, windows)), END);
  }

  lemma Appended(a: string, m: string)
    ensures (a + m)[..|a|] == a && At(a + m, |a|, m)
  {
  }

  lemma StrayEndAt(a: string, paths: seq<string>, windows: bool)
    requires Lacks(a, END) && |paths| >= 2 && PathsOk(paths)
    ensures var m := ManagedBlock(paths, windows);
            |m| > |END| && Find(a + m, END) == |a| + |m| - |END| - 1
  {
    hide ManagedBlock, IsSpace, BEGIN, END, CleanIn, Find, Lacks, MarkerPair, Marker, At;
    Markers();
    var m, e := BlockShape(paths, windows);
    Appended(a, m);
    EndInside(a + m, |a|, m, BEGIN, e, END);
  }

  lemma SlicePieces(r: string, b: nat, section: string, front: string, end: string)
    requires b <= |r|
    ensures var s := r + "\n" + section + (front + end + "\n");
            s[b..|s| - |end| - 1] == r[b..] + "\n" + (section + front)
  {
    var s := r + "\n" + section + (front + end + "\n");
    assert s == r + ("\n" + (section + front)) + (end + "\n");
    assert s[..|s| - |end| - 1] == r + ("\n" + (section + front));
  }

  /** The items the checks count are those after the stray BEGIN and then those of the block. */
  lemma StrayBeginItems(existing: string, paths: seq<string>, windows: bool)
    requires StrayMarker(existing) && |paths| >= 2 && UnbrokenPaths(paths)
    requires Find(existing, BEGIN) != -1 && Find(existing, END) == -1
    ensures Find(existing, BEGIN) <= |Rstrip(existing)|
    ensures var merged := Merge(existing, paths, windows);
            && Find(merged, BEGIN) != -1 && Find(merged, BEGIN) < Find(merged, END)
            && BindLines(Splitlines(merged[Find(merged, BEGIN)..Find(merged, END)]))
               == StrayItems(existing) + Bullets(ExtraVolumes(paths, windows))
  {
    hide Merge, Section, BEGIN, END, Rstrip, BlockBody, Find, ExtraVolumes, StrayMarker, UnbrokenPaths, Bullets;
    hide BindLines, Splitlines, SCAFFOLD_TAIL;
    StrayBeginSlice(existing, paths, windows);
    SliceLines(paths, windows);
    var tail := Rstrip(existing)[Find(existing, BEGIN)..];
    var block := BEGIN + BlockBody(ExtraVolumes(paths, windows));
    SectionLines(existing, block);
    SplitlinesAppend(tail, Section(existing) + block);
    BindLinesConcat(Splitlines(tail + "\n"), Splitlines(Section(existing) + block));
  }

  lemma SectionLines(existing: string, block: string)
    ensures BindLines(Splitlines(Section(existing) + block)) == BindLines(Splitlines(block))
  {
    hide BindLines, Splitlines, SCAFFOLD_TAIL, HasKeywordLine;
    if Section(existing) == "" {
      assert "" + block == block;
    } else {
      var tail := "services:\n  orchestrator:\n    volumes:";
      TailIs();
      SplitlinesAppend(tail, block);
      ScaffoldTailHasNoItems();
      BindLinesConcat(Splitlines(tail + "\n"), Splitlines(block));
      assert [] + BindLines(Splitlines(block)) == BindLines(Splitlines(block));
    }
  }

  lemma TailIs()
    ensures SCAFFOLD_TAIL == "services:\n  orchestrator:\n    volumes:" + "\n"
  {
  }

  /**
   Over a stray BEGIN the checks also count the list items that follow it. For the number of extra paths the
   merge is accepted exactly when there are none.
   */
  lemma StrayBeginVerdict(existing: string, paths: seq<string>, windows: bool, expected: int)
    requires StrayMarker(existing) && |paths| >= 2 && UnbrokenPaths(paths)
    requires Find(existing, BEGIN) != -1 && Find(existing, END) == -1
    ensures Find(existing, BEGIN) <= |Rstrip(existing)|
    ensures var found := StrayItems(existing) + Bullets(ExtraVolumes(paths, windows));
            Structure(Merge(existing, paths, windows), expected) ==
            if expected <= 0 then UnexpectedMarkers
            else if |found| != expected then WrongCount(|found|)
            else TargetsFrom(found, 0)
    ensures Structure(Merge(existing, paths, windows), |paths| - 1) == Accepted <==> StrayItems(existing) == []
  {
    hide Merge, BEGIN, END, Rstrip, Find, ExtraVolumes, StrayMarker, UnbrokenPaths, Bullets, StrayItems;
    hide BindLines, Splitlines, TargetsFrom;
    StrayBeginItems(existing, paths, windows);
    BulletCount(paths, windows);
    TargetsPass(paths, windows);
    var bullets := Bullets(ExtraVolumes(paths, windows));
    assert StrayItems(existing) == [] ==> StrayItems(existing) + bullets == bullets;
  }
}

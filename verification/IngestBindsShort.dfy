/** A merge followed by one for fewer than two paths, which strips the block instead of writing one. */
module IngestBindsShort {
  import opened IngestBinds
  import opened IngestBindsLaws
  import opened IngestBindsMerge
  import opened IngestBindsStrip
  import opened Splicing
  import opened Text

  lemma ShortMergeStrips(text: string, paths: seq<string>, windows: bool)
    requires |paths| < 2
    ensures Merge(text, paths, windows) == if Blank(text) then "" else StripManagedBlock(text)
  {
    hide Blank, StripManagedBlock, Find, LineEnd, HasKeywordLine;
  }

  lemma NothingToStrip(text: string)
    requires !HasBlock(text)
    ensures StripManagedBlock(text) == text
  {
    hide BEGIN, END, Rstrip, Blank, LineEnd, Find;
    Markers();
    if Find(text, BEGIN) != -1 {
      FoundAt(text, BEGIN);
      NotBoth(text, Find(text, BEGIN), BEGIN, END);
    }
    if Find(text, END) != -1 {
      FoundAt(text, END);
    }
  }

  lemma FoundAt(text: string, p: string)
    requires Find(text, p) != -1
    ensures At(text, Find(text, p), p)
  {
  }

  /** A text equal to another up to trailing whitespace has only whitespace there. */
  lemma MoreThanSpace(text: string, rest: string)
    requires rest != "" && exists k | 0 <= k < |rest| :: !IsSpace(rest[k])
    ensures text != Rstrip(text) + rest
  {
    hide IsSpace;
    var r := Rstrip(text);
    var tail := text[|r|..];
    assert forall k | 0 <= k < |tail| :: tail[k] == text[|r| + k] && IsSpace(tail[k]);
    assert text == r + tail && (r + rest)[|r|..] == rest;
  }

  /** With services and no complete section, what is stripped back to has the scaffold's lines. */
  lemma ScaffoldStays(existing: string, paths: seq<string>, windows: bool)
    requires !Blank(existing) && |paths| >= 2 && PathsOk(paths) && Spliceable(existing)
    requires !HasBlock(existing) && !HasVolumesSection(existing)
    ensures StripManagedBlock(Merge(existing, paths, windows)) ==
            if HasKeywordLine(existing, SERVICES) then Rstrip(existing) + "\n" + SCAFFOLD_TAIL else SCAFFOLD
    ensures StripManagedBlock(Merge(existing, paths, windows)) != existing
  {
    hide Merge, ManagedBlock, IsSpace, BEGIN, END, Blank, NoMarker, HasKeywordLine, StripManagedBlock, Spliceable;
    hide SCAFFOLD_TITLE, SCAFFOLD_TAIL, HasBlock, Rstrip;
    FrameHasNoMarker(existing);
    MergeIsFramed(existing, paths, windows);
    var r := Rstrip(existing);
    var tail := ScaffoldLines();
    ServicesNeedNoSection(existing);
    if HasKeywordLine(existing, SERVICES) {
      var r' := r + "\n" + tail;
      assert r' + "\n" == r + "\n" + SCAFFOLD_TAIL;
      assert r'[|r'| - 1] == tail[|tail| - 1];
      StripOverLine(r', paths, windows);
      var rest := "\n" + SCAFFOLD_TAIL;
      assert rest[|tail|] == tail[|tail| - 1];
      MoreThanSpace(existing, rest);
      assert r + "\n" + SCAFFOLD_TAIL == r + rest;
    } else {
      ScaffoldIsStrippedTo(paths, windows);
      assert SCAFFOLD + ManagedBlock(paths, windows) + "" == SCAFFOLD + ManagedBlock(paths, windows);
      ScaffoldHasServices();
    }
  }

  lemma ScaffoldIsStrippedTo(paths: seq<string>, windows: bool)
    requires |paths| >= 2 && PathsOk(paths)
    ensures StripManagedBlock(SCAFFOLD + ManagedBlock(paths, windows)) == SCAFFOLD != ""
  {
    hide ManagedBlock, IsSpace, BEGIN, END, StripManagedBlock, SCAFFOLD_TITLE, SCAFFOLD_TAIL, Rstrip;
    hide NoMarker, PathsOk;
    ScaffoldHasNoMarker();
    var tail := ScaffoldLines();
    var r' := SCAFFOLD_TITLE + "\n" + tail;
    assert r' + "\n" == SCAFFOLD;
    assert r'[|r'| - 1] == tail[|tail| - 1];
    StripOverLine(r', paths, windows);
    assert SCAFFOLD + ManagedBlock(paths, windows) + "" == SCAFFOLD + ManagedBlock(paths, windows);
  }

  lemma ServicesNeedNoSection(existing: string)
    ensures HasVolumesSection(existing) ==> HasKeywordLine(existing, SERVICES)
  {
    hide HasKeywordLine;
  }

  /** Over a stray END nothing is stripped, and the block of the first merge stays. */
  lemma StrayEndStays(existing: string, paths: seq<string>, windows: bool)
    requires StrayMarker(existing) && |paths| >= 2 && PathsOk(paths)
    requires Find(existing, END) != -1
    requires Find(existing, BEGIN) == -1 || Find(existing, END) < Find(existing, BEGIN)
    ensures StripManagedBlock(Merge(existing, paths, windows)) != existing
  {
    hide Merge, ManagedBlock, HasBlock, StripManagedBlock, StrayMarker, IsSpace, BEGIN, END, Rstrip, Section, Find;
    EndFirstAppends(existing, paths, paths, windows);
    NothingToStrip(Merge(existing, paths, windows));
    StrayMerge(existing, paths, windows);
    var rest := "\n" + Section(existing) + ManagedBlock(paths, windows);
    BlockHasHash(paths, windows);
    HashBehind("\n" + Section(existing), ManagedBlock(paths, windows));
    MoreThanSpace(existing, rest);
  }

  lemma BlockHasHash(paths: seq<string>, windows: bool)
    requires |paths| >= 2 && PathsOk(paths)
    ensures var m := ManagedBlock(paths, windows); m != "" && m[0] == '#'
  {
    hide ManagedBlock, CleanIn;
    Markers();
    var m, e := BlockShape(paths, windows);
    assert m[0..|BEGIN|] == BEGIN && BEGIN[0] == '#';
  }

  lemma HashBehind(a: string, m: string)
    requires m != "" && m[0] == '#'
    ensures exists k | 0 <= k < |a + m| :: !IsSpace((a + m)[k])
  {
    SpaceFacts();
    hide IsSpace;
    assert (a + m)[|a|] == '#';
  }

  /** Over a stray BEGIN, stripping takes the text from its line on. */
  lemma StrayBeginIsCut(existing: string, paths: seq<string>, windows: bool)
    requires StrayMarker(existing) && |paths| >= 2 && PathsOk(paths)
    requires Find(existing, BEGIN) != -1 && Find(existing, END) == -1
    ensures |StripManagedBlock(Merge(existing, paths, windows))| < |existing|
  {
    hide Merge, ManagedBlock, HasKeywordLine, Section, SERVICES, Blank, BEGIN, END, IsSpace, StrayMarker, Rstrip;
    hide StripManagedBlock, LineEnd, HasBlock, Find, Lacks;
    var merged := Merge(existing, paths, windows);
    StrayBeginBlock(existing, paths, windows);
    StripKeeps(merged);
    StrippedLength(merged);
    Markers();
    FoundAt(existing, BEGIN);
  }

  /** The block the second merge finds: from the stray BEGIN to the end. */
  lemma StrayBeginBlock(existing: string, paths: seq<string>, windows: bool)
    requires StrayMarker(existing) && |paths| >= 2 && PathsOk(paths)
    requires Find(existing, BEGIN) != -1 && Find(existing, END) == -1
    ensures var merged := Merge(existing, paths, windows);
            HasBlock(merged) && Find(merged, BEGIN) == Find(existing, BEGIN) && After(merged) == ""
  {
    hide Merge, ManagedBlock, HasKeywordLine, Section, SERVICES, Blank, BEGIN, END, IsSpace, StrayMarker, Rstrip;
    hide Find, LineEnd, MarkerPair, Lacks;
    var merged, section, m := Merge(existing, paths, windows), Section(existing), ManagedBlock(paths, windows);
    StrayMerge(existing, paths, windows);
    Markers();
    MarkerEnds();
    StaysFirst(existing, "\n" + section + m, BEGIN, END);
    LacksEnd(existing);
    SectionHasNoMarker(existing, END);
    HeadFirst(Rstrip(existing), section, m);
    EndsAtEnd(Rstrip(existing) + "\n" + section, paths, windows);
    FoundAt(merged, BEGIN);
  }

  lemma LacksEnd(existing: string)
    requires Find(existing, END) == -1
    ensures Lacks(existing, END) && Marker(END)
  {
    Markers();
  }

  lemma StrayStays(existing: string, paths: seq<string>, windows: bool)
    requires StrayMarker(existing) && |paths| >= 2 && PathsOk(paths)
    ensures StripManagedBlock(Merge(existing, paths, windows)) != existing
  {
    hide Merge, StripManagedBlock, BEGIN, END, HasKeywordLine, Blank, PathsOk;
    if Find(existing, END) == -1 {
      StrayBeginIsCut(existing, paths, windows);
    } else {
      StrayFacts(existing);
      FirstEnd(existing);
      StrayEndStays(existing, paths, windows);
    }
  }

  lemma MergedIsNotBlank(existing: string, paths: seq<string>, windows: bool)
    requires |paths| >= 2 && PathsOk(paths)
    ensures !Blank(Merge(existing, paths, windows))
  {
    hide Merge, ManagedBlock, Frame, PathsOk, IsSpace;
    MergeIsFramed(existing, paths, windows);
    BlockHasHash(paths, windows);
    SpaceFacts();
    var f, m := Frame(existing), ManagedBlock(paths, windows);
    assert (f.0 + m + f.1)[|f.0|] == '#';
  }

  lemma BlankLeavesScaffold(existing: string, paths: seq<string>, windows: bool)
    requires Blank(existing) && |paths| >= 2 && PathsOk(paths)
    ensures StripManagedBlock(Merge(existing, paths, windows)) == SCAFFOLD != ""
    ensures !HasVolumesSection(existing)
  {
    hide ManagedBlock, BEGIN, END, HasKeywordLine, StripManagedBlock, PathsOk, SCAFFOLD, Blank, Find, Rstrip;
    BlankHasNoServices(existing);
    MergeIsFramed(existing, paths, windows);
    hide Merge;
    ScaffoldIsStrippedTo(paths, windows);
    assert Frame(existing) == (SCAFFOLD, "");
    assert SCAFFOLD + ManagedBlock(paths, windows) + "" == SCAFFOLD + ManagedBlock(paths, windows);
  }

  lemma BlankHasNoServices(existing: string)
    requires Blank(existing)
    ensures !HasKeywordLine(existing, SERVICES)
  {
    MarkerEnds();
    hide IsSpace, SERVICES;
    forall start: nat, word: nat, stop: nat
      ensures !KeywordLineAt(existing, start, word, stop, SERVICES)
    {
      var n := |SERVICES|;
      if word + n <= |existing| {
        assert existing[word..word + n][n - 1] == existing[word + n - 1];
      }
    }
  }

  lemma TidyGrowsByOne(s: string)
    ensures |Tidy(s)| <= |s| + 1
  {
    hide IsSpace;
  }

  lemma StrippedLength(text: string)
    requires HasBlock(text) && After(text) == ""
    requires var a := Before(text); StripManagedBlock(text) == Tidy(a[..LineStart(a, |a|)] + After(text))
    ensures |StripManagedBlock(text)| <= Find(text, BEGIN) + 1
  {
    hide StripManagedBlock, At, Blank, IsSpace, BEGIN, END, LineEnd, Rstrip;
    var a := Before(text);
    var kept := a[..LineStart(a, |a|)];
    assert |a| == Find(text, BEGIN);
    assert kept + After(text) == kept;
    TidyGrowsByOne(kept);
  }

  /**
   A merge for fewer than two paths after another merge gives what it gives alone if and only if the text
   already had a block, or is a marker-free text with all three section lines that ends in exactly one newline.
   */
  lemma ShortMergeOverMerge(existing: string, p: seq<string>, q: seq<string>, windows: bool)
    requires |p| >= 2 && |q| < 2 && PathsOk(p)
    ensures Merge(Merge(existing, p, windows), q, windows) == Merge(existing, q, windows)
       <==> HasBlock(existing)
            || (MarkerFree(existing) && HasVolumesSection(existing) && existing == Rstrip(existing) + "\n")
  {
    hide Merge, HasKeywordLine, Blank, PathsOk, BEGIN, END, StripManagedBlock, Rstrip, HasVolumesSection, Find;
    var merged := Merge(existing, p, windows);
    ShortMergeStrips(merged, q, windows);
    ShortMergeStrips(existing, q, windows);
    MergedIsNotBlank(existing, p, windows);
    if HasBlock(existing) {
      Markers();
      MarkedIsNotBlank(existing, BEGIN);
      StripIgnoresMerge(existing, p, windows);
    } else {
      NothingToStrip(existing);
      if Blank(existing) {
        BlankLeavesScaffold(existing, p, windows);
      } else if Spliceable(existing) && !HasVolumesSection(existing) {
        ScaffoldStays(existing, p, windows);
      } else if MarkerFree(existing) {
        StripUndoesMerge(existing, p, windows);
      } else {
        ServicesNeedNoSection(existing);
        StrayStays(existing, p, windows);
      }
    }
  }

  // ---------- a merge for fewer than two paths first ----------

  lemma BlockWidth(text: string)
    requires HasBlock(text)
    ensures |Before(text)| + |After(text)| + 2 <= |text|
  {
    hide LineEnd, BEGIN, END;
    Markers();
  }

  lemma StripShrinks(text: string)
    requires HasBlock(text)
    ensures |StripManagedBlock(text)| <= |Before(text)| + |After(text)| + 1
  {
    hide StripManagedBlock, HasBlock, Tidy, Before, After;
    StripKeeps(text);
    var a := Before(text);
    TidyGrowsByOne(a[..LineStart(a, |a|)] + After(text));
  }

  lemma LineIsWhole(r: string)
    ensures LineStart(r + "\n", |r + "\n"|) == |r + "\n"|
  {
  }

  /** Stripping gives the text in front of a last block if that text ends its last line. */
  lemma StripToBefore(text: string, r: string)
    requires HasBlock(text) && After(text) == "" && Before(text) == r + "\n"
    requires r != "" && !IsSpace(r[|r| - 1])
    ensures StripManagedBlock(text) == Before(text)
  {
    hide StripManagedBlock, HasBlock, Tidy, Before, After, IsSpace;
    StripKeeps(text);
    var a := Before(text);
    LineIsWhole(r);
    assert a[..|a|] + "" == a;
    TidyLine(r);
  }

  lemma BeforeIsMarkerFree(text: string)
    requires HasBlock(text)
    ensures MarkerFree(Before(text)) && NoMarker(Before(text)) && !Blank(text)
  {
    hide HasKeywordLine, BEGIN, END, IsSpace, Rstrip;
    Markers();
    MarkedIsNotBlank(text, BEGIN);
    FrameHasNoMarker(text);
  }

  lemma MergeIntoBlock(text: string, paths: seq<string>, windows: bool)
    requires HasBlock(text) && |paths| >= 2
    ensures Merge(text, paths, windows) == Before(text) + ManagedBlock(paths, windows) + After(text)
  {
    hide Merge, ManagedBlock, HasBlock, Before, After, Blank;
    BeforeIsMarkerFree(text);
    MergeIsFramed(text, paths, windows);
  }

  lemma BlockedIsShorter(text: string, paths: seq<string>, windows: bool)
    requires HasBlock(text) && HasBlock(StripManagedBlock(text)) && |paths| >= 2
    ensures |Merge(StripManagedBlock(text), paths, windows)| < |Merge(text, paths, windows)|
  {
    hide Merge, ManagedBlock, HasBlock, Before, After, StripManagedBlock;
    var y := StripManagedBlock(text);
    MergeIntoBlock(text, paths, windows);
    MergeIntoBlock(y, paths, windows);
    StripShrinks(text);
    BlockWidth(y);
  }

  /** What a merge into a text without a block puts in front of it ends its last line. */
  lemma FrameEndsLine(text: string) returns (r: string)
    requires !HasBlock(text)
    ensures Frame(text) == (r + "\n", "") && r != "" && !IsSpace(r[|r| - 1])
  {
    hide HasBlock, HasKeywordLine, IsSpace, SCAFFOLD_TITLE, SCAFFOLD_TAIL;
    var tail := ScaffoldLines();
    var r' := Rstrip(text);
    if !Blank(text) && HasVolumesSection(text) {
      TrimmedIsNotEmpty(text);
      r := r';
    } else if !Blank(text) && HasKeywordLine(text, SERVICES) {
      r := r' + "\n" + tail;
      assert r + "\n" == r' + "\n" + SCAFFOLD_TAIL && r[|r| - 1] == tail[|tail| - 1];
    } else {
      r := SCAFFOLD_TITLE + "\n" + tail;
      assert r + "\n" == SCAFFOLD && r[|r| - 1] == tail[|tail| - 1];
    }
  }

  /** A text is its own frame exactly when it has the three section lines and ends in one newline. */
  lemma OwnFrame(text: string)
    requires !HasBlock(text)
    ensures Frame(text).0 == text <==> HasVolumesSection(text) && text == Rstrip(text) + "\n"
  {
    hide HasBlock, HasKeywordLine, IsSpace, SCAFFOLD_TITLE, SCAFFOLD_TAIL;
    var tail := ScaffoldLines();
    var rest := "\n" + SCAFFOLD_TAIL;
    assert rest[|tail|] == tail[|tail| - 1];
    MoreThanSpace(text, rest);
    assert Rstrip(text) + "\n" + SCAFFOLD_TAIL == Rstrip(text) + rest;
    ScaffoldHasServices();
    if Blank(text) {
      BlankHasNoServices(text);
    }
  }

  lemma NoBlockInMarkerFree(text: string)
    ensures MarkerFree(text) ==> !HasBlock(text)
  {
    hide Find;
  }

  /** Stripping and merging again puts the block back where it was. */
  lemma BackInPlace(text: string, paths: seq<string>, windows: bool)
    requires HasBlock(text) && |paths| >= 2
    requires After(text) == "" && HasVolumesSection(Before(text)) && Before(text) == Rstrip(Before(text)) + "\n"
    ensures Merge(StripManagedBlock(text), paths, windows) == Merge(text, paths, windows)
  {
    hide Merge, ManagedBlock, HasBlock, Before, After, StripManagedBlock, HasVolumesSection, IsSpace, Blank;
    hide MarkerFree, Rstrip;
    var a := Before(text);
    BeforeIsMarkerFree(text);
    NoBlockInMarkerFree(a);
    var r := FrameEndsLine(a);
    OwnFrame(a);
    StripToBefore(text, r);
    MergeIsFramed(a, paths, windows);
    MergeIntoBlock(text, paths, windows);
  }

  lemma StrippedStray(text: string, paths: seq<string>, windows: bool)
    requires HasBlock(text) && StrayMarker(StripManagedBlock(text)) && |paths| >= 2 && PathsOk(paths)
    ensures Merge(StripManagedBlock(text), paths, windows) != Merge(text, paths, windows)
  {
    hide Merge, ManagedBlock, HasBlock, Before, After, StripManagedBlock, StrayMarker, BEGIN, END, NoMarker, PathsOk;
    var y := StripManagedBlock(text);
    BeforeIsMarkerFree(text);
    OverBlock(Before(text), paths, windows, After(text), paths);
    MergeIntoBlock(text, paths, windows);
    if Find(y, END) == -1 {
      StrayHasOne(y);
      StrayBeginBlock(y, paths, windows);
      StrippedLastBlock(text);
    } else {
      StrayFacts(y);
      FirstEnd(y);
      EndFirstAppends(y, paths, paths, windows);
    }
  }

  lemma StrayHasOne(text: string)
    requires StrayMarker(text)
    ensures Find(text, END) == -1 ==> Find(text, BEGIN) != -1
  {
    hide HasKeywordLine, BEGIN, END, Blank;
  }

  lemma FirstEnd(text: string)
    requires !HasBlock(text) && Find(text, END) != -1
    ensures Find(text, BEGIN) == -1 || Find(text, END) < Find(text, BEGIN)
  {
    hide BEGIN, END;
    Markers();
    NotBoth(text, Find(text, END), BEGIN, END);
  }

  /** What is left of a text that ends in its block has no marker. */
  lemma StrippedLastBlock(text: string)
    requires HasBlock(text)
    ensures After(text) == "" ==> Find(StripManagedBlock(text), BEGIN) == -1
  {
    hide HasBlock, Before, After, StripManagedBlock, BEGIN, END, IsSpace;
    StripKeeps(text);
    BeforeIsMarkerFree(text);
    Markers();
    var a := Before(text);
    var kept := a[..LineStart(a, |a|)];
    assert kept + "" == kept;
    LacksPrefix(a, |kept|, BEGIN);
    LacksTidied(kept, BEGIN);
  }

  lemma LacksTidied(s: string, m: string)
    requires Lacks(s, m) && Marker(m)
    ensures Lacks(Tidy(s), m)
  {
    hide IsSpace, At, Marker;
    var r := Rstrip(s);
    assert s[..|r|] == r;
    LacksPrefix(s, |r|, m);
    LacksAppended(r, "\n", m);
    assert r + "" == r;
  }

  /**
   Dropping the extra paths and adding some again gives what adding them at once gives if and only if the text
   has no block, or its block stands last behind a text with all three section lines that ends in one newline.
   */
  lemma MergeOverShortMerge(existing: string, p: seq<string>, q: seq<string>, windows: bool)
    requires |p| < 2 && |q| >= 2 && PathsOk(q)
    ensures Merge(Merge(existing, p, windows), q, windows) == Merge(existing, q, windows)
       <==> !HasBlock(existing)
            || (After(existing) == "" && HasVolumesSection(Before(existing))
                && Before(existing) == Rstrip(Before(existing)) + "\n")
  {
    hide Merge, HasVolumesSection, Blank, PathsOk, StripManagedBlock, Rstrip, HasBlock, Before, After, StrayMarker;
    hide Spliceable, ManagedBlock, NoMarker, Frame, IsSpace;
    ShortMergeStrips(existing, p, windows);
    var y := StripManagedBlock(existing);
    if !HasBlock(existing) {
      NothingToStrip(existing);
      BlankMerges(existing, q, windows);
    } else {
      BeforeIsMarkerFree(existing);
      var a := Before(existing);
      if After(existing) == "" && HasVolumesSection(a) && a == Rstrip(a) + "\n" {
        BackInPlace(existing, q, windows);
      } else if HasBlock(y) {
        BlockedIsShorter(existing, q, windows);
      } else if StrayMarker(y) {
        StrippedStray(existing, q, windows);
      } else {
        StrippedSpliceable(existing, q, windows);
      }
    }
  }

  lemma BlankMerges(existing: string, paths: seq<string>, windows: bool)
    requires |paths| >= 2
    ensures Blank(existing) ==> Merge(existing, paths, windows) == Merge("", paths, windows)
  {
    hide Merge, ManagedBlock, IsSpace;
    MergeIsFramed(existing, paths, windows);
    MergeIsFramed("", paths, windows);
  }

  lemma StrippedSpliceable(existing: string, paths: seq<string>, windows: bool)
    requires HasBlock(existing) && |paths| >= 2 && PathsOk(paths)
    requires var y := StripManagedBlock(existing); !HasBlock(y) && !StrayMarker(y)
    requires var a := Before(existing);
             !(After(existing) == "" && HasVolumesSection(a) && a == Rstrip(a) + "\n")
    ensures Merge(StripManagedBlock(existing), paths, windows) != Merge(existing, paths, windows)
  {
    hide Merge, HasVolumesSection, StripManagedBlock, Rstrip, HasBlock, Before, After, StrayMarker;
    hide Spliceable, ManagedBlock, NoMarker, Frame, IsSpace, PathsOk;
    var y := StripManagedBlock(existing);
    BeforeIsMarkerFree(existing);
    OverBlock(Before(existing), paths, windows, After(existing), paths);
    MergeIntoBlock(existing, paths, windows);
    NotStray(y);
    FrameHasNoMarker(y);
    MergeIsFramed(y, paths, windows);
    OverBlock(Frame(y).0, paths, windows, Frame(y).1, paths);
    var r := FrameEndsLine(y);
    OwnFrame(y);
    if After(existing) == "" && Before(existing) == Frame(y).0 {
      StripToBefore(existing, r);
      assert false;
    }
  }

  lemma NotStray(text: string)
    requires !HasBlock(text) && !StrayMarker(text)
    ensures Spliceable(text)
  {
    hide HasBlock, HasKeywordLine, Blank, MarkerFree;
  }

  /** Dropping the extra paths twice is dropping them once if and only if no second block comes to light. */
  lemma ShortMergeTwice(existing: string, p: seq<string>, q: seq<string>, windows: bool)
    requires |p| < 2 && |q| < 2
    ensures Merge(Merge(existing, p, windows), q, windows) == Merge(existing, q, windows)
       <==> !HasBlock(StripManagedBlock(existing))
  {
    hide Merge, StripManagedBlock, HasBlock, Before, After, IsSpace, Tidy;
    var y := StripManagedBlock(existing);
    ShortMergeStrips(existing, p, windows);
    ShortMergeStrips(existing, q, windows);
    ShortMergeStrips(y, q, windows);
    ShortMergeStrips("", q, windows);
    if HasBlock(existing) {
      BeforeIsMarkerFree(existing);
      BlankStripsToNothing(existing);
    } else {
      NothingToStrip(existing);
    }
    if HasBlock(y) {
      BeforeIsMarkerFree(y);
      StripShrinks(y);
      BlockWidth(y);
    } else {
      NothingToStrip(y);
    }
  }

  lemma BlankStripsToNothing(text: string)
    requires HasBlock(text)
    ensures Blank(StripManagedBlock(text)) ==> StripManagedBlock(text) == ""
  {
    hide HasBlock, Before, After, StripManagedBlock, Tidy, Blank;
    StripKeeps(text);
    var a := Before(text);
    BlankTidied(a[..LineStart(a, |a|)] + After(text));
  }

  lemma BlankTidied(s: string)
    ensures Blank(Tidy(s)) ==> Tidy(s) == ""
  {
    hide IsSpace;
    var r := Rstrip(s);
    assert r != "" ==> Tidy(s)[|r| - 1] == r[|r| - 1] == s[|r| - 1];
  }
}

/** Stripping undoes merging: on which texts, and what is left on the others. */
module IngestBindsStrip {
  import opened IngestBinds
  import opened IngestBindsLaws
  import opened IngestBindsMerge
  import opened Text

  /** Trailing whitespace replaced by one newline; a blank text becomes empty. */
  function Tidy(outside: string): string {
    Rstrip(outside) + if Blank(outside) then "" else "\n"
  }

  lemma LineStartAgrees(s: string, t: string, i: nat)
    requires i <= |s| && i <= |t| && s[..i] == t[..i]
    ensures LineStart(s, i) == LineStart(t, i)
  {
    assert forall k | 0 <= k < i :: s[k] == s[..i][k] && t[k] == t[..i][k];
    var r, r' := LineStart(s, i), LineStart(t, i);
    assert r > 0 ==> s[r - 1] == t[r - 1];
    assert r' > 0 ==> s[r' - 1] == t[r' - 1];
  }

  /** What strip keeps: the lines before the one with BEGIN, and what follows the END line. */
  lemma StripKeeps(text: string)
    requires HasBlock(text)
    ensures var a := Before(text);
            StripManagedBlock(text) == Tidy(a[..LineStart(a, |a|)] + After(text))
  {
    hide LineEnd, Blank, Rstrip, BEGIN, END;
    var a := Before(text);
    LineStartAgrees(text, a, |a|);
    var n := LineStart(a, |a|);
    assert text[..n] == a[..n];
  }

  lemma StripOver(a: string, paths: seq<string>, windows: bool, c: string)
    requires NoMarker(a) && |paths| >= 2 && PathsOk(paths)
    ensures StripManagedBlock(a + ManagedBlock(paths, windows) + c)
         == Tidy(a[..LineStart(a, |a|)] + c)
  {
    hide ManagedBlock, HasBlock, Tidy, StripManagedBlock, NoMarker, Merge;
    OverBlock(a, paths, windows, c, paths);
    StripKeeps(a + ManagedBlock(paths, windows) + c);
  }

  /** Replacing a block and stripping it gives what stripping the old one gives. */
  lemma StripIgnoresMerge(existing: string, paths: seq<string>, windows: bool)
    requires HasBlock(existing) && |paths| >= 2 && PathsOk(paths)
    ensures StripManagedBlock(Merge(existing, paths, windows)) == StripManagedBlock(existing)
  {
    hide Merge, ManagedBlock, HasKeywordLine, SCAFFOLD, SCAFFOLD_TAIL, BEGIN, END, IsSpace;
    Markers();
    MarkedIsNotBlank(existing, BEGIN);
    FrameHasNoMarker(existing);
    MergeIsFramed(existing, paths, windows);
    StripKeeps(existing);
    StripOver(Before(existing), paths, windows, After(existing));
  }

  lemma TidyLine(r: string)
    requires r != "" && !IsSpace(r[|r| - 1])
    ensures Tidy(r + "\n") == r + "\n"
  {
    SpaceFacts();
    hide IsSpace;
    RstripIs(r + "\n", r);
    assert (r + "\n")[|r| - 1] == r[|r| - 1];
  }

  /** The frame of a marker-free text ends its last line, which ends in no whitespace. */
  lemma StripOverLine(r: string, paths: seq<string>, windows: bool)
    requires r != "" && !IsSpace(r[|r| - 1]) && NoMarker(r + "\n") && |paths| >= 2 && PathsOk(paths)
    ensures StripManagedBlock(r + "\n" + ManagedBlock(paths, windows) + "") == r + "\n"
  {
    hide ManagedBlock, IsSpace, NoMarker;
    var a := r + "\n";
    StripOver(a, paths, windows, "");
    assert LineStart(a, |a|) == |a|;
    assert a[..|a|] + "" == a;
    TidyLine(r);
  }

  lemma ScaffoldLines() returns (tail: string)
    ensures SCAFFOLD_TAIL == tail + "\n" && tail != "" && !IsSpace(tail[|tail| - 1])
  {
    tail := "services:\n  orchestrator:\n    volumes:";
    assert tail[|tail| - 1] == ':';
  }

  lemma ScaffoldHasServices()
    ensures HasKeywordLine(SCAFFOLD, SERVICES)
  {
    var n := |SCAFFOLD_TITLE| + 1;
    assert SCAFFOLD_TAIL[..|SERVICES|] == SERVICES && SCAFFOLD_TAIL[|SERVICES|] == '\n';
    hide SCAFFOLD_TITLE, SCAFFOLD_TAIL;
    assert SCAFFOLD[n..n + |SERVICES|] == SCAFFOLD_TAIL[..|SERVICES|];
    assert KeywordLineAt(SCAFFOLD, n, n, n + |SERVICES|, SERVICES);
  }

  lemma TrimmedIsNotEmpty(existing: string)
    requires !Blank(existing)
    ensures Rstrip(existing) != ""
  {
  }

  /**
   On marker-free text, stripping undoes merging up to trailing whitespace exactly when the text
   already has the three section lines. Otherwise the scaffold that merge added stays.
   */
  lemma StripUndoesMerge(existing: string, paths: seq<string>, windows: bool)
    requires !Blank(existing) && MarkerFree(existing) && |paths| >= 2 && PathsOk(paths)
    ensures StripManagedBlock(Merge(existing, paths, windows)) == Rstrip(existing) + "\n"
       <==> HasVolumesSection(existing)
  {
    hide Merge, ManagedBlock, IsSpace, BEGIN, END;
    hide Blank, NoMarker, HasKeywordLine, StripManagedBlock, SCAFFOLD_TITLE, SCAFFOLD_TAIL;
    FrameHasNoMarker(existing);
    MergeIsFramed(existing, paths, windows);
    TrimmedIsNotEmpty(existing);
    var r := Rstrip(existing);
    if HasVolumesSection(existing) {
      StripOverLine(r, paths, windows);
    } else {
      var tail := ScaffoldLines();
      if HasKeywordLine(existing, SERVICES) {
        var r' := r + "\n" + tail;
        assert r' + "\n" == r + "\n" + SCAFFOLD_TAIL;
        StripOverLine(r', paths, windows);
        assert |r' + "\n"| > |r + "\n"|;
      } else {
        var r' := SCAFFOLD_TITLE + "\n" + tail;
        assert r' + "\n" == SCAFFOLD;
        StripOverLine(r', paths, windows);
        ScaffoldHasServices();
        MarkerEnds();
        if SCAFFOLD == r + "\n" {
          KeywordLineUntrimmed(existing, SERVICES);
        }
      }
    }
  }
}

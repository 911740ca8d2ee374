/** Main results on merging, stripping and validating the managed block. */
module IngestBindsMerge {
  import opened IngestBinds
  import opened IngestBindsLaws
  import opened Splicing
  import opened Text

  // ---------- keyword lines survive trailing whitespace ----------

  /** A match carries over to a text that starts with the same `n` characters and ends the line elsewhere. */
  lemma KeywordLineMoves(s: string, t: string, n: nat, start: nat, word: nat, stop: nat, stop': nat, keyword: string)
    requires KeywordLineAt(s, start, word, stop, keyword) && word + |keyword| <= n
    requires n <= |s| && n <= |t| && forall i | 0 <= i < n :: t[i] == s[i]
    requires word + |keyword| <= stop' <= |t| && SpaceIn(t, word + |keyword|, stop')
    requires stop' == |t| || t[stop'] == '\n'
    ensures HasKeywordLine(t, keyword)
  {
    hide IsSpace;
    assert t[word..word + |keyword|] == s[word..word + |keyword|];
    assert KeywordLineAt(t, start, word, stop', keyword);
  }

  /** The word of a match ends before the trailing whitespace. */
  lemma KeywordInside(s: string, word: nat, keyword: string, n: nat)
    requires keyword != "" && !IsSpace(keyword[|keyword| - 1])
    requires At(s, word, keyword) && n <= |s| && SpaceIn(s, n, |s|)
    ensures word + |keyword| <= n
  {
    hide IsSpace;
    AtIff(s, word, keyword);
    assert s[word + (|keyword| - 1)] == keyword[|keyword| - 1];
  }

  lemma KeywordLineTrimmed(text: string, keyword: string, rest: string)
    requires keyword != "" && !IsSpace(keyword[|keyword| - 1])
    requires HasKeywordLine(text, keyword)
    ensures HasKeywordLine(Rstrip(text) + "\n" + rest, keyword)
  {
    hide IsSpace, At;
    var r := Rstrip(text);
    var s := r + "\n" + rest;
    var start: nat, word: nat, stop: nat :| KeywordLineAt(text, start, word, stop, keyword);
    assert KeywordLineAt(text, start, word, stop, keyword);
    KeywordInside(text, word, keyword, |r|);
    assert forall i | 0 <= i < |r| :: s[i] == text[i];
    KeywordLineMoves(text, s, |r|, start, word, stop, if stop <= |r| then stop else |r|, keyword);
  }

  lemma KeywordLineUntrimmed(text: string, keyword: string)
    requires keyword != "" && !IsSpace(keyword[|keyword| - 1])
    requires HasKeywordLine(Rstrip(text) + "\n", keyword)
    ensures HasKeywordLine(text, keyword)
  {
    SpaceFacts();
    hide IsSpace, At;
    var r := Rstrip(text);
    var s := r + "\n";
    var start: nat, word: nat, stop: nat :| KeywordLineAt(s, start, word, stop, keyword);
    assert KeywordLineAt(s, start, word, stop, keyword);
    KeywordInside(s, word, keyword, |r|);
    assert forall i | 0 <= i < |r| :: s[i] == text[i];
    KeywordLineMoves(s, text, |r|, start, word, stop, if stop < |r| then stop else |text|, keyword);
  }

  // ---------- merging twice ----------

  /** Trailing whitespace goes, the markers stay. */
  lemma TrimmedHasNoMarker(existing: string, m: string)
    requires Lacks(existing, m) && Marker(m)
    ensures Lacks(Rstrip(existing) + "\n", m)
    ensures Lacks(Rstrip(existing) + "\n" + SCAFFOLD_TAIL, m)
  {
    ScaffoldTail();
    hide SCAFFOLD_TAIL;
    var r := Rstrip(existing);
    assert existing[..|r|] == r;
    LacksPrefix(existing, |r|, m);
    LacksAppended(r, "\n", m);
    LacksAppended(r, "\n" + SCAFFOLD_TAIL, m);
    assert r + ("\n" + SCAFFOLD_TAIL) == r + "\n" + SCAFFOLD_TAIL;
  }

  lemma FrameHasNoMarker(existing: string)
    requires Spliceable(existing)
    ensures NoMarker(Frame(existing).0)
  {
    Markers();
    hide Blank, Rstrip, HasKeywordLine, LineEnd, BEGIN, END, SCAFFOLD, SCAFFOLD_TAIL, Marker;
    if !Blank(existing) && HasBlock(existing) {
      var b := Find(existing, BEGIN);
      LacksPrefix(existing, b, BEGIN);
      LacksPrefix(existing, b, END);
    } else if !Blank(existing) && HasKeywordLine(existing, SERVICES) {
      TrimmedHasNoMarker(existing, BEGIN);
      TrimmedHasNoMarker(existing, END);
    } else {
      ScaffoldHasNoMarker();
    }
  }

  /** One way of the law: on spliceable text the second merge overrides the first. */
  lemma MergeReplaces(existing: string, p: seq<string>, q: seq<string>, windows: bool)
    requires |p| >= 2 && |q| >= 2 && PathsOk(p) && Spliceable(existing)
    ensures Merge(Merge(existing, p, windows), q, windows) == Merge(existing, q, windows)
    ensures var merged := Merge(existing, p, windows);
            && HasBlock(merged)
            && Before(merged) == Frame(existing).0 && After(merged) == Frame(existing).1
  {
    hide Frame, ManagedBlock, Merge, Spliceable, PathsOk, NoMarker, HasBlock, Find;
    FrameHasNoMarker(existing);
    MergeIsFramed(existing, p, windows);
    MergeIsFramed(existing, q, windows);
    OverBlock(Frame(existing).0, p, windows, Frame(existing).1, q);
  }

  // ---------- and on no other text ----------

  /** Some marker, no block, and a services line: the text is kept but nothing is replaced. */
  predicate StrayMarker(existing: string) {
    && !Blank(existing) && !HasBlock(existing) && !MarkerFree(existing)
    && HasKeywordLine(existing, SERVICES)
  }

  lemma MarkerEnds()
    ensures |BEGIN| > 0 && !IsSpace(BEGIN[|BEGIN| - 1])
    ensures |END| > 0 && !IsSpace(END[|END| - 1])
    ensures SERVICES != "" && !IsSpace(SERVICES[|SERVICES| - 1])
  {
    assert BEGIN[|BEGIN| - 1] == 'n' && END[|END| - 1] == 'd' && SERVICES[|SERVICES| - 1] == ':';
  }

  lemma SurvivesTrim(text: string, i: nat, m: string)
    requires At(text, i, m) && m != "" && !IsSpace(m[|m| - 1])
    ensures i + |m| <= |Rstrip(text)| && At(Rstrip(text), i, m)
  {
    hide IsSpace;
    AtIff(text, i, m);
    var r := Rstrip(text);
    assert text[i + (|m| - 1)] == m[|m| - 1];
    assert r[i..i + |m|] == text[i..i + |m|];
  }

  /** What a stray merge puts between the operator's text and the block. */
  function Section(existing: string): string {
    if HasVolumesSection(existing) then "" else SCAFFOLD_TAIL
  }

  lemma NotBoth(s: string, k: nat, begin: string, end: string)
    requires MarkerPair(begin, end)
    ensures !(At(s, k, begin) && At(s, k, end))
  {
    AtIff(s, k, begin);
    AtIff(s, k, end);
    var i :| 0 <= i < |begin| && i < |end| && begin[i] != end[i];
    assert At(s, k, begin) ==> s[k + i] == begin[i];
  }

  /** If `first` precedes every `second` in a text, it still does after trimming and appending. */
  lemma StaysFirst(text: string, rest: string, first: string, second: string)
    requires MarkerPair(first, second) && !IsSpace(first[|first| - 1])
    requires Find(text, first) != -1
    requires Find(text, second) == -1 || Find(text, first) < Find(text, second)
    ensures var s := Rstrip(text) + rest;
            && Find(s, first) == Find(text, first)
            && (Find(s, second) == -1 || Find(s, first) < Find(s, second))
  {
    var i, r := Find(text, first), Rstrip(text);
    SurvivesTrim(text, i, first);
    hide IsSpace, Find, MarkerPair, Rstrip, At;
    assert (r + rest)[..|r|] == r == text[..|r|];
    AgreeUpTo(text, r + rest, |r|, first, second);
  }

  lemma AgreeUpTo(text: string, s: string, n: nat, first: string, second: string)
    requires n <= |text| && n <= |s| && s[..n] == text[..n] && MarkerPair(first, second)
    requires var i := Find(text, first); i != -1 && i + |first| <= n
    requires Find(text, second) == -1 || Find(text, first) < Find(text, second)
    ensures Find(s, first) == Find(text, first)
    ensures Find(s, second) == -1 || Find(s, first) < Find(s, second)
  {
    var i := Find(text, first);
    assert s[i..i + |first|] == s[..n][i..i + |first|] == text[i..i + |first|];
    assert s[..i] == s[..n][..i] == text[..i];
    LacksPrefix(text, i, first);
    LacksPrefix(text, i, second);
    BeginFound(s, i, first);
    NothingUpTo(s, i, first, second);
  }

  lemma NothingUpTo(s: string, i: nat, first: string, second: string)
    requires MarkerPair(first, second) && At(s, i, first) && Lacks(s[..i], second)
    ensures Find(s, second) == -1 || i < Find(s, second)
  {
    AtIff(s, i, first);
    assert s[i + 0] == first[0];
    NoneBefore(s, i, second);
    NotBoth(s, i, first, second);
  }

  lemma StrayFrame(existing: string)
    requires StrayMarker(existing)
    ensures Frame(existing) == (Rstrip(existing) + "\n" + Section(existing), "")
  {
    hide Blank, Find, HasKeywordLine, SCAFFOLD, SCAFFOLD_TAIL;
    assert Rstrip(existing) + "\n" + "" == Rstrip(existing) + "\n";
  }

  lemma Regroup(a: string, b: string, c: string, d: string)
    ensures a + b + c + d + "" == a + (b + c + d) == a + b + (c + d)
  {
  }

  lemma HeadFirst(a: string, section: string, m: string)
    ensures a + ("\n" + section + m) == a + "\n" + section + m
  {
  }

  lemma StrayMerge(existing: string, paths: seq<string>, windows: bool)
    requires StrayMarker(existing) && |paths| >= 2
    ensures Merge(existing, paths, windows)
         == Rstrip(existing) + ("\n" + Section(existing) + ManagedBlock(paths, windows))
    ensures HasKeywordLine(Merge(existing, paths, windows), SERVICES)
  {
    hide StrayMarker, Frame, Merge, ManagedBlock, HasKeywordLine, Section, SERVICES;
    var m, section := ManagedBlock(paths, windows), Section(existing);
    StrayFrame(existing);
    MergeIsFramed(existing, paths, windows);
    Regroup(Rstrip(existing), "\n", section, m);
    MarkerEnds();
    StrayFacts(existing);
    KeywordLineTrimmed(existing, SERVICES, section + m);
  }

  lemma StrayFacts(existing: string)
    requires StrayMarker(existing)
    ensures HasKeywordLine(existing, SERVICES) && !HasBlock(existing) && !MarkerFree(existing)
  {
  }

  lemma MarkedIsNotBlank(s: string, m: string)
    requires Marker(m) && Find(s, m) != -1
    ensures !Blank(s)
  {
    SpaceFacts();
    var i := Find(s, m);
    AtIff(s, i, m);
    assert s[i + 0] == '#';
  }

  lemma MergedEndsInMarker(a: string, paths: seq<string>, windows: bool)
    requires |paths| >= 2 && PathsOk(paths)
    ensures var s := a + ManagedBlock(paths, windows);
            |s| > |a| + |END| && |Rstrip(s)| >= |s| - 1
  {
    hide ManagedBlock, IsSpace, BEGIN, END;
    var m, e := BlockShape(paths, windows);
    MarkerEnds();
    var s := a + m;
    assert s[|a| + e..|a| + e + |END|] == m[e..e + |END|];
    SurvivesTrim(s, |a| + e, END);
  }

  /** An END with no BEGIN before it: every merge appends one more block. */
  lemma EndFirstAppends(existing: string, p: seq<string>, q: seq<string>, windows: bool)
    requires StrayMarker(existing) && |p| >= 2 && |q| >= 2 && PathsOk(p)
    requires Find(existing, END) != -1
    requires Find(existing, BEGIN) == -1 || Find(existing, END) < Find(existing, BEGIN)
    ensures !HasBlock(Merge(existing, p, windows))
    ensures |Merge(Merge(existing, p, windows), q, windows)| > |Merge(existing, q, windows)|
  {
    hide Merge, ManagedBlock, HasKeywordLine, Section, SERVICES, Blank, BEGIN, END, IsSpace;
    var merged, section := Merge(existing, p, windows), Section(existing);
    StrayMerge(existing, p, windows);
    StrayMerge(existing, q, windows);
    Markers();
    MarkerEnds();
    PairSymmetric();
    StaysFirst(existing, "\n" + section + ManagedBlock(p, windows), END, BEGIN);
    MarkedIsNotBlank(merged, END);
    StrayMerge(merged, q, windows);
    var head := Rstrip(existing) + "\n" + section;
    HeadFirst(Rstrip(existing), section, ManagedBlock(p, windows));
    MergedEndsInMarker(head, p, windows);
  }

  lemma PairSymmetric()
    ensures MarkerPair(END, BEGIN)
  {
    Markers();
    hide BEGIN, END;
  }

  /** A BEGIN with no END: the second merge swallows the text from the stray BEGIN on. */
  lemma BeginOnlySwallows(existing: string, p: seq<string>, q: seq<string>, windows: bool)
    requires StrayMarker(existing) && |p| >= 2 && |q| >= 2 && PathsOk(p)
    requires Find(existing, BEGIN) != -1 && Find(existing, END) == -1
    ensures |Merge(Merge(existing, p, windows), q, windows)| < |Merge(existing, q, windows)|
  {
    hide Merge, ManagedBlock, HasKeywordLine, Section, SERVICES, Blank, BEGIN, END, IsSpace;
    var merged, section := Merge(existing, p, windows), Section(existing);
    StrayMerge(existing, p, windows);
    StrayMerge(existing, q, windows);
    Markers();
    MarkerEnds();
    var b := Find(existing, BEGIN);
    StaysFirst(existing, "\n" + section + ManagedBlock(p, windows), BEGIN, END);
    SurvivesTrim(existing, b, BEGIN);
    MarkedIsNotBlank(merged, BEGIN);
    var head := Rstrip(existing) + "\n" + section;
    SectionHasNoMarker(existing, END);
    assert merged == head + ManagedBlock(p, windows);
    EndsAtEnd(head, p, windows);
    SecondMerge(merged, q, windows);
  }

  lemma SectionHasNoMarker(existing: string, m: string)
    requires Lacks(existing, m) && Marker(m)
    ensures Lacks(Rstrip(existing) + "\n" + Section(existing), m)
  {
    TrimmedHasNoMarker(existing, m);
    hide HasKeywordLine, SCAFFOLD_TAIL;
    assert Rstrip(existing) + "\n" + "" == Rstrip(existing) + "\n";
  }

  lemma EndsAtEnd(a: string, paths: seq<string>, windows: bool)
    requires Lacks(a, END) && |paths| >= 2 && PathsOk(paths)
    ensures var s := a + ManagedBlock(paths, windows);
            |a| < Find(s, END) <= |s| && LineEnd(s, Find(s, END)) == |s|
  {
    hide ManagedBlock, IsSpace, BEGIN, END, CleanIn, Find;
    Markers();
    var m, e := BlockShape(paths, windows);
    assert (a + m)[..|a|] == a;
    EndInside(a + m, |a|, m, BEGIN, e, END);
  }

  lemma SecondMerge(text: string, paths: seq<string>, windows: bool)
    requires HasBlock(text) && !Blank(text) && |paths| >= 2
    requires LineEnd(text, Find(text, END)) == |text|
    ensures |Merge(text, paths, windows)| == Find(text, BEGIN) + |ManagedBlock(paths, windows)|
  {
    hide HasKeywordLine, BlockBody, LineEnd, Blank, BEGIN, END;
    MergeIsFramed(text, paths, windows);
  }

  /** Merging is overriding: the last list wins, exactly on the spliceable texts. */
  lemma MergeOverMerge(existing: string, p: seq<string>, q: seq<string>, windows: bool)
    requires |p| >= 2 && |q| >= 2 && PathsOk(p)
    ensures Merge(Merge(existing, p, windows), q, windows) == Merge(existing, q, windows)
       <==> Spliceable(existing)
  {
    hide Merge, HasKeywordLine, Blank, PathsOk, BEGIN, END;
    if Spliceable(existing) {
      MergeReplaces(existing, p, q, windows);
    } else if Find(existing, END) == -1 {
      BeginOnlySwallows(existing, p, q, windows);
    } else {
      Markers();
      PairSymmetric();
      NotBoth(existing, Find(existing, END), BEGIN, END);
      EndFirstAppends(existing, p, q, windows);
    }
  }

  lemma ServicesLine(m: string)
    requires Marker(m)
    ensures var text := SERVICES + "\n" + m; HasKeywordLine(text, SERVICES) && !Blank(text)
  {
    SpaceFacts();
    hide IsSpace;
    var text := SERVICES + "\n" + m;
    assert text[0..|SERVICES|] == SERVICES && text[|SERVICES|] == '\n';
    assert KeywordLineAt(text, 0, 0, |SERVICES|, SERVICES);
    assert text[|SERVICES| + 1] == '#';
  }

  lemma OnlyMarker(front: string, m: string, other: string)
    requires MarkerPair(m, other) && '#' !in front
    ensures Find(front + m, m) == |front| && Find(front + m, other) == -1
  {
    var text := front + m;
    AtIff(text, |front|, m);
    forall i: nat
      ensures !At(text, i, other)
      ensures i != |front| ==> !At(text, i, m)
    {
      AtIff(text, i, other);
      AtIff(text, i, m);
      if i == |front| {
        var k :| 0 <= k < |m| && k < |other| && m[k] != other[k];
        assert text[i + k] == m[k];
      } else if i < |text| {
        assert text[i + 0] != '#';
      }
    }
  }

  /** Two short texts on which the law fails: a services line and one marker. */
  lemma StrayMarkersExist()
    ensures var text := SERVICES + "\n" + END;
            StrayMarker(text) && !Spliceable(text) && Find(text, BEGIN) == -1
    ensures var text := SERVICES + "\n" + BEGIN;
            StrayMarker(text) && !Spliceable(text) && Find(text, END) == -1
  {
    hide HasKeywordLine, Blank, BEGIN, END;
    Markers();
    PairSymmetric();
    var front := SERVICES + "\n";
    assert '#' !in front;
    ServicesLine(BEGIN);
    ServicesLine(END);
    OnlyMarker(front, BEGIN, END);
    OnlyMarker(front, END, BEGIN);
  }
}

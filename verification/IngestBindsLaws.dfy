/** Laws of the managed ingest block: what merge, strip and validate do to each other's output. */
module IngestBindsLaws {
  import opened BindSources
  import opened IngestBinds
  import opened Splicing
  import opened Text

  /** The validator's rule on the space character, for a whole list. */
  predicate PathsOk(paths: seq<string>) {
    forall path <- paths :: ' ' !in Strip(path)
  }

  lemma Markers()
    ensures MarkerPair(BEGIN, END) && |BEGIN| == 28 && |END| == 26
  {
    assert BEGIN[23] != END[23];
  }

  // ---------- the shape of the block ----------

  lemma DrivePathHasNoBlank(rest: string)
    requires ' ' !in rest
    ensures ' ' !in DrivePath(rest)
  {
    var slash := Find(rest, "/");
    var drive := if slash == -1 then rest else rest[..slash];
    var upper := UpperAscii(drive);
    assert forall i | 0 <= i < |upper| :: upper[i] != ' ';
  }

  lemma SourceHasNoBlank(path: string, windows: bool)
    requires ' ' !in Strip(path)
    ensures ' ' !in BindSource(path, windows)
  {
    hide DrivePath, Strip;
    var stripped := Strip(path);
    if "/host/" <= stripped {
      DrivePathHasNoBlank(stripped[6..]);
    }
  }

  /** No marker starts in `s`, whatever follows it. */
  predicate Clean(s: string) {
    CleanIn(s, 0, |s|) && (s == "" || s[|s| - 1] != '#')
  }

  lemma BulletIsClean(indent: string, volume: string)
    requires '#' !in indent
    requires ' ' !in volume && volume != [] && volume[|volume| - 1] != '#'
    ensures Clean(indent + volume)
  {
    var line := indent + volume;
    forall i: nat | i < |line|
      ensures !StartsMarker(line, i)
    {
      assert i + 1 < |line| && line[i] == '#' ==> line[i + 1] == volume[i + 1 - |indent|];
    }
  }

  lemma VolumeHasNoBlank(path: string, index: nat, windows: bool)
    requires ' ' !in Strip(path)
    ensures var volume := VolumeLine(path, index, windows);
            ' ' !in volume && volume != [] && volume[|volume| - 1] != '#'
  {
    SourceHasNoBlank(path, windows);
    hide BindSource, Decimal;
    var digits := Decimal(index);
    assert ' ' !in digits;
  }

  lemma CleanConcat(a: string, b: string)
    requires Clean(a) && Clean(b)
    ensures Clean(a + b)
  {
    forall i: nat | i < |a + b|
      ensures !StartsMarker(a + b, i)
    {
      if i + 1 < |a| {
        assert !StartsMarker(a, i);
      } else if |a| <= i {
        assert !StartsMarker(b, i - |a|);
      }
    }
  }

  lemma {:induction false} LinesAreClean(lines: seq<string>)
    requires forall line <- lines :: Clean(line)
    ensures Clean(Lines(lines))
  {
    if lines == [] {
    } else {
      LinesAreClean(lines[1..]);
      CleanConcat(lines[0], "\n");
      CleanConcat(lines[0] + "\n", Lines(lines[1..]));
    }
  }

  lemma IndentIsClean(volume: string)
    requires ' ' !in volume && volume != [] && volume[|volume| - 1] != '#'
    ensures Clean("      - " + volume)
  {
    hide Clean;
    var indent := "      - ";
    assert '#' !in indent by {
      assert forall i | 0 <= i < |indent| :: indent[i] != '#';
    }
    BulletIsClean(indent, volume);
  }

  lemma IndentedVolumeIsClean(path: string, index: nat, windows: bool)
    requires ' ' !in Strip(path)
    ensures Clean("      - " + VolumeLine(path, index, windows))
  {
    hide Clean, VolumeLine, Strip;
    VolumeHasNoBlank(path, index, windows);
    IndentIsClean(VolumeLine(path, index, windows));
  }

  lemma BulletAt(paths: seq<string>, windows: bool, k: nat)
    requires k + 1 < |paths|
    ensures |Bullets(ExtraVolumes(paths, windows))| == |paths| - 1
    ensures Bullets(ExtraVolumes(paths, windows))[k] == "      - " + VolumeLine(paths[k + 1], k + 1, windows)
  {
    hide VolumeLine;
  }

  lemma BulletsAreClean(paths: seq<string>, windows: bool)
    requires PathsOk(paths)
    ensures forall bullet <- Bullets(ExtraVolumes(paths, windows)) :: Clean(bullet)
  {
    hide Clean, VolumeLine, Strip;
    var bullets := Bullets(ExtraVolumes(paths, windows));
    forall k | 0 <= k < |bullets|
      ensures Clean(bullets[k])
    {
      BulletAt(paths, windows, k);
      IndentedVolumeIsClean(paths[k + 1], k + 1, windows);
    }
  }

  lemma BodyIsClean(paths: seq<string>, windows: bool)
    requires PathsOk(paths)
    ensures Clean(BlockBody(ExtraVolumes(paths, windows)))
  {
    BulletsAreClean(paths, windows);
    hide ExtraVolumes, Bullets;
    var bullets := Bullets(ExtraVolumes(paths, windows));
    LinesAreClean(bullets);
    CleanConcat("\n", Lines(bullets));
  }

  /** Offsets of the pieces of a rendered block. */
  lemma BlockShape(paths: seq<string>, windows: bool) returns (m: string, e: nat)
    requires |paths| >= 2 && PathsOk(paths)
    ensures m == ManagedBlock(paths, windows) && |m| == e + |END| + 1
    ensures |BEGIN| <= e && At(m, 0, BEGIN) && At(m, e, END) && m[e + |END|] == '\n'
    ensures CleanIn(m, |BEGIN|, e)
  {
    hide BlockBody, CleanIn, At, BEGIN, END;
    BodyIsClean(paths, windows);
    var body := BlockBody(ExtraVolumes(paths, windows));
    m, e := ManagedBlock(paths, windows), |BEGIN| + |body|;
    BlockOffsets(BEGIN, body, END);
  }

  lemma BlockOffsets(begin: string, body: string, end: string)
    requires Clean(body)
    ensures var m, e := begin + body + end + "\n", |begin| + |body|;
            At(m, 0, begin) && At(m, e, end) && m[e + |end|] == '\n' && CleanIn(m, |begin|, e)
  {
    var m, e := begin + body + end + "\n", |begin| + |body|;
    AtIff(m, 0, begin);
    AtIff(m, e, end);
    forall i: nat | |begin| <= i < e
      ensures !StartsMarker(m, i)
    {
      assert !StartsMarker(body, i - |begin|);
    }
  }

  // ---------- what is found in `a + block + c` ----------

  /** No marker occurs in `s`, under either name. */
  ghost predicate NoMarker(s: string) {
    Lacks(s, BEGIN) && Lacks(s, END)
  }

  lemma AtInside(s: string, o: nat, m: string, i: nat, p: string)
    requires At(s, o, m) && At(m, i, p)
    ensures At(s, o + i, p)
  {
    AtIff(s, o, m);
    AtIff(m, i, p);
    AtIff(s, o + i, p);
    forall k | 0 <= k < |p|
      ensures s[o + i + k] == p[k]
    {
      assert s[o + (i + k)] == m[i + k];
    }
  }

  lemma CleanInside(s: string, o: nat, m: string, from: nat, to: nat)
    requires At(s, o, m) && CleanIn(m, from, to) && to < |m|
    ensures CleanIn(s, o + from, o + to)
  {
    AtIff(s, o, m);
    forall i: nat | o + from <= i < o + to
      ensures !StartsMarker(s, i)
    {
      assert !StartsMarker(m, i - o);
      assert s[o + (i - o)] == m[i - o] && s[o + (i - o + 1)] == m[i - o + 1];
    }
  }

  /** A block pasted at offset `o` of a text with no earlier `end`. */
  lemma EndInside(s: string, o: nat, m: string, begin: string, e: nat, end: string)
    requires MarkerPair(begin, end) && At(s, o, m) && Lacks(s[..o], end)
    requires |m| == e + |end| + 1 && |begin| <= e
    requires At(m, 0, begin) && At(m, e, end) && m[e + |end|] == '\n' && CleanIn(m, |begin|, e)
    ensures Find(s, end) == o + e && Find(s, "\n", o + e) == o + e + |end|
    ensures At(s, o, begin)
  {
    hide CleanIn, Lacks, Find, Marker;
    AtInside(s, o, m, 0, begin);
    AtInside(s, o, m, e, end);
    CleanInside(s, o, m, |begin|, e);
    EndFound(s, o, begin, o + e, end);
    NewlineInside(s, o, m, e, end);
  }

  lemma NewlineInside(s: string, o: nat, m: string, e: nat, end: string)
    requires Marker(end) && At(s, o, m) && At(m, e, end) && |m| == e + |end| + 1 && m[e + |end|] == '\n'
    ensures Find(s, "\n", o + e) == o + e + |end|
  {
    AtInside(s, o, m, e, end);
    AtIff(s, o, m);
    assert s[o + (e + |end|)] == m[e + |end|];
    NewlineAfter(s, o + e, end);
  }

  /** Where merge, strip and validate find the block when the text in front of it has no marker. */
  lemma FindsBlock(a: string, paths: seq<string>, windows: bool, c: string)
    requires NoMarker(a) && |paths| >= 2 && PathsOk(paths)
    ensures var m := ManagedBlock(paths, windows);
            var s, e := a + m + c, |a| + |m| - |END| - 1;
            && |m| > |END| && Find(s, BEGIN) == |a| && Find(s, END) == e && |a| < e <= |s|
            && LineEnd(s, e) == |a| + |m| && !Blank(s)
  {
    hide ManagedBlock, Find, IsSpace, CleanIn, BEGIN, END;
    var m, e := BlockShape(paths, windows);
    var s := a + m + c;
    Markers();
    assert s[..|a|] == a && At(s, |a|, m);
    EndInside(s, |a|, m, BEGIN, e, END);
    BeginFound(s, |a|, BEGIN);
    assert !Blank(s) by {
      hide At;
      AtIff(s, |a|, BEGIN);
      SpaceFacts();
      assert s[|a| + 0] == BEGIN[0];
    }
  }

  /** Merging over, and stripping, a text of that shape. */
  lemma OverBlock(a: string, paths: seq<string>, windows: bool, c: string, paths': seq<string>)
    requires NoMarker(a) && |paths| >= 2 && PathsOk(paths) && |paths'| >= 2
    ensures var s := a + ManagedBlock(paths, windows) + c;
            && HasBlock(s) && Before(s) == a && After(s) == c
            && Merge(s, paths', windows) == a + ManagedBlock(paths', windows) + c
  {
    hide KeywordLineAt, Find, LineEnd, Blank, ExtraVolumes, BlockBody, BEGIN, END, SCAFFOLD;
    FindsBlock(a, paths, windows, c);
    var m := ManagedBlock(paths, windows);
    var s := a + m + c;
    assert s[..|a|] == a && s[|a| + |m|..] == c;
  }

  // ---------- where a merge puts the block ----------

  /** What `Merge` keeps in front of the block and behind it. */
  function Frame(existing: string): (string, string) {
    if Blank(existing) then (SCAFFOLD, "")
    else if HasBlock(existing) then (Before(existing), After(existing))
    else if HasVolumesSection(existing) then (Rstrip(existing) + "\n", "")
    else if HasKeywordLine(existing, SERVICES) then (Rstrip(existing) + "\n" + SCAFFOLD_TAIL, "")
    else (SCAFFOLD, "")
  }

  lemma AfterFirstLineIs(title: string, rest: string)
    requires '\n' !in title
    ensures AfterFirstLine(title + "\n" + rest) == rest
  {
    var s := title + "\n" + rest;
    forall k: nat | k < |title|
      ensures !At(s, k, "\n")
    {
      AtIff(s, k, "\n");
      assert s[k + 0] != "\n"[0];
    }
    FindIs(s, "\n", 0, |title|);
  }

  /** No newline, and `#` at most in front. */
  predicate TitlePart(s: string, from: nat) {
    forall i | 0 <= i < |s| :: s[i] != '\n' && (i >= from ==> s[i] != '#')
  }

  lemma TitleParts()
    ensures TitlePart(TITLE_START, 1) && |TITLE_START| > 10 && TITLE_START[10] == ' '
    ensures TitlePart(TITLE_MIDDLE, 0) && TitlePart(TITLE_STOP, 0)
  {
  }

  lemma ScaffoldTitle()
    ensures forall i | 0 <= i < |SCAFFOLD_TITLE| :: SCAFFOLD_TITLE[i] != '\n' && (i > 0 ==> SCAFFOLD_TITLE[i] != '#')
    ensures |SCAFFOLD_TITLE| > 10 && SCAFFOLD_TITLE[10] == ' '
  {
    TitleParts();
    hide TITLE_START, TITLE_MIDDLE, TITLE_STOP;
  }

  lemma ScaffoldTail()
    ensures '#' !in SCAFFOLD_TAIL && |SCAFFOLD_TAIL| > 0
  {
  }

  lemma MarkerWord()
    ensures |BEGIN| > 10 && BEGIN[10] == 'i' && |END| > 10 && END[10] == 'i'
  {
  }

  lemma ScaffoldHasNoMarker()
    ensures NoMarker(SCAFFOLD)
  {
    ScaffoldTitle();
    ScaffoldTail();
    MarkerWord();
    Markers();
    hide SCAFFOLD_TITLE, SCAFFOLD_TAIL, BEGIN, END;
    NoMarkerInTitled(SCAFFOLD_TITLE, SCAFFOLD_TAIL, BEGIN);
    NoMarkerInTitled(SCAFFOLD_TITLE, SCAFFOLD_TAIL, END);
  }

  lemma NoMarkerInTitled(title: string, tail: string, m: string)
    requires Marker(m) && |m| > 10 && |title| > 10 && title[10] != m[10]
    requires (forall i | 1 <= i < |title| :: title[i] != '#') && '#' !in tail
    ensures Lacks(title + "\n" + tail, m)
  {
    var s := title + "\n" + tail;
    forall i: nat
      ensures !At(s, i, m)
    {
      AtIff(s, i, m);
      if i == 0 {
        assert s[0 + 10] == title[10];
      } else if i < |s| {
        assert s[i + 0] != '#';
      }
    }
  }

  lemma MergeIsFramed(existing: string, paths: seq<string>, windows: bool)
    requires |paths| >= 2
    ensures Merge(existing, paths, windows)
         == Frame(existing).0 + ManagedBlock(paths, windows) + Frame(existing).1
  {
    hide Blank, Find, LineEnd, Rstrip, HasKeywordLine;
    hide BlockBody, BEGIN, END, SCAFFOLD, SCAFFOLD_TAIL, AfterFirstLine;
    ScaffoldSplits(ManagedBlock(paths, windows));
    assert ManagedBlock(paths, windows) != "";
    hide ManagedBlock;
    TailFirst(Rstrip(existing), SCAFFOLD_TAIL, ManagedBlock(paths, windows));
  }

  /** In the merged text stands one block, with the mount of every path but the first. */
  lemma MergeMounts(existing: string, paths: seq<string>, windows: bool)
    requires |paths| >= 2
    ensures exists items | MountItems(items, paths, windows) ::
              Merge(existing, paths, windows)
              == Frame(existing).0 + (BEGIN + "\n" + Lines(items) + END + "\n") + Frame(existing).1
  {
    hide Merge, Frame, BEGIN, END, MountItems, Bullets, ExtraVolumes;
    MergeIsFramed(existing, paths, windows);
    BulletsMount(paths, windows);
    var volumes := ExtraVolumes(paths, windows);
    assert BEGIN + ("\n" + Lines(Bullets(volumes))) == BEGIN + "\n" + Lines(Bullets(volumes));
  }

  /** A missing or blank file becomes the scaffold with the block under its last line. */
  lemma FreshFile(existing: string, paths: seq<string>, windows: bool)
    requires Blank(existing) && |paths| >= 2
    ensures Merge(existing, paths, windows)
         == "# lumogis: auto-generated" + " ingest bind mounts \U{2014}" + " edit outside markers only" + "\n"
            + "services:\n  orchestrator:\n    volumes:\n" + ManagedBlock(paths, windows)
  {
    hide Blank, ManagedBlock;
    MergeIsFramed(existing, paths, windows);
    hide Merge;
    var text := SCAFFOLD + ManagedBlock(paths, windows);
    assert text + "" == text;
  }

  lemma ScaffoldSplits(managed: string)
    ensures AfterFirstLine(SCAFFOLD + managed) == SCAFFOLD_TAIL + managed
  {
    assert '\n' !in SCAFFOLD_TITLE by {
      ScaffoldTitle();
    }
    hide SCAFFOLD_TITLE, SCAFFOLD_TAIL, AfterFirstLine;
    AfterFirstLineIs(SCAFFOLD_TITLE, SCAFFOLD_TAIL + managed);
    assert SCAFFOLD + managed == SCAFFOLD_TITLE + "\n" + (SCAFFOLD_TAIL + managed);
  }

  lemma TailFirst(a: string, tail: string, m: string)
    ensures a + "\n" + (tail + m) == a + "\n" + tail + m
  {
  }

  /** The texts whose markers, if any, delimit one block; or whose text is not kept at all. */
  predicate Spliceable(existing: string) {
    || Blank(existing)
    || HasBlock(existing)
    || MarkerFree(existing)
    || !HasKeywordLine(existing, SERVICES)
  }
}

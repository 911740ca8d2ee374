/** What the regex of merge and the target check of validate look for, in terms of lines and pieces. */
module IngestBindsLines {
  import opened BindSources
  import opened IngestBinds
  import opened IngestBindsValidate
  import opened Splitting
  import opened Text

  // ---------- the regex ----------

  /** Inside one line the regex leaves only whitespace around the keyword. */
  lemma MatchInLine(text: string, start: nat, word: nat, stop: nat, keyword: string) returns (line: string)
    requires KeywordLineAt(text, start, word, stop, keyword)
    requires Trimmed(keyword) && '\n' !in keyword
    ensures line in SplitOn(text, '\n') && Strip(line) == keyword
  {
    hide IsSpace, SplitOn, Strip;
    var a, b := PieceAround(text, '\n', word);
    PieceIsIn(text, '\n', a, b);
    line := text[a..b];
    assert forall j | a <= j < b :: text[j] == line[j - a];
    assert start <= a;
    assert text[word..word + |keyword|] == keyword;
    assert forall j | word <= j < word + |keyword| :: text[j] == keyword[j - word];
    assert word + |keyword| <= b <= stop;
    var i, j := word - a, word + |keyword| - a;
    assert line[i..j] == keyword;
    assert SpaceIn(line, 0, i) && SpaceIn(line, j, |line|);
    StripIs(line, i, j);
  }

  lemma LineMatches(text: string, line: string, keyword: string)
    requires line in SplitOn(text, '\n') && Strip(line) == keyword
    ensures HasKeywordLine(text, keyword)
  {
    hide IsSpace, SplitOn, Strip;
    var a, b := PlaceOf(text, '\n', line);
    var i, j := StripSlice(line);
    assert forall k | a <= k < b :: text[k] == line[k - a];
    assert text[a + i..a + j] == line[i..j];
    assert KeywordLineAt(text, a, a + i, b, keyword);
  }

  /** The multi-line regex `^\s*keyword\s*$` matches exactly when some line, stripped, is the keyword. */
  lemma KeywordLineIff(text: string, keyword: string)
    requires Trimmed(keyword) && '\n' !in keyword
    ensures HasKeywordLine(text, keyword) <==> exists line <- SplitOn(text, '\n') :: Strip(line) == keyword
  {
    hide KeywordLineAt, SplitOn, Strip;
    if HasKeywordLine(text, keyword) {
      var start: nat, word: nat, stop: nat :|
        start <= |text| && word <= |text| && stop <= |text| && KeywordLineAt(text, start, word, stop, keyword);
      var line := MatchInLine(text, start, word, stop, keyword);
    }
    if exists line <- SplitOn(text, '\n') :: Strip(line) == keyword {
      var line :| line in SplitOn(text, '\n') && Strip(line) == keyword;
      LineMatches(text, line, keyword);
    }
  }

  /** The three keywords, and what a text with all three has. */
  lemma VolumesSectionIff(text: string)
    ensures HasVolumesSection(text) <==>
      forall keyword <- ["services:", "orchestrator:", "volumes:"] ::
        exists line <- SplitOn(text, '\n') :: Strip(line) == keyword
  {
    hide HasKeywordLine, SplitOn, Strip;
    Keywords();
    KeywordLineIff(text, "services:");
    KeywordLineIff(text, "orchestrator:");
    KeywordLineIff(text, "volumes:");
    var keywords := ["services:", "orchestrator:", "volumes:"];
    assert keywords[0] in keywords && keywords[1] in keywords && keywords[2] in keywords;
    assert forall k <- keywords :: k == keywords[0] || k == keywords[1] || k == keywords[2];
  }

  lemma Keywords()
    ensures forall keyword <- ["services:", "orchestrator:", "volumes:"] :: Trimmed(keyword) && '\n' !in keyword
  {
    var keywords := ["services:", "orchestrator:", "volumes:"];
    assert forall k <- keywords :: k == keywords[0] || k == keywords[1] || k == keywords[2];
    PrintableIsNoSpace('s');
    PrintableIsNoSpace('o');
    PrintableIsNoSpace('v');
    PrintableIsNoSpace(':');
  }

  // ---------- the target check ----------

  lemma {:induction false} BlanksIn(s: string, i: nat, t: string, j: nat) returns (a: nat, b: nat)
    requires j == i + |t| <= |WithoutBlanks(s)| && WithoutBlanks(s)[i..j] == t && t != ""
    ensures a <= b <= |s| && WithoutBlanks(s[a..b]) == t
    decreases |s|
  {
    if s[0] == ' ' {
      var c, d := BlanksIn(s[1..], i, t, j);
      a, b := c + 1, d + 1;
      assert s[a..b] == s[1..][c..d];
    } else if i > 0 {
      assert WithoutBlanks(s)[i..j] == WithoutBlanks(s[1..])[i - 1..j - 1];
      var c, d := BlanksIn(s[1..], i - 1, t, j - 1);
      a, b := c + 1, d + 1;
      assert s[a..b] == s[1..][c..d];
    } else {
      a := 0;
      b := PrefixOf(s, t);
      assert s[0..b] == s[..b];
    }
  }

  lemma {:induction false} PrefixOf(s: string, t: string) returns (b: nat)
    requires t <= WithoutBlanks(s)
    ensures b <= |s| && WithoutBlanks(s[..b]) == t
    decreases |s|
  {
    if t == "" {
      b := 0;
    } else if s[0] == ' ' {
      var c := PrefixOf(s[1..], t);
      b := c + 1;
      assert s[..b][1..] == s[1..][..c];
    } else {
      assert t[1..] <= WithoutBlanks(s[1..]);
      var c := PrefixOf(s[1..], t[1..]);
      b := c + 1;
      assert s[..b][1..] == s[1..][..c] && s[..b][0] == s[0];
    }
  }

  /** A line mounts a container path exactly when some piece of it is that path but for blanks. */
  lemma HasTargetIff(line: string, index: nat)
    ensures HasTarget(line, index) <==>
            exists a, b | 0 <= a <= b <= |line| :: WithoutBlanks(line[a..b]) == Target(index)
  {
    hide Target;
    TargetIsPrintable(index);
    var t := Target(index);
    if HasTarget(line, index) {
      var i :| 0 <= i <= |WithoutBlanks(line)| && At(WithoutBlanks(line), i, t);
      var a, b := BlanksIn(line, i, t, i + |t|);
    }
    if exists a, b | 0 <= a <= b <= |line| :: WithoutBlanks(line[a..b]) == t {
      var a, b :| 0 <= a <= b <= |line| && WithoutBlanks(line[a..b]) == t;
      assert line == line[..a] + line[a..b] + line[b..];
      WithoutBlanksConcat(line[..a] + line[a..b], line[b..]);
      WithoutBlanksConcat(line[..a], line[a..b]);
      var front := WithoutBlanks(line[..a]);
      assert WithoutBlanks(line)[|front|..|front| + |t|] == t;
      assert At(WithoutBlanks(line), |front|, t);
    }
  }
}

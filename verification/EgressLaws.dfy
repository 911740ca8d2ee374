/** Laws of the egress allow list: what normalising keeps, and when a printed file reads back. */
module EgressLaws {
  import opened Egress
  import opened Splitting
  import opened Text

  predicate NoRepeats<T(==)>(xs: seq<T>) {
    forall i, j | 0 <= i < j < |xs| :: xs[i] != xs[j]
  }

  // ---------- one entry ----------

  lemma LowerKeepsSpace(c: char)
    ensures IsSpace(LowerChar(c)) <==> IsSpace(c)
    ensures LowerChar(LowerChar(c)) == LowerChar(c)
    ensures LowerChar(c) == '\n' <==> c == '\n'
  {
  }

  lemma {:induction false} LowerTwice(s: string)
    ensures Lower(Lower(s)) == Lower(s)
  {
    forall i | 0 <= i < |s|
      ensures Lower(Lower(s))[i] == Lower(s)[i]
    {
      LowerKeepsSpace(s[i]);
    }
  }

  /** A normalised host normalises to itself. */
  lemma HostOfHost(entry: string)
    ensures HostOf(HostOf(entry)) == HostOf(entry)
  {
    hide Lower, LowerChar, IsSpace;
    var core := Strip(entry);
    var host := HostOf(entry);
    LowerIs(core);
    if core != "" {
      LowerKeepsSpace(core[0]);
      LowerKeepsSpace(core[|core| - 1]);
    }
    StripTrimmed(host);
    LowerTwice(core);
  }

  lemma LowerIs(s: string)
    ensures |Lower(s)| == |s| && forall i | 0 <= i < |s| :: Lower(s)[i] == LowerChar(s[i])
  {
  }

  // ---------- the list ----------

  predicate Accepted(entry: string) {
    Fault(HostOf(entry)).None?
  }

  function AllHosts(raw: seq<string>): (r: seq<string>)
    ensures |r| == |raw| && forall i | 0 <= i < |raw| :: r[i] == HostOf(raw[i])
  {
    seq(|raw|, i requires 0 <= i < |raw| => HostOf(raw[i]))
  }

  /** Index of the first occurrence, or the length. */
  function FirstAt(hosts: seq<string>, host: string): (r: nat)
    ensures r <= |hosts| && forall k | 0 <= k < r :: hosts[k] != host
    ensures r < |hosts| ==> hosts[r] == host
  {
    if hosts == [] || hosts[0] == host then 0 else 1 + FirstAt(hosts[1..], host)
  }

  /** `out` holds the first `k` hosts, once each, in order of first appearance. */
  ghost predicate Lists(hosts: seq<string>, k: nat, out: seq<string>)
    requires k <= |hosts|
  {
    && NoRepeats(out)
    && |out| <= k
    && (forall host :: host in out <==> FirstAt(hosts, host) < k)
    && forall i, j | 0 <= i < j < |out| :: FirstAt(hosts, out[i]) < FirstAt(hosts, out[j])
  }

  lemma FirstAtFacts(hosts: seq<string>, k: nat)
    requires k < |hosts|
    ensures FirstAt(hosts, hosts[k]) <= k
    ensures forall host :: FirstAt(hosts, host) == k ==> host == hosts[k]
  {
  }

  lemma ListsStep(hosts: seq<string>, k: nat, out: seq<string>)
    requires k < |hosts| && Lists(hosts, k, out)
    ensures Lists(hosts, k + 1, if hosts[k] in out then out else out + [hosts[k]])
  {
    var host := hosts[k];
    FirstAtFacts(hosts, k);
    hide FirstAt;
    if host !in out {
      InOrder(hosts, k, out, host);
    }
  }

  lemma InOrder(hosts: seq<string>, k: nat, out: seq<string>, host: string)
    requires k < |hosts| && Lists(hosts, k, out) && FirstAt(hosts, host) == k
    ensures forall i, j | 0 <= i < j < |out + [host]| ::
              FirstAt(hosts, (out + [host])[i]) < FirstAt(hosts, (out + [host])[j])
  {
    hide FirstAt;
    forall i | 0 <= i < |out|
      ensures FirstAt(hosts, out[i]) < k
    {
      assert out[i] in out;
    }
  }

  lemma {:induction false} CollectLists(raw: seq<string>, k: nat, out: seq<string>)
    requires k <= |raw| && Lists(AllHosts(raw), k, out)
    ensures var r := Collect(raw[k..], out);
            && (r.Hosts? <==> forall i | k <= i < |raw| :: Accepted(raw[i]))
            && (r.Hosts? ==> Lists(AllHosts(raw), |raw|, r.list))
    decreases |raw| - k
  {
    hide HostOf, Fault, Lists;
    if k < |raw| {
      assert raw[k..][0] == raw[k] && raw[k..][1..] == raw[k + 1..];
      ListsStep(AllHosts(raw), k, out);
      if Accepted(raw[k]) {
        CollectLists(raw, k + 1, if HostOf(raw[k]) in out then out else out + [HostOf(raw[k])]);
      }
    }
  }

  /**
   Normalising succeeds exactly on at most 32 entries that each pass the checks, and lists their
   hosts without repeats in order of first appearance.
   */
  lemma NormaliseLists(raw: seq<string>)
    ensures Normalise(raw).Hosts? <==> |raw| <= MAX_ENDPOINTS && forall i | 0 <= i < |raw| :: Accepted(raw[i])
    ensures Normalise(raw).Hosts? ==> Lists(AllHosts(raw), |raw|, Normalise(raw).list)
  {
    hide HostOf, Fault;
    assert raw[0..] == raw;
    CollectLists(raw, 0, []);
  }

  lemma ListedIsHost(raw: seq<string>, host: string) returns (e: string)
    requires Normalise(raw).Hosts? && host in Normalise(raw).list
    ensures e in raw && HostOf(e) == host
    ensures Fault(host).None? && HostOf(host) == host
  {
    hide HostOf, Fault;
    NormaliseLists(raw);
    e := raw[FirstAt(AllHosts(raw), host)];
    assert Accepted(e);
    HostOfHost(e);
  }

  lemma EntryIsListed(raw: seq<string>, e: string)
    requires Normalise(raw).Hosts? && e in raw
    ensures HostOf(e) in Normalise(raw).list
  {
    hide HostOf, Fault;
    NormaliseLists(raw);
    var i :| 0 <= i < |raw| && raw[i] == e;
    assert AllHosts(raw)[i] == HostOf(e) && FirstAt(AllHosts(raw), HostOf(e)) <= i;
  }

  lemma {:induction false} CollectPlain(done: seq<string>, rest: seq<string>)
    requires NoRepeats(done + rest)
    requires forall host <- rest :: Accepted(host) && HostOf(host) == host
    ensures Collect(rest, done) == Hosts(done + rest)
    decreases |rest|
  {
    hide HostOf, Fault;
    if rest == [] {
      assert done + rest == done;
    } else {
      var host := rest[0];
      assert host in rest && (done + rest)[|done|] == host;
      assert host !in done by {
        assert forall i | 0 <= i < |done| :: (done + rest)[i] == done[i];
      }
      assert done + rest == done + [host] + rest[1..];
      CollectPlain(done + [host], rest[1..]);
    }
  }

  /** Normalising is idempotent. */
  lemma NormaliseTwice(raw: seq<string>)
    requires Normalise(raw).Hosts?
    ensures Normalise(Normalise(raw).list) == Normalise(raw)
  {
    hide HostOf, Fault, Collect, FirstAt;
    var out := Normalise(raw).list;
    NormaliseLists(raw);
    forall host | host in out
      ensures Accepted(host) && HostOf(host) == host
    {
      var e := ListedIsHost(raw, host);
    }
    assert [] + out == out;
    CollectPlain([], out);
  }

  // ---------- characters of a host ----------

  predicate HostChar(c: char) {
    IsAlnum(c) || c == '-' || c == '.' || c == '\n'
  }

  predicate HostChars(s: string) {
    forall i | 0 <= i < |s| :: HostChar(s[i])
  }

  lemma {:induction false} PieceWith(s: string, sep: char, i: nat) returns (piece: string)
    requires i < |s| && s[i] != sep
    ensures piece in SplitOn(s, sep) && s[i] in piece
  {
    var rest := SplitOn(s[1..], sep);
    if i == 0 {
      piece := [s[0]] + rest[0];
    } else {
      assert s[1..][i - 1] == s[i];
      piece := PieceWith(s[1..], sep, i - 1);
      if s[0] != sep && piece == rest[0] {
        piece := [s[0]] + rest[0];
      } else if s[0] != sep {
        assert piece in rest[1..];
      }
    }
  }

  lemma MatchChars(name: string)
    requires LabelMatches(name)
    ensures name != "" && forall c <- name :: HostChar(c)
    ensures forall i | 0 <= i < |name| - 1 :: name[i] != '\n'
  {
    if !IsLabel(name) {
      var core := name[..|name| - 1];
      assert forall i | 0 <= i < |core| :: name[i] == core[i];
    }
  }

  lemma BareHostChars(host: string)
    requires IsBareHost(host)
    ensures HostChars(host)
  {
    forall i | 0 <= i < |host|
      ensures HostChar(host[i])
    {
      if host[i] != '.' {
        var name := PieceWith(host, '.', i);
        MatchChars(name);
      }
    }
  }

  predicate NewlineEndsOnly(name: string) {
    forall i | 0 <= i < |name| - 1 :: name[i] != '\n'
  }

  lemma FirstPiece(s: string, sep: char)
    ensures s != "" && s[0] != sep ==> SplitOn(s, sep)[0] != ""
  {
  }

  lemma {:induction false} NewlineBeforeDot(s: string, i: nat)
    requires forall name <- SplitOn(s, '.') :: NewlineEndsOnly(name)
    requires i < |s| && s[i] == '\n'
    ensures i + 1 < |s| ==> s[i + 1] == '.'
  {
    var names, rest := SplitOn(s, '.'), SplitOn(s[1..], '.');
    assert NewlineEndsOnly(names[0]);
    if i > 0 {
      if s[0] != '.' {
        assert names[0] == [s[0]] + rest[0] && rest == [rest[0]] + names[1..];
        assert forall k | 0 <= k < |rest[0]| :: names[0][k + 1] == rest[0][k];
      } else {
        assert rest == names[1..];
      }
      assert s[1..][i - 1] == s[i];
      NewlineBeforeDot(s[1..], i - 1);
    } else {
      FirstPiece(s[1..], '.');
      assert |s| > 1 ==> s[1..][0] == s[1];
      assert names[0] == [s[0]] + rest[0] && names[0][0] == '\n';
    }
  }

  lemma HostIsTrimmed(host: string)
    requires HostOf(host) == host && host != ""
    ensures !IsSpace(host[0]) && !IsSpace(host[|host| - 1])
  {
    hide IsSpace, LowerChar, Lower;
    LowerIs(Strip(host));
    assert |Strip(host)| == |host|;
    var i, j := StripSlice(host);
    assert Strip(host) == host;
  }

  /** A newline in a normalised host stands right before a dot. */
  lemma NewlineInHost(host: string, i: nat)
    requires Fault(host).None? && HostOf(host) == host
    requires i < |host| && host[i] == '\n'
    ensures i + 1 < |host| && host[i + 1] == '.'
  {
    hide SplitOn, HostOf, LabelMatches, IsSpace;
    forall name | name in SplitOn(host, '.')
      ensures NewlineEndsOnly(name)
    {
      assert LabelMatches(name);
      MatchChars(name);
    }
    NewlineBeforeDot(host, i);
    SpaceFacts();
    HostIsTrimmed(host);
  }

  // ---------- the lines of an allow file ----------

  lemma Associate<T>(a: seq<T>, b: seq<T>, c: seq<T>)
    ensures (a + b) + c == a + (b + c)
  {
  }

  function Pieces(lines: seq<string>): seq<string> {
    if lines == [] then [] else SplitOn(lines[0], '\n') + Pieces(lines[1..])
  }

  lemma {:induction false} LinesOfPieces(lines: seq<string>)
    ensures Lines(Pieces(lines)) == Lines(lines)
  {
    if lines == [] {
    } else {
      LinesOfPieces(lines[1..]);
      var first := SplitOn(lines[0], '\n');
      LinesConcat(first, Pieces(lines[1..]));
      JoinLines(first);
      JoinSplit(lines[0], '\n');
    }
  }

  lemma {:induction false} PiecesConcat(xs: seq<string>, ys: seq<string>)
    ensures Pieces(xs + ys) == Pieces(xs) + Pieces(ys)
  {
    hide SplitOn;
    if xs == [] {
      assert xs + ys == ys;
    } else {
      assert (xs + ys)[1..] == xs[1..] + ys;
      PiecesConcat(xs[1..], ys);
      Associate(SplitOn(xs[0], '\n'), Pieces(xs[1..]), Pieces(ys));
    }
  }

  lemma {:induction false} PiecesWhole(lines: seq<string>)
    requires forall l <- lines :: '\n' !in l
    ensures Pieces(lines) == lines
  {
    if lines == [] {
    } else {
      SplitWhole(lines[0], '\n');
      PiecesWhole(lines[1..]);
    }
  }

  lemma {:induction false} PiecesFrom(lines: seq<string>, piece: string) returns (l: string)
    requires piece in Pieces(lines)
    ensures l in lines && piece in SplitOn(l, '\n')
  {
    if piece in SplitOn(lines[0], '\n') {
      l := lines[0];
    } else {
      l := PiecesFrom(lines[1..], piece);
    }
  }

  lemma {:induction false} PiecesHas(lines: seq<string>, l: string, piece: string)
    requires l in lines && piece in SplitOn(l, '\n')
    ensures piece in Pieces(lines)
  {
    if l != lines[0] {
      PiecesHas(lines[1..], l, piece);
    }
  }

  /** What a file line made of host characters other than a newline amounts to: itself. */
  lemma HostPartOfHost(piece: string)
    requires HostChars(piece) && '\n' !in piece
    ensures HostPart(piece) == piece && OneLine(piece)
  {
    forall i | 0 <= i < |piece|
      ensures !IsSpace(piece[i]) && !IsLineBreak(piece[i]) && piece[i] != '#'
    {
      assert piece[i] in piece;
      HostCharFacts(piece[i]);
    }
    SplitWhole(piece, '#');
    hide IsSpace;
    assert piece[0..|piece|] == piece;
    StripIs(piece, 0, |piece|);
  }

  lemma HostCharFacts(c: char)
    requires HostChar(c) && c != '\n'
    ensures !IsSpace(c) && !IsLineBreak(c) && c != '#'
  {
  }

  lemma PieceOfHost(host: string, piece: string)
    requires HostChars(host) && piece in SplitOn(host, '\n')
    ensures HostPart(piece) == piece && OneLine(piece)
  {
    hide HostPart, IsLineBreak;
    PieceChars(host, '\n', piece);
    forall i | 0 <= i < |piece|
      ensures HostChar(piece[i])
    {
      assert piece[i] in piece && piece[i] in host;
    }
    HostPartOfHost(piece);
  }

  lemma {:induction false} HostPartsOfHosts(pieces: seq<string>)
    requires forall piece <- pieces :: HostPart(piece) == piece
    ensures forall piece <- pieces :: piece != "" ==> piece in HostParts(pieces)
    ensures (forall piece <- pieces :: piece != "") ==> HostParts(pieces) == pieces
  {
    hide HostPart;
    if pieces == [] {
    } else {
      assert HostPart(pieces[0]) == pieces[0];
      var rest := HostParts(pieces[1..]);
      HostPartsOfHosts(pieces[1..]);
      assert HostParts(pieces) == if pieces[0] == "" then rest else [pieces[0]] + rest;
      forall piece | piece in pieces && piece != ""
        ensures piece in HostParts(pieces)
      {
        assert piece == pieces[0] || piece in pieces[1..];
      }
      if forall piece <- pieces :: piece != "" {
        assert forall piece <- pieces[1..] :: piece in pieces;
        assert pieces[0] in pieces && rest == pieces[1..];
        assert pieces == [pieces[0]] + pieces[1..];
      }
    }
  }

  lemma {:induction false} HostPartsConcat(xs: seq<string>, ys: seq<string>)
    ensures HostParts(xs + ys) == HostParts(xs) + HostParts(ys)
  {
    hide HostPart;
    if xs == [] {
      assert xs + ys == ys;
    } else {
      assert (xs + ys)[1..] == xs[1..] + ys;
      HostPartsConcat(xs[1..], ys);
      Associate([HostPart(xs[0])], HostParts(xs[1..]), HostParts(ys));
    }
  }

  // ---------- the round trip ----------

  lemma JoinTrailing(lines: seq<string>)
    ensures Join("\n", lines + [""]) == Lines(lines)
  {
    JoinLines(lines + [""]);
    LinesConcat(lines, [""]);
    assert Lines([""]) == "\n" by { assert [""][1..] == []; }
    var a, b := Join("\n", lines + [""]), Lines(lines);
    assert a + "\n" == b + "\n";
    assert a == (a + "\n")[..|a|] && b == (b + "\n")[..|b|];
  }

  lemma HeaderFacts(id: string)
    requires IsGrantableId(id)
    ensures forall h <- Headers(id) :: OneLine(h) && HostPart(h) == "" && '\n' !in h
  {
    forall h | h in Headers(id)
      ensures OneLine(h) && h[0] == '#' && '\n' !in h
    {
      hide OneLine;
      if h == TITLE + id {
        TitleIsOneLine();
        IdIsOneLine(id);
        OneLineConcat(TITLE, id);
      } else {
        NoteIsOneLine();
        WarningIsOneLine();
      }
      assert OneLine(h);
      OneLineNewline(h);
    }
    forall h | h in Headers(id)
      ensures HostPart(h) == ""
    {
      assert SplitOn(h, '#')[0] == "";
    }
  }

  lemma OneLineNewline(s: string)
    requires OneLine(s)
    ensures '\n' !in s
  {
  }

  lemma OneLineConcat(a: string, b: string)
    requires OneLine(a) && OneLine(b)
    ensures OneLine(a + b)
  {
  }

  lemma IdIsOneLine(id: string)
    requires IsGrantableId(id)
    ensures OneLine(id)
  {
  }

  lemma TitleIsOneLine()
    ensures OneLine(TITLE) && TITLE[0] == '#'
  {
    OneLineConcat("# LUM-618 egress allowlist", " for capability id: ");
  }

  lemma NoteIsOneLine()
    ensures OneLine(NOTE) && NOTE[0] == '#'
  {
    hide SCRIPT;
    ScriptIsOneLine();
    OneLineConcat("# One bare host / IPv4", " per line. Generated by ");
    OneLineConcat("# One bare host / IPv4" + " per line. Generated by ", SCRIPT);
  }

  lemma ScriptIsOneLine()
    ensures OneLine(SCRIPT)
  {
    OneLineConcat("scripts/", "gen_capability_egress_acl.py");
  }

  lemma WarningIsOneLine()
    ensures OneLine(WARNING) && WARNING[0] == '#'
  {
    hide ADVICE;
    AdviceIsOneLine();
    OneLineConcat("# \U{2014} do not hand-edit;", ADVICE);
  }

  lemma AdviceIsOneLine()
    ensures OneLine(ADVICE)
  {
    OneLineConcat(" regenerate when", " the manifest's");
    OneLineConcat(" regenerate when" + " the manifest's", " external_endpoints change.");
  }

  /** A printed file is three comment lines, the first of which names the capability, and one line per host. */
  lemma AllowTextIs(id: string, hosts: seq<string>) returns (comments: seq<string>)
    requires IsGrantableId(id)
    ensures AllowText(id, hosts) == Lines(comments + hosts) && |comments| == 3
    ensures forall line <- comments :: OneLine(line) && HostPart(line) == ""
    ensures comments[0] == "# LUM-618 egress allowlist" + " for capability id: " + id
  {
    comments := ThreeHeaders(id);
    hide OneLine, Headers, HostPart, SplitOn, Join, Lines;
    HeaderFacts(id);
    JoinTrailing(comments + hosts);
  }

  lemma ThreeHeaders(id: string) returns (comments: seq<string>)
    ensures comments == Headers(id) && |comments| == 3
    ensures comments[0] == "# LUM-618 egress allowlist" + " for capability id: " + id
  {
    comments := Headers(id);
    hide NOTE, WARNING;
  }

  /** The raw hosts a printed file reads back as: the hosts, cut at their newlines. */
  lemma ReadBack(id: string, hosts: seq<string>)
    requires IsGrantableId(id) && forall host <- hosts :: HostChars(host)
    ensures HostParts(Splitlines(AllowText(id, hosts))) == HostParts(Pieces(hosts))
    ensures forall piece <- Pieces(hosts) :: HostPart(piece) == piece
  {
    hide HostPart, Splitlines, OneLine, Headers, SplitOn, HostChars;
    var headers := Headers(id);
    HeaderFacts(id);
    JoinTrailing(headers + hosts);
    LinesOfPieces(headers + hosts);
    PiecesConcat(headers, hosts);
    PiecesWhole(headers);
    forall piece | piece in Pieces(hosts)
      ensures HostPart(piece) == piece && OneLine(piece)
    {
      var host := PiecesFrom(hosts, piece);
      PieceOfHost(host, piece);
    }
    SplitlinesOfLines(headers + Pieces(hosts));
    HostPartsConcat(headers, Pieces(hosts));
    NoHostParts(headers);
  }

  lemma {:induction false} NoHostParts(lines: seq<string>)
    requires forall l <- lines :: HostPart(l) == ""
    ensures HostParts(lines) == []
  {
    hide HostPart;
    if lines == [] {
    } else {
      assert HostPart(lines[0]) == "";
      NoHostParts(lines[1..]);
    }
  }

  lemma HostsAreClean(raw: seq<string>)
    requires Normalise(raw).Hosts?
    ensures forall host <- Normalise(raw).list :: host != "" && HostChars(host)
  {
    hide HostOf, HostChars, IsBareHost;
    forall host | host in Normalise(raw).list
      ensures host != "" && HostChars(host)
    {
      var e := ListedIsHost(raw, host);
      BareHostChars(host);
    }
  }

  /** The piece after a newline starts with a dot and can be no host. */
  lemma BrokenPiece(host: string) returns (piece: string)
    requires Fault(host).None? && HostOf(host) == host && '\n' in host
    ensures piece in SplitOn(host, '\n') && piece != "" && piece[0] == '.'
  {
    hide Fault, HostOf, SplitOn;
    var i := FirstNewline(host);
    NewlineInHost(host, i);
    var before, after := host[..i], host[i + 1..];
    assert host == before + ['\n'] + after;
    SplitAtSep(before, '\n', after);
    SplitStart(after);
    piece := SplitOn(after, '\n')[0];
    assert ([before] + SplitOn(after, '\n'))[1] == piece;
  }

  lemma SplitStart(s: string)
    requires s != "" && s[0] != '\n'
    ensures SplitOn(s, '\n')[0] != "" && SplitOn(s, '\n')[0][0] == s[0]
  {
  }

  lemma {:induction false} FirstNewline(s: string) returns (i: nat)
    requires '\n' in s
    ensures i < |s| && s[i] == '\n' && '\n' !in s[..i]
  {
    if s[0] == '\n' {
      i := 0;
    } else {
      var j := FirstNewline(s[1..]);
      i := j + 1;
      assert s[..i] == [s[0]] + s[1..][..j];
    }
  }

  lemma DotIsNoHost(piece: string)
    requires piece != "" && piece[0] == '.' && HostPart(piece) == piece
    ensures !Accepted(piece)
  {
    hide IsSpace;
    StripOfHostPart(piece);
    var host := HostOf(piece);
    assert host[0] == '.' && SplitOn(host, '.')[0] == "";
    assert !LabelMatches("");
  }

  lemma StripOfHostPart(piece: string)
    requires HostPart(piece) == piece
    ensures Strip(piece) == piece
  {
    hide IsSpace, SplitOn;
    StripTrimmed(piece);
  }

  lemma NewlineKept(e: string)
    ensures '\n' in HostOf(e) <==> '\n' in Strip(e)
  {
    hide LowerChar, Strip;
    var core := Strip(e);
    LowerIs(core);
    forall i | 0 <= i < |core|
      ensures HostOf(e)[i] == '\n' <==> core[i] == '\n'
    {
      LowerKeepsSpace(core[i]);
    }
  }

  /**
   What `generate` prints, the parser reads back as the normalised list exactly when no entry has a
   newline inside; otherwise the parser refuses the file that `generate` wrote.
   */
  lemma AllowFileRoundTrip(id: string, raw: seq<string>)
    requires IsGrantableId(id) && Normalise(raw).Hosts?
    ensures var written := AllowText(id, Normalise(raw).list);
            if forall e <- raw :: '\n' !in Strip(e)
            then ReadAllow(written) == Normalise(raw)
            else ReadAllow(written).Refused?
  {
    hide HostOf, Strip, AllowText, Splitlines, HostPart, SplitOn, HostChars, Normalise, Fault;
    var hosts := Normalise(raw).list;
    HostsAreClean(raw);
    ReadBack(id, hosts);
    HostPartsOfHosts(Pieces(hosts));
    if forall e <- raw :: '\n' !in Strip(e) {
      forall host | host in hosts
        ensures '\n' !in host
      {
        var e := ListedIsHost(raw, host);
        NewlineKept(e);
      }
      PiecesWhole(hosts);
      NormaliseTwice(raw);
    } else {
      var e :| e in raw && '\n' in Strip(e);
      NewlineKept(e);
      EntryIsListed(raw, e);
      var host := HostOf(e);
      var _ := ListedIsHost(raw, host);
      var piece := BrokenPiece(host);
      PiecesHas(hosts, host, piece);
      DotIsNoHost(piece);
      var read := HostParts(Pieces(hosts));
      NormaliseLists(read);
      var i :| 0 <= i < |read| && read[i] == piece;
    }
  }

  /** Checking right after an accepted generate succeeds exactly when no entry has a newline inside. */
  method CheckAfterGenerate(dir: AllowDir, id: string, raw: seq<string>) returns (ok: bool, r: Checked)
    modifies dir
    ensures ok <==> IsGrantableId(id) && Normalise(raw).Hosts?
    ensures ok ==> (r == Matches <==> forall e <- raw :: '\n' !in Strip(e))
    ensures r == Matches || r == Raised
    ensures r == Raised <==> !ok || exists e <- raw :: '\n' in Strip(e)
  {
    hide Normalise, ReadAllow, AllowText, Strip, IsGrantableId;
    ok := dir.Generate(id, raw);
    if ok {
      AllowFileRoundTrip(id, raw);
    }
    r := dir.Check(id, raw);
  }

  lemma NewlineHostIsBare()
    ensures IsBareHost("a\n.b")
  {
    assert "a\n.b" == "a\n" + ['.'] + "b";
    SplitAtSep("a\n", '.', "b");
    SplitWhole("b", '.');
    assert LabelMatches("a\n") && LabelMatches("b");
  }

  lemma NewlineHostIsTrimmed()
    ensures Strip("a\n.b") == "a\n.b"
  {
    var e := "a\n.b";
    assert !IsSpace('a') && !IsSpace('b');
    hide IsSpace, Strip;
    StripTrimmed(e);
  }

  /** Such an entry exists: the label regex accepts a label with a newline at its end. */
  lemma NewlineEntryIsAccepted()
    ensures Normalise(["a\n.b"]) == Hosts(["a\n.b"])
  {
    hide IsBareHost, Strip, Lower;
    var e := "a\n.b";
    NewlineHostIsTrimmed();
    LowerIs(e);
    assert Lower(e) == e;
    NewlineHostIsBare();
    hide Fault, HostOf;
    CollectPlain([], [e]);
    assert [] + [e] == [e];
  }
}

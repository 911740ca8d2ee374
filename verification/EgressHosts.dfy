/** Which entries an egress declaration may list, character by character, and why others are refused. */
module EgressHosts {
  import opened Egress
  import opened EgressLaws
  import opened Options
  import opened Splitting
  import opened Text

  // ---------- lower case ----------

  /** `low` is `s` with every capital replaced by the letter at the same place, and the Kelvin sign by `k`. */
  predicate IsLowerOf(low: string, s: string) {
    && |low| == |s|
    && forall i | 0 <= i < |s| ::
         if 'A' <= s[i] <= 'Z' then low[i] as int - 'a' as int == s[i] as int - 'A' as int
         else low[i] == if s[i] == '\U{212A}' then 'k' else s[i]
  }

  lemma LowerCharIs(c: char)
    ensures if 'A' <= c <= 'Z' then LowerChar(c) as int - 'a' as int == c as int - 'A' as int
            else LowerChar(c) == if c == '\U{212A}' then 'k' else c
  {
  }

  lemma HostIsLower(entry: string)
    ensures IsLowerOf(HostOf(entry), Strip(entry))
  {
    hide LowerChar, Strip;
    var s := Strip(entry);
    forall i | 0 <= i < |s|
      ensures if 'A' <= s[i] <= 'Z' then Lower(s)[i] as int - 'a' as int == s[i] as int - 'A' as int
              else Lower(s)[i] == if s[i] == '\U{212A}' then 'k' else s[i]
    {
      LowerCharIs(s[i]);
    }
  }

  // ---------- host names ----------

  predicate Alnum(c: char) {
    'a' <= c <= 'z' || '0' <= c <= '9'
  }

  /** What may follow a character: a label starts and ends in a letter or digit, and a newline ends a label. */
  predicate Follows(c: char, d: char) {
    && (c == '.' ==> Alnum(d))
    && (c == '-' ==> Alnum(d) || d == '-')
    && (c == '\n' ==> d == '.')
  }

  /** Among the 64 characters from `i` on, a name ends. */
  predicate NameEnds(h: string, i: nat)
    requires i + 64 <= |h|
  {
    exists j | i <= j < i + 64 :: h[j] in ".\n"
  }

  /** Names of letters, digits and hyphens, at most 63 each, between dots; a dot may have a newline before it. */
  predicate HostText(h: string) {
    && 1 <= |h| <= 253
    && Alnum(h[0]) && Alnum(h[|h| - 1])
    && (forall i | 0 <= i < |h| :: Alnum(h[i]) || h[i] in "-.\n")
    && (forall i | 0 <= i < |h| - 1 :: Follows(h[i], h[i + 1]))
    && (forall i | 0 <= i <= |h| - 64 :: NameEnds(h, i))
  }

  lemma AlnumIs(c: char)
    ensures IsAlnum(c) <==> Alnum(c)
    ensures Alnum(c) ==> !IsSpace(c)
  {
  }

  /** One label of an accepted host, in place. */
  predicate LabelIn(h: string, a: nat, b: nat) {
    && a < b <= |h|
    && var c := if h[b - 1] == '\n' then b - 1 else b;
       && 1 <= c - a <= 63 && Alnum(h[a]) && Alnum(h[c - 1])
       && forall i | a <= i < c :: Alnum(h[i]) || h[i] == '-'
  }

  lemma LabelIff(h: string, a: nat, b: nat)
    requires a <= b <= |h|
    ensures LabelMatches(h[a..b]) <==> LabelIn(h, a, b)
  {
    var name := h[a..b];
    forall c: char
      ensures IsAlnum(c) <==> Alnum(c)
    {
      AlnumIs(c);
    }
    hide IsAlnum;
    if a < b {
      assert name[|name| - 1] == h[b - 1] && name[0] == h[a];
      assert forall i | 0 <= i < |name| :: name[i] == h[a + i];
      assert forall i | a <= i < b :: h[i] == name[i - a];
      assert name[..|name| - 1] == h[a..b - 1];
      if name[|name| - 1] == '\n' {
        NewlineIsNoLabel(name);
      }
      if h[b - 1] == '\n' && a + 1 < b {
        LabelText(h, a, b - 1);
      } else {
        LabelText(h, a, b);
      }
    }
  }

  lemma NewlineIsNoLabel(name: string)
    requires name != "" && name[|name| - 1] == '\n'
    ensures !IsLabel(name)
  {
  }

  lemma LabelText(h: string, a: nat, c: nat)
    requires a < c <= |h|
    ensures IsLabel(h[a..c]) <==>
            c - a <= 63 && IsAlnum(h[a]) && IsAlnum(h[c - 1]) && forall i | a <= i < c :: IsAlnum(h[i]) || h[i] == '-'
  {
    hide IsAlnum;
    var name := h[a..c];
    assert forall i | 0 <= i < |name| :: name[i] == h[a + i];
    assert forall i | a <= i < c :: h[i] == name[i - a];
  }

  /** Every piece between dots is a label. */
  lemma BareIff(h: string)
    ensures IsBareHost(h) <==> h != "" && forall a, b | PieceAt(h, '.', a, b) :: LabelIn(h, a, b)
  {
    hide SplitOn, LabelMatches, LabelIn, PieceAt;
    if IsBareHost(h) {
      forall a, b | PieceAt(h, '.', a, b)
        ensures LabelIn(h, a, b)
      {
        InText(h, a, b);
        PieceIsIn(h, '.', a, b);
        LabelIff(h, a, b);
      }
    }
    if h != "" && forall a, b | PieceAt(h, '.', a, b) :: LabelIn(h, a, b) {
      forall name <- SplitOn(h, '.')
        ensures LabelMatches(name)
      {
        var a, b := PlaceOf(h, '.', name);
        InText(h, a, b);
        LabelIff(h, a, b);
      }
    }
  }

  lemma InText(h: string, a: nat, b: nat)
    requires PieceAt(h, '.', a, b)
    ensures a <= b <= |h| && (a == 0 || h[a - 1] == '.') && (b == |h| || h[b] == '.')
    ensures forall i | a <= i < b :: h[i] != '.'
  {
    assert forall i | a <= i < b :: h[a..b][i - a] == h[i];
  }

  /** From labels to characters. */
  lemma LabelsAreText(h: string)
    requires h != "" && |h| <= 253 && h[|h| - 1] != '\n'
    requires forall a, b | PieceAt(h, '.', a, b) :: LabelIn(h, a, b)
    ensures HostText(h)
  {
    hide PieceAt, Follows, NameEnds;
    forall i | 0 <= i < |h|
      ensures Alnum(h[i]) || h[i] in "-.\n"
      ensures i == 0 || i == |h| - 1 ==> Alnum(h[i])
      ensures i < |h| - 1 ==> Follows(h[i], h[i + 1])
    {
      CharInLabel(h, i);
    }
    forall i | 0 <= i <= |h| - 64
      ensures NameEnds(h, i)
    {
      LabelIsShort(h, i);
    }
  }

  lemma CharInLabel(h: string, i: nat)
    requires i < |h| && h[|h| - 1] != '\n'
    requires forall a, b | PieceAt(h, '.', a, b) :: LabelIn(h, a, b)
    ensures Alnum(h[i]) || h[i] in "-.\n"
    ensures i == 0 || i == |h| - 1 ==> Alnum(h[i])
    ensures i < |h| - 1 ==> Follows(h[i], h[i + 1])
  {
    hide PieceAt;
    var a, b := PieceAround(h, '.', i);
    InText(h, a, b);
    if h[i] == '.' {
      var c, d := PieceAround(h, '.', i + 1);
      InText(h, c, d);
      assert c == i + 1;
      assert LabelIn(h, c, d) && LabelIn(h, a, b);
    } else {
      assert i < b && LabelIn(h, a, b);
    }
  }

  lemma LabelIsShort(h: string, i: nat)
    requires i + 64 <= |h|
    requires forall a, b | PieceAt(h, '.', a, b) :: LabelIn(h, a, b)
    ensures NameEnds(h, i)
  {
    hide PieceAt;
    var a, b := PieceAround(h, '.', i);
    InText(h, a, b);
    assert LabelIn(h, a, b);
    var j := if b < i + 64 then b else i + 63;
    if b >= i + 64 {
      assert h[b - 1] == '\n' && b - 1 < i + 64;
      j := b - 1;
    }
    assert i <= j < i + 64 && h[j] in ".\n";
  }

  /** From characters to labels. */
  lemma TextIsLabels(h: string, a: nat, b: nat)
    requires HostText(h) && PieceAt(h, '.', a, b)
    ensures LabelIn(h, a, b)
  {
    hide PieceAt;
    InText(h, a, b);
    assert a > 0 ==> Follows(h[a - 1], h[a - 1 + 1]);
    assert a < b && Alnum(h[a]);
    var c := if h[b - 1] == '\n' then b - 1 else b;
    forall i | a <= i < c
      ensures Alnum(h[i]) || h[i] == '-'
    {
      if i < |h| - 1 {
        assert Follows(h[i], h[i + 1]);
      }
    }
    assert c < |h| ==> Follows(h[c - 1], h[c - 1 + 1]);
    assert Alnum(h[c - 1]);
    if a + 64 <= |h| {
      assert NameEnds(h, a);
    }
  }

  lemma TextIsPlain(h: string)
    requires HostText(h)
    ensures IsAscii(h) && ':' !in h && '*' !in h
  {
    forall i | 0 <= i < |h|
      ensures h[i] < '\U{0080}' && h[i] != ':' && h[i] != '*'
    {
    }
  }

  /** An entry is accepted exactly when, stripped and in lower case, it is such a text. */
  lemma AcceptedIff(entry: string)
    ensures Accepted(entry) <==> HostText(HostOf(entry))
    ensures IsLowerOf(HostOf(entry), Strip(entry))
  {
    HostIsLower(entry);
    var h := HostOf(entry);
    HostEnds(entry);
    hide HostOf, IsBareHost, IsAscii, HostText, IsLowerOf;
    BareIff(h);
    if Accepted(entry) {
      LabelsAreText(h);
    }
    if HostText(h) {
      TextIsPlain(h);
      forall a, b | PieceAt(h, '.', a, b)
        ensures LabelIn(h, a, b)
      {
        TextIsLabels(h, a, b);
      }
      TextLength(h);
    }
  }

  lemma TextLength(h: string)
    requires HostText(h)
    ensures 1 <= |h| <= 253
  {
  }

  lemma HostEnds(entry: string)
    ensures var h := HostOf(entry); h != "" ==> h[|h| - 1] != '\n'
  {
    SpaceFacts();
    hide IsSpace, LowerChar;
    var s := Strip(entry);
    assert Trimmed(s);
    if s != "" {
      LowerKeepsSpace(s[|s| - 1]);
    }
  }

  // ---------- refusals ----------

  predicate Ascii(h: string) {
    forall i | 0 <= i < |h| :: h[i] < '\U{0080}'
  }

  /** What is wrong with a stripped, lower-case entry: the first of these that applies. */
  predicate Wrong(h: string, why: Refusal) {
    match why
    case EmptyEntry => h == ""
    case NonAscii => !Ascii(h)
    case Colon => Ascii(h) && ':' in h
    case Wildcard => Ascii(h) && ':' !in h && '*' in h
    case TooLong => Ascii(h) && ':' !in h && '*' !in h && |h| > 253
    case BadHost => Ascii(h) && ':' !in h && '*' !in h && 1 <= |h| <= 253 && !HostText(h)
    case TooManyHosts => false
  }

  lemma {:induction false} CollectRefuses(raw: seq<string>, out: seq<string>) returns (i: nat)
    requires Collect(raw, out).Refused?
    ensures i < |raw| && Fault(HostOf(raw[i])) == Some(Collect(raw, out).why)
    ensures forall j | 0 <= j < i :: Accepted(raw[j])
    decreases |raw|
  {
    hide Fault, HostOf;
    if Accepted(raw[0]) {
      var host := HostOf(raw[0]);
      var later := CollectRefuses(raw[1..], if host in out then out else out + [host]);
      i := later + 1;
      assert forall j | 1 <= j < i :: raw[j] == raw[1..][j - 1];
    } else {
      i := 0;
    }
  }

  lemma FaultIsWrong(entry: string)
    ensures var fault := Fault(HostOf(entry)); fault.Some? ==> Wrong(HostOf(entry), fault.value)
  {
    hide HostOf, Fault, HostText, IsLowerOf, IsAscii, Ascii, Wrong;
    AcceptedIff(entry);
    AsciiIff(HostOf(entry));
    FirstFault(HostOf(entry));
  }

  lemma FirstFault(h: string)
    requires (Fault(h).None? <==> HostText(h)) && (IsAscii(h) <==> Ascii(h))
    ensures Fault(h).Some? ==> Wrong(h, Fault(h).value)
  {
    hide HostText, IsBareHost, IsAscii, Ascii;
  }

  lemma AsciiIff(h: string)
    ensures IsAscii(h) <==> Ascii(h)
  {
  }

  /** More than 32 entries are refused; else the first bad entry is, for the first thing that is wrong with it. */
  lemma RefusalIs(raw: seq<string>)
    requires Normalise(raw).Refused?
    ensures Normalise(raw).why.TooManyHosts? <==> |raw| > 32
    ensures |raw| <= 32 ==>
              exists i | 0 <= i < |raw| && !Accepted(raw[i]) && (forall j | 0 <= j < i :: Accepted(raw[j])) ::
                Wrong(HostOf(raw[i]), Normalise(raw).why)
  {
    hide HostOf, Fault, Wrong;
    if |raw| <= 32 {
      var i := CollectRefuses(raw, []);
      FaultIsWrong(raw[i]);
      NeverTooMany(HostOf(raw[i]));
    }
  }

  lemma NeverTooMany(h: string)
    ensures Fault(h) != Some(TooManyHosts)
  {
    hide IsBareHost, IsAscii;
  }

  // ---------- files ----------

  /** A line names a host up to its first `#`. */
  lemma HostPartIs(front: string, rear: string)
    requires '#' !in front
    ensures HostPart(front + "#" + rear) == Strip(front) && HostPart(front) == Strip(front)
  {
    hide SplitOn, Strip;
    SplitAtSep(front, '#', rear);
    SplitWhole(front, '#');
  }

  lemma IdIff(id: string)
    ensures IsGrantableId(id) <==>
            1 <= |id| <= 43 && Alnum(id[0]) && forall i | 0 <= i < |id| :: Alnum(id[i]) || id[i] in ['.', '_', '-']
  {
  }

  /** The id of a capability names one file of the directory: it is no path, and not hidden. */
  lemma IdIsFileName(id: string)
    requires IsGrantableId(id)
    ensures id[0] != '.' && '/' !in id && '\\' !in id
  {
    forall i | 0 <= i < |id|
      ensures id[i] != '/' && id[i] != '\\'
    {
    }
  }
}

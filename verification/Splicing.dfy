/**
 First occurrences in spliced texts, for any two markers of the shape `# ...` that do not overlap
 themselves: which offsets of a text can hold a marker, given what stands around one block.
 */
module Splicing {
  import opened Text

  /** A marker starts with `# `, holds no other `#` and no newline. */
  predicate Marker(m: string) {
    && |m| >= 2 && m[0] == '#' && m[1] == ' '
    && forall i | 1 <= i < |m| :: m[i] != '#' && m[i] != '\n'
  }

  /** Two markers that differ at a common offset. */
  predicate MarkerPair(begin: string, end: string) {
    Marker(begin) && Marker(end) && exists i | 0 <= i < |begin| && i < |end| :: begin[i] != end[i]
  }

  ghost predicate Lacks(s: string, p: string) {
    forall i: nat :: !At(s, i, p)
  }

  /** The first two characters of a marker stand at `i`. */
  predicate StartsMarker(s: string, i: nat) {
    i + 1 < |s| && s[i] == '#' && s[i + 1] == ' '
  }

  predicate CleanIn(s: string, from: nat, to: nat) {
    forall i: nat | from <= i < to :: !StartsMarker(s, i)
  }

  lemma AtIff(s: string, i: nat, p: string)
    ensures At(s, i, p) <==> i + |p| <= |s| && forall k | 0 <= k < |p| :: s[i + k] == p[k]
  {
    if i + |p| <= |s| {
      var t := s[i..i + |p|];
      assert forall k | 0 <= k < |p| :: s[i + k] == t[k];
    }
  }

  lemma FindIs(s: string, p: string, from: nat, i: nat)
    requires from <= i && At(s, i, p) && forall k: nat | from <= k < i :: !At(s, k, p)
    ensures Find(s, p, from) == i
  {
  }

  /** No marker straddles the offset at which another one starts. */
  lemma NoneBefore(s: string, b: nat, m: string)
    requires b < |s| && s[b] == '#' && Marker(m) && Lacks(s[..b], m)
    ensures forall k: nat | k < b :: !At(s, k, m)
  {
    forall k: nat | k < b
      ensures !At(s, k, m)
    {
      AtIff(s, k, m);
      AtIff(s[..b], k, m);
      assert k + |m| > b ==> m[b - k] != '#';
    }
  }

  /** The first `begin` of a text in which no `begin` stands before offset `b`. */
  lemma BeginFound(s: string, b: nat, begin: string)
    requires Marker(begin) && At(s, b, begin) && Lacks(s[..b], begin)
    ensures Find(s, begin) == b
  {
    AtIff(s, b, begin);
    assert s[b + 0] == begin[0];
    NoneBefore(s, b, begin);
    FindIs(s, begin, 0, b);
  }

  /** The first `end` of a text in which a block starts at `b`, ends at `e` and is clean between. */
  lemma EndFound(s: string, b: nat, begin: string, e: nat, end: string)
    requires MarkerPair(begin, end) && b + |begin| <= e
    requires At(s, b, begin) && At(s, e, end)
    requires Lacks(s[..b], end) && CleanIn(s, b + |begin|, e)
    ensures Find(s, end) == e
  {
    AtIff(s, b, begin);
    assert s[b + 0] == begin[0];
    NoneBefore(s, b, end);
    forall k: nat | b <= k < e
      ensures !At(s, k, end)
    {
      AtIff(s, k, end);
      if b < k < b + |begin| {
        assert s[b + (k - b)] == begin[k - b];
      } else if k == b {
        var i :| 0 <= i < |begin| && i < |end| && begin[i] != end[i];
        assert s[b + i] == begin[i];
      } else {
        assert !StartsMarker(s, k);
        assert s[k + 0] != end[0] || s[k + 1] != end[1];
      }
    }
    FindIs(s, end, 0, e);
  }

  /** Nothing is gained by appending a text that starts a new line and holds no `#`. */
  lemma LacksAppended(a: string, b: string, m: string)
    requires Lacks(a, m) && Marker(m)
    requires b != "" && b[0] == '\n' && '#' !in b
    ensures Lacks(a + b, m)
  {
    var s := a + b;
    forall i: nat
      ensures !At(s, i, m)
    {
      AtIff(s, i, m);
      AtIff(a, i, m);
      if i + |m| <= |a| {
        assert s[i..i + |m|] == a[i..i + |m|];
      } else if i < |a| {
        assert s[i + (|a| - i)] == '\n';
      } else if i < |s| {
        assert s[i + 0] == b[i - |a|];
      }
    }
  }

  lemma LacksPrefix(s: string, n: nat, m: string)
    requires n <= |s| && forall k: nat | k + |m| <= n :: !At(s, k, m)
    ensures Lacks(s[..n], m)
  {
    forall i: nat
      ensures !At(s[..n], i, m)
    {
      AtIff(s, i, m);
      AtIff(s[..n], i, m);
    }
  }

  lemma NewlineAfter(s: string, e: nat, end: string)
    requires At(s, e, end) && e + |end| < |s| && s[e + |end|] == '\n' && Marker(end)
    ensures Find(s, "\n", e) == e + |end|
  {
    AtIff(s, e, end);
    AtIff(s, e + |end|, "\n");
    forall k: nat | e <= k < e + |end|
      ensures !At(s, k, "\n")
    {
      AtIff(s, k, "\n");
      assert s[e + (k - e)] == end[k - e];
      assert s[k + 0] != "\n"[0];
    }
    FindIs(s, "\n", e, e + |end|);
  }
}

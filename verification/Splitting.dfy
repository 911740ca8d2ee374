/** `str.split` at one character, and how it undoes `str.join`. */
module Splitting {
  import opened Text

  /** `s.split(sep)` for a one-character separator. */
  function SplitOn(s: string, sep: char): (parts: seq<string>)
    ensures parts != [] && forall part <- parts :: sep !in part
  {
    if s == "" then [""]
    else
      var rest := SplitOn(s[1..], sep);
      if s[0] == sep then [""] + rest else [[s[0]] + rest[0]] + rest[1..]
  }

  lemma Regrouped(c: char, xs: seq<string>, ys: seq<string>)
    requires xs != []
    ensures [""] + (xs + ys) == [""] + xs + ys
    ensures [[c] + (xs + ys)[0]] + (xs + ys)[1..] == [[c] + xs[0]] + xs[1..] + ys
  {
  }

  lemma {:induction false} SplitConcat(a: string, sep: char, b: string)
    ensures SplitOn(a + [sep] + b, sep) == SplitOn(a, sep) + SplitOn(b, sep)
  {
    var s := a + [sep] + b;
    if a == "" {
      assert s[1..] == b;
    } else {
      assert s[1..] == a[1..] + [sep] + b;
      SplitConcat(a[1..], sep, b);
      Regrouped(a[0], SplitOn(a[1..], sep), SplitOn(b, sep));
      assert s[0] == a[0];
    }
  }

  lemma {:induction false} SplitWhole(a: string, sep: char)
    requires sep !in a
    ensures SplitOn(a, sep) == [a]
  {
    if a == "" {
    } else {
      SplitWhole(a[1..], sep);
      assert [a[0]] + a[1..] == a;
    }
  }

  lemma SplitAtSep(a: string, sep: char, b: string)
    requires sep !in a
    ensures SplitOn(a + [sep] + b, sep) == [a] + SplitOn(b, sep)
  {
    SplitConcat(a, sep, b);
    SplitWhole(a, sep);
  }

  lemma {:induction false} JoinSplit(s: string, sep: char)
    ensures Join([sep], SplitOn(s, sep)) == s
  {
    if s == "" {
    } else {
      JoinSplit(s[1..], sep);
      var rest := SplitOn(s[1..], sep);
      var parts := SplitOn(s, sep);
      if s[0] == sep {
        assert parts[1..] == rest;
      } else {
        assert parts[1..] == rest[1..];
      }
    }
  }

  lemma JoinCons(sep: string, parts: seq<string>)
    requires parts != []
    ensures Join(sep, parts) == if |parts| == 1 then parts[0] else parts[0] + sep + Join(sep, parts[1..])
  {
  }

  lemma {:induction false} SplitJoin(parts: seq<string>, sep: char)
    requires parts != [] && forall part <- parts :: sep !in part
    ensures SplitOn(Join([sep], parts), sep) == parts
  {
    hide SplitOn, Join;
    JoinCons([sep], parts);
    if |parts| == 1 {
      SplitWhole(parts[0], sep);
    } else {
      SplitJoin(parts[1..], sep);
      SplitAtSep(parts[0], sep, Join([sep], parts[1..]));
    }
  }

  lemma {:induction false} PieceChars(s: string, sep: char, piece: string)
    requires piece in SplitOn(s, sep)
    ensures forall c <- piece :: c in s
  {
    if s == "" {
    } else {
      var rest := SplitOn(s[1..], sep);
      assert forall c <- s[1..] :: c in s;
      if piece in rest {
        PieceChars(s[1..], sep, piece);
      } else if s[0] != sep {
        assert piece == [s[0]] + rest[0];
        PieceChars(s[1..], sep, rest[0]);
      }
    }
  }

  lemma SplitChars(s: string, sep: char, c: char)
    requires c !in s
    ensures forall part <- SplitOn(s, sep) :: c !in part
  {
    forall part | part in SplitOn(s, sep)
      ensures c !in part
    {
      PieceChars(s, sep, part);
    }
  }

  // ---------- places ----------

  /** `s[a..b]` is one piece of `s`: between two separators, or an end of the text, and without one inside. */
  predicate PieceAt(s: string, sep: char, a: nat, b: nat) {
    && a <= b <= |s| && sep !in s[a..b]
    && (a == 0 || s[a - 1] == sep) && (b == |s| || s[b] == sep)
  }

  lemma PieceLater(s: string, sep: char, k: nat, c: nat, d: nat)
    requires k < |s| && s[k] == sep && PieceAt(s[k + 1..], sep, c, d)
    ensures PieceAt(s, sep, c + k + 1, d + k + 1) && s[c + k + 1..d + k + 1] == s[k + 1..][c..d]
  {
    var rest := s[k + 1..];
    assert s[c + k + 1..d + k + 1] == rest[c..d];
    assert c > 0 ==> s[c + k] == rest[c - 1];
    assert d < |rest| ==> s[d + k + 1] == rest[d];
  }

  lemma {:induction false} PlaceOf(s: string, sep: char, piece: string) returns (a: nat, b: nat)
    requires piece in SplitOn(s, sep)
    ensures PieceAt(s, sep, a, b) && s[a..b] == piece
    decreases |s|
  {
    hide SplitOn;
    FindChar(s, sep);
    var k := Find(s, [sep]);
    if k == -1 {
      SplitWhole(s, sep);
      a, b := 0, |s|;
    } else {
      var front, rest := s[..k], s[k + 1..];
      assert s == front + [sep] + rest;
      SplitAtSep(front, sep, rest);
      if piece == front {
        a, b := 0, k;
      } else {
        hide PieceAt;
        var c, d := PlaceOf(rest, sep, piece);
        PieceLater(s, sep, k, c, d);
        a, b := c + k + 1, d + k + 1;
      }
    }
  }

  lemma PieceIsIn(s: string, sep: char, a: nat, b: nat)
    requires PieceAt(s, sep, a, b)
    ensures s[a..b] in SplitOn(s, sep)
  {
    hide SplitOn;
    var piece := s[a..b];
    var tail := s[a..];
    if b == |s| {
      assert tail == piece;
      SplitWhole(piece, sep);
    } else {
      assert tail == piece + [sep] + s[b + 1..];
      SplitAtSep(piece, sep, s[b + 1..]);
    }
    if a == 0 {
      assert tail == s;
    } else {
      assert s == s[..a - 1] + [sep] + tail;
      SplitConcat(s[..a - 1], sep, tail);
    }
  }

  lemma LastSep(s: string, sep: char, i: nat) returns (a: nat)
    requires i <= |s|
    ensures a <= i && (a == 0 || s[a - 1] == sep) && forall j | a <= j < i :: s[j] != sep
  {
    a := i;
    while a > 0 && s[a - 1] != sep
      invariant a <= i && forall j | a <= j < i :: s[j] != sep
    {
      a := a - 1;
    }
  }

  /** The piece around a place. */
  lemma PieceAround(s: string, sep: char, i: nat) returns (a: nat, b: nat)
    requires i <= |s|
    ensures PieceAt(s, sep, a, b) && a <= i <= b
  {
    a := LastSep(s, sep, i);
    var rest := s[i..];
    FindChar(rest, sep);
    var k := Find(rest, [sep]);
    b := if k == -1 then |s| else i + k;
    assert forall j | i <= j < b :: s[j] == rest[j - i];
    assert k != -1 ==> forall j | 0 <= j < k :: rest[..k][j] == rest[j];
    assert forall j | a <= j < b :: s[j] != sep;
  }
}

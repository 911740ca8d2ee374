/** Laws of the parts of a `COMPOSE_FILE` value: appending one, removing it, printing and parsing again. */
module ComposeEnvLaws {
  import opened ComposeEnv
  import opened Splitting
  import opened Text

  // ---------- parts of a value ----------

  lemma {:induction false} StrippedConcat(xs: seq<string>, ys: seq<string>)
    ensures Stripped(xs + ys) == Stripped(xs) + Stripped(ys)
  {
    if xs == [] {
      assert xs + ys == ys;
    } else {
      assert (xs + ys)[1..] == xs[1..] + ys;
      StrippedConcat(xs[1..], ys);
    }
  }

  /** File names that stand for themselves between colons. */
  predicate PlainName(name: string) {
    name != "" && ':' !in name && Trimmed(name)
  }

  lemma {:induction false} StrippedArePlain(pieces: seq<string>)
    requires forall piece <- pieces :: ':' !in piece
    ensures forall part <- Stripped(pieces) :: PlainName(part)
  {
    if pieces == [] {
    } else {
      StrippedArePlain(pieces[1..]);
      var i, j := StripSlice(pieces[0]);
      assert ':' !in pieces[0] && ':' !in Strip(pieces[0]);
      assert Strip(pieces[0]) != "" ==> PlainName(Strip(pieces[0]));
    }
  }

  lemma {:induction false} StrippedOfPlain(parts: seq<string>)
    requires forall part <- parts :: PlainName(part)
    ensures Stripped(parts) == parts
  {
    hide PlainName, Strip;
    if parts == [] {
    } else {
      PlainIsTrimmed(parts[0]);
      StripTrimmed(parts[0]);
      StrippedOfPlain(parts[1..]);
    }
  }

  lemma PlainIsTrimmed(name: string)
    requires PlainName(name)
    ensures name != "" && ':' !in name && Trimmed(name)
  {
  }

  lemma PartsAppend(value: string, name: string)
    requires PlainName(name)
    ensures Parts(value + ":" + name) == Parts(value) + [name]
  {
    hide Strip, Stripped, PlainName, SplitOn;
    PlainIsTrimmed(name);
    SplitConcat(value, ':', name);
    StrippedConcat(SplitOn(value, ':'), SplitOn(name, ':'));
    SplitWhole(name, ':');
    StrippedOfPlain([name]);
  }

  /** Printing parts with colons and parsing them again gives the same parts. */
  lemma PartsOfJoin(parts: seq<string>)
    requires parts != [] && forall part <- parts :: PlainName(part)
    ensures Parts(Join(":", parts)) == parts
  {
    SplitJoin(parts, ':');
    StrippedOfPlain(parts);
  }

  lemma {:induction false} WithoutAppended(parts: seq<string>, drop: string)
    requires drop !in parts
    ensures Without(parts + [drop], drop) == parts
  {
    if parts == [] {
    } else {
      assert (parts + [drop])[1..] == parts[1..] + [drop];
      WithoutAppended(parts[1..], drop);
    }
  }

  lemma {:induction false} JoinTrimmed(parts: seq<string>)
    requires parts != [] && forall part <- parts :: PlainName(part)
    ensures var value := Join(":", parts); value != "" && Trimmed(value)
  {
    hide IsSpace;
    assert PlainName(parts[0]);
    if |parts| > 1 {
      var rest := Join(":", parts[1..]);
      JoinTrimmed(parts[1..]);
      var value := parts[0] + ":" + rest;
      assert value[0] == parts[0][0] && value[|value| - 1] == rest[|rest| - 1];
    }
  }

  lemma {:induction false} JoinChars(sep: string, parts: seq<string>, c: char)
    requires c !in sep && forall part <- parts :: c !in part
    ensures c !in Join(sep, parts)
  {
    if |parts| > 1 {
      JoinChars(sep, parts[1..], c);
    }
  }
}

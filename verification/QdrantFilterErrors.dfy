/** Which dictionaries do not translate, and with which error. */
module QdrantFilterErrors {
  import opened QdrantFilter

  /** The entries of which the translation reads `key` and `match`, in the order in which it does. */
  function Read(p: Portable): seq<Portable>
    decreases p, 0
  {
    if p.hasShould then ReadBranches(p.should)
    else if p.hasMust then ReadEntries(p.must)
    else []
  }

  function ReadBranches(branches: seq<Portable>): seq<Portable> {
    if branches == [] then []
    else (if branches[0].hasMust then branches[0].must else [branches[0]]) + ReadBranches(branches[1..])
  }

  function ReadEntries(entries: seq<Portable>): seq<Portable>
    decreases entries
  {
    if entries == [] then []
    else (if entries[0].hasClause then [entries[0]] else Read(entries[0])) + ReadEntries(entries[1..])
  }

  predicate Readable(entry: Portable) {
    entry.hasClause && !entry.clause.match'.Unsupported?
  }

  /** The error of the first entry that cannot be read: a missing key, or a match of another shape. */
  ghost predicate FailsWith(entries: seq<Portable>, error: Error) {
    exists i | 0 <= i < |entries| && !Readable(entries[i]) && (forall j | 0 <= j < i :: Readable(entries[j])) ::
      error == if entries[i].hasClause then ValueError else KeyError
  }

  /** `r` is a translation of entries that reads exactly these. */
  ghost predicate Follows<T>(r: Result<T>, entries: seq<Portable>) {
    && (r.Ok? <==> forall e <- entries :: Readable(e))
    && (r.Err? ==> FailsWith(entries, r.error))
  }

  lemma FailsInFront(xs: seq<Portable>, ys: seq<Portable>, error: Error)
    requires FailsWith(xs, error)
    ensures FailsWith(xs + ys, error)
  {
    hide Readable;
    var i :| 0 <= i < |xs| && !Readable(xs[i]) && (forall j | 0 <= j < i :: Readable(xs[j]))
             && error == if xs[i].hasClause then ValueError else KeyError;
    assert (xs + ys)[i] == xs[i] && forall j | 0 <= j < i :: (xs + ys)[j] == xs[j];
  }

  lemma FailsBehind(xs: seq<Portable>, ys: seq<Portable>, error: Error)
    requires (forall e <- xs :: Readable(e)) && FailsWith(ys, error)
    ensures FailsWith(xs + ys, error)
  {
    hide Readable;
    var i :| 0 <= i < |ys| && !Readable(ys[i]) && (forall j | 0 <= j < i :: Readable(ys[j]))
             && error == if ys[i].hasClause then ValueError else KeyError;
    var all := xs + ys;
    assert all[|xs| + i] == ys[i];
    forall j | 0 <= j < |xs| + i
      ensures Readable(all[j])
    {
      assert j >= |xs| ==> all[j] == ys[j - |xs|];
    }
  }

  /** One translation, then the rest. */
  lemma FollowsBoth<T, U, W>(first: Result<T>, xs: seq<Portable>, rest: Result<U>, ys: seq<Portable>, all: Result<W>)
    requires Follows(first, xs) && Follows(rest, ys)
    requires all.Ok? <==> first.Ok? && rest.Ok?
    requires all.Err? ==> all.error == if first.Err? then first.error else rest.error
    ensures Follows(all, xs + ys)
  {
    hide Readable, FailsWith;
    if first.Err? {
      FailsInFront(xs, ys, first.error);
      assert forall e <- xs :: e in xs + ys;
    } else if rest.Err? {
      FailsBehind(xs, ys, rest.error);
      assert forall e <- ys :: e in xs + ys;
    }
  }

  lemma FieldFollows(entry: Portable)
    ensures Follows(FieldCondition(entry), [entry])
  {
    assert [entry][0] == entry;
    assert Readable(entry) || FailsWith([entry], FieldCondition(entry).error);
  }

  lemma {:induction false} FieldsFollow(entries: seq<Portable>)
    ensures Follows(FieldConditions(entries), entries)
  {
    hide Readable, FailsWith;
    if entries == [] {
    } else {
      FieldFollows(entries[0]);
      FieldsFollow(entries[1..]);
      hide Follows, FieldCondition;
      FollowsBoth(FieldCondition(entries[0]), [entries[0]], FieldConditions(entries[1..]), entries[1..],
                  FieldConditions(entries));
      assert entries == [entries[0]] + entries[1..];
    }
  }

  lemma {:induction false} BranchesFollow(branches: seq<Portable>)
    ensures Follows(ShouldBranches(branches), ReadBranches(branches))
  {
    hide Readable, FailsWith;
    if branches == [] {
    } else {
      var b := branches[0];
      var read := if b.hasMust then b.must else [b];
      FieldsFollow(read);
      BranchesFollow(branches[1..]);
      assert Follows(ShouldBranch(b), read);
      hide Follows, ShouldBranch;
      FollowsBoth(ShouldBranch(b), read, ShouldBranches(branches[1..]), ReadBranches(branches[1..]),
                  ShouldBranches(branches));
    }
  }

  lemma {:induction false} EntriesFollow(entries: seq<Portable>)
    ensures Follows(MustEntries(entries), ReadEntries(entries))
    decreases entries
  {
    hide Readable, FailsWith;
    if entries == [] {
    } else {
      var e := entries[0];
      if e.hasClause {
        FieldFollows(e);
      } else {
        BuildFollows(e);
      }
      EntriesFollow(entries[1..]);
      var read := if e.hasClause then [e] else Read(e);
      assert Follows(MustEntry(e), read);
      hide Follows, MustEntry, Read;
      FollowsBoth(MustEntry(e), read, MustEntries(entries[1..]), ReadEntries(entries[1..]), MustEntries(entries));
    }
  }

  /**
   A dictionary translates exactly when every entry it reads has a key and a match by value or by any; otherwise
   the error is that of the first entry that has not.
   */
  lemma {:induction false} BuildFollows(p: Portable)
    ensures Follows(Build(p), Read(p))
    decreases p, 0
  {
    hide Readable, FailsWith;
    if p.hasShould {
      BranchesFollow(p.should);
    } else if p.hasMust {
      EntriesFollow(p.must);
    }
  }
}

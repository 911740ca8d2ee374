/** The translation to Qdrant never narrows a filter, and preserves the meaning of well-formed ones. */
module QdrantFilterLaws {
  import opened QdrantFilter

  /** `conditions` translate `entries` one by one: each holds whenever its entry holds. */
  predicate Weaker(entries: seq<Portable>, conditions: seq<Condition>, payload: Payload) {
    && |conditions| == |entries|
    && forall i | 0 <= i < |entries| :: Holds(entries[i], payload) ==> ConditionHolds(conditions[i], payload)
  }

  predicate Same(entries: seq<Portable>, conditions: seq<Condition>, payload: Payload) {
    && |conditions| == |entries|
    && forall i | 0 <= i < |entries| :: Holds(entries[i], payload) <==> ConditionHolds(conditions[i], payload)
  }

  // ---------- never narrower ----------

  lemma {:induction false} FieldConditionsWeaker(entries: seq<Portable>, payload: Payload)
    requires FieldConditions(entries).Ok?
    ensures Weaker(entries, FieldConditions(entries).value, payload)
  {
    if entries == [] {
    } else {
      FieldConditionsWeaker(entries[1..], payload);
    }
  }

  lemma NestedMust(conditions: seq<Condition>, payload: Payload)
    ensures ConditionHolds(Nested(Filter(conditions, [])), payload)
       <==> forall c <- conditions :: ConditionHolds(c, payload)
  {
  }

  lemma ShouldBranchWeaker(branch: Portable, payload: Payload)
    requires ShouldBranch(branch).Ok?
    ensures Holds(branch, payload) ==> ConditionHolds(ShouldBranch(branch).value, payload)
  {
    var entries := if branch.hasMust then branch.must else [branch];
    var conditions := FieldConditions(entries).value;
    FieldConditionsWeaker(entries, payload);
    NestedMust(conditions, payload);
    hide ConditionHolds;
    if Holds(branch, payload) {
      assert branch.hasMust ==> forall i | 0 <= i < |entries| :: entries[i] in branch.must;
      assert forall i | 0 <= i < |entries| :: Holds(entries[i], payload);
    }
  }

  lemma {:induction false} ShouldBranchesWeaker(branches: seq<Portable>, payload: Payload)
    requires ShouldBranches(branches).Ok?
    ensures Weaker(branches, ShouldBranches(branches).value, payload)
  {
    hide ShouldBranch, Holds, ConditionHolds;
    if branches == [] {
    } else {
      ShouldBranchWeaker(branches[0], payload);
      ShouldBranchesWeaker(branches[1..], payload);
    }
  }

  lemma {:induction false} MustEntryWeaker(entry: Portable, payload: Payload)
    requires MustEntry(entry).Ok?
    ensures Holds(entry, payload) ==> ConditionHolds(MustEntry(entry).value, payload)
    decreases entry, 1
  {
    if !entry.hasClause {
      BuildNeverNarrows(entry, payload);
    }
  }

  lemma {:induction false} MustEntriesWeaker(entries: seq<Portable>, payload: Payload)
    requires MustEntries(entries).Ok?
    ensures Weaker(entries, MustEntries(entries).value, payload)
    decreases entries
  {
    hide MustEntry, Holds, ConditionHolds;
    if entries == [] {
    } else {
      MustEntryWeaker(entries[0], payload);
      MustEntriesWeaker(entries[1..], payload);
    }
  }

  /** Whatever the dictionary: if it translates at all, the filter accepts all that the dictionary allows. */
  lemma {:induction false} BuildNeverNarrows(p: Portable, payload: Payload)
    requires Build(p).Ok?
    ensures Holds(p, payload) ==> Accepts(Build(p).value, payload)
    decreases p, 0
  {
    hide ConditionHolds;
    if p.hasShould {
      ShouldBranchesWeaker(p.should, payload);
      var conditions := ShouldBranches(p.should).value;
      if Holds(p, payload) {
        var b :| b in p.should && Holds(b, payload);
        var i :| 0 <= i < |p.should| && p.should[i] == b;
        assert conditions[i] in conditions;
      }
    } else if p.hasMust {
      MustEntriesWeaker(p.must, payload);
      assert forall i | 0 <= i < |p.must| :: p.must[i] in p.must;
    }
  }

  // ---------- exact on the grammar ----------

  lemma {:induction false} FlatConditions(entries: seq<Portable>, payload: Payload)
    requires forall e <- entries :: IsFlat(e)
    ensures FieldConditions(entries).Ok? && Same(entries, FieldConditions(entries).value, payload)
  {
    if entries == [] {
    } else {
      assert IsFlat(entries[0]);
      FlatConditions(entries[1..], payload);
    }
  }

  lemma ShouldBranchSame(branch: Portable, payload: Payload)
    requires IsFlat(branch) || IsFlatMust(branch)
    ensures ShouldBranch(branch).Ok?
    ensures Holds(branch, payload) <==> ConditionHolds(ShouldBranch(branch).value, payload)
  {
    var entries := if branch.hasMust then branch.must else [branch];
    FlatConditions(entries, payload);
    var conditions := FieldConditions(entries).value;
    NestedMust(conditions, payload);
    hide ConditionHolds, FieldConditions;
    AllSame(entries, conditions, payload);
    if branch.hasMust {
      assert Holds(branch, payload) <==> forall e <- branch.must :: Holds(e, payload);
    }
  }

  lemma AllSame(entries: seq<Portable>, conditions: seq<Condition>, payload: Payload)
    requires Same(entries, conditions, payload)
    ensures (forall e <- entries :: Holds(e, payload)) <==> (forall c <- conditions :: ConditionHolds(c, payload))
    ensures (exists e <- entries :: Holds(e, payload)) <==> (exists c <- conditions :: ConditionHolds(c, payload))
  {
    hide Holds, ConditionHolds;
    forall i | 0 <= i < |entries|
      ensures entries[i] in entries && conditions[i] in conditions
    {
    }
    if e :| e in entries && Holds(e, payload) {
      var i :| 0 <= i < |entries| && entries[i] == e;
      assert ConditionHolds(conditions[i], payload);
    }
    if c :| c in conditions && ConditionHolds(c, payload) {
      var i :| 0 <= i < |conditions| && conditions[i] == c;
      assert Holds(entries[i], payload);
    }
  }

  lemma {:induction false} ShouldBranchesSame(branches: seq<Portable>, payload: Payload)
    requires forall b <- branches :: IsFlat(b) || IsFlatMust(b)
    ensures ShouldBranches(branches).Ok? && Same(branches, ShouldBranches(branches).value, payload)
  {
    hide ShouldBranch, Holds, ConditionHolds, IsFlat, IsFlatMust;
    if branches == [] {
    } else {
      ShouldBranchSame(branches[0], payload);
      ShouldBranchesSame(branches[1..], payload);
    }
  }

  lemma {:induction false} MustEntrySame(entry: Portable, payload: Payload)
    requires IsFlat(entry) || WellFormed(entry)
    ensures MustEntry(entry).Ok?
    ensures Holds(entry, payload) <==> ConditionHolds(MustEntry(entry).value, payload)
    decreases entry, 1
  {
    if !entry.hasClause {
      BuildPreservesMeaning(entry, payload);
    }
  }

  lemma {:induction false} MustEntriesSame(entries: seq<Portable>, payload: Payload)
    requires forall e <- entries :: IsFlat(e) || WellFormed(e)
    ensures MustEntries(entries).Ok? && Same(entries, MustEntries(entries).value, payload)
    decreases entries
  {
    hide MustEntry, Holds, ConditionHolds, IsFlat, WellFormed;
    if entries == [] {
    } else {
      MustEntrySame(entries[0], payload);
      MustEntriesSame(entries[1..], payload);
    }
  }

  /** Every well-formed portable filter translates, to a Qdrant filter that accepts the same payloads. */
  lemma {:induction false} BuildPreservesMeaning(p: Portable, payload: Payload)
    requires WellFormed(p)
    ensures Build(p).Ok?
    ensures Accepts(Build(p).value, payload) <==> Holds(p, payload)
    decreases p, 0
  {
    hide ConditionHolds;
    if p.hasShould {
      ShouldBranchesSame(p.should, payload);
      AllSame(p.should, ShouldBranches(p.should).value, payload);
    } else {
      MustEntriesSame(p.must, payload);
      AllSame(p.must, MustEntries(p.must).value, payload);
    }
  }

  /**
   Outside the grammar, a `must` beside a `should` is dropped: the filter means the `should` alone, which is
   the whole dictionary exactly for payloads that meet the `must` whenever they meet the `should`.
   */
  lemma MustBesideShouldIsDropped(p: Portable, payload: Payload)
    requires p.hasShould && p.hasMust && !p.hasClause && WellFormed(Should(p.should))
    ensures Build(p).Ok?
    ensures Accepts(Build(p).value, payload) <==> Holds(Should(p.should), payload)
    ensures (Accepts(Build(p).value, payload) <==> Holds(p, payload))
       <==> (Holds(Should(p.should), payload) ==> Holds(Must(p.must), payload))
  {
    BuildPreservesMeaning(Should(p.should), payload);
    assert Build(p) == Build(Should(p.should));
    hide Build, Accepts, WellFormed;
    assert Holds(p, payload) <==> Holds(Should(p.should), payload) && Holds(Must(p.must), payload);
  }

  /** A dictionary that no payload meets and whose filter accepts one. */
  lemma DroppedMustCanMatter(key: string, yes: string, no: string)
    requires yes != no
    ensures var p := Should([Flat(key, Value(yes))]).(hasMust := true, must := [Flat(key, Value(no))]);
            && Build(p).Ok?
            && Accepts(Build(p).value, map[key := yes])
            && forall payload: Payload :: !Holds(p, payload)
  {
    var flat, other := Flat(key, Value(yes)), Flat(key, Value(no));
    var p := Should([flat]).(hasMust := true, must := [other]);
    var payload: Payload := map[key := yes];
    assert p.should == [flat] && p.must == [other];
    ShouldBranchesSame(p.should, payload);
    AllSame(p.should, ShouldBranches(p.should).value, payload);
    assert flat in p.should && Holds(flat, payload);
    forall payload: Payload
      ensures !Holds(p, payload)
    {
      assert other in p.must;
      assert Holds(p, payload) ==> Holds(other, payload);
      assert forall b <- p.should :: b == flat;
    }
  }
}

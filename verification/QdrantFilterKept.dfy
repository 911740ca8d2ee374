/** What the translation keeps of an arbitrary dictionary, and what it drops without an error. */
module QdrantFilterKept {
  import opened QdrantFilter
  import opened QdrantFilterLaws

  // ---------- the part that reaches Qdrant ----------

  function KeptClause(entry: Portable): Portable {
    Flat(entry.clause.key, entry.clause.match')
  }

  function KeptClauses(entries: seq<Portable>): (r: seq<Portable>)
    ensures |r| == |entries|
  {
    if entries == [] then [] else [KeptClause(entries[0])] + KeptClauses(entries[1..])
  }

  function KeptBranch(branch: Portable): Portable {
    if branch.hasMust then Must(KeptClauses(branch.must)) else KeptClause(branch)
  }

  function KeptBranches(branches: seq<Portable>): (r: seq<Portable>)
    ensures |r| == |branches|
  {
    if branches == [] then [] else [KeptBranch(branches[0])] + KeptBranches(branches[1..])
  }

  function KeptEntry(entry: Portable): Portable
    decreases entry, 1
  {
    if entry.hasClause then KeptClause(entry) else Kept(entry)
  }

  function KeptEntries(entries: seq<Portable>): (r: seq<Portable>)
    ensures |r| == |entries|
    decreases entries
  {
    if entries == [] then [] else [KeptEntry(entries[0])] + KeptEntries(entries[1..])
  }

  /** The dictionary as the translation reads it; an empty `should` restricts nothing. */
  function Kept(p: Portable): Portable
    decreases p, 0
  {
    if p.hasShould then
      if p.should == [] then Must([]) else Should(KeptBranches(p.should))
    else Must(if p.hasMust then KeptEntries(p.must) else [])
  }

  // ---------- it is well formed and translates the same ----------

  lemma {:induction false} ClausesKept(entries: seq<Portable>)
    requires FieldConditions(entries).Ok?
    ensures forall e <- KeptClauses(entries) :: IsFlat(e)
    ensures FieldConditions(KeptClauses(entries)) == FieldConditions(entries)
  {
    if entries == [] {
    } else {
      ClausesKept(entries[1..]);
      var kept := KeptClauses(entries);
      assert kept[0] == KeptClause(entries[0]) && kept[1..] == KeptClauses(entries[1..]);
    }
  }

  lemma BranchKept(branch: Portable)
    requires ShouldBranch(branch).Ok?
    ensures IsFlat(KeptBranch(branch)) || IsFlatMust(KeptBranch(branch))
    ensures ShouldBranch(KeptBranch(branch)) == ShouldBranch(branch)
  {
    if branch.hasMust {
      ClausesKept(branch.must);
    } else {
      ClausesKept([branch]);
      assert [branch][1..] == [];
      assert KeptClauses([branch]) == [KeptClause(branch)];
      assert KeptClause(branch) in KeptClauses([branch]);
    }
  }

  lemma {:induction false} BranchesKept(branches: seq<Portable>)
    requires ShouldBranches(branches).Ok?
    ensures forall b <- KeptBranches(branches) :: IsFlat(b) || IsFlatMust(b)
    ensures ShouldBranches(KeptBranches(branches)) == ShouldBranches(branches)
  {
    hide ShouldBranch, KeptBranch, IsFlat, IsFlatMust;
    if branches == [] {
    } else {
      BranchKept(branches[0]);
      BranchesKept(branches[1..]);
      var kept := KeptBranches(branches);
      assert kept[0] == KeptBranch(branches[0]) && kept[1..] == KeptBranches(branches[1..]);
    }
  }

  lemma {:induction false} EntryKept(entry: Portable)
    requires MustEntry(entry).Ok?
    ensures IsFlat(KeptEntry(entry)) || WellFormed(KeptEntry(entry))
    ensures MustEntry(KeptEntry(entry)) == MustEntry(entry)
    decreases entry, 1
  {
    if entry.hasClause {
    } else {
      KeptTranslates(entry);
    }
  }

  lemma {:induction false} EntriesKept(entries: seq<Portable>)
    requires MustEntries(entries).Ok?
    ensures forall e <- KeptEntries(entries) :: IsFlat(e) || WellFormed(e)
    ensures MustEntries(KeptEntries(entries)) == MustEntries(entries)
    decreases entries
  {
    hide MustEntry, KeptEntry, IsFlat, WellFormed;
    if entries == [] {
    } else {
      EntryKept(entries[0]);
      EntriesKept(entries[1..]);
      var kept := KeptEntries(entries);
      assert kept[0] == KeptEntry(entries[0]) && kept[1..] == KeptEntries(entries[1..]);
    }
  }

  /** Every dictionary that translates has a well-formed one with the same filter. */
  lemma {:induction false} KeptTranslates(p: Portable)
    requires Build(p).Ok?
    ensures WellFormed(Kept(p)) && Build(Kept(p)) == Build(p)
    decreases p, 0
  {
    hide IsFlat, IsFlatMust;
    if p.hasShould {
      BranchesKept(p.should);
    } else if p.hasMust {
      EntriesKept(p.must);
    }
  }

  /** For every dictionary that translates: its filter means the part that was kept, and never less than the whole. */
  lemma BuildMeansKept(p: Portable, payload: Payload)
    requires Build(p).Ok?
    ensures Accepts(Build(p).value, payload) <==> Holds(Kept(p), payload)
    ensures Holds(p, payload) ==> Holds(Kept(p), payload)
  {
    hide Build, Accepts, Holds, Kept, WellFormed;
    KeptTranslates(p);
    BuildPreservesMeaning(Kept(p), payload);
    BuildNeverNarrows(p, payload);
  }

  // ---------- `must` beside `should`, at any depth ----------

  /** The grammar in use, but with a `must` allowed beside a `should` at the top and in nested entries. */
  predicate Mixed(p: Portable)
    decreases p
  {
    && !p.hasClause && (p.hasShould || p.hasMust)
    && if p.hasShould then WellFormed(Should(p.should))
       else forall e <- p.must :: IsFlat(e) || Mixed(e)
  }

  /** The payload meets every `must` that stands beside a `should`. */
  predicate DroppedHolds(p: Portable, payload: Payload)
    decreases p
  {
    if p.hasShould then p.hasMust ==> Holds(Must(p.must), payload)
    else p.hasMust ==> forall e <- p.must :: e.hasClause || DroppedHolds(e, payload)
  }

  lemma {:induction false} MixedEntry(e: Portable, payload: Payload)
    requires IsFlat(e) || Mixed(e)
    ensures MustEntry(e).Ok?
    ensures var kept := ConditionHolds(MustEntry(e).value, payload);
            Holds(e, payload) <==> kept && (e.hasClause || DroppedHolds(e, payload))
    decreases e, 1
  {
    if e.hasClause {
    } else {
      MixedMeaning(e, payload);
    }
  }

  lemma {:induction false} MixedEntries(entries: seq<Portable>, payload: Payload)
    requires forall e <- entries :: IsFlat(e) || Mixed(e)
    ensures MustEntries(entries).Ok?
    ensures (forall e <- entries :: Holds(e, payload)) <==>
            && (forall c <- MustEntries(entries).value :: ConditionHolds(c, payload))
            && (forall e <- entries :: e.hasClause || DroppedHolds(e, payload))
    decreases entries
  {
    hide MustEntry, Holds, ConditionHolds, IsFlat, Mixed, DroppedHolds;
    if entries == [] {
    } else {
      MixedEntry(entries[0], payload);
      MixedEntries(entries[1..], payload);
      assert entries == [entries[0]] + entries[1..];
    }
  }

  /**
   A dictionary with a `must` beside a `should` anywhere translates, and means what it says exactly for the
   payloads that meet every dropped `must` whenever the filter accepts them.
   */
  lemma {:induction false} MixedMeaning(p: Portable, payload: Payload)
    requires Mixed(p)
    ensures Build(p).Ok?
    ensures Holds(p, payload) <==> Accepts(Build(p).value, payload) && DroppedHolds(p, payload)
    ensures (Accepts(Build(p).value, payload) <==> Holds(p, payload))
       <==> (Accepts(Build(p).value, payload) ==> DroppedHolds(p, payload))
    decreases p, 0
  {
    if p.hasShould {
      BuildPreservesMeaning(Should(p.should), payload);
      assert Build(p) == Build(Should(p.should));
      hide Build, Accepts, WellFormed;
      assert Holds(p, payload) <==> Holds(Should(p.should), payload) && (p.hasMust ==> Holds(Must(p.must), payload));
    } else {
      hide ConditionHolds;
      MixedEntries(p.must, payload);
    }
  }
}

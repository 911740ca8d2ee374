/** Portable filter dictionaries and their translation to Qdrant filters. */
module QdrantFilter {

  datatype Match = Value(value: string) | Any(values: seq<string>) | Unsupported

  datatype Clause = Clause(key: string, match': Match)

  /** A dictionary with optional `should`, `must` and `key`/`match` entries. */
  datatype Portable = Portable(
    hasShould: bool, should: seq<Portable>,
    hasMust: bool, must: seq<Portable>,
    hasClause: bool, clause: Clause)

  const NO_CLAUSE := Clause("", Unsupported)

  function Flat(key: string, m: Match): Portable {
    Portable(false, [], false, [], true, Clause(key, m))
  }

  function Must(entries: seq<Portable>): Portable {
    Portable(false, [], true, entries, false, NO_CLAUSE)
  }

  function Should(branches: seq<Portable>): Portable {
    Portable(true, branches, false, [], false, NO_CLAUSE)
  }

  // ---------- Qdrant ----------

  datatype Condition =
    | Field(key: string, match': Match)
    | Nested(filter: Filter)

  datatype Filter = Filter(must: seq<Condition>, should: seq<Condition>)

  datatype Error = KeyError | ValueError

  datatype Result<+T> = Ok(value: T) | Err(error: Error)

  // ---------- the translation ----------

  function FieldCondition(entry: Portable): Result<Condition> {
    if !entry.hasClause then Err(KeyError)
    else if entry.clause.match'.Unsupported? then Err(ValueError)
    else Ok(Field(entry.clause.key, entry.clause.match'))
  }

  function FieldConditions(entries: seq<Portable>): (r: Result<seq<Condition>>)
    ensures r.Ok? ==> |r.value| == |entries|
  {
    if entries == [] then Ok([])
    else
      var first, rest := FieldCondition(entries[0]), FieldConditions(entries[1..]);
      if first.Err? then Err(first.error)
      else if rest.Err? then rest
      else Ok([first.value] + rest.value)
  }

  function ShouldBranch(branch: Portable): Result<Condition> {
    var inner := if branch.hasMust then FieldConditions(branch.must) else FieldConditions([branch]);
    if inner.Err? then Err(inner.error) else Ok(Nested(Filter(inner.value, [])))
  }

  function ShouldBranches(branches: seq<Portable>): (r: Result<seq<Condition>>)
    ensures r.Ok? ==> |r.value| == |branches|
  {
    if branches == [] then Ok([])
    else
      var first, rest := ShouldBranch(branches[0]), ShouldBranches(branches[1..]);
      if first.Err? then Err(first.error)
      else if rest.Err? then rest
      else Ok([first.value] + rest.value)
  }

  function MustEntry(entry: Portable): Result<Condition>
    decreases entry, 1
  {
    if entry.hasClause then FieldCondition(entry)
    else
      var inner := Build(entry);
      if inner.Err? then Err(inner.error) else Ok(Nested(inner.value))
  }

  function MustEntries(entries: seq<Portable>): (r: Result<seq<Condition>>)
    ensures r.Ok? ==> |r.value| == |entries|
    decreases entries
  {
    if entries == [] then Ok([])
    else
      var first, rest := MustEntry(entries[0]), MustEntries(entries[1..]);
      if first.Err? then Err(first.error)
      else if rest.Err? then rest
      else Ok([first.value] + rest.value)
  }

  /** `_build_filter`: a `should` entry wins over everything else in the dictionary. */
  function Build(p: Portable): Result<Filter>
    decreases p, 0
  {
    if p.hasShould then
      var branches := ShouldBranches(p.should);
      if branches.Err? then Err(branches.error) else Ok(Filter([], branches.value))
    else
      var conditions := if p.hasMust then MustEntries(p.must) else Ok([]);
      if conditions.Err? then Err(conditions.error) else Ok(Filter(conditions.value, []))
  }

  // ---------- meaning ----------

  type Payload = map<string, string>

  predicate Matches(key: string, m: Match, payload: Payload) {
    key in payload &&
    match m
    case Value(v) => payload[key] == v
    case Any(vs) => payload[key] in vs
    case Unsupported => false
  }

  /** What a portable dictionary says: the conjunction of all its entries. */
  predicate Holds(p: Portable, payload: Payload)
    decreases p
  {
    && (p.hasShould ==> exists b <- p.should :: Holds(b, payload))
    && (p.hasMust ==> forall e <- p.must :: Holds(e, payload))
    && (p.hasClause ==> Matches(p.clause.key, p.clause.match', payload))
  }

  predicate ConditionHolds(c: Condition, payload: Payload)
    decreases c, 0
  {
    match c
    case Field(key, m) => Matches(key, m, payload)
    case Nested(f) => Accepts(f, payload)
  }

  /** Qdrant's rule: all of `must`, and some of `should` unless there is none. */
  predicate Accepts(f: Filter, payload: Payload)
    decreases f, 0
  {
    && (forall c <- f.must :: ConditionHolds(c, payload))
    && (f.should == [] || exists c <- f.should :: ConditionHolds(c, payload))
  }

  // ---------- the grammar in use ----------

  predicate IsFlat(p: Portable) {
    p.hasClause && !p.clause.match'.Unsupported? && !p.hasShould && !p.hasMust
  }

  predicate IsFlatMust(p: Portable) {
    p.hasMust && !p.hasShould && !p.hasClause && forall e <- p.must :: IsFlat(e)
  }

  /** Top level: `should` or `must`, never both; `must` entries may nest, `should` branches may not. */
  predicate WellFormed(p: Portable)
    decreases p
  {
    && !p.hasClause
    && (p.hasShould != p.hasMust)
    && (p.hasShould ==> p.should != [] && forall b <- p.should :: IsFlat(b) || IsFlatMust(b))
    && (p.hasMust ==> forall e <- p.must :: IsFlat(e) || WellFormed(e))
  }
}

/**
 The read-side visibility rule of personal, shared and system memory, as Postgres clause, Qdrant
 filter and Cypher fragment.
 */
module Visibility {
  import opened Options
  import Q = QdrantFilter
  import opened SqlText

  datatype User = User(userId: string, role: string, isAuthenticated: bool, allowsShared: Option<bool>)

  datatype Scope = Personal | Shared | System

  /** `Invalid` is the `ValueError` for a scope outside the fixed set. */
  datatype Checked<+T> = Valid(value: T) | Invalid

  function ValidateScopeFilter(scope: Option<string>): Checked<Option<Scope>> {
    match scope
    case None => Valid(None)
    case Some(s) =>
      if s == "personal" then Valid(Some(Personal))
      else if s == "shared" then Valid(Some(Shared))
      else if s == "system" then Valid(Some(System))
      else Invalid
  }

  /** `stored` is what the users service holds for this user. */
  function EffectiveAllowsShared(user: User, stored: bool): bool {
    if user.role == "admin" && user.isAuthenticated then true
    else if user.allowsShared.Some? then user.allowsShared.value
    else stored
  }

  // ---------- Postgres and Cypher texts ----------

  function ScopeIs(alias: string, scope: string): Tokens {
    [Column(alias, "scope"), Equals, Literal(scope)]
  }

  function Bracket(ts: Tokens): Tokens {
    [Open] + ts + [Close]
  }

  function Mine(alias: string, me: Token): Tokens {
    Bracket(ScopeIs(alias, "personal") + [AndWord] + [Column(alias, "user_id"), Equals, me])
  }

  function SharedOrSystem(alias: string): Tokens {
    [Column(alias, "scope"), InWord, Open, Literal("shared"), Comma, Literal("system"), Close]
  }

  /** The text of `visible_filter` and `visible_cypher_fragment`, which differ in column and parameter syntax. */
  function ClauseText(alias: string, me: Token, scope: Option<Scope>, allowsShared: bool): Tokens {
    match scope
    case Some(Personal) => Mine(alias, me)
    case Some(Shared) => if allowsShared then Bracket(ScopeIs(alias, "shared")) else Bracket([FalseWord])
    case Some(System) => Bracket(ScopeIs(alias, "system"))
    case None =>
      if allowsShared then Bracket(Mine(alias, me) + [OrWord] + SharedOrSystem(alias))
      else Bracket(Mine(alias, me) + [OrWord] + ScopeIs(alias, "system"))
  }

  predicate NamesUser(scope: Option<Scope>) {
    scope.None? || scope.value.Personal?
  }

  function VisibleFilter(user: User, stored: bool, scope: Option<string>): Checked<(Tokens, seq<string>)> {
    match ValidateScopeFilter(scope)
    case Invalid => Invalid
    case Valid(sf) =>
      Valid((ClauseText("", Placeholder, sf, EffectiveAllowsShared(user, stored)),
             if NamesUser(sf) then [user.userId] else []))
  }

  function VisibleCypherFragment(user: User, stored: bool, alias: string, scope: Option<string>)
    : Checked<(Tokens, map<string, string>)>
  {
    match ValidateScopeFilter(scope)
    case Invalid => Invalid
    case Valid(sf) =>
      Valid((ClauseText(alias, Named("vis_me"), sf, EffectiveAllowsShared(user, stored)),
             if NamesUser(sf) then map["vis_me" := user.userId] else map[]))
  }

  // ---------- Qdrant dictionaries ----------

  const NO_SHARED := "__no_shared_access__"

  function MineDict(me: string): Q.Portable {
    Q.Must([Q.Flat("scope", Q.Value("personal")), Q.Flat("user_id", Q.Value(me))])
  }

  function VisibleQdrantFilter(user: User, stored: bool, scope: Option<string>): Checked<Q.Portable> {
    var allowsShared := EffectiveAllowsShared(user, stored);
    match ValidateScopeFilter(scope)
    case Invalid => Invalid
    case Valid(Some(Personal)) => Valid(MineDict(user.userId))
    case Valid(Some(Shared)) =>
      if allowsShared then Valid(Q.Must([Q.Flat("scope", Q.Value("shared"))]))
      else Valid(Q.Must([Q.Flat("user_id", Q.Value(NO_SHARED))]))
    case Valid(Some(System)) => Valid(Q.Must([Q.Flat("scope", Q.Value("system"))]))
    case Valid(None) =>
      if allowsShared then
        Valid(Q.Should([MineDict(user.userId), Q.Flat("scope", Q.Any(["shared", "system"]))]))
      else
        Valid(Q.Should([MineDict(user.userId), Q.Flat("scope", Q.Value("system"))]))
  }

  // ---------- authored-by-me, for the per-user export ----------

  function AuthoredByFilter(userId: string): (Tokens, seq<string>) {
    (Bracket([Column("", "scope"), InWord, Open, Literal("personal"), Comma, Literal("shared"), Close]
             + [AndWord] + [Column("", "user_id"), Equals, Placeholder]),
     [userId])
  }

  function AuthoredByQdrantFilter(userId: string): Q.Portable {
    Q.Must([Q.Flat("scope", Q.Any(["personal", "shared"])), Q.Flat("user_id", Q.Value(userId))])
  }

  function AuthoredByCypherFragment(userId: string, alias: string): (Tokens, map<string, string>) {
    (Bracket([Column(alias, "user_id"), Equals, Named("vis_me")]), map["vis_me" := userId])
  }

  // ---------- the rule ----------

  predicate Has(row: Row, column: string, value: string) {
    column in row && row[column] == value
  }

  predicate MineRow(me: string, row: Row) {
    Has(row, "scope", "personal") && Has(row, "user_id", me)
  }

  /** `(scope = 'personal' AND user_id = me) OR scope IN ('shared', 'system')`, narrowed and restricted. */
  predicate Visible(me: string, allowsShared: bool, scope: Option<Scope>, row: Row) {
    match scope
    case Some(Personal) => MineRow(me, row)
    case Some(Shared) => allowsShared && Has(row, "scope", "shared")
    case Some(System) => Has(row, "scope", "system")
    case None => MineRow(me, row) || (allowsShared && Has(row, "scope", "shared")) || Has(row, "scope", "system")
  }

  predicate Authored(me: string, row: Row) {
    (Has(row, "scope", "personal") || Has(row, "scope", "shared")) && Has(row, "user_id", me)
  }

  // ---------- one document by id ----------

  /** The condition and parameters of `resolve_document_file_path`. */
  function DocumentQuery(user: User, stored: bool, documentId: string): (Tokens, seq<string>) {
    var clause := VisibleFilter(user, stored, None).value;
    ([Column("", "id"), Equals, Placeholder] + [AndWord] + clause.0, [documentId] + clause.1)
  }
}

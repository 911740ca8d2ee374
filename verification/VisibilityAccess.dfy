/** Who sees what, in the words of the user, the requested scope and the row. */
module VisibilityAccess {
  import opened Options
  import opened SqlText
  import opened Visibility
  import opened VisibilityLaws

  /** Shared memory is open to an authenticated admin, else by the flag the request carries, else by the stored one. */
  predicate SeesShared(user: User, stored: bool) {
    || (user.role == "admin" && user.isAuthenticated)
    || user.allowsShared == Some(true)
    || (user.allowsShared == None && stored)
  }

  /** The scopes a request may name; no scope means all three. */
  predicate Asks(scope: Option<string>, name: string) {
    scope == None || scope == Some(name)
  }

  /** The rows a request gets: one's own personal ones, shared ones when open, and system ones. */
  predicate MaySee(user: User, stored: bool, scope: Option<string>, row: Row) {
    && "scope" in row
    && match row["scope"]
       case "personal" => Asks(scope, "personal") && "user_id" in row && row["user_id"] == user.userId
       case "shared" => Asks(scope, "shared") && SeesShared(user, stored)
       case "system" => Asks(scope, "system")
       case _ => false
  }

  predicate Known(scope: Option<string>) {
    scope in [None, Some("personal"), Some("shared"), Some("system")]
  }

  lemma ScopesAreChecked(scope: Option<string>)
    ensures ValidateScopeFilter(scope).Valid? <==> Known(scope)
  {
  }

  lemma RuleIsMaySee(user: User, stored: bool, scope: Option<string>, row: Row)
    requires Known(scope)
    ensures Visible(user.userId, EffectiveAllowsShared(user, stored), ValidateScopeFilter(scope).value, row)
       <==> MaySee(user, stored, scope, row)
  {
    assert EffectiveAllowsShared(user, stored) <==> SeesShared(user, stored);
    hide EffectiveAllowsShared, SeesShared;
  }

  /** The Postgres clause, with its parameters, finds the rows the user may see; an unknown scope is an error. */
  lemma SqlShows(user: User, stored: bool, scope: Option<string>, row: Row)
    ensures VisibleFilter(user, stored, scope).Valid? <==> Known(scope)
    ensures Known(scope) ==>
      var (text, params) := VisibleFilter(user, stored, scope).value;
      && Atomic(text, ExprOf(text)) && Placeholders(text) == Arity(ExprOf(text)) == |params|
      && (Eval(ExprOf(text), "", row, params, map[]) <==> MaySee(user, stored, scope, row))
  {
    ScopesAreChecked(scope);
    if Known(scope) {
      SqlIsRule(user, stored, scope, row);
      RuleIsMaySee(user, stored, scope, row);
    }
  }

  /** So does the Cypher fragment. */
  lemma CypherShows(user: User, stored: bool, alias: string, scope: Option<string>, row: Row)
    ensures VisibleCypherFragment(user, stored, alias, scope).Valid? <==> Known(scope)
    ensures Known(scope) ==>
      var (text, named) := VisibleCypherFragment(user, stored, alias, scope).value;
      && Atomic(text, ExprOf(text)) && Arity(ExprOf(text)) == 0
      && named == (if Asks(scope, "personal") then map["vis_me" := user.userId] else map[])
      && (Eval(ExprOf(text), alias, row, [], named) <==> MaySee(user, stored, scope, row))
  {
    ScopesAreChecked(scope);
    if Known(scope) {
      CypherIsRule(user, stored, alias, scope, row);
      RuleIsMaySee(user, stored, scope, row);
    }
  }

  /** It speaks of the node with its alias and of no other. */
  lemma CypherReadsItsNode(user: User, stored: bool, alias: string, other: string, scope: Option<string>, row: Row)
    requires Known(scope) && other != alias
    ensures var (text, named) := VisibleCypherFragment(user, stored, alias, scope).value;
            Atomic(text, ExprOf(text)) && Arity(ExprOf(text)) == 0 && !Eval(ExprOf(text), other, row, [], named)
  {
    var sf, allowsShared := ValidateScopeFilter(scope).value, EffectiveAllowsShared(user, stored);
    ScopesAreChecked(scope);
    CypherIsRule(user, stored, alias, scope, row);
    ClauseParses(alias, Named("vis_me"), sf, allowsShared);
    OtherAlias(alias, other, sf, allowsShared, row, VisibleCypherFragment(user, stored, alias, scope).value.1);
  }

  lemma OtherAlias(alias: string, other: string, scope: Option<Scope>, allowsShared: bool, row: Row,
                   named: map<string, string>)
    requires other != alias
    ensures var e := ClauseExpr(alias, Param("vis_me"), scope, allowsShared);
            Arity(e) == 0 && !Eval(e, other, row, [], named)
  {
    var mine := MineExpr(alias, Param("vis_me"));
    assert Arity(mine) == 0 && !Eval(mine, other, row, [], named);
  }

  /** And the Qdrant filter, but for rows of the sentinel user when shared memory is asked for and closed. */
  lemma QdrantShows(user: User, stored: bool, scope: Option<string>, row: Row)
    ensures VisibleQdrantFilter(user, stored, scope).Valid? <==> Known(scope)
    ensures Known(scope) ==>
      var filter := Q.Build(VisibleQdrantFilter(user, stored, scope).value);
      && filter.Ok?
      && (Q.Accepts(filter.value, row) <==>
            if scope == Some("shared") && !SeesShared(user, stored)
            then "user_id" in row && row["user_id"] == "__no_shared_access__"
            else MaySee(user, stored, scope, row))
  {
    ScopesAreChecked(scope);
    if Known(scope) {
      QdrantIsRule(user, stored, scope, row);
      RuleIsMaySee(user, stored, scope, row);
      assert EffectiveAllowsShared(user, stored) <==> SeesShared(user, stored);
    }
  }

  /** The document query finds the row with that id if the user may see it under no particular scope. */
  lemma DocumentQueryShows(user: User, stored: bool, documentId: string, row: Row)
    ensures var (text, params) := DocumentQuery(user, stored, documentId);
            && ParseOr(text).Parsed? && ParseOr(text).rest == []
            && Placeholders(text) == Arity(ParseOr(text).value) == |params|
            && (Eval(ParseOr(text).value, "", row, params, map[])
                <==> "id" in row && row["id"] == documentId && MaySee(user, stored, None, row))
  {
    hide ParseOr, ParseAtom, DocumentQuery, Eval, Visible, MaySee;
    DocumentQueryIsScoped(user, stored, documentId, row);
    RuleIsMaySee(user, stored, None, row);
  }
}

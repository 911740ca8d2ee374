/** The three back-end forms of the visibility rule accept the same rows. */
module VisibilityLaws {
  import L = QdrantFilterLaws
  import opened Options
  import opened SqlText
  import opened Visibility

  // ---------- what the texts parse as ----------

  function ScopeExpr(alias: string, scope: string): Expr {
    Compare(alias, "scope", Text(scope))
  }

  function MineExpr(alias: string, me: Operand): Expr {
    And(ScopeExpr(alias, "personal"), Compare(alias, "user_id", me))
  }

  function ClauseExpr(alias: string, me: Operand, scope: Option<Scope>, allowsShared: bool): Expr {
    match scope
    case Some(Personal) => MineExpr(alias, me)
    case Some(Shared) => if allowsShared then ScopeExpr(alias, "shared") else Const(false)
    case Some(System) => ScopeExpr(alias, "system")
    case None =>
      Or(MineExpr(alias, me),
         if allowsShared then OneOf(alias, "scope", ["shared", "system"]) else ScopeExpr(alias, "system"))
  }

  lemma CompareText(column: Token, operand: Token)
    requires column.Column? && OperandOf(operand).Some?
    ensures Atomic([column, Equals, operand], Compare(column.alias, column.name, OperandOf(operand).value))
  {
    assert [column, Equals, operand][3..] == [];
  }

  lemma ListText(alias: string, a: string, b: string)
    ensures Atomic([Column(alias, "scope"), InWord, Open, Literal(a), Comma, Literal(b), Close],
                   OneOf(alias, "scope", [a, b]))
  {
    var list := [Literal(a), Comma, Literal(b), Close];
    assert [Column(alias, "scope"), InWord, Open, Literal(a), Comma, Literal(b), Close][3..] == list;
    assert list[2..] == [Literal(b), Close] && [Literal(b), Close][2..] == [];
    assert ParseList([Literal(b), Close]) == Parsed([b], []);
    assert [a] + [b] == [a, b];
  }

  lemma BracketAtomic(ts: Tokens, e: Expr)
    requires Atomic(ts, e)
    ensures Atomic(Bracket(ts), e)
  {
    AtomicIsAnd(ts, e);
    AndLevelIsOr(ts, e);
    Bracketed(ts, e);
  }

  lemma MineText(alias: string, me: Token)
    requires OperandOf(me).Some?
    ensures Atomic(Mine(alias, me), MineExpr(alias, OperandOf(me).value))
  {
    var a, b := ScopeIs(alias, "personal"), [Column(alias, "user_id"), Equals, me];
    CompareText(Column(alias, "scope"), Literal("personal"));
    CompareText(Column(alias, "user_id"), me);
    hide Atomic, AndLevel, ParseOr;
    AtomicIsAnd(a, ScopeExpr(alias, "personal"));
    Conjunction(a, ScopeExpr(alias, "personal"), b, Compare(alias, "user_id", OperandOf(me).value));
    AndLevelIsOr(a + [AndWord] + b, MineExpr(alias, OperandOf(me).value));
    Bracketed(a + [AndWord] + b, MineExpr(alias, OperandOf(me).value));
  }

  /** Every clause is atomic: whatever it holds inside, it can be spliced anywhere. */
  lemma ClauseParses(alias: string, me: Token, scope: Option<Scope>, allowsShared: bool)
    requires OperandOf(me).Some?
    ensures Atomic(ClauseText(alias, me, scope, allowsShared), ClauseExpr(alias, OperandOf(me).value, scope,
        allowsShared))
  {
    CompareText(Column(alias, "scope"), Literal("shared"));
    CompareText(Column(alias, "scope"), Literal("system"));
    FalseText();
    hide Atomic, ParseOr;
    MineText(alias, me);
    var mine := MineExpr(alias, OperandOf(me).value);
    match scope {
      case Some(Personal) =>
      case Some(Shared) =>
        BracketAtomic(ScopeIs(alias, "shared"), ScopeExpr(alias, "shared"));
        BracketAtomic([FalseWord], Const(false));
      case Some(System) =>
        BracketAtomic(ScopeIs(alias, "system"), ScopeExpr(alias, "system"));
      case None =>
        var rest := if allowsShared then SharedOrSystem(alias) else ScopeIs(alias, "system");
        var e := if allowsShared then OneOf(alias, "scope", ["shared", "system"]) else ScopeExpr(alias, "system");
        ListText(alias, "shared", "system");
        Disjunction(Mine(alias, me), mine, rest, e);
        Bracketed(Mine(alias, me) + [OrWord] + rest, Or(mine, e));
    }
  }

  lemma FalseText()
    ensures Atomic([FalseWord], Const(false))
  {
  }

  // ---------- what the texts accept ----------

  /** The parameters that bind the user, in one syntax or the other. */
  predicate Binds(me: Operand, params: seq<string>, named: map<string, string>, userId: string) {
    || (me == Positional && params == [userId])
    || (me == Param("vis_me") && params == [] && named == map["vis_me" := userId])
  }

  lemma MineAccepts(alias: string, me: Operand, row: Row, params: seq<string>, named: map<string, string>,
                    userId: string)
    requires Binds(me, params, named, userId)
    ensures var e := MineExpr(alias, me);
            Arity(e) == |params| && (Eval(e, alias, row, params, named) <==> MineRow(userId, row))
  {
    assert params[0..] == params;
  }

  lemma EitherAccepts(left: Expr, right: Expr, alias: string, row: Row, params: seq<string>, named: map<string, string>)
    requires Arity(left) == |params| && Arity(right) == 0
    ensures var e := Or(left, right);
            && Arity(e) == |params|
            && (Eval(e, alias, row, params, named)
                <==> Eval(left, alias, row, params, named) || Eval(right, alias, row, [], named))
  {
    assert params[..|params|] == params && params[|params|..] == [];
  }

  lemma ClauseAccepts(alias: string, me: Operand, scope: Option<Scope>, allowsShared: bool, row: Row,
                      params: seq<string>, named: map<string, string>, userId: string)
    requires if NamesUser(scope) then Binds(me, params, named, userId) else params == []
    ensures var e := ClauseExpr(alias, me, scope, allowsShared);
            Arity(e) == |params| && (Eval(e, alias, row, params, named) <==> Visible(userId, allowsShared, scope, row))
  {
    if NamesUser(scope) {
      MineAccepts(alias, me, row, params, named, userId);
      if scope.None? {
        var right := if allowsShared then OneOf(alias, "scope", ["shared", "system"]) else ScopeExpr(alias, "system");
        EitherAccepts(MineExpr(alias, me), right, alias, row, params, named);
      }
    }
  }

  /** Postgres: the clause with its parameters accepts exactly the visible rows. */
  lemma SqlIsRule(user: User, stored: bool, scope: Option<string>, row: Row)
    requires ValidateScopeFilter(scope).Valid?
    ensures var sf := ValidateScopeFilter(scope).value;
            var (text, params) := VisibleFilter(user, stored, scope).value;
            var e := ExprOf(text);
            && Atomic(text, e) && Placeholders(text) == Arity(e) == |params|
            && (Eval(e, "", row, params, map[])
                <==> Visible(user.userId, EffectiveAllowsShared(user, stored), sf, row))
  {
    var sf, allowsShared := ValidateScopeFilter(scope).value, EffectiveAllowsShared(user, stored);
    var (text, params) := VisibleFilter(user, stored, scope).value;
    ClauseParses("", Placeholder, sf, allowsShared);
    ClauseAccepts("", Positional, sf, allowsShared, row, params, map[], user.userId);
    AtomArity(text);
  }

  /** Cypher: the fragment with its bound parameters accepts exactly the visible rows. */
  lemma CypherIsRule(user: User, stored: bool, alias: string, scope: Option<string>, row: Row)
    requires ValidateScopeFilter(scope).Valid?
    ensures var sf := ValidateScopeFilter(scope).value;
            var (text, named) := VisibleCypherFragment(user, stored, alias, scope).value;
            var e := ExprOf(text);
            && Atomic(text, e) && Arity(e) == 0
            && (Eval(e, alias, row, [], named)
                <==> Visible(user.userId, EffectiveAllowsShared(user, stored), sf, row))
  {
    var sf, allowsShared := ValidateScopeFilter(scope).value, EffectiveAllowsShared(user, stored);
    var (text, named) := VisibleCypherFragment(user, stored, alias, scope).value;
    ClauseParses(alias, Named("vis_me"), sf, allowsShared);
    ClauseAccepts(alias, Param("vis_me"), sf, allowsShared, row, [], named, user.userId);
  }

  lemma TwoEntries(a: Q.Portable, b: Q.Portable, row: Row)
    ensures Q.Holds(Q.Must([a, b]), row) <==> Q.Holds(a, row) && Q.Holds(b, row)
    ensures Q.Holds(Q.Should([a, b]), row) <==> Q.Holds(a, row) || Q.Holds(b, row)
    ensures Q.Holds(Q.Must([a]), row) <==> Q.Holds(a, row)
  {
    assert a in [a, b] && b in [a, b] && a in [a];
    assert forall x <- [a, b] :: x == a || x == b;
    assert forall x <- [a] :: x == a;
  }

  lemma FlatHolds(key: string, m: Q.Match, row: Row)
    ensures Q.Holds(Q.Flat(key, m), row) <==> Q.Matches(key, m, row)
  {
  }

  lemma QdrantDictIsRule(user: User, stored: bool, scope: Option<string>, row: Row)
    requires ValidateScopeFilter(scope).Valid?
    ensures var sf, allowsShared := ValidateScopeFilter(scope).value, EffectiveAllowsShared(user, stored);
            var p := VisibleQdrantFilter(user, stored, scope).value;
            && Q.WellFormed(p)
            && (Q.Holds(p, row) <==>
                 if sf == Some(Shared) && !allowsShared then Has(row, "user_id", NO_SHARED)
                 else Visible(user.userId, allowsShared, sf, row))
  {
    hide Q.Holds;
    var me := user.userId;
    var personal, mine := Q.Flat("scope", Q.Value("personal")), Q.Flat("user_id", Q.Value(me));
    var shared, system := Q.Flat("scope", Q.Value("shared")), Q.Flat("scope", Q.Value("system"));
    var either, nobody := Q.Flat("scope", Q.Any(["shared", "system"])), Q.Flat("user_id", Q.Value(NO_SHARED));
    FlatHolds("scope", Q.Value("personal"), row);
    FlatHolds("user_id", Q.Value(me), row);
    FlatHolds("scope", Q.Value("shared"), row);
    FlatHolds("scope", Q.Value("system"), row);
    FlatHolds("scope", Q.Any(["shared", "system"]), row);
    FlatHolds("user_id", Q.Value(NO_SHARED), row);
    TwoEntries(personal, mine, row);
    TwoEntries(shared, shared, row);
    TwoEntries(system, system, row);
    TwoEntries(nobody, nobody, row);
    TwoEntries(MineDict(me), either, row);
    TwoEntries(MineDict(me), system, row);
    DictsWellFormed(me);
  }

  lemma DictsWellFormed(me: string)
    ensures Q.WellFormed(MineDict(me))
    ensures forall key, m: Q.Match :: !m.Unsupported? ==> Q.WellFormed(Q.Must([Q.Flat(key, m)]))
    ensures forall m: Q.Match :: !m.Unsupported? ==> Q.WellFormed(Q.Should([MineDict(me), Q.Flat("scope", m)]))
  {
  }

  /** Qdrant: the translated filter accepts the visible rows, but for the sentinel of a refused scope. */
  lemma QdrantIsRule(user: User, stored: bool, scope: Option<string>, row: Row)
    requires ValidateScopeFilter(scope).Valid?
    ensures var sf, allowsShared := ValidateScopeFilter(scope).value, EffectiveAllowsShared(user, stored);
            var filter := Q.Build(VisibleQdrantFilter(user, stored, scope).value);
            && filter.Ok?
            && ((Q.Accepts(filter.value, row) <==> Visible(user.userId, allowsShared, sf, row))
                <==> !(sf == Some(Shared) && !allowsShared && Has(row, "user_id", NO_SHARED)))
  {
    QdrantDictIsRule(user, stored, scope, row);
    hide Q.Build, Q.Accepts, Q.Holds, Q.WellFormed;
    L.BuildPreservesMeaning(VisibleQdrantFilter(user, stored, scope).value, row);
  }

  /**
   One rule, three back ends: for every user, scope and row the three forms agree, except that a row
   owned by the sentinel user is found in Qdrant when shared rows are asked for and not allowed.
   */
  lemma BackEndsAgree(user: User, stored: bool, alias: string, scope: Option<string>, row: Row)
    requires ValidateScopeFilter(scope).Valid?
    ensures var (sqlText, params) := VisibleFilter(user, stored, scope).value;
            var (cypherText, named) := VisibleCypherFragment(user, stored, alias, scope).value;
            var sqlExpr, cypherExpr := ExprOf(sqlText), ExprOf(cypherText);
            var filter := Q.Build(VisibleQdrantFilter(user, stored, scope).value);
            && Atomic(sqlText, sqlExpr) && Arity(sqlExpr) == |params|
            && Atomic(cypherText, cypherExpr) && Arity(cypherExpr) == 0
            && filter.Ok?
            && var sql := Eval(sqlExpr, "", row, params, map[]);
            && (Eval(cypherExpr, alias, row, [], named) <==> sql)
            && ((Q.Accepts(filter.value, row) <==> sql)
                <==> !(scope == Some("shared") && !EffectiveAllowsShared(user, stored)
                       && Has(row, "user_id", NO_SHARED)))
  {
    SqlIsRule(user, stored, scope, row);
    CypherIsRule(user, stored, alias, scope, row);
    QdrantIsRule(user, stored, scope, row);
    hide Atomic, Eval, ParseAtom, Q.Build;
    hide Q.Accepts, Visible, VisibleFilter, VisibleCypherFragment, VisibleQdrantFilter;
  }

  /** The three narrowed scopes together are the default view. */
  lemma ScopesUnion(me: string, allowsShared: bool, row: Row)
    ensures Visible(me, allowsShared, None, row)
       <==> exists s: Scope :: Visible(me, allowsShared, Some(s), row)
  {
    if Visible(me, allowsShared, None, row) {
      assert Visible(me, allowsShared, Some(Personal), row)
          || Visible(me, allowsShared, Some(Shared), row)
          || Visible(me, allowsShared, Some(System), row);
    }
  }

  /** A document query accepts the rows with that id which the user may see, and no other. */
  lemma DocumentQueryIsScoped(user: User, stored: bool, documentId: string, row: Row)
    ensures var (text, params) := DocumentQuery(user, stored, documentId);
            && ParseOr(text).Parsed? && ParseOr(text).rest == []
            && Placeholders(text) == Arity(ParseOr(text).value) == |params|
            && (Eval(ParseOr(text).value, "", row, params, map[])
                <==> Has(row, "id", documentId) && Visible(user.userId, EffectiveAllowsShared(user, stored), None, row))
  {
    var before := [Column("", "id"), Equals, Placeholder];
    var e := Compare("", "id", Positional);
    var (clause, params) := VisibleFilter(user, stored, None).value;
    CompareText(Column("", "id"), Placeholder);
    AtomicIsAnd(before, e);
    SqlIsRule(user, stored, None, row);
    BeforePlaceholders();
    hide ParseAtom, ParseOr, Atomic, AndLevel, VisibleFilter, Visible;
    SpliceEvaluates(before, e, clause, ExprOf(clause), "", row, [documentId], params, map[]);
  }

  lemma BeforePlaceholders()
    ensures Placeholders([Column("", "id"), Equals, Placeholder]) == 1
  {
    var ts := [Column("", "id"), Equals, Placeholder];
    assert ts[1..] == [Equals, Placeholder] && ts[1..][1..] == [Placeholder] && [Placeholder][1..] == [];
  }

  // ---------- export ----------

  /** The export clause accepts exactly the authored rows, in Postgres and in Qdrant. */
  lemma AuthoredFormsAgree(me: string, row: Row)
    ensures var (text, params) := AuthoredByFilter(me);
            var e := ExprOf(text);
            && Atomic(text, e) && Placeholders(text) == Arity(e) == |params|
            && (Eval(e, "", row, params, map[]) <==> Authored(me, row))
    ensures var filter := Q.Build(AuthoredByQdrantFilter(me));
            filter.Ok? && (Q.Accepts(filter.value, row) <==> Authored(me, row))
  {
    AuthoredText(me, row);
    AuthoredDict(me, row);
  }

  lemma AuthoredText(me: string, row: Row)
    ensures var (text, params) := AuthoredByFilter(me);
            var e := ExprOf(text);
            && Atomic(text, e) && Placeholders(text) == Arity(e) == |params|
            && (Eval(e, "", row, params, map[]) <==> Authored(me, row))
  {
    var a := [Column("", "scope"), InWord, Open, Literal("personal"), Comma, Literal("shared"), Close];
    var b := [Column("", "user_id"), Equals, Placeholder];
    var e, f := OneOf("", "scope", ["personal", "shared"]), Compare("", "user_id", Positional);
    ListText("", "personal", "shared");
    CompareText(Column("", "user_id"), Placeholder);
    AtomArity(AuthoredByFilter(me).0) by { Parses(a, e, b, f); }
    Parses(a, e, b, f);
    assert [me][..0] == [] && [me][0..] == [me];
  }

  lemma Parses(a: Tokens, e: Expr, b: Tokens, f: Expr)
    requires Atomic(a, e) && Atomic(b, f)
    ensures Atomic(Bracket(a + [AndWord] + b), And(e, f))
  {
    hide Atomic, ParseOr, AndLevel;
    AtomicIsAnd(a, e);
    Conjunction(a, e, b, f);
    AndLevelIsOr(a + [AndWord] + b, And(e, f));
    Bracketed(a + [AndWord] + b, And(e, f));
  }

  lemma AuthoredDict(me: string, row: Row)
    ensures var filter := Q.Build(AuthoredByQdrantFilter(me));
            filter.Ok? && (Q.Accepts(filter.value, row) <==> Authored(me, row))
  {
    var p := AuthoredByQdrantFilter(me);
    assert Q.WellFormed(p);
    L.BuildPreservesMeaning(p, row);
    TwoEntries(Q.Flat("scope", Q.Any(["personal", "shared"])), Q.Flat("user_id", Q.Value(me)), row);
    FlatHolds("scope", Q.Any(["personal", "shared"]), row);
    FlatHolds("user_id", Q.Value(me), row);
  }

  /**
   The graph form of the export rule looks at the owner only, so it agrees with the rule exactly on the
   rows whose scope a member can author in.
   */
  lemma AuthoredCypherIgnoresScope(me: string, alias: string, row: Row)
    ensures var (text, named) := AuthoredByCypherFragment(me, alias);
            var e := ExprOf(text);
            && Atomic(text, e) && Arity(e) == 0
            && (Eval(e, alias, row, [], named) <==> Has(row, "user_id", me))
            && ((Eval(e, alias, row, [], named) <==> Authored(me, row))
                <==> (Has(row, "user_id", me) ==> Has(row, "scope", "personal") || Has(row, "scope", "shared")))
  {
    var column := [Column(alias, "user_id"), Equals, Named("vis_me")];
    CompareText(Column(alias, "user_id"), Named("vis_me"));
    BracketAtomic(column, Compare(alias, "user_id", Param("vis_me")));
  }

  /**
   The export rule is documented as narrower than the visibility rule. It is exactly when shared rows
   are allowed: a member without them still exports the shared rows they wrote and may not see.
   */
  lemma AuthoredIsVisibleIff(me: string, allowsShared: bool)
    ensures (forall row: Row :: Authored(me, row) ==> Visible(me, allowsShared, None, row)) <==> allowsShared
  {
    if !allowsShared {
      var row: Row := map["scope" := "shared", "user_id" := me];
      assert Authored(me, row) && !Visible(me, allowsShared, None, row);
    }
  }
}

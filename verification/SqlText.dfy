/**
 Boolean conditions of SQL and Cypher as token texts: a parser with the usual precedence (`OR` below
 `AND`), evaluation with positional and named parameters, and what splicing texts together parses as.
 */
module SqlText {
  import opened Options

  datatype Token =
    | Column(alias: string, name: string)   // `scope`, or `n.scope` with alias `n`
    | Literal(text: string)                 // `'personal'`
    | Placeholder                           // `%s`
    | Named(param: string)                  // `$vis_me`
    | Open | Close | Comma | Equals
    | AndWord | OrWord | InWord | FalseWord

  datatype Operand = Text(text: string) | Positional | Param(name: string)

  datatype Expr =
    | Const(value: bool)
    | Compare(alias: string, name: string, operand: Operand)
    | OneOf(alias: string, name: string, values: seq<string>)
    | And(left: Expr, right: Expr)
    | Or(left: Expr, right: Expr)

  type Tokens = seq<Token>

  datatype Parse<+T> = Failed | Parsed(value: T, rest: Tokens)

  function OperandOf(t: Token): Option<Operand> {
    match t
    case Literal(text) => Some(Text(text))
    case Placeholder => Some(Positional)
    case Named(param) => Some(Param(param))
    case _ => None
  }

  /** Comma-separated literals up to the closing bracket. */
  function ParseList(ts: Tokens): (r: Parse<seq<string>>)
    ensures r.Parsed? ==> |r.rest| < |ts|
    decreases |ts|
  {
    if |ts| < 2 || !ts[0].Literal? then Failed
    else if ts[1].Close? then Parsed([ts[0].text], ts[2..])
    else if !ts[1].Comma? then Failed
    else
      match ParseList(ts[2..])
      case Failed => Failed
      case Parsed(values, rest) => Parsed([ts[0].text] + values, rest)
  }

  function ParseAtom(ts: Tokens): (r: Parse<Expr>)
    ensures r.Parsed? ==> |r.rest| < |ts|
    decreases |ts|, 0
  {
    if ts == [] then Failed
    else if ts[0].FalseWord? then Parsed(Const(false), ts[1..])
    else if ts[0].Open? then
      match ParseOr(ts[1..])
      case Failed => Failed
      case Parsed(e, rest) => if rest != [] && rest[0].Close? then Parsed(e, rest[1..]) else Failed
    else if ts[0].Column? && |ts| >= 3 && ts[1].Equals? && OperandOf(ts[2]).Some? then
      Parsed(Compare(ts[0].alias, ts[0].name, OperandOf(ts[2]).value), ts[3..])
    else if ts[0].Column? && |ts| >= 3 && ts[1].InWord? && ts[2].Open? then
      match ParseList(ts[3..])
      case Failed => Failed
      case Parsed(values, rest) => Parsed(OneOf(ts[0].alias, ts[0].name, values), rest)
    else Failed
  }

  function AndTail(left: Expr, ts: Tokens): (r: Parse<Expr>)
    ensures r.Parsed? ==> |r.rest| <= |ts|
    decreases |ts|, 1
  {
    if ts == [] || !ts[0].AndWord? then Parsed(left, ts)
    else
      match ParseAtom(ts[1..])
      case Failed => Failed
      case Parsed(right, rest) => AndTail(And(left, right), rest)
  }

  function ParseAnd(ts: Tokens): (r: Parse<Expr>)
    ensures r.Parsed? ==> |r.rest| < |ts|
    decreases |ts|, 2
  {
    match ParseAtom(ts)
    case Failed => Failed
    case Parsed(left, rest) => AndTail(left, rest)
  }

  function OrTail(left: Expr, ts: Tokens): (r: Parse<Expr>)
    ensures r.Parsed? ==> |r.rest| <= |ts|
    decreases |ts|, 3
  {
    if ts == [] || !ts[0].OrWord? then Parsed(left, ts)
    else
      match ParseAnd(ts[1..])
      case Failed => Failed
      case Parsed(right, rest) => OrTail(Or(left, right), rest)
  }

  function ParseOr(ts: Tokens): (r: Parse<Expr>)
    ensures r.Parsed? ==> |r.rest| < |ts|
    decreases |ts|, 4
  {
    match ParseAnd(ts)
    case Failed => Failed
    case Parsed(left, rest) => OrTail(left, rest)
  }

  // ---------- evaluation ----------

  type Row = map<string, string>

  /** Positional parameters an expression consumes, left to right. */
  function Arity(e: Expr): nat {
    match e
    case Compare(_, _, Positional) => 1
    case And(left, right) => Arity(left) + Arity(right)
    case Or(left, right) => Arity(left) + Arity(right)
    case _ => 0
  }

  function Placeholders(ts: Tokens): nat {
    if ts == [] then 0 else (if ts[0].Placeholder? then 1 else 0) + Placeholders(ts[1..])
  }

  /** Value of an expression on a row; a column the row lacks makes a comparison fail. */
  predicate Eval(e: Expr, alias: string, row: Row, params: seq<string>, named: map<string, string>)
    requires |params| == Arity(e)
  {
    match e
    case Const(b) => b
    case Compare(a, name, operand) =>
      && a == alias && name in row
      && (match operand
          case Text(text) => row[name] == text
          case Positional => row[name] == params[0]
          case Param(p) => p in named && row[name] == named[p])
    case OneOf(a, name, values) => a == alias && name in row && row[name] in values
    case And(left, right) =>
      && Eval(left, alias, row, params[..Arity(left)], named)
      && Eval(right, alias, row, params[Arity(left)..], named)
    case Or(left, right) =>
      || Eval(left, alias, row, params[..Arity(left)], named)
      || Eval(right, alias, row, params[Arity(left)..], named)
  }

  // ---------- more text behind a parsed part ----------

  lemma {:induction false} ListMore(ts: Tokens, more: Tokens)
    requires ParseList(ts).Parsed?
    ensures ParseList(ts + more) == Parsed(ParseList(ts).value, ParseList(ts).rest + more)
    decreases |ts|
  {
    assert (ts + more)[2..] == ts[2..] + more;
    if !ts[1].Close? {
      ListMore(ts[2..], more);
    }
  }

  lemma {:induction false} AtomMore(ts: Tokens, more: Tokens)
    requires ParseAtom(ts).Parsed?
    ensures ParseAtom(ts + more) == Parsed(ParseAtom(ts).value, ParseAtom(ts).rest + more)
    decreases |ts|, 0
  {
    var all := ts + more;
    assert all[0] == ts[0] && all[1..] == ts[1..] + more;
    if ts[0].Open? {
      var inner := ParseOr(ts[1..]);
      OrMore(ts[1..], more);
      assert (inner.rest + more)[1..] == inner.rest[1..] + more;
    } else if ts[0].Column? {
      assert all[1] == ts[1] && all[2] == ts[2] && all[3..] == ts[3..] + more;
      if ts[1].InWord? {
        ListMore(ts[3..], more);
      }
    }
  }

  /** A text that continues neither a conjunction nor a disjunction. */
  predicate Stops(ts: Tokens) {
    ts == [] || (!ts[0].AndWord? && !ts[0].OrWord?)
  }

  lemma {:induction false} AndTailMore(left: Expr, ts: Tokens, more: Tokens)
    requires AndTail(left, ts).Parsed? && (AndTail(left, ts).rest != [] || Stops(more))
    ensures AndTail(left, ts + more) == Parsed(AndTail(left, ts).value, AndTail(left, ts).rest + more)
    decreases |ts|, 1
  {
    assert ts == [] ==> ts + more == more;
    assert ts != [] ==> (ts + more)[0] == ts[0] && (ts + more)[1..] == ts[1..] + more;
    if ts != [] && ts[0].AndWord? {
      AtomMore(ts[1..], more);
      var right := ParseAtom(ts[1..]);
      AndTailMore(And(left, right.value), right.rest, more);
    }
  }

  lemma {:induction false} AndMore(ts: Tokens, more: Tokens)
    requires ParseAnd(ts).Parsed? && (ParseAnd(ts).rest != [] || Stops(more))
    ensures ParseAnd(ts + more) == Parsed(ParseAnd(ts).value, ParseAnd(ts).rest + more)
    decreases |ts|, 2
  {
    AtomMore(ts, more);
    var left := ParseAtom(ts);
    AndTailMore(left.value, left.rest, more);
  }

  lemma {:induction false} OrTailMore(left: Expr, ts: Tokens, more: Tokens)
    requires OrTail(left, ts).Parsed? && (OrTail(left, ts).rest != [] || Stops(more))
    ensures OrTail(left, ts + more) == Parsed(OrTail(left, ts).value, OrTail(left, ts).rest + more)
    decreases |ts|, 3
  {
    assert ts == [] ==> ts + more == more;
    assert ts != [] ==> (ts + more)[0] == ts[0] && (ts + more)[1..] == ts[1..] + more;
    if ts != [] && ts[0].OrWord? {
      var right := ParseAnd(ts[1..]);
      AndMore(ts[1..], more);
      OrTailMore(Or(left, right.value), right.rest, more);
    }
  }

  lemma {:induction false} OrMore(ts: Tokens, more: Tokens)
    requires ParseOr(ts).Parsed? && (ParseOr(ts).rest != [] || Stops(more))
    ensures ParseOr(ts + more) == Parsed(ParseOr(ts).value, ParseOr(ts).rest + more)
    decreases |ts|, 4
  {
    var left := ParseAnd(ts);
    AndMore(ts, more);
    OrTailMore(left.value, left.rest, more);
  }

  // ---------- splicing ----------

  /** A condition without a top-level `OR`. */
  predicate AndLevel(ts: Tokens, e: Expr) {
    ParseAnd(ts) == Parsed(e, [])
  }

  /** A condition that binds tighter than any operator around it. */
  predicate Atomic(ts: Tokens, e: Expr) {
    ParseAtom(ts) == Parsed(e, [])
  }

  /** The expression of an atomic text. */
  function ExprOf(ts: Tokens): Expr {
    match ParseAtom(ts)
    case Parsed(e, _) => e
    case Failed => Const(false)
  }

  lemma {:induction false} AndTailSplice(left: Expr, ts: Tokens, e: Expr, more: Tokens)
    requires AndTail(left, ts) == Parsed(e, [])
    ensures AndTail(left, ts + more) == AndTail(e, more)
    decreases |ts|
  {
    if ts == [] {
      assert ts + more == more;
    } else {
      assert (ts + more)[0] == ts[0] && (ts + more)[1..] == ts[1..] + more;
      var right := ParseAtom(ts[1..]);
      AtomMore(ts[1..], more);
      AndTailSplice(And(left, right.value), right.rest, e, more);
    }
  }

  lemma AndSplice(ts: Tokens, e: Expr, more: Tokens)
    requires AndLevel(ts, e)
    ensures ParseAnd(ts + more) == AndTail(e, more)
  {
    var left := ParseAtom(ts);
    AtomMore(ts, more);
    AndTailSplice(left.value, left.rest, e, more);
  }

  /** `before AND clause` parses as the conjunction of both, whatever the clause holds inside. */
  lemma SpliceIsConjunction(before: Tokens, e: Expr, clause: Tokens, f: Expr)
    requires AndLevel(before, e) && Atomic(clause, f)
    ensures ParseOr(before + [AndWord] + clause) == Parsed(And(e, f), [])
  {
    AndSplice(before, e, [AndWord] + clause);
    assert before + [AndWord] + clause == before + ([AndWord] + clause);
    assert ([AndWord] + clause)[1..] == clause;
  }

  /** Without brackets a clause with an `OR` takes the predicates before it into its first arm only. */
  lemma UnbracketedSplice(before: Tokens, e: Expr, first: Tokens, f: Expr, second: Tokens, g: Expr)
    requires AndLevel(before, e) && Atomic(first, f) && Atomic(second, g)
    ensures ParseOr(before + [AndWord] + first + [OrWord] + second) == Parsed(Or(And(e, f), g), [])
  {
    var more := [OrWord] + second;
    var text := before + ([AndWord] + (first + more));
    assert before + [AndWord] + first + [OrWord] + second == text;
    AndSplice(before, e, [AndWord] + (first + more));
    assert ([AndWord] + (first + more))[1..] == first + more;
    AtomMore(first, more);
    assert [] + more == more;
    assert ParseAnd(text) == Parsed(And(e, f), more);
    hide ParseAnd, ParseAtom, AndTail, OrTail;
    OrOne(And(e, f), second, g);
  }

  lemma OrOne(left: Expr, ts: Tokens, e: Expr)
    requires Atomic(ts, e)
    ensures OrTail(left, [OrWord] + ts) == Parsed(Or(left, e), [])
  {
    assert ([OrWord] + ts)[1..] == ts;
    assert AndTail(e, []) == Parsed(e, []);
  }

  lemma AtomicIsAnd(ts: Tokens, e: Expr)
    requires Atomic(ts, e)
    ensures AndLevel(ts, e)
  {
    assert AndTail(e, []) == Parsed(e, []);
  }

  lemma AndLevelIsOr(ts: Tokens, e: Expr)
    requires AndLevel(ts, e)
    ensures ParseOr(ts) == Parsed(e, [])
  {
    assert OrTail(e, []) == Parsed(e, []);
  }

  lemma Conjunction(a: Tokens, e: Expr, b: Tokens, f: Expr)
    requires AndLevel(a, e) && Atomic(b, f)
    ensures AndLevel(a + [AndWord] + b, And(e, f))
  {
    AndSplice(a, e, [AndWord] + b);
    assert a + [AndWord] + b == a + ([AndWord] + b) && ([AndWord] + b)[1..] == b;
    assert AndTail(And(e, f), []) == Parsed(And(e, f), []);
  }

  lemma Disjunction(a: Tokens, e: Expr, b: Tokens, f: Expr)
    requires Atomic(a, e) && Atomic(b, f)
    ensures ParseOr(a + [OrWord] + b) == Parsed(Or(e, f), [])
  {
    var more := [OrWord] + b;
    assert a + [OrWord] + b == a + more;
    AtomMore(a, more);
    assert [] + more == more;
    assert ParseAnd(a + more) == Parsed(e, more);
    OrOne(e, b, f);
  }

  /** Brackets make any condition atomic. */
  lemma Bracketed(ts: Tokens, e: Expr)
    requires ParseOr(ts) == Parsed(e, [])
    ensures Atomic([Open] + ts + [Close], e)
  {
    var all := [Open] + ts + [Close];
    assert all[1..] == ts + [Close];
    OrMore(ts, [Close]);
    assert [] + [Close] == [Close] && [Close][1..] == [];
  }

  // ---------- placeholders ----------

  lemma {:induction false} PlaceholdersConcat(xs: Tokens, ys: Tokens)
    ensures Placeholders(xs + ys) == Placeholders(xs) + Placeholders(ys)
  {
    if xs == [] {
      assert xs + ys == ys;
    } else {
      assert (xs + ys)[1..] == xs[1..] + ys;
      PlaceholdersConcat(xs[1..], ys);
    }
  }

  lemma {:induction false} ListHasNone(ts: Tokens)
    requires ParseList(ts).Parsed?
    ensures Placeholders(ts) == Placeholders(ParseList(ts).rest)
    decreases |ts|
  {
    assert ts[1..][1..] == ts[2..];
    if !ts[1].Close? {
      ListHasNone(ts[2..]);
    }
  }

  /** Parsing consumes exactly the placeholders it turns into positional operands. */
  lemma {:induction false} AtomArity(ts: Tokens)
    requires ParseAtom(ts).Parsed?
    ensures Placeholders(ts) == Arity(ParseAtom(ts).value) + Placeholders(ParseAtom(ts).rest)
    decreases |ts|, 0
  {
    if ts[0].Open? {
      OrArity(ts[1..]);
    } else if ts[0].Column? {
      assert ts[1..][1..] == ts[2..] && ts[2..][1..] == ts[3..];
      assert Placeholders(ts) == Placeholders(ts[1..]) == Placeholders(ts[2..]);
      if ts[1].InWord? {
        ListHasNone(ts[3..]);
      }
    }
  }

  lemma {:induction false} AndTailArity(left: Expr, ts: Tokens)
    requires AndTail(left, ts).Parsed?
    ensures Arity(left) + Placeholders(ts) == Arity(AndTail(left, ts).value) + Placeholders(AndTail(left, ts).rest)
    decreases |ts|, 1
  {
    if ts != [] && ts[0].AndWord? {
      AtomArity(ts[1..]);
      var right := ParseAtom(ts[1..]);
      AndTailArity(And(left, right.value), right.rest);
    }
  }

  lemma {:induction false} AndArity(ts: Tokens)
    requires ParseAnd(ts).Parsed?
    ensures Placeholders(ts) == Arity(ParseAnd(ts).value) + Placeholders(ParseAnd(ts).rest)
    decreases |ts|, 2
  {
    AtomArity(ts);
    AndTailArity(ParseAtom(ts).value, ParseAtom(ts).rest);
  }

  lemma {:induction false} OrTailArity(left: Expr, ts: Tokens)
    requires OrTail(left, ts).Parsed?
    ensures Arity(left) + Placeholders(ts) == Arity(OrTail(left, ts).value) + Placeholders(OrTail(left, ts).rest)
    decreases |ts|, 3
  {
    if ts != [] && ts[0].OrWord? {
      AndArity(ts[1..]);
      var right := ParseAnd(ts[1..]);
      OrTailArity(Or(left, right.value), right.rest);
    }
  }

  lemma {:induction false} OrArity(ts: Tokens)
    requires ParseOr(ts).Parsed?
    ensures Placeholders(ts) == Arity(ParseOr(ts).value) + Placeholders(ParseOr(ts).rest)
    decreases |ts|, 4
  {
    AndArity(ts);
    OrTailArity(ParseAnd(ts).value, ParseAnd(ts).rest);
  }

  /**
   Splicing a bracketed clause behind any `AND`-level text and its parameters behind the text's
   parameters: the spliced text accepts a row exactly when both parts do, each with its own parameters.
   */
  lemma SpliceEvaluates(before: Tokens, e: Expr, clause: Tokens, f: Expr, alias: string, row: Row,
                        ps: seq<string>, qs: seq<string>, named: map<string, string>)
    requires AndLevel(before, e) && Atomic(clause, f)
    requires |ps| == Placeholders(before) && |qs| == Placeholders(clause)
    ensures var text := before + [AndWord] + clause;
            && Placeholders(text) == |ps + qs|
            && Arity(e) == |ps| && Arity(f) == |qs|
            && ParseOr(text) == Parsed(And(e, f), [])
            && (Eval(And(e, f), alias, row, ps + qs, named)
                <==> Eval(e, alias, row, ps, named) && Eval(f, alias, row, qs, named))
  {
    SpliceIsConjunction(before, e, clause, f);
    AndArity(before);
    AtomArity(clause);
    PlaceholdersConcat(before + [AndWord], clause);
    PlaceholdersConcat(before, [AndWord]);
    assert [AndWord][1..] == [];
    assert (ps + qs)[..|ps|] == ps && (ps + qs)[|ps|..] == qs;
  }
}

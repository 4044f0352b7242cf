/**
 * The precedence-table expression builder: operators grouped by level, each
 * level built over the one before it. Within a level a term takes at most one
 * prefix and one postfix operator; left-associative operators share one
 * chainl1, right-associative ones one chainr1 over that, and non-associative
 * ones recurse into the finished level parser.
 */
module Expr {
  import opened Parsec
  import opened Prim
  import opened Combinators

  datatype Assoc = AssocNone | AssocLeft | AssocRight

  /** The value of a prefix or postfix operator parser: a one-argument function. */
  type UnOp<!T> = Option<T> -> Option<T>

  datatype Operator<!T> =
    | Infix(binary: Parser<BinOp<T>>, assoc: Assoc)
    | Prefix(unary: Parser<UnOp<T>>)
    | Postfix(unary: Parser<UnOp<T>>)

  /** `g(x)` for an operator value g; None where g is None (a call Python cannot make). */
  function ApplyUn<T>(g: Option<UnOp<T>>, x: Option<T>): Option<T> {
    if g.Some? then g.value(x) else None
  }

  /** `lambda x: x`. */
  function Identity<T>(): UnOp<T> {
    (x: Option<T>) => x
  }

  // ------------------------------------------------ splitting a table row

  /** The five lists a level's operators are sorted into, each in table order. */
  datatype Groups<!T> = Groups(
    infixR: seq<Parser<BinOp<T>>>,
    infixL: seq<Parser<BinOp<T>>>,
    infixN: seq<Parser<BinOp<T>>>,
    prefix: seq<Parser<UnOp<T>>>,
    postfix: seq<Parser<UnOp<T>>>)

  function NoGroups<T>(): Groups<T> {
    Groups([], [], [], [], [])
  }

  /** One operator appended to the list its kind and associativity select. */
  function AddOperator<T>(g: Groups<T>, op: Operator<T>): Groups<T> {
    match op
    case Infix(p, AssocRight) => g.(infixR := g.infixR + [p])
    case Infix(p, AssocLeft) => g.(infixL := g.infixL + [p])
    case Infix(p, AssocNone) => g.(infixN := g.infixN + [p])
    case Prefix(p) => g.(prefix := g.prefix + [p])
    case Postfix(p) => g.(postfix := g.postfix + [p])
  }

  /** The sorted lists of a row, as the `for op in ops` loop builds them. */
  function Split<T>(ops: seq<Operator<T>>): Groups<T>
    decreases |ops|
  {
    if ops == [] then NoGroups() else AddOperator(Split(ops[..|ops| - 1]), ops[|ops| - 1])
  }

  function Join<T>(g: Groups<T>, h: Groups<T>): Groups<T> {
    Groups(g.infixR + h.infixR, g.infixL + h.infixL, g.infixN + h.infixN, g.prefix + h.prefix, g.postfix + h.postfix)
  }

  function Size<T>(g: Groups<T>): nat {
    |g.infixR| + |g.infixL| + |g.infixN| + |g.prefix| + |g.postfix|
  }

  /** Splitting a row is splitting its two halves and concatenating list by list: table order is kept. */
  lemma {:induction false} SplitAppend<T>(ops1: seq<Operator<T>>, ops2: seq<Operator<T>>)
    ensures Split(ops1 + ops2) == Join(Split(ops1), Split(ops2))
    decreases |ops2|
  {
    if ops2 == [] {
      assert ops1 + ops2 == ops1;
    } else {
      var init := ops2[..|ops2| - 1];
      assert (ops1 + ops2)[..|ops1 + ops2| - 1] == ops1 + init;
      SplitAppend(ops1, init);
    }
  }

  /** A single operator lands in exactly the list its kind and associativity name. */
  lemma SplitSingle<T>(op: Operator<T>)
    ensures op.Infix? && op.assoc == AssocRight ==> Split([op]) == NoGroups<T>().(infixR := [op.binary])
    ensures op.Infix? && op.assoc == AssocLeft ==> Split([op]) == NoGroups<T>().(infixL := [op.binary])
    ensures op.Infix? && op.assoc == AssocNone ==> Split([op]) == NoGroups<T>().(infixN := [op.binary])
    ensures op.Prefix? ==> Split([op]) == NoGroups<T>().(prefix := [op.unary])
    ensures op.Postfix? ==> Split([op]) == NoGroups<T>().(postfix := [op.unary])
  {
    assert [op][..0] == [];
  }

  /** Every operator of the row goes to exactly one list. */
  lemma {:induction false} SplitKeepsAll<T>(ops: seq<Operator<T>>)
    ensures Size(Split(ops)) == |ops|
    decreases |ops|
  {
    if ops != [] {
      SplitKeepsAll(ops[..|ops| - 1]);
    }
  }

  // ---------------------------------------------------------- a level's term

  /** `choice(ops) | pure(lambda x: x)`, or just the identity when there are none. */
  function Unary<T>(ops: seq<Parser<UnOp<T>>>): Parser<UnOp<T>> {
    if ops != [] then Or(Choice(ops), Pure(Some(Identity()))) else Pure(Some(Identity()))
  }

  /** When no unary operator applies, the identity is taken and nothing is read. */
  lemma UnaryDefaults<T>(ops: seq<Parser<UnOp<T>>>, s: State)
    requires ops != [] ==> Declines(s, Choice(ops)(s))
    ensures Unary(ops)(s) == Reply(Some(Identity()), s, None)
  {
  }

  /** `pre.bind(f => term.bind(x => post.bind(g => pure(g(f(x))))))`. */
  function LevelTerm<T>(prefix: seq<Parser<UnOp<T>>>, postfix: seq<Parser<UnOp<T>>>, term: Parser<T>): Parser<T> {
    Bind(Unary(prefix), (f: Option<UnOp<T>>) =>
    Bind(term, (x: Option<T>) =>
    Bind(Unary(postfix), (g: Option<UnOp<T>>) =>
    Pure(ApplyUn(g, ApplyUn(f, x))))))
  }

  /**
   * A level term reads one prefix operator f (or none), the term x, one
   * postfix operator g (or none), and gives g(f(x)) where all three succeed.
   */
  lemma LevelTermApplies<T>(prefix: seq<Parser<UnOp<T>>>, postfix: seq<Parser<UnOp<T>>>, term: Parser<T>, s: State)
    requires !Unary(prefix)(s).Failed()
    requires !term(Unary(prefix)(s).state).Failed()
    requires !Unary(postfix)(term(Unary(prefix)(s).state).state).Failed()
    ensures var f := Unary(prefix)(s);
            var x := term(f.state);
            var g := Unary(postfix)(x.state);
            LevelTerm(prefix, postfix, term)(s) == Reply(ApplyUn(g.value, ApplyUn(f.value, x.value)), g.state, None)
  {
  }

  /** With no prefix and no postfix operators a level term is the term, its value untouched. */
  lemma LevelTermPlain<T>(term: Parser<T>, s: State)
    ensures !term(s).Failed() ==> LevelTerm<T>([], [], term)(s) == term(s)
    ensures term(s).Failed() ==> LevelTerm<T>([], [], term)(s) == Reply(None, term(s).state, term(s).error)
  {
    UnaryDefaults<T>([], s);
    if !term(s).Failed() {
      UnaryDefaults<T>([], term(s).state);
    }
  }

  // --------------------------------------------------- non-associative operators

  /** `non_assoc_logic(x)`: `op_n.bind(f => self.bind(y => pure(f(x, y)))) | pure(x)`. */
  function NonAssocLogic<T>(opN: Parser<BinOp<T>>, self: Parser<T>, x: Option<T>): Parser<T> {
    Or(Bind(opN, (f: Option<BinOp<T>>) => Bind(self, (y: Option<T>) => Pure(ApplyBin(f, x, y)))), Pure(x))
  }

  /**
   * `result_parser.bind(non_assoc_logic)` at s, where the lambda reads
   * `result_parser` after it has been rebound to this very parser; the
   * recursion is entered only on shorter input.
   */
  function NonAssocRun<T>(inner: Parser<T>, opN: Parser<BinOp<T>>, s: State): Reply<T>
    decreases |s.input|, 1
  {
    Bind(inner, (x: Option<T>) => NonAssocLogic(opN, NonAssocBelow(inner, opN, s), x))(s)
  }

  /** The non-associative level on inputs shorter than bound's; NoProgress elsewhere. */
  function NonAssocBelow<T>(inner: Parser<T>, opN: Parser<BinOp<T>>, bound: State): Parser<T>
    decreases |bound.input|, 0
  {
    (t: State) => if |t.input| < |bound.input| then NonAssocRun(inner, opN, t) else NoProgress(t)
  }

  function NonAssoc<T>(inner: Parser<T>, opN: Parser<BinOp<T>>): Parser<T> {
    (s: State) => NonAssocRun(inner, opN, s)
  }

  /** One step of the non-associative logic is one step of chainr1's rest. */
  lemma NonAssocLogicIsChainrRest<T>(opN: Parser<BinOp<T>>, f: Parser<T>, g: Parser<T>, x: Option<T>, s: State)
    requires !opN(s).Failed() ==> f(opN(s).state) == g(opN(s).state)
    ensures NonAssocLogic(opN, f, x)(s) == ChainrRestStep(opN, g, x)(s)
  {
    var a := opN(s);
    if !a.Failed() {
      var l := Bind(opN, (h: Option<BinOp<T>>) => Bind(f, (y: Option<T>) => Pure(ApplyBin(h, x, y))));
      var r := Bind(opN, ChainrCombine(g, x));
      if f(a.state).Failed() {
        assert l(s) == r(s);
      } else {
        ChainrCombineAt(g, x, a.value, a.state);
        assert l(s) == r(s);
      }
    }
  }

  /**
   * Because of the late binding, a non-associative level is exactly
   * `chainr1(result_parser, op_n)`: the right operand is the whole level.
   */
  lemma {:induction false} NonAssocIsChainr1<T>(inner: Parser<T>, opN: Parser<BinOp<T>>, s: State)
    ensures NonAssoc(inner, opN)(s) == Chainr1(inner, opN)(s)
    decreases |s.input|
  {
    var a := inner(s);
    if !a.Failed() {
      var t := a.state;
      if !opN(t).Failed() {
        var u := opN(t).state;
        if |u.input| < |s.input| {
          NonAssocIsChainr1(inner, opN, u);
        }
        assert NonAssocBelow(inner, opN, s)(u) == ChainrScanBelow(inner, opN, s)(u);
      }
      NonAssocLogicIsChainrRest(opN, NonAssocBelow(inner, opN, s), ChainrScanBelow(inner, opN, s), a.value, t);
    }
  }

  /**
   * The late-bound recursion as the source reads: the level parses x, and if
   * op_n follows, the right operand with the level itself.
   */
  lemma NonAssocLateBinding<T>(inner: Parser<T>, opN: Parser<BinOp<T>>, s: State)
    requires Consuming(inner) && NonGrowing(opN)
    ensures NonAssoc(inner, opN)(s) == Bind(inner, (x: Option<T>) => NonAssocLogic(opN, NonAssoc(inner, opN), x))(s)
  {
    var a := inner(s);
    if !a.Failed() {
      var t := a.state;
      if !opN(t).Failed() {
        assert NonAssocBelow(inner, opN, s)(opN(t).state) == NonAssoc(inner, opN)(opN(t).state);
      }
      NonAssocLogicAgrees(opN, NonAssocBelow(inner, opN, s), NonAssoc(inner, opN), a.value, t);
    }
  }

  /** The logic reads its right-operand parser only after op_n. */
  lemma NonAssocLogicAgrees<T>(opN: Parser<BinOp<T>>, f: Parser<T>, g: Parser<T>, x: Option<T>, s: State)
    requires !opN(s).Failed() ==> f(opN(s).state) == g(opN(s).state)
    ensures NonAssocLogic(opN, f, x)(s) == NonAssocLogic(opN, g, x)(s)
  {
    NonAssocLogicIsChainrRest(opN, f, g, x, s);
    NonAssocLogicIsChainrRest(opN, g, g, x, s);
  }

  /** So "x op y op z" groups as op(x, op(y, z)), and a lone x is returned as it is. */
  lemma NonAssocGroupsRight<T>(inner: Parser<T>, opN: Parser<BinOp<T>>, s: State,
                               steps: seq<(Option<BinOp<T>>, Option<T>)>, end: State)
    requires !inner(s).Failed() && |inner(s).state.input| < |s.input| && OpTrace(inner, opN, inner(s).state, steps, end)
    ensures NonAssoc(inner, opN)(s) == Reply(FoldRight(inner(s).value, steps), end, None)
  {
    NonAssocIsChainr1(inner, opN, s);
    ChainrFoldsRight(inner, opN, s, steps, end);
  }

  // ----------------------------------------------------------------- levels

  /** `_make_level_parser(ops, term)` as the parser it returns. */
  function Level<T>(ops: seq<Operator<T>>, term: Parser<T>): Parser<T> {
    var g := Split(ops);
    var t := LevelTerm(g.prefix, g.postfix, term);
    var l := if g.infixL != [] then Chainl1(t, Choice(g.infixL)) else t;
    var r := if g.infixR != [] then Chainr1(l, Choice(g.infixR)) else l;
    if g.infixN != [] then NonAssoc(r, Choice(g.infixN)) else r
  }

  /** `_make_level_parser`: the sorting loop over the row, then the parser built from the five lists. */
  method MakeLevelParser<T>(ops: seq<Operator<T>>, term: Parser<T>) returns (level: Parser<T>)
    ensures level == Level(ops, term)
  {
    var infixR: seq<Parser<BinOp<T>>> := [];
    var infixL: seq<Parser<BinOp<T>>> := [];
    var infixN: seq<Parser<BinOp<T>>> := [];
    var prefix: seq<Parser<UnOp<T>>> := [];
    var postfix: seq<Parser<UnOp<T>>> := [];
    for i := 0 to |ops|
      invariant Groups(infixR, infixL, infixN, prefix, postfix) == Split(ops[..i])
    {
      assert ops[..i + 1][..i] == ops[..i];
      match ops[i]
      case Infix(p, assoc) =>
        if assoc == AssocRight {
          infixR := infixR + [p];
        } else if assoc == AssocLeft {
          infixL := infixL + [p];
        } else {
          infixN := infixN + [p];
        }
      case Prefix(p) =>
        prefix := prefix + [p];
      case Postfix(p) =>
        postfix := postfix + [p];
    }
    assert ops[..|ops|] == ops;
    level := LevelTerm(prefix, postfix, term);
    if infixL != [] {
      level := Chainl1(level, Choice(infixL));
    }
    if infixR != [] {
      level := Chainr1(level, Choice(infixR));
    }
    if infixN != [] {
      level := NonAssoc(level, Choice(infixN));
    }
  }

  /**
   * A row of left-associative operators only: the level folds
   * term op term op ... to the left.
   */
  lemma LevelFoldsLeft<T>(ops: seq<Operator<T>>, term: Parser<T>, s: State,
                          steps: seq<(Option<BinOp<T>>, Option<T>)>, end: State)
    requires Split(ops).infixR == [] && Split(ops).infixN == [] && Split(ops).infixL != []
    requires var t := LevelTerm(Split(ops).prefix, Split(ops).postfix, term);
             !t(s).Failed() && OpTrace(t, Choice(Split(ops).infixL), t(s).state, steps, end)
    ensures Level(ops, term)(s)
            == Reply(FoldLeft(LevelTerm(Split(ops).prefix, Split(ops).postfix, term)(s).value, steps), end, None)
  {
    var g := Split(ops);
    ChainlFoldsLeft(LevelTerm(g.prefix, g.postfix, term), Choice(g.infixL), s, steps, end);
  }

  // ---------------------------------------------------------- the full table

  /** `build_expression_parser(table, simple_term)`: each row is a level over the rows before it. */
  function Expression<T>(table: seq<seq<Operator<T>>>, simple: Parser<T>): Parser<T>
    decreases |table|
  {
    if table == [] then simple else Level(table[|table| - 1], Expression(table[..|table| - 1], simple))
  }

  /** The `for ops in table` loop of `build_expression_parser`. */
  method BuildExpressionParser<T>(table: seq<seq<Operator<T>>>, simple: Parser<T>) returns (term: Parser<T>)
    ensures term == Expression(table, simple)
  {
    term := simple;
    for i := 0 to |table|
      invariant term == Expression(table[..i], simple)
    {
      assert table[..i + 1][..i] == table[..i];
      term := MakeLevelParser(table[i], term);
    }
    assert table[..|table|] == table;
  }

  /**
   * The first row binds tightest: it is the level built directly over the
   * simple term, and the remaining rows are built over it.
   */
  lemma {:induction false} ExpressionFirstRowInnermost<T>(ops: seq<Operator<T>>, table: seq<seq<Operator<T>>>, simple: Parser<T>)
    ensures Expression([ops] + table, simple) == Expression(table, Level(ops, simple))
    decreases |table|
  {
    if table == [] {
      assert [ops] + table == [ops];
      assert [ops][..0] == [];
    } else {
      var init := table[..|table| - 1];
      assert ([ops] + table)[..|[ops] + table| - 1] == [ops] + init;
      ExpressionFirstRowInnermost(ops, init, simple);
    }
  }

  /** The last row is outermost: its level parser is the whole expression parser. */
  lemma ExpressionLastRowOutermost<T>(table: seq<seq<Operator<T>>>, ops: seq<Operator<T>>, simple: Parser<T>)
    ensures Expression(table + [ops], simple) == Level(ops, Expression(table, simple))
  {
    assert (table + [ops])[..|table|] == table;
  }
}

/**
 * Positions, parser states, errors and the reply triple, and the core algebra
 * on parsers: bind, alternation without backtracking after consumption, the
 * three sequencing operators and labels (pyparsec/Parsec.py).
 *
 * A parser is a function from a state to a triple (value, new state, error).
 * A reply whose error is present is a failure; a reply without error is a
 * success, and its value may still be absent (Python's `None` is also an
 * ordinary success value, which alternation treats specially).
 */
module Parsec {

  datatype Option<+T> = None | Some(value: T)

  /** The user value a state carries; every parser passes it on untouched. */
  type UserState(==, !new)

  datatype SourcePos = SourcePos(line: int, column: int, name: string)

  /** `SourcePos(name=n)`: line 1, column 1. */
  function InitialPos(name: string): SourcePos {
    SourcePos(1, 1, name)
  }

  /** (line, column) of `a` comes strictly before that of `b`, lexicographically. */
  predicate Precedes(a: SourcePos, b: SourcePos) {
    a.line < b.line || (a.line == b.line && a.column < b.column)
  }

  /**
   * The position after a token: a token that is exactly a newline moves to
   * column 1 of the next line, any other token (of any length, even empty)
   * moves one column to the right.
   */
  function Update(pos: SourcePos, token: string): (r: SourcePos)
    ensures r.name == pos.name && Precedes(pos, r)
    ensures token == "\n" ==> r.line == pos.line + 1 && r.column == 1
    ensures token != "\n" ==> r.line == pos.line && r.column == pos.column + 1
  {
    if token == "\n" then SourcePos(pos.line + 1, 1, pos.name)
    else SourcePos(pos.line, pos.column + 1, pos.name)
  }

  /** The position after reading `text` one character at a time. */
  function UpdateChars(pos: SourcePos, text: string): SourcePos
    decreases |text|
  {
    if text == [] then pos else UpdateChars(Update(pos, [text[0]]), text[1..])
  }

  lemma PrecedesTransitive(a: SourcePos, b: SourcePos, c: SourcePos)
    requires Precedes(a, b) && Precedes(b, c)
    ensures Precedes(a, c)
  {
  }

  /**
   * Reading any non-empty text moves strictly forward, so it never comes back
   * to the position it started from: equal positions before and after a
   * character-by-character parser mean that it read nothing.
   */
  lemma {:induction false} UpdateCharsAdvances(pos: SourcePos, text: string)
    requires text != []
    ensures Precedes(pos, UpdateChars(pos, text)) && UpdateChars(pos, text) != pos
    ensures UpdateChars(pos, text).name == pos.name
    decreases |text|
  {
    var next := Update(pos, [text[0]]);
    if text[1..] != [] {
      UpdateCharsAdvances(next, text[1..]);
      PrecedesTransitive(pos, next, UpdateChars(next, text[1..]));
    }
  }

  /** Reading text without a newline moves the position |text| columns to the right. */
  lemma {:induction false} UpdateCharsInLine(pos: SourcePos, text: string)
    requires '\n' !in text
    ensures UpdateChars(pos, text) == SourcePos(pos.line, pos.column + |text|, pos.name)
    decreases |text|
  {
    if text != [] {
      assert [text[0]] != "\n" && '\n' !in text[1..];
      UpdateCharsInLine(Update(pos, [text[0]]), text[1..]);
    }
  }

  /** Three spaces move the position three columns. */
  lemma ThreeSpacesPos(pos: SourcePos)
    ensures UpdateChars(pos, "   ") == SourcePos(pos.line, pos.column + 3, pos.name)
  {
    UpdateCharsInLine(pos, "   ");
  }

  /** " comment" moves the position eight columns. */
  lemma CommentTextPos(pos: SourcePos)
    ensures UpdateChars(pos, " comment") == SourcePos(pos.line, pos.column + 8, pos.name)
  {
    UpdateCharsInLine(pos, " comment");
  }

  /** A newline and two spaces end at column 3 of the next line. */
  lemma NewlineTwoSpacesPos(pos: SourcePos)
    ensures UpdateChars(pos, "\n  ") == SourcePos(pos.line + 1, 3, pos.name)
  {
    NewlineThenInLine(pos, "\n  ");
  }

  /** A newline, then text without one: column |text| of the next line. */
  lemma NewlineThenInLine(pos: SourcePos, text: string)
    requires |text| > 0 && text[0] == '\n' && '\n' !in text[1..]
    ensures UpdateChars(pos, text) == SourcePos(pos.line + 1, |text|, pos.name)
  {
    assert [text[0]] == "\n";
    UpdateCharsInLine(Update(pos, "\n"), text[1..]);
  }

  datatype State = State(input: string, pos: SourcePos, user: UserState)

  datatype ParseError = ParseError(pos: SourcePos, message: string)

  /** The triple (value, new state, error). */
  datatype Reply<+T> = Reply(value: Option<T>, state: State, error: Option<ParseError>) {
    predicate Failed() {
      error.Some?
    }
  }

  type Parser<T> = State -> Reply<T>

  /** The remaining input changed: the test `|` and `label` use for "consumed". */
  predicate Consumed<T>(s: State, r: Reply<T>) {
    r.state.input != s.input
  }

  /**
   * What the model returns where the source would recurse or loop forever
   * without consuming: an error at the state reached.
   */
  function NoProgress<T>(t: State): (r: Reply<T>)
    ensures r.Failed() && r.state == t && r.value.None?
  {
    Reply(None, t, Some(ParseError(t.pos, "no progress")))
  }

  /** Every success that moves the position also shortens the input. */
  ghost predicate Advancing<T>(p: Parser<T>) {
    forall s: State :: !p(s).Failed() && p(s).state.pos != s.pos ==> |p(s).state.input| < |s.input|
  }

  /** Every success shortens the input. */
  ghost predicate Consuming<T>(p: Parser<T>) {
    forall s: State :: !p(s).Failed() ==> |p(s).state.input| < |s.input|
  }

  /** No success lengthens the input. */
  ghost predicate NonGrowing<T>(p: Parser<T>) {
    forall s: State :: !p(s).Failed() ==> |p(s).state.input| <= |s.input|
  }

  lemma ConsumingIsAdvancing<T>(p: Parser<T>)
    requires Consuming(p)
    ensures Advancing(p) && NonGrowing(p)
  {
  }

  /**
   * Monadic bind: a failure of `p` is passed on with p's state and error and
   * `f` is never called; otherwise `f` applied to p's value runs on p's state.
   */
  function Bind<T, U>(p: Parser<T>, f: Option<T> -> Parser<U>): (q: Parser<U>)
    ensures forall s: State {:trigger q(s)} :: p(s).Failed() ==> q(s) == Reply(None, p(s).state, p(s).error)
    ensures forall s: State {:trigger q(s)} :: !p(s).Failed() ==> q(s) == f(p(s).value)(p(s).state)
  {
    (s: State) =>
      var r := p(s);
      if r.Failed() then Reply(None, r.state, r.error)
      else f(r.value)(r.state)
  }

  /**
   * Alternation `p | q`: p's result when p succeeds with a value; q on the
   * original state when p left the remaining input as it was (a failure, or a
   * success whose value is None); otherwise p's state and error, and q is
   * never tried.
   */
  function Or<T>(p: Parser<T>, q: Parser<T>): (r: Parser<T>)
    ensures forall s: State {:trigger r(s)} :: p(s).value.Some? && !p(s).Failed() ==> r(s) == p(s)
    ensures forall s: State {:trigger r(s)} :: !(p(s).value.Some? && !p(s).Failed()) && !Consumed(s, p(s)) ==> r(s) == q(s)
    ensures forall s: State {:trigger r(s)} :: !(p(s).value.Some? && !p(s).Failed()) && Consumed(s, p(s)) ==>
              r(s) == Reply(None, p(s).state, p(s).error)
  {
    (s: State) =>
      var a := p(s);
      if a.value.Some? && !a.Failed() then Reply(a.value, a.state, None)
      else if s.input == a.state.input then q(s)
      else Reply(None, a.state, a.error)
  }

  /** Once `p` has consumed, the alternative is irrelevant: no backtracking. */
  lemma OrCommits<T>(p: Parser<T>, q1: Parser<T>, q2: Parser<T>, s: State)
    requires Consumed(s, p(s))
    ensures Or(p, q1)(s) == Or(p, q2)(s)
    ensures Or(p, q1)(s).state == p(s).state
  {
  }

  /** A success of p that consumed is the result of `p | q`, whatever its value. */
  lemma OrKeepsConsumedSuccess<T>(p: Parser<T>, q: Parser<T>, s: State)
    requires !p(s).Failed() && Consumed(s, p(s))
    ensures Or(p, q)(s) == p(s)
  {
  }

  /** Sequence `p & q`: runs both in turn and pairs their values; stops at the first error. */
  function And<T, U>(p: Parser<T>, q: Parser<U>): (r: Parser<(Option<T>, Option<U>)>)
    ensures forall s: State {:trigger r(s)} :: p(s).Failed() ==> r(s) == Reply(None, p(s).state, p(s).error)
    ensures forall s: State {:trigger r(s)} :: !p(s).Failed() && q(p(s).state).Failed() ==>
              r(s) == Reply(None, q(p(s).state).state, q(p(s).state).error)
    ensures forall s: State {:trigger r(s)} :: !p(s).Failed() && !q(p(s).state).Failed() ==>
              r(s) == Reply(Some((p(s).value, q(p(s).state).value)), q(p(s).state).state, None)
  {
    (s: State) =>
      var a := p(s);
      if a.Failed() then Reply(None, a.state, a.error)
      else
        var b := q(a.state);
        if b.Failed() then Reply(None, b.state, b.error)
        else Reply(Some((a.value, b.value)), b.state, None)
  }

  /** Sequence `p > q` (`*>`): runs both in turn and keeps q's value. */
  function SeqRight<T, U>(p: Parser<T>, q: Parser<U>): (r: Parser<U>)
    ensures forall s: State {:trigger r(s)} :: p(s).Failed() ==> r(s) == Reply(None, p(s).state, p(s).error)
    ensures forall s: State {:trigger r(s)} :: !p(s).Failed() && q(p(s).state).Failed() ==>
              r(s) == Reply(None, q(p(s).state).state, q(p(s).state).error)
    ensures forall s: State {:trigger r(s)} :: !p(s).Failed() && !q(p(s).state).Failed() ==>
              r(s) == Reply(q(p(s).state).value, q(p(s).state).state, None)
  {
    (s: State) =>
      var a := p(s);
      if a.Failed() then Reply(None, a.state, a.error)
      else
        var b := q(a.state);
        if b.Failed() then Reply(None, b.state, b.error)
        else Reply(b.value, b.state, None)
  }

  /** Sequence `p < q` (`<*`): runs both in turn and keeps p's value. */
  function SeqLeft<T, U>(p: Parser<T>, q: Parser<U>): (r: Parser<T>)
    ensures forall s: State {:trigger r(s)} :: p(s).Failed() ==> r(s) == Reply(None, p(s).state, p(s).error)
    ensures forall s: State {:trigger r(s)} :: !p(s).Failed() && q(p(s).state).Failed() ==>
              r(s) == Reply(None, q(p(s).state).state, q(p(s).state).error)
    ensures forall s: State {:trigger r(s)} :: !p(s).Failed() && !q(p(s).state).Failed() ==>
              r(s) == Reply(p(s).value, q(p(s).state).state, None)
  {
    (s: State) =>
      var a := p(s);
      if a.Failed() then Reply(None, a.state, a.error)
      else
        var b := q(a.state);
        if b.Failed() then Reply(None, b.state, b.error)
        else Reply(a.value, b.state, None)
  }

  /** The message a label gives. */
  function Expecting(msg: string): string {
    "expecting " + msg
  }

  /**
   * `p.label(msg)`: a failure that left the remaining input as it was gets the
   * single message "expecting msg" at the original position (p's state is
   * kept); successes and failures after consumption pass through.
   */
  function Label<T>(p: Parser<T>, msg: string): (r: Parser<T>)
    ensures forall s: State {:trigger r(s)} :: p(s).Failed() && !Consumed(s, p(s)) ==>
              r(s) == Reply(None, p(s).state, Some(ParseError(s.pos, Expecting(msg))))
    ensures forall s: State {:trigger r(s)} :: !(p(s).Failed() && !Consumed(s, p(s))) ==> r(s) == p(s)
  {
    (s: State) =>
      var a := p(s);
      if a.Failed() && s.input == a.state.input then Reply(None, a.state, Some(ParseError(s.pos, Expecting(msg))))
      else a
  }

  /** A label changes only error messages: never a value, a state, or whether the parser failed. */
  lemma LabelKeepsOutcome<T>(p: Parser<T>, msg: string, s: State)
    ensures Label(p, msg)(s).state == p(s).state
    ensures Label(p, msg)(s).Failed() == p(s).Failed()
    ensures !p(s).Failed() ==> Label(p, msg)(s).value == p(s).value
  {
  }

  /** The sequencing operators are the pair operator with one side projected away. */
  lemma SequencingAgree<T, U>(p: Parser<T>, q: Parser<U>, s: State)
    ensures SeqRight(p, q)(s).state == And(p, q)(s).state == SeqLeft(p, q)(s).state
    ensures SeqRight(p, q)(s).error == And(p, q)(s).error == SeqLeft(p, q)(s).error
    ensures And(p, q)(s).value.Some? ==>
              SeqLeft(p, q)(s).value == And(p, q)(s).value.value.0 &&
              SeqRight(p, q)(s).value == And(p, q)(s).value.value.1
  {
  }

  /** Composition keeps the hypotheses that make recursive parsers terminate. */
  lemma BindConsuming<T, U>(p: Parser<T>, f: Option<T> -> Parser<U>)
    requires Consuming(p)
    requires forall v :: NonGrowing(f(v))
    ensures Consuming(Bind(p, f))
  {
    forall s | !Bind(p, f)(s).Failed()
      ensures |Bind(p, f)(s).state.input| < |s.input|
    {
      var a := p(s);
      assert !a.Failed();
      assert NonGrowing(f(a.value));
    }
  }

  lemma BindNonGrowing<T, U>(p: Parser<T>, f: Option<T> -> Parser<U>)
    requires NonGrowing(p)
    requires forall v :: NonGrowing(f(v))
    ensures NonGrowing(Bind(p, f))
  {
    forall s | !Bind(p, f)(s).Failed()
      ensures |Bind(p, f)(s).state.input| <= |s.input|
    {
      var a := p(s);
      assert !a.Failed();
      assert NonGrowing(f(a.value));
    }
  }

  /** A bind after a non-growing parser consumes when its continuation always does. */
  lemma BindThenConsuming<T, U>(p: Parser<T>, f: Option<T> -> Parser<U>)
    requires NonGrowing(p)
    requires forall v :: Consuming(f(v))
    ensures Consuming(Bind(p, f))
  {
    forall s | !Bind(p, f)(s).Failed()
      ensures |Bind(p, f)(s).state.input| < |s.input|
    {
      var a := p(s);
      assert !a.Failed();
      assert Consuming(f(a.value));
    }
  }

  lemma OrConsuming<T>(p: Parser<T>, q: Parser<T>)
    requires Consuming(p) && Consuming(q)
    ensures Consuming(Or(p, q))
  {
  }

  lemma OrNonGrowing<T>(p: Parser<T>, q: Parser<T>)
    requires NonGrowing(p) && NonGrowing(q)
    ensures NonGrowing(Or(p, q))
  {
  }

  lemma LabelConsuming<T>(p: Parser<T>, msg: string)
    requires Consuming(p)
    ensures Consuming(Label(p, msg))
  {
  }
}

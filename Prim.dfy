/**
 * The primitive parsers of pyparsec/Prim.py: pure, fail, try, look-ahead,
 * single tokens and literal token sequences, and the repetition loop behind
 * many and skip_many with its guard against iterations that do not move.
 */
module Prim {
  import opened Parsec

  /** `pure(v)`: succeeds with `v` and leaves the state alone. */
  function Pure<T>(v: Option<T>): (p: Parser<T>)
    ensures forall s: State :: p(s) == Reply(v, s, None)
  {
    (s: State) => Reply(v, s, None)
  }

  /** `fail(msg)`: fails with `msg` at the current position and leaves the state alone. */
  function Fail<T>(msg: string): (p: Parser<T>)
    ensures forall s: State :: p(s) == Reply(None, s, Some(ParseError(s.pos, msg)))
  {
    (s: State) => Reply(None, s, Some(ParseError(s.pos, msg)))
  }

  /** `try_parse(p)`: p's success as it is; on failure p's error with the original state. */
  function TryParse<T>(p: Parser<T>): (q: Parser<T>)
    ensures forall s: State {:trigger q(s)} :: !p(s).Failed() ==> q(s) == p(s)
    ensures forall s: State {:trigger q(s)} :: p(s).Failed() ==> q(s) == Reply(None, s, p(s).error)
  {
    (s: State) =>
      var r := p(s);
      if r.Failed() then Reply(None, s, r.error) else r
  }

  /** `look_ahead(p)`: p's value or p's error, always with the original state. */
  function LookAhead<T>(p: Parser<T>): (q: Parser<T>)
    ensures forall s: State :: q(s).state == s && q(s).error == p(s).error
    ensures forall s: State :: q(s).value == if p(s).Failed() then None else p(s).value
  {
    (s: State) =>
      var r := p(s);
      if r.Failed() then Reply(None, s, r.error) else Reply(r.value, s, None)
  }

  /**
   * `token(show, test)`: at end of input fails with "unexpected EOF"; when the
   * test gives None fails with "unexpected <shown token>"; in both cases the
   * state is kept. Otherwise drops exactly the first item, moves the position
   * over it and returns what the test gave.
   */
  function Token<T>(show: char -> string, test: char -> Option<T>): (p: Parser<T>)
    ensures forall s: State :: |s.input| == 0 ==> p(s) == Reply(None, s, Some(ParseError(s.pos, "unexpected EOF")))
    ensures forall s: State :: |s.input| > 0 && test(s.input[0]).None? ==>
              p(s) == Reply(None, s, Some(ParseError(s.pos, "unexpected " + show(s.input[0]))))
    ensures forall s: State :: |s.input| > 0 && test(s.input[0]).Some? ==>
              p(s) == Reply(test(s.input[0]), State(s.input[1..], Update(s.pos, [s.input[0]]), s.user), None)
  {
    (s: State) =>
      if |s.input| == 0 then Reply(None, s, Some(ParseError(s.pos, "unexpected EOF")))
      else
        var tok := s.input[0];
        var result := test(tok);
        if result.None? then Reply(None, s, Some(ParseError(s.pos, "unexpected " + show(tok))))
        else Reply(result, State(s.input[1..], Update(s.pos, [tok]), s.user), None)
  }

  lemma TokenConsuming<T>(show: char -> string, test: char -> Option<T>)
    ensures Consuming(Token(show, test))
  {
  }

  const ManyGuardMessage: string :=
    "_many_accum: Applied parser succeeded without consuming input, which would lead to an infinite loop."

  /**
   * The loop of `_many_accum` from accumulated value `acc`, as a recursive
   * function: a failure of `p` at the same position ends the loop with `acc`
   * and the state before the attempt; a failure that moved is returned as
   * p's error and state; a success that did not move is an error at the
   * current position; otherwise `p`'s value is folded in and the loop goes
   * on. Where p moves the position without shortening the input, the source
   * loops forever and the model stops with NoProgress.
   */
  function ManyAccumRun<I, A>(combine: (Option<I>, Option<A>) -> Option<A>, p: Parser<I>, acc: Option<A>, s: State): Reply<A>
    decreases |s.input|
  {
    var r := p(s);
    if r.Failed() then
      if s.pos == r.state.pos then Reply(acc, s, None)
      else Reply(None, r.state, r.error)
    else if s.pos == r.state.pos then Reply(None, s, Some(ParseError(s.pos, ManyGuardMessage)))
    else if |r.state.input| < |s.input| then ManyAccumRun(combine, p, combine(r.value, acc), r.state)
    else NoProgress(r.state)
  }

  /** The `while True` loop of `_many_accum`, proved to compute ManyAccumRun. */
  method ManyAccumLoop<I, A>(combine: (Option<I>, Option<A>) -> Option<A>, p: Parser<I>, empty: Option<A>, start: State)
    returns (result: Reply<A>)
    requires Advancing(p)
    ensures result == ManyAccumRun(combine, p, empty, start)
  {
    var acc := empty;
    var st := start;
    while true
      invariant ManyAccumRun(combine, p, acc, st) == ManyAccumRun(combine, p, empty, start)
      decreases |st.input|
    {
      var r := p(st);
      if r.Failed() {
        if st.pos == r.state.pos {
          return Reply(acc, st, None);
        }
        return Reply(None, r.state, r.error);
      }
      if st.pos == r.state.pos {
        return Reply(None, st, Some(ParseError(st.pos, ManyGuardMessage)));
      }
      acc := combine(r.value, acc);
      st := r.state;
    }
  }

  /** `_many_accum(combine, p, empty)`. */
  function ManyAccum<I, A>(combine: (Option<I>, Option<A>) -> Option<A>, p: Parser<I>, empty: Option<A>): Parser<A>
  {
    (s: State) => ManyAccumRun(combine, p, empty, s)
  }

  /** The list inside an accumulated list value (many starts from [] and only appends, so it is never None). */
  function Items<T>(acc: Option<seq<T>>): seq<T> {
    if acc.Some? then acc.value else []
  }

  /** many's accumulator: append the item at the end. */
  function AppendItem<I>(item: Option<I>, acc: Option<seq<Option<I>>>): Option<seq<Option<I>>> {
    Some(Items(acc) + [item])
  }

  /** skip_many's accumulator: keep nothing. */
  function Discard<I, A>(item: Option<I>, acc: Option<A>): Option<A> {
    None
  }

  /** `many(p)`: zero or more p, values in input order. */
  function Many<T>(p: Parser<T>): Parser<seq<Option<T>>> {
    ManyAccum(AppendItem, p, Some([]))
  }

  /** `skip_many(p)`: zero or more p, value None. */
  function SkipMany<T, A>(p: Parser<T>): Parser<A> {
    ManyAccum(Discard, p, None)
  }

  /** The guard: `many(pure(v))` does not loop but fails at once, at the current state. */
  lemma ManyOfPureFails<T>(v: Option<T>, s: State)
    ensures Many(Pure(v))(s) == Reply(None, s, Some(ParseError(s.pos, ManyGuardMessage)))
  {
  }

  /** `from` is `base` with `pre` in front of its list: same state, same error, and pre + items when base has items. */
  ghost predicate Prepends<T>(from: Reply<seq<Option<T>>>, base: Reply<seq<Option<T>>>, pre: seq<Option<T>>) {
    from.state == base.state && from.error == base.error &&
    from.value == (if base.value.Some? then Some(pre + base.value.value) else None)
  }

  /** Putting pre + [v] in front of c, where [v] in front of c gives b, is putting pre in front of b. */
  lemma PrependsCompose<T>(a: Reply<seq<Option<T>>>, b: Reply<seq<Option<T>>>, c: Reply<seq<Option<T>>>, pre: seq<Option<T>>, v: Option<T>)
    requires Prepends(a, c, pre + [v]) && Prepends(b, c, [v])
    ensures Prepends(a, b, pre)
  {
    if c.value.Some? {
      assert pre + [v] + c.value.value == pre + ([v] + c.value.value);
    }
  }

  /**
   * Accumulation order: running the loop from a list `pre` gives `pre`
   * followed by what the loop gives from the empty list, so the items come out
   * in the order they were parsed.
   */
  lemma {:induction false} ManyAppendsInOrder<T>(p: Parser<T>, pre: seq<Option<T>>, s: State)
    ensures Prepends(ManyAccumRun(AppendItem, p, Some(pre), s), ManyAccumRun(AppendItem, p, Some([]), s), pre)
    decreases |s.input|
  {
    var r := p(s);
    if !r.Failed() && s.pos != r.state.pos && |r.state.input| < |s.input| {
      var v := r.value;
      var empty: seq<Option<T>> := [];
      var a := ManyAccumRun(AppendItem, p, Some(pre + [v]), r.state);
      var b := ManyAccumRun(AppendItem, p, Some([v]), r.state);
      var c := ManyAccumRun(AppendItem, p, Some(empty), r.state);
      assert ManyAccumRun(AppendItem, p, Some(pre), s) == a by {
        ManyAccumStep(AppendItem, p, Some(pre), s, v, r.state);
      }
      assert ManyAccumRun(AppendItem, p, Some(empty), s) == b by {
        ManyAccumStep(AppendItem, p, Some(empty), s, v, r.state);
        assert Items(Some(empty)) + [v] == [v];
      }
      ManyAppendsInOrder(p, pre + [v], r.state);
      ManyAppendsInOrder(p, [v], r.state);
      PrependsCompose(a, b, c, pre, v);
    } else {
      assert pre + [] == pre;
    }
  }

  /** One more round of many's loop: p read v and moved on, so v is folded in and the loop goes on from there. */
  lemma ManyAccumStep<I, A>(combine: (Option<I>, Option<A>) -> Option<A>, p: Parser<I>, acc: Option<A>, s: State,
                            v: Option<I>, t: State)
    requires p(s) == Reply(v, t, None) && t.pos != s.pos && |t.input| < |s.input|
    ensures ManyAccumRun(combine, p, acc, s) == ManyAccumRun(combine, p, combine(v, acc), t)
  {
  }

  /**
   * A success of the loop always ends at a state where p failed without
   * moving, and its value is the accumulator at that point: p was tried once
   * more and declined.
   */
  lemma {:induction false} ManySuccessEndsAtDecline<I, A>(combine: (Option<I>, Option<A>) -> Option<A>, p: Parser<I>, acc: Option<A>, s: State)
    requires !ManyAccumRun(combine, p, acc, s).Failed()
    ensures var t := ManyAccumRun(combine, p, acc, s).state;
            p(t).Failed() && p(t).state.pos == t.pos && |t.input| <= |s.input|
    decreases |s.input|
  {
    var r := p(s);
    if !r.Failed() && s.pos != r.state.pos && |r.state.input| < |s.input| {
      ManySuccessEndsAtDecline(combine, p, combine(r.value, acc), r.state);
    }
  }

  /** skip_many's value is always None, whatever p returns. */
  lemma {:induction false} SkipManyValueIsNone<I, A>(p: Parser<I>, acc: Option<A>, s: State)
    requires acc.None?
    ensures ManyAccumRun(Discard, p, acc, s).value.None?
    decreases |s.input|
  {
    var r := p(s);
    if !r.Failed() && s.pos != r.state.pos && |r.state.input| < |s.input| {
      SkipManyValueIsNone(p, Discard(r.value, acc), r.state);
    }
  }

  /** A success of many carries a list; a failure carries none. */
  lemma {:induction false} ManyValueIsList<T>(p: Parser<T>, pre: seq<Option<T>>, s: State)
    ensures ManyAccumRun(AppendItem, p, Some(pre), s).value.Some? == !ManyAccumRun(AppendItem, p, Some(pre), s).Failed()
    decreases |s.input|
  {
    var r := p(s);
    if !r.Failed() && s.pos != r.state.pos && |r.state.input| < |s.input| {
      ManyValueIsList(p, pre + [r.value], r.state);
    }
  }

  /** The repetition never lengthens the input. */
  lemma {:induction false} ManyAccumNonGrowing<I, A>(combine: (Option<I>, Option<A>) -> Option<A>, p: Parser<I>, acc: Option<A>, s: State)
    ensures !ManyAccumRun(combine, p, acc, s).Failed() ==> |ManyAccumRun(combine, p, acc, s).state.input| <= |s.input|
    decreases |s.input|
  {
    var r := p(s);
    if !r.Failed() && s.pos != r.state.pos && |r.state.input| < |s.input| {
      ManyAccumNonGrowing(combine, p, combine(r.value, acc), r.state);
    }
  }

  lemma ManyNonGrowing<T>(p: Parser<T>)
    ensures NonGrowing(Many(p))
  {
    forall s: State ensures !Many(p)(s).Failed() ==> |Many(p)(s).state.input| <= |s.input| {
      ManyAccumNonGrowing(AppendItem, p, Some([]), s);
    }
  }

  lemma SkipManyNonGrowing<T, A>(p: Parser<T>)
    ensures NonGrowing(SkipMany<T, A>(p))
  {
    forall s: State ensures !SkipMany<T, A>(p)(s).Failed() ==> |SkipMany<T, A>(p)(s).state.input| <= |s.input| {
      ManyAccumNonGrowing<T, A>(Discard, p, None, s);
    }
  }

  /** `run_parser`: runs `p` from line 1, column 1 of `name` and returns (value, error). */
  function RunParser<T>(p: Parser<T>, input: string, user: UserState, name: string): (Option<T>, Option<ParseError>) {
    var r := p(State(input, InitialPos(name), user));
    (r.value, r.error)
  }

  predicate StartsWith(input: string, prefix: string) {
    |prefix| <= |input| && input[..|prefix|] == prefix
  }

  /** The message of a failed literal match: "expected <shown>, got '<prefix or EOF>'". */
  function TokensMessage(show: string -> string, input: string, target: string): string {
    var actual := if |input| >= |target| then input[..|target|] else "EOF";
    "expected " + show(target) + ", got '" + actual + "'"
  }

  /**
   * `tokens(show, next_pos, target)`: succeeds exactly when the input starts
   * with `target`, returning it, dropping |target| items and moving the
   * position by `next_pos`; otherwise fails at the original state.
   */
  function Tokens(show: string -> string, nextPos: (SourcePos, string) -> SourcePos, target: string): (p: Parser<string>)
    ensures forall s: State :: StartsWith(s.input, target) ==>
              p(s) == Reply(Some(target), State(s.input[|target|..], nextPos(s.pos, target), s.user), None)
    ensures forall s: State :: !StartsWith(s.input, target) ==>
              p(s) == Reply(None, s, Some(ParseError(s.pos, TokensMessage(show, s.input, target))))
  {
    (s: State) =>
      if StartsWith(s.input, target) then Reply(Some(target), State(s.input[|target|..], nextPos(s.pos, target), s.user), None)
      else Reply(None, s, Some(ParseError(s.pos, TokensMessage(show, s.input, target))))
  }

  /** `tokens_prime`: the same test as `tokens`, but a success keeps the original state. */
  function TokensPrime(show: string -> string, nextPos: (SourcePos, string) -> SourcePos, target: string): (p: Parser<string>)
    ensures forall s: State :: StartsWith(s.input, target) ==> p(s) == Reply(Some(target), s, None)
    ensures forall s: State :: !StartsWith(s.input, target) ==> p(s) == Tokens(show, nextPos, target)(s)
  {
    (s: State) =>
      if StartsWith(s.input, target) then Reply(Some(target), s, None)
      else Reply(None, s, Some(ParseError(s.pos, TokensMessage(show, s.input, target))))
  }

  /** The empty literal always matches, and `tokens_prime` is `tokens` seen through look-ahead. */
  lemma TokensPrimeIsLookAhead(show: string -> string, nextPos: (SourcePos, string) -> SourcePos, target: string, s: State)
    ensures TokensPrime(show, nextPos, target)(s) == LookAhead(Tokens(show, nextPos, target))(s)
    ensures target == [] ==> !Tokens(show, nextPos, target)(s).Failed() && Tokens(show, nextPos, target)(s).state.input == s.input
  {
    assert target == [] ==> s.input[..|target|] == target;
  }

  /** A non-empty literal consumes whenever it matches. */
  lemma TokensConsuming(show: string -> string, nextPos: (SourcePos, string) -> SourcePos, target: string)
    requires target != []
    ensures Consuming(Tokens(show, nextPos, target))
  {
  }

  // `.map` and `>>` applied to a parser are used by the derived combinators
  // and the lexeme layer but not defined next to bind; they are taken to be
  // the usual monadic derivations.

  /** `p.map(f)`, taken to be `bind(p, v => pure(f(v)))`. */
  function Map<T, U>(p: Parser<T>, f: Option<T> -> U): (q: Parser<U>)
    ensures forall s: State {:trigger q(s)} :: !p(s).Failed() ==> q(s) == Reply(Some(f(p(s).value)), p(s).state, None)
    ensures forall s: State {:trigger q(s)} :: p(s).Failed() ==> q(s) == Reply(None, p(s).state, p(s).error)
  {
    Bind(p, (v: Option<T>) => Pure(Some(f(v))))
  }

  /** `p >> q` for a parser q, taken to be `bind(p, _ => q)`. */
  function Then<T, U>(p: Parser<T>, q: Parser<U>): (r: Parser<U>)
    ensures forall s: State {:trigger r(s)} :: !p(s).Failed() ==> r(s) == q(p(s).state)
    ensures forall s: State {:trigger r(s)} :: p(s).Failed() ==> r(s) == Reply(None, p(s).state, p(s).error)
  {
    Bind(p, (_: Option<T>) => q)
  }

  /** map over `p >> q` when both succeed: f applied to q's value, at q's state. */
  lemma MapThen<T, U, V>(p: Parser<T>, q: Parser<U>, f: Option<U> -> V, s: State)
    requires !p(s).Failed() && !q(p(s).state).Failed()
    ensures Map(Then(p, q), f)(s) == Reply(Some(f(q(p(s).state).value)), q(p(s).state).state, None)
  {
  }

  /** Monad law: left identity. */
  lemma LeftIdentity<T, U>(v: Option<T>, f: Option<T> -> Parser<U>, s: State)
    ensures Bind(Pure(v), f)(s) == f(v)(s)
  {
  }

  /** Monad law: right identity, for a parser whose failures carry no value. */
  lemma RightIdentity<T>(m: Parser<T>, s: State)
    requires m(s).Failed() ==> m(s).value.None?
    ensures Bind(m, Pure)(s) == m(s)
  {
  }

  /** Monad law: associativity. */
  lemma Associativity<T, U, V>(m: Parser<T>, f: Option<T> -> Parser<U>, g: Option<U> -> Parser<V>, s: State)
    ensures Bind(Bind(m, f), g)(s) == Bind(m, (x: Option<T>) => Bind(f(x), g))(s)
  {
  }

  lemma PureNonGrowing<T>(v: Option<T>)
    ensures NonGrowing(Pure(v)) && Advancing(Pure(v))
  {
  }

  lemma TryParseConsuming<T>(p: Parser<T>)
    requires Consuming(p)
    ensures Consuming(TryParse(p))
  {
  }

  lemma ThenConsuming<T, U>(p: Parser<T>, q: Parser<U>)
    requires Consuming(p) && NonGrowing(q)
    ensures Consuming(Then(p, q))
  {
    BindConsuming(p, (_: Option<T>) => q);
  }

  lemma MapConsuming<T, U>(p: Parser<T>, f: Option<T> -> U)
    requires Consuming(p)
    ensures Consuming(Map(p, f))
  {
  }

  lemma MapNonGrowing<T, U>(p: Parser<T>, f: Option<T> -> U)
    requires NonGrowing(p)
    ensures NonGrowing(Map(p, f))
  {
  }
}

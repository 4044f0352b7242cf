/**
 * The derived combinators of pyparsec/Combinators.py: choice, count,
 * between, the option family, the one-or-more repetitions, the separated and
 * terminated lists, the operator chains, not-followed-by, end of input and
 * many-till.
 *
 * Combinators that refer to themselves (chainl1's rest, chainr1's scan,
 * many_till's scan, and sep_end_by1 through sep_end_by) are written in two
 * parts: a `...Step` that is the source's body with the recursive parser
 * passed in as an argument, and a `...Run` that passes in the recursion
 * itself, guarded so that it is only entered on a strictly shorter input
 * (and otherwise stops with NoProgress, where the source would recurse
 * forever). The `...Unfolds` lemmas show that, under the hypotheses that make
 * the source's recursion terminate, the guard never fires and the Run is
 * exactly the fixed point of the Step.
 */
module Combinators {
  import opened Parsec
  import opened Prim
  import opened Numerals

  /** A Python list of parse results, each of which may be None. */
  type List<T> = seq<Option<T>>

  /** `[x] + xs` on list values (xs is always a list where it is used). */
  function Cons<T>(x: Option<T>, xs: Option<List<T>>): (r: Option<List<T>>)
    ensures r.Some? && r.value == [x] + Items(xs)
  {
    Some([x] + Items(xs))
  }

  /** A reply that lets `|` try the alternative: no value-carrying success, and the remaining input unchanged. */
  predicate Declines<T>(s: State, r: Reply<T>) {
    !(r.value.Some? && !r.Failed()) && !Consumed(s, r)
  }

  // ---------------------------------------------------------------- choice

  /** The left fold of `|` over a non-empty list, as `choice` builds it. */
  function ChoiceFold<T>(ps: seq<Parser<T>>): Parser<T>
    requires |ps| > 0
    decreases |ps|
  {
    if |ps| == 1 then ps[0] else Or(ChoiceFold(ps[..|ps| - 1]), ps[|ps| - 1])
  }

  /** `choice(ps)`: "no alternatives" for the empty list, else the left fold of `|`. */
  function Choice<T>(ps: seq<Parser<T>>): Parser<T> {
    if ps == [] then Fail("no alternatives") else ChoiceFold(ps)
  }

  /** The loop that builds `choice(ps)`, proved to build the fold. */
  method BuildChoice<T>(ps: seq<Parser<T>>) returns (result: Parser<T>)
    ensures result == Choice(ps)
  {
    if |ps| == 0 {
      return Fail("no alternatives");
    }
    result := ps[0];
    for i := 1 to |ps|
      invariant result == ChoiceFold(ps[..i])
    {
      assert ps[..i + 1][..i] == ps[..i];
      result := Or(result, ps[i]);
    }
    assert ps[..|ps|] == ps;
  }

  /** `choice([])` fails with "no alternatives" at the current state. */
  lemma ChoiceEmpty<T>(s: State)
    ensures Choice<T>([])(s) == Reply(None, s, Some(ParseError(s.pos, "no alternatives")))
  {
  }

  /** An alternative that declines is skipped: choice goes on with the rest of the list. */
  lemma {:induction false} ChoiceSkipsDeclined<T>(ps: seq<Parser<T>>, k: nat, s: State)
    requires k < |ps|
    requires forall j :: 0 <= j < k ==> Declines(s, ps[j](s))
    ensures Choice(ps)(s) == Choice(ps[k..])(s)
    decreases |ps|
  {
    if k == 0 {
      assert ps[k..] == ps;
    } else if k == |ps| - 1 {
      ChoiceFoldDeclines(ps[..|ps| - 1], s);
      assert ps[k..] == [ps[|ps| - 1]];
    } else {
      var init := ps[..|ps| - 1];
      ChoiceSkipsDeclined(init, k, s);
      assert ps[k..][..|ps[k..]| - 1] == init[k..];
    }
  }

  /** A fold of alternatives that all decline gives the last one's reply. */
  lemma {:induction false} ChoiceFoldDeclines<T>(ps: seq<Parser<T>>, s: State)
    requires |ps| > 0
    requires forall j :: 0 <= j < |ps| ==> Declines(s, ps[j](s))
    ensures ChoiceFold(ps)(s) == ps[|ps| - 1](s)
    decreases |ps|
  {
    if |ps| > 1 {
      ChoiceFoldDeclines(ps[..|ps| - 1], s);
    }
  }

  /** An alternative that succeeds with a value wins against everything after it. */
  lemma {:induction false} ChoiceHeadWins<T>(ps: seq<Parser<T>>, s: State)
    requires |ps| > 0 && ps[0](s).value.Some? && !ps[0](s).Failed()
    ensures Choice(ps)(s) == ps[0](s)
    decreases |ps|
  {
    if |ps| > 1 {
      ChoiceHeadWins(ps[..|ps| - 1], s);
    }
  }

  /**
   * An alternative that reads something and yet has no value (a failure, or
   * a success with None) ends the choice: its reply is choice's reply.
   */
  lemma {:induction false} ChoiceHeadCommits<T>(ps: seq<Parser<T>>, s: State)
    requires |ps| > 0 && ps[0](s).value.None? && Consumed(s, ps[0](s))
    ensures Choice(ps)(s) == ps[0](s)
    decreases |ps|
  {
    if |ps| > 1 {
      ChoiceHeadCommits(ps[..|ps| - 1], s);
    }
  }

  /** The first alternative to succeed with a value, after alternatives that declined, gives choice's reply. */
  lemma ChoiceFirstSuccess<T>(ps: seq<Parser<T>>, k: nat, s: State)
    requires k < |ps|
    requires forall j :: 0 <= j < k ==> Declines(s, ps[j](s))
    requires ps[k](s).value.Some? && !ps[k](s).Failed()
    ensures Choice(ps)(s) == ps[k](s)
  {
    ChoiceSkipsDeclined(ps, k, s);
    ChoiceHeadWins(ps[k..], s);
  }

  /** A choice of two alternatives: the first that does not decline gives the reply. */
  lemma ChoiceOfTwo<T>(a: Parser<T>, b: Parser<T>, s: State)
    ensures a(s).value.Some? && !a(s).Failed() ==> Choice([a, b])(s) == a(s)
    ensures Declines(s, a(s)) ==> Choice([a, b])(s) == b(s)
  {
    if a(s).value.Some? && !a(s).Failed() {
      ChoiceFirstSuccess([a, b], 0, s);
    } else if Declines(s, a(s)) {
      ChoiceSkipsDeclined([a, b], 1, s);
      assert [a, b][1..] == [b];
    }
  }

  /** A choice of four alternatives: the first that does not decline gives the reply. */
  lemma ChoiceOfFour<T>(a: Parser<T>, b: Parser<T>, c: Parser<T>, d: Parser<T>, s: State)
    ensures a(s).value.Some? && !a(s).Failed() ==> Choice([a, b, c, d])(s) == a(s)
    ensures Declines(s, a(s)) && b(s).value.Some? && !b(s).Failed() ==> Choice([a, b, c, d])(s) == b(s)
    ensures Declines(s, a(s)) && Declines(s, b(s)) && c(s).value.Some? && !c(s).Failed() ==> Choice([a, b, c, d])(s) == c(s)
    ensures Declines(s, a(s)) && Declines(s, b(s)) && Declines(s, c(s)) && d(s).value.Some? && !d(s).Failed() ==>
              Choice([a, b, c, d])(s) == d(s)
  {
    var ps := [a, b, c, d];
    if a(s).value.Some? && !a(s).Failed() {
      ChoiceFirstSuccess(ps, 0, s);
    } else if Declines(s, a(s)) {
      if b(s).value.Some? && !b(s).Failed() {
        ChoiceFirstSuccess(ps, 1, s);
      } else if Declines(s, b(s)) {
        if c(s).value.Some? && !c(s).Failed() {
          ChoiceFirstSuccess(ps, 2, s);
        } else if Declines(s, c(s)) && d(s).value.Some? && !d(s).Failed() {
          ChoiceFirstSuccess(ps, 3, s);
        }
      }
    }
  }

  /**
   * A choice of three alternatives: past alternatives that decline, one that
   * reads something and fails, or the last one, gives the reply.
   */
  lemma ChoiceOfThree<T>(a: Parser<T>, b: Parser<T>, c: Parser<T>, s: State)
    ensures Declines(s, a(s)) && b(s).value.None? && Consumed(s, b(s)) ==> Choice([a, b, c])(s) == b(s)
    ensures Declines(s, a(s)) && Declines(s, b(s)) ==> Choice([a, b, c])(s) == c(s)
  {
    var ps := [a, b, c];
    if Declines(s, a(s)) {
      ChoiceSkipsDeclined(ps, 1, s);
      assert ps[1..] == [b, c];
      if b(s).value.None? && Consumed(s, b(s)) {
        ChoiceHeadCommits([b, c], s);
      } else if Declines(s, b(s)) {
        ChoiceSkipsDeclined(ps, 2, s);
        assert ps[2..] == [c];
      }
    }
  }

  // ----------------------------------------------------------------- count

  function CountMessage(i: nat): string {
    "count: parser failed at iteration " + NatToString(i + 1)
  }

  /**
   * The loop of `count` from iteration i: `results` so far, the current
   * state, the initial state and whether any iteration consumed. A failure of
   * p is reported at p's state when p consumed, at the current state when an
   * earlier iteration did, and at the initial state otherwise; a success
   * without a value is reported as "count: parser failed at iteration i+1"
   * in the same two ways.
   */
  function CountFrom<T>(n: int, p: Parser<T>, i: nat, results: seq<T>, cur: State, initial: State, consumed: bool): Reply<seq<T>>
    decreases if i < n then n - i else 0
  {
    if i >= n then Reply(Some(results), cur, None)
    else
      var r := p(cur);
      var consumedNow := consumed || r.state.input != cur.input;
      if r.Failed() then
        if r.state.input != cur.input then Reply(None, r.state, r.error)
        else if consumedNow then Reply(None, cur, r.error)
        else Reply(None, initial, r.error)
      else if r.value.None? then
        var err := Some(ParseError(cur.pos, CountMessage(i)));
        if consumedNow then Reply(None, cur, err) else Reply(None, initial, err)
      else CountFrom(n, p, i + 1, results + [r.value.value], r.state, initial, consumedNow)
  }

  /** `count(n, p)`: `pure([])` for n <= 0, else the loop. */
  function Count<T>(n: int, p: Parser<T>): Parser<seq<T>> {
    if n <= 0 then Pure(Some([])) else (s: State) => CountFrom(n, p, 0, [], s, s, false)
  }

  /** The `for i in range(n)` loop of `count`, proved to compute CountFrom. */
  method CountLoop<T>(n: int, p: Parser<T>, initial: State) returns (result: Reply<seq<T>>)
    requires n > 0
    ensures result == Count(n, p)(initial)
  {
    var results: seq<T> := [];
    var current := initial;
    var consumedOverall := false;
    for i := 0 to n
      invariant CountFrom(n, p, i, results, current, initial, consumedOverall) == CountFrom(n, p, 0, [], initial, initial, false)
    {
      var r := p(current);
      consumedOverall := consumedOverall || r.state.input != current.input;
      if r.Failed() {
        if r.state.input != current.input {
          return Reply(None, r.state, r.error);
        } else if consumedOverall {
          return Reply(None, current, r.error);
        }
        return Reply(None, initial, r.error);
      }
      if r.value.None? {
        var err := Some(ParseError(current.pos, CountMessage(i)));
        if consumedOverall {
          return Reply(None, current, err);
        }
        return Reply(None, initial, err);
      }
      results := results + [r.value.value];
      current := r.state;
    }
    result := Reply(Some(results), current, None);
  }

  lemma CountNonPositive<T>(n: int, p: Parser<T>, s: State)
    requires n <= 0
    ensures Count(n, p)(s) == Reply(Some([]), s, None)
  {
  }

  /** p applied in sequence from s gives the values vs, without None, and stops at end. */
  ghost predicate ValueTrace<T>(p: Parser<T>, s: State, vs: seq<T>, end: State)
    decreases |vs|
  {
    if vs == [] then end == s
    else
      var r := p(s);
      !r.Failed() && r.value == Some(vs[0]) && ValueTrace(p, r.state, vs[1..], end)
  }

  lemma {:induction false} CountFromCollects<T>(n: int, p: Parser<T>, i: nat, results: seq<T>, cur: State, initial: State, consumed: bool, vs: seq<T>, end: State)
    requires i <= n && |vs| == n - i
    requires ValueTrace(p, cur, vs, end)
    ensures CountFrom(n, p, i, results, cur, initial, consumed) == Reply(Some(results + vs), end, None)
    decreases |vs|
  {
    if vs == [] {
      assert results + vs == results;
    } else {
      var r := p(cur);
      CountFromCollects(n, p, i + 1, results + [vs[0]], r.state, initial, consumed || r.state.input != cur.input, vs[1..], end);
      assert results + [vs[0]] + vs[1..] == results + vs;
    }
  }

  /** When p succeeds n times with values vs, `count(n, p)` returns vs, in order, at the state reached. */
  lemma CountCollects<T>(n: int, p: Parser<T>, s: State, vs: seq<T>, end: State)
    requires n > 0 && |vs| == n
    requires ValueTrace(p, s, vs, end)
    ensures Count(n, p)(s) == Reply(Some(vs), end, None)
  {
    CountFromCollects(n, p, 0, [], s, s, false, vs, end);
    assert [] + vs == vs;
  }

  /** Some application of p along a ValueTrace from s over vs changed the input: what `consumed_overall` records. */
  ghost predicate TraceConsumes<T>(p: Parser<T>, s: State, vs: seq<T>)
    decreases |vs|
  {
    vs != [] && (p(s).state.input != s.input || TraceConsumes(p, p(s).state, vs[1..]))
  }

  lemma {:induction false} CountFromStops<T>(n: int, p: Parser<T>, i: nat, results: seq<T>, cur: State, initial: State, consumed: bool, vs: seq<T>, mid: State)
    requires i + |vs| < n
    requires ValueTrace(p, cur, vs, mid) && p(mid).Failed()
    ensures var r := CountFrom(n, p, i, results, cur, initial, consumed);
            r.Failed() && r.value.None? && r.error == p(mid).error &&
            r.state == (if p(mid).state.input != mid.input then p(mid).state
                        else if consumed || TraceConsumes(p, cur, vs) then mid
                        else initial)
    decreases |vs|
  {
    if vs != [] {
      var r := p(cur);
      CountFromStops(n, p, i + 1, results + [vs[0]], r.state, initial, consumed || r.state.input != cur.input, vs[1..], mid);
    }
  }

  /**
   * A failure of p at iteration k+1 < n+1 makes count fail with p's error, at
   * p's state when that iteration consumed, at the state before it when an
   * earlier one did, and at the initial state otherwise.
   */
  lemma CountStopsAtFailure<T>(n: int, p: Parser<T>, s: State, vs: seq<T>, mid: State)
    requires |vs| < n
    requires ValueTrace(p, s, vs, mid) && p(mid).Failed()
    ensures Count(n, p)(s).Failed() && Count(n, p)(s).error == p(mid).error
    ensures Count(n, p)(s).state == (if p(mid).state.input != mid.input then p(mid).state
                                     else if TraceConsumes(p, s, vs) then mid
                                     else s)
  {
    CountFromStops(n, p, 0, [], s, s, false, vs, mid);
  }

  // ----------------------------------------------- between and the options

  /** `between(open, close, p)`: open, p, close in turn; p's value; the first error stops it. */
  function Between<O, C, T>(open: Parser<O>, close: Parser<C>, p: Parser<T>): (q: Parser<T>)
    ensures forall s: State :: open(s).Failed() ==> q(s) == Reply(None, open(s).state, open(s).error)
    ensures forall s: State :: !open(s).Failed() && p(open(s).state).Failed() ==>
              q(s) == Reply(None, p(open(s).state).state, p(open(s).state).error)
    ensures forall s: State :: !open(s).Failed() && !p(open(s).state).Failed() ==>
              var b := p(open(s).state);
              q(s) == (if close(b.state).Failed() then Reply(None, close(b.state).state, close(b.state).error)
                       else Reply(b.value, close(b.state).state, None))
  {
    Bind(open, (_: Option<O>) => Bind(p, (x: Option<T>) => Bind(close, (_: Option<C>) => Pure(x))))
  }

  /** `option(x, p)`: p's value; x when p declines; p's error when p fails after consuming. */
  function OptionDefault<T>(x: Option<T>, p: Parser<T>): (q: Parser<T>)
    ensures forall s: State :: p(s).value.Some? && !p(s).Failed() ==> q(s) == p(s)
    ensures forall s: State :: Declines(s, p(s)) ==> q(s) == Reply(x, s, None)
    ensures forall s: State :: !Declines(s, p(s)) && !(p(s).value.Some? && !p(s).Failed()) ==>
              q(s) == Reply(None, p(s).state, p(s).error)
  {
    Or(p, Pure(x))
  }

  /** `option_maybe(p)`: `option(None, p)`. */
  function OptionMaybe<T>(p: Parser<T>): (q: Parser<T>)
    ensures forall s: State :: Declines(s, p(s)) ==> q(s) == Reply(None, s, None)
    ensures forall s: State :: !Declines(s, p(s)) ==>
              q(s) == Reply(if p(s).Failed() then None else p(s).value, p(s).state, p(s).error)
  {
    OptionDefault(None, p)
  }

  /**
   * `optional(p)`: value None always. Fails only when p fails after
   * consuming; a success that consumed keeps p's state; a success or failure
   * that left the input as it was goes back to the original state.
   */
  function Optional<T>(p: Parser<T>): (q: Parser<T>)
    ensures forall s: State :: q(s).value.None?
    ensures forall s: State :: q(s).Failed() <==> p(s).Failed() && Consumed(s, p(s))
    ensures forall s: State :: !Consumed(s, p(s)) ==> q(s).state == s
    ensures forall s: State :: Consumed(s, p(s)) ==> q(s).state == p(s).state
  {
    Or(Bind(p, (_: Option<T>) => Pure(None)), Pure(None))
  }

  // -------------------------------------------------- one-or-more repetition

  /** `many1(p)`: p once, then many(p); the first value in front. */
  function Many1<T>(p: Parser<T>): Parser<List<T>> {
    Bind(p, (x: Option<T>) => Bind(Many(p), (xs: Option<List<T>>) => Pure(Cons(x, xs))))
  }

  /** `skip_many1(p)`: p once, then skip_many... written as many(p), value None. */
  function SkipMany1<T, A>(p: Parser<T>): Parser<A> {
    Bind(p, (_: Option<T>) => Bind(Many(p), (_: Option<List<T>>) => Pure(None)))
  }

  /** many1 fails where p fails, with p's state and error. */
  lemma Many1NeedsOne<T>(p: Parser<T>, s: State)
    requires p(s).Failed()
    ensures Many1(p)(s) == Reply(None, p(s).state, p(s).error)
  {
  }

  /**
   * Where p succeeds and moves, many1(p) gives exactly what many(p) gives:
   * the first item is the one many would have read first.
   */
  lemma Many1AgreesWithMany<T>(p: Parser<T>, s: State)
    requires !p(s).Failed() && p(s).state.pos != s.pos && |p(s).state.input| < |s.input|
    ensures Many1(p)(s) == Many(p)(s)
  {
    var r := p(s);
    var x := r.value;
    ManyAppendsInOrder(p, [x], r.state);
    ManyValueIsList(p, [], r.state);
    var empty: List<T> := [];
    var m := ManyAccumRun(AppendItem, p, Some(empty), r.state);
    assert Many(p)(s) == ManyAccumRun(AppendItem, p, Some([x]), r.state) by {
      assert AppendItem(x, Some(empty)) == Some([x]) by { assert Items(Some(empty)) + [x] == [x]; }
    }
    assert Many(p)(r.state) == m;
    if m.Failed() {
      assert Many1(p)(s) == Reply(None, m.state, m.error);
    } else {
      assert Many1(p)(s) == Reply(Some([x] + m.value.value), m.state, None);
    }
  }

  /** skip_many1 fails where p fails and otherwise has value None. */
  lemma SkipMany1Value<T, A>(p: Parser<T>, s: State)
    ensures p(s).Failed() ==> SkipMany1<T, A>(p)(s) == Reply(None, p(s).state, p(s).error)
    ensures SkipMany1<T, A>(p)(s).value.None?
  {
  }

  lemma SkipMany1Consuming<T, A>(p: Parser<T>)
    requires Consuming(p)
    ensures Consuming(SkipMany1<T, A>(p))
  {
    forall s: State | !SkipMany1<T, A>(p)(s).Failed()
      ensures |SkipMany1<T, A>(p)(s).state.input| < |s.input|
    {
      ManyNonGrowing(p);
      assert NonGrowing(Many(p));
    }
  }

  // ------------------------------------------------------- separated lists

  /** `sep_by1(p, sep)`: p, then many(sep >> p), the first value in front. */
  function SepBy1<T, S>(p: Parser<T>, sep: Parser<S>): Parser<List<T>> {
    Bind(p, (x: Option<T>) => Bind(Many(Then(sep, p)), (xs: Option<List<T>>) => Pure(Cons(x, xs))))
  }

  /** `sep_by(p, sep)`: `sep_by1(p, sep) | pure([])`. */
  function SepBy<T, S>(p: Parser<T>, sep: Parser<S>): Parser<List<T>> {
    Or(SepBy1(p, sep), Pure(Some([])))
  }

  /** p followed by sep, keeping p's value: the item of `end_by`. */
  function Terminated<T, S>(p: Parser<T>, sep: Parser<S>): Parser<T> {
    Bind(p, (x: Option<T>) => Bind(sep, (_: Option<S>) => Pure(x)))
  }

  /** `end_by(p, sep)`: many(p followed by sep). */
  function EndBy<T, S>(p: Parser<T>, sep: Parser<S>): Parser<List<T>> {
    Many(Terminated(p, sep))
  }

  /** `end_by1(p, sep)`: many1(p followed by sep). */
  function EndBy1<T, S>(p: Parser<T>, sep: Parser<S>): Parser<List<T>> {
    Many1(Terminated(p, sep))
  }

  /** The item of end_by is `p < sep`. */
  lemma TerminatedIsSeqLeft<T, S>(p: Parser<T>, sep: Parser<S>, s: State)
    ensures Terminated(p, sep)(s) == SeqLeft(p, sep)(s)
  {
  }

  /** The body of sep_end_by1 with the recursive sep_end_by1 passed in as `self`. */
  function SepEndBy1Step<T, S>(p: Parser<T>, sep: Parser<S>, self: Parser<List<T>>): Parser<List<T>> {
    Bind(p, (x: Option<T>) =>
      Bind(OptionDefault(Some([]), Then(sep, Or(self, Pure(Some([]))))), (rest: Option<List<T>>) =>
        Pure(Cons(x, rest))))
  }

  /** `sep_end_by1(p, sep)` at s, entering the recursion only on shorter input. */
  function SepEndBy1Run<T, S>(p: Parser<T>, sep: Parser<S>, s: State): Reply<List<T>>
    decreases |s.input|, 1
  {
    SepEndBy1Step(p, sep, SepEndBy1Below(p, sep, s))(s)
  }

  /** sep_end_by1 on inputs shorter than bound's; NoProgress elsewhere. */
  function SepEndBy1Below<T, S>(p: Parser<T>, sep: Parser<S>, bound: State): Parser<List<T>>
    decreases |bound.input|, 0
  {
    (t: State) => if |t.input| < |bound.input| then SepEndBy1Run(p, sep, t) else NoProgress(t)
  }

  function SepEndBy1<T, S>(p: Parser<T>, sep: Parser<S>): Parser<List<T>> {
    (s: State) => SepEndBy1Run(p, sep, s)
  }

  /** `sep_end_by(p, sep)`: `sep_end_by1(p, sep) | pure([])`. */
  function SepEndBy<T, S>(p: Parser<T>, sep: Parser<S>): Parser<List<T>> {
    Or(SepEndBy1(p, sep), Pure(Some([])))
  }

  /** With p consuming and sep never lengthening the input, sep_end_by1 is its own recursive body. */
  lemma SepEndBy1Unfolds<T, S>(p: Parser<T>, sep: Parser<S>, s: State)
    requires Consuming(p) && NonGrowing(sep)
    ensures SepEndBy1(p, sep)(s) == SepEndBy1Step(p, sep, SepEndBy1(p, sep))(s)
  {
    SepEndBy1StepAgrees(p, sep, SepEndBy1Below(p, sep, s), SepEndBy1(p, sep), s);
  }

  /** The body reads the recursive parser only on inputs shorter than s's. */
  lemma SepEndBy1StepAgrees<T, S>(p: Parser<T>, sep: Parser<S>, f: Parser<List<T>>, g: Parser<List<T>>, s: State)
    requires Consuming(p) && NonGrowing(sep)
    requires forall t: State :: |t.input| < |s.input| ==> f(t) == g(t)
    ensures SepEndBy1Step(p, sep, f)(s) == SepEndBy1Step(p, sep, g)(s)
  {
    var a := p(s);
    if !a.Failed() {
      var b := sep(a.state);
      if !b.Failed() {
        assert f(b.state) == g(b.state);
        assert Or(f, Pure(Some([])))(b.state) == Or(g, Pure(Some([])))(b.state);
      }
      assert Then(sep, Or(f, Pure(Some([]))))(a.state) == Then(sep, Or(g, Pure(Some([]))))(a.state);
      assert OptionDefault(Some([]), Then(sep, Or(f, Pure(Some([])))))(a.state)
          == OptionDefault(Some([]), Then(sep, Or(g, Pure(Some([])))))(a.state);
    }
  }

  // --------------------------------------------------------------- chains

  /** The value of an operator parser: a two-argument function. */
  type BinOp<!T> = (Option<T>, Option<T>) -> Option<T>

  /** `f(x, y)` for an operator value f; None where f is None (a call Python cannot make). */
  function ApplyBin<T>(f: Option<BinOp<T>>, x: Option<T>, y: Option<T>): Option<T> {
    if f.Some? then f.value(x, y) else None
  }

  /** The body of chainl1's `rest(x)` with the recursive rest passed in as `self`. */
  function ChainlRestStep<T>(p: Parser<T>, op: Parser<BinOp<T>>, self: Option<T> -> Parser<T>, x: Option<T>): Parser<T> {
    Or(Bind(op, (f: Option<BinOp<T>>) => Bind(p, (y: Option<T>) => self(ApplyBin(f, x, y)))), Pure(x))
  }

  /** chainl1's `rest(x)` at s, entering the recursion only on shorter input. */
  function ChainlRest<T>(p: Parser<T>, op: Parser<BinOp<T>>, x: Option<T>, s: State): Reply<T>
    decreases |s.input|, 1
  {
    ChainlRestStep(p, op, ChainlRestBelow(p, op, s), x)(s)
  }

  /** chainl1's rest on inputs shorter than bound's; NoProgress elsewhere. */
  function ChainlRestBelow<T>(p: Parser<T>, op: Parser<BinOp<T>>, bound: State): Option<T> -> Parser<T>
    decreases |bound.input|, 0
  {
    (v: Option<T>) => (t: State) => if |t.input| < |bound.input| then ChainlRest(p, op, v, t) else NoProgress(t)
  }

  /** `chainl1(p, op)`: p, then rest. */
  function Chainl1<T>(p: Parser<T>, op: Parser<BinOp<T>>): Parser<T> {
    Bind(p, (x: Option<T>) => (s: State) => ChainlRest(p, op, x, s))
  }

  /** `chainl(p, op, x)`: `chainl1(p, op) | pure(x)`. */
  function Chainl<T>(p: Parser<T>, op: Parser<BinOp<T>>, x: Option<T>): Parser<T> {
    Or(Chainl1(p, op), Pure(x))
  }

  /** With p consuming and op never lengthening the input, rest is its own recursive body. */
  lemma ChainlRestUnfolds<T>(p: Parser<T>, op: Parser<BinOp<T>>, x: Option<T>, s: State)
    requires Consuming(p) && NonGrowing(op)
    ensures ChainlRest(p, op, x, s) == ChainlRestStep(p, op, ChainlRestAt(p, op), x)(s)
  {
    ChainlRestStepAgrees(p, op, ChainlRestBelow(p, op, s), ChainlRestAt(p, op), x, s);
  }

  /** chainl1's `rest` as a function from the value so far to a parser. */
  function ChainlRestAt<T>(p: Parser<T>, op: Parser<BinOp<T>>): Option<T> -> Parser<T> {
    (v: Option<T>) => (t: State) => ChainlRest(p, op, v, t)
  }

  /** The body reads the recursive rest only on inputs shorter than s's. */
  lemma ChainlRestStepAgrees<T>(p: Parser<T>, op: Parser<BinOp<T>>, f: Option<T> -> Parser<T>, g: Option<T> -> Parser<T>, x: Option<T>, s: State)
    requires Consuming(p) && NonGrowing(op)
    requires forall v: Option<T>, t: State :: |t.input| < |s.input| ==> f(v)(t) == g(v)(t)
    ensures ChainlRestStep(p, op, f, x)(s) == ChainlRestStep(p, op, g, x)(s)
  {
    var a := op(s);
    if !a.Failed() {
      var b := p(a.state);
      if !b.Failed() {
        assert f(ApplyBin(a.value, x, b.value))(b.state) == g(ApplyBin(a.value, x, b.value))(b.state);
      }
    }
  }

  /** The body of chainr1's `rest(x)` with the recursive scan passed in. */
  function ChainrRestStep<T>(op: Parser<BinOp<T>>, scan: Parser<T>, x: Option<T>): Parser<T> {
    Or(Bind(op, ChainrCombine(scan, x)), Pure(x))
  }

  /** After operator f: scan the right operand y and give `f(x, y)`. */
  function ChainrCombine<T>(scan: Parser<T>, x: Option<T>): Option<BinOp<T>> -> Parser<T> {
    (f: Option<BinOp<T>>) => Bind(scan, (y: Option<T>) => Pure(ApplyBin(f, x, y)))
  }

  /** chainr1's `scan()` at s: p, then rest, entering the recursion only on shorter input. */
  function ChainrScan<T>(p: Parser<T>, op: Parser<BinOp<T>>, s: State): Reply<T>
    decreases |s.input|, 1
  {
    Bind(p, (x: Option<T>) => ChainrRestStep(op, ChainrScanBelow(p, op, s), x))(s)
  }

  /** chainr1's scan on inputs shorter than bound's; NoProgress elsewhere. */
  function ChainrScanBelow<T>(p: Parser<T>, op: Parser<BinOp<T>>, bound: State): Parser<T>
    decreases |bound.input|, 0
  {
    (t: State) => if |t.input| < |bound.input| then ChainrScan(p, op, t) else NoProgress(t)
  }

  /** `chainr1(p, op)`: scan. */
  function Chainr1<T>(p: Parser<T>, op: Parser<BinOp<T>>): Parser<T> {
    (s: State) => ChainrScan(p, op, s)
  }

  /** `chainr(p, op, x)`: `chainr1(p, op) | pure(x)`. */
  function Chainr<T>(p: Parser<T>, op: Parser<BinOp<T>>, x: Option<T>): Parser<T> {
    Or(Chainr1(p, op), Pure(x))
  }

  /** With p consuming and op never lengthening the input, scan is its own recursive body. */
  lemma ChainrScanUnfolds<T>(p: Parser<T>, op: Parser<BinOp<T>>, s: State)
    requires Consuming(p) && NonGrowing(op)
    ensures Chainr1(p, op)(s) == Bind(p, (x: Option<T>) => ChainrRestStep(op, Chainr1(p, op), x))(s)
  {
    var a := p(s);
    if !a.Failed() {
      ChainrRestStepAgrees(op, ChainrScanBelow(p, op, s), Chainr1(p, op), a.value, a.state, s);
    }
  }

  /** chainr1's rest reads the recursive scan only on inputs shorter than bound's, once op has not lengthened the input. */
  lemma ChainrRestStepAgrees<T>(op: Parser<BinOp<T>>, f: Parser<T>, g: Parser<T>, x: Option<T>, s: State, bound: State)
    requires NonGrowing(op) && |s.input| < |bound.input|
    requires forall t: State :: |t.input| < |bound.input| ==> f(t) == g(t)
    ensures ChainrRestStep(op, f, x)(s) == ChainrRestStep(op, g, x)(s)
  {
    var a := op(s);
    assert Bind(op, ChainrCombine(f, x))(s) == Bind(op, ChainrCombine(g, x))(s) by {
      if !a.Failed() {
        ChainrCombineAgrees(f, g, x, a.value, a.state);
      }
    }
    OrAgrees(Bind(op, ChainrCombine(f, x)), Bind(op, ChainrCombine(g, x)), Pure(x), s);
  }

  /** Two scans that agree at t give the same operand step at t. */
  lemma ChainrCombineAgrees<T>(f: Parser<T>, g: Parser<T>, x: Option<T>, h: Option<BinOp<T>>, t: State)
    requires f(t) == g(t)
    ensures ChainrCombine(f, x)(h)(t) == ChainrCombine(g, x)(h)(t)
  {
  }

  /** Alternatives whose first parsers agree at s agree at s. */
  lemma OrAgrees<T>(q1: Parser<T>, q2: Parser<T>, r: Parser<T>, s: State)
    requires q1(s) == q2(s)
    ensures Or(q1, r)(s) == Or(q2, r)(s)
  {
  }

  lemma ChainrCombineAt<T>(scan: Parser<T>, x: Option<T>, f: Option<BinOp<T>>, t: State)
    requires !scan(t).Failed()
    ensures ChainrCombine(scan, x)(f)(t) == Reply(ApplyBin(f, x, scan(t).value), scan(t).state, None)
  {
  }

  /**
   * From s, the operator/operand pairs `steps` are read in turn: op succeeds
   * with steps[i].0 without lengthening the input, p then succeeds with
   * steps[i].1 on strictly shorter input; after the last pair op fails
   * without consuming, at `end`.
   */
  ghost predicate OpTrace<T>(p: Parser<T>, op: Parser<BinOp<T>>, s: State, steps: seq<(Option<BinOp<T>>, Option<T>)>, end: State)
    decreases |steps|
  {
    var a := op(s);
    if steps == [] then a.Failed() && a.state.input == s.input && end == s
    else
      !a.Failed() && a.value == steps[0].0 && |a.state.input| <= |s.input| &&
      var b := p(a.state);
      !b.Failed() && b.value == steps[0].1 && |b.state.input| < |a.state.input| &&
      OpTrace(p, op, b.state, steps[1..], end)
  }

  /** x op1 y1 op2 y2 ... grouped to the left. */
  function FoldLeft<T>(x: Option<T>, steps: seq<(Option<BinOp<T>>, Option<T>)>): Option<T>
    decreases |steps|
  {
    if steps == [] then x else FoldLeft(ApplyBin(steps[0].0, x, steps[0].1), steps[1..])
  }

  /** x op1 y1 op2 y2 ... grouped to the right. */
  function FoldRight<T>(x: Option<T>, steps: seq<(Option<BinOp<T>>, Option<T>)>): Option<T>
    decreases |steps|
  {
    if steps == [] then x else ApplyBin(steps[0].0, x, FoldRight(steps[0].1, steps[1..]))
  }

  lemma {:induction false} ChainlRestFolds<T>(p: Parser<T>, op: Parser<BinOp<T>>, x: Option<T>, s: State,
                                               steps: seq<(Option<BinOp<T>>, Option<T>)>, end: State)
    requires OpTrace(p, op, s, steps, end)
    ensures ChainlRest(p, op, x, s) == Reply(FoldLeft(x, steps), end, None)
    decreases |steps|
  {
    if steps != [] {
      var a := op(s);
      var b := p(a.state);
      ChainlRestFolds(p, op, ApplyBin(steps[0].0, x, steps[0].1), b.state, steps[1..], end);
      OpTraceShrinks(p, op, b.state, steps[1..], end);
    }
  }

  /** The trace never lengthens the input. */
  lemma {:induction false} OpTraceShrinks<T>(p: Parser<T>, op: Parser<BinOp<T>>, s: State,
                                             steps: seq<(Option<BinOp<T>>, Option<T>)>, end: State)
    requires OpTrace(p, op, s, steps, end)
    ensures |end.input| <= |s.input|
    ensures steps != [] ==> end.input != s.input
    decreases |steps|
  {
    if steps != [] {
      var b := p(op(s).state);
      OpTraceShrinks(p, op, b.state, steps[1..], end);
    }
  }

  /** chainl1 on x0 op1 y1 ... opn yn returns the left-grouped fold, at the state where op declined. */
  lemma ChainlFoldsLeft<T>(p: Parser<T>, op: Parser<BinOp<T>>, s: State,
                           steps: seq<(Option<BinOp<T>>, Option<T>)>, end: State)
    requires !p(s).Failed() && OpTrace(p, op, p(s).state, steps, end)
    ensures Chainl1(p, op)(s) == Reply(FoldLeft(p(s).value, steps), end, None)
  {
    ChainlRestFolds(p, op, p(s).value, p(s).state, steps, end);
  }

  lemma {:induction false} ChainrRestFolds<T>(p: Parser<T>, op: Parser<BinOp<T>>, x: Option<T>, bound: State, s: State,
                                              steps: seq<(Option<BinOp<T>>, Option<T>)>, end: State)
    requires |s.input| < |bound.input|
    requires OpTrace(p, op, s, steps, end)
    ensures ChainrRestStep(op, ChainrScanBelow(p, op, bound), x)(s) == Reply(FoldRight(x, steps), end, None)
    decreases |steps|
  {
    if steps != [] {
      var a := op(s);
      var b := p(a.state);
      ChainrRestFolds(p, op, steps[0].1, a.state, b.state, steps[1..], end);
      OpTraceShrinks(p, op, b.state, steps[1..], end);
      ChainrScanAt(p, op, a.state);
      ChainrRestTakesOperator(op, ChainrScanBelow(p, op, bound), x, s);
    } else {
      ChainrRestDeclines(op, ChainrScanBelow(p, op, bound), x, s);
    }
  }

  /** One unfolding of scan where p succeeds. */
  lemma ChainrScanAt<T>(p: Parser<T>, op: Parser<BinOp<T>>, t: State)
    requires !p(t).Failed()
    ensures ChainrScan(p, op, t) == ChainrRestStep(op, ChainrScanBelow(p, op, t), p(t).value)(p(t).state)
  {
  }

  /** rest(x) where op and then the scan succeed, having consumed: `f(x, y)` at the scan's state. */
  lemma ChainrRestTakesOperator<T>(op: Parser<BinOp<T>>, scan: Parser<T>, x: Option<T>, s: State)
    requires !op(s).Failed() && !scan(op(s).state).Failed() && scan(op(s).state).state.input != s.input
    ensures ChainrRestStep(op, scan, x)(s)
            == Reply(ApplyBin(op(s).value, x, scan(op(s).state).value), scan(op(s).state).state, None)
  {
    var q := Bind(op, ChainrCombine(scan, x));
    ChainrCombineAt(scan, x, op(s).value, op(s).state);
    OrKeepsConsumedSuccess(q, Pure(x), s);
  }

  /** rest(x) where op fails without consuming: x, at s. */
  lemma ChainrRestDeclines<T>(op: Parser<BinOp<T>>, scan: Parser<T>, x: Option<T>, s: State)
    requires op(s).Failed() && op(s).state.input == s.input
    ensures ChainrRestStep(op, scan, x)(s) == Reply(x, s, None)
  {
    var q := Bind(op, ChainrCombine(scan, x));
    assert q(s) == Reply(None, op(s).state, op(s).error);
  }

  /** chainr1 on x0 op1 y1 ... opn yn returns the right-grouped fold, at the state where op declined. */
  lemma ChainrFoldsRight<T>(p: Parser<T>, op: Parser<BinOp<T>>, s: State,
                            steps: seq<(Option<BinOp<T>>, Option<T>)>, end: State)
    requires !p(s).Failed() && |p(s).state.input| < |s.input| && OpTrace(p, op, p(s).state, steps, end)
    ensures Chainr1(p, op)(s) == Reply(FoldRight(p(s).value, steps), end, None)
  {
    ChainrRestFolds(p, op, p(s).value, s, p(s).state, steps, end);
  }

  /** chainl and chainr give the default when p declines at once. */
  lemma ChainDefaults<T>(p: Parser<T>, op: Parser<BinOp<T>>, x: Option<T>, s: State)
    requires p(s).Failed() && !Consumed(s, p(s))
    ensures Chainl(p, op, x)(s) == Reply(x, s, None)
    ensures Chainr(p, op, x)(s) == Reply(x, s, None)
  {
  }

  /** Integer subtraction and exponentiation as operator values, as the chain tests use them. */
  function Minus(x: Option<int>, y: Option<int>): Option<int> {
    if x.Some? && y.Some? then Some(x.value - y.value) else None
  }

  function Power(x: Option<int>, y: Option<int>): Option<int> {
    if x.Some? && y.Some? && y.value >= 0 then Some(IntPow(x.value, y.value)) else None
  }

  function IntPow(b: int, e: nat): int {
    if e == 0 then 1 else b * IntPow(b, e - 1)
  }

  /**
   * The operands of "9-3-2" folded from the left give 4 (and 8 from the
   * right); those of "2^3^2" folded from the right give 512 (and 64 from
   * the left).
   */
  lemma ChainFoldExamples()
    ensures FoldLeft(Some(9), [(Some(Minus), Some(3)), (Some(Minus), Some(2))]) == Some(4)
    ensures FoldRight(Some(9), [(Some(Minus), Some(3)), (Some(Minus), Some(2))]) == Some(8)
    ensures FoldRight(Some(2), [(Some(Power), Some(3)), (Some(Power), Some(2))]) == Some(512)
    ensures FoldLeft(Some(2), [(Some(Power), Some(3)), (Some(Power), Some(2))]) == Some(64)
  {
    var minus: seq<(Option<BinOp<int>>, Option<int>)> := [(Some(Minus), Some(3)), (Some(Minus), Some(2))];
    var power: seq<(Option<BinOp<int>>, Option<int>)> := [(Some(Power), Some(3)), (Some(Power), Some(2))];
    assert minus[1..][1..] == [] && power[1..][1..] == [];
    assert FoldLeft(Some(6), minus[1..]) == FoldLeft(Some(4), []);
    assert FoldRight(Some(3), minus[1..]) == Minus(Some(3), FoldRight(Some(2), []));
    assert IntPow(3, 2) == 9 && IntPow(2, 3) == 8;
    assert FoldLeft(Some(8), power[1..]) == FoldLeft(Some(64), []);
    assert IntPow(2, 9) == 512 by {
      assert IntPow(2, 4) == 16;
      assert IntPow(2, 8) == 256;
    }
    assert IntPow(8, 2) == 64;
  }

  // ------------------------------------------ not-followed-by, eof, many-till

  /** `any_token()`: any single item, shown as itself. */
  function AnyToken(): (p: Parser<char>)
    ensures forall s: State :: |s.input| == 0 ==> p(s) == Reply(None, s, Some(ParseError(s.pos, "unexpected EOF")))
    ensures forall s: State :: |s.input| > 0 ==>
              p(s) == Reply(Some(s.input[0]), State(s.input[1..], Update(s.pos, [s.input[0]]), s.user), None)
  {
    Token((c: char) => [c], (c: char) => Some(c))
  }

  /**
   * `not_followed_by(p)`: `try_parse(p).bind(x => fail("unexpected " + str(x))) | pure(None)`;
   * `show` renders p's value as `str` would.
   */
  function NotFollowedBy<T>(p: Parser<T>, show: Option<T> -> string): (q: Parser<T>)
    ensures forall s: State :: p(s).Failed() ==> q(s) == Reply(None, s, None)
    ensures forall s: State :: !p(s).Failed() && Consumed(s, p(s)) ==>
              q(s) == Reply(None, p(s).state, Some(ParseError(p(s).state.pos, "unexpected " + show(p(s).value))))
    ensures forall s: State :: !p(s).Failed() && !Consumed(s, p(s)) ==> q(s) == Reply(None, s, None)
  {
    var first := Bind(TryParse(p), (x: Option<T>) => Fail<T>("unexpected " + show(x)));
    var q := Or(first, Pure(None));
    assert forall s: State :: !p(s).Failed() && !Consumed(s, p(s)) ==> q(s) == Reply(None, s, None) by {
      forall s: State | !p(s).Failed() && !Consumed(s, p(s))
        ensures q(s) == Reply(None, s, None)
      {
        var fail := Fail<T>("unexpected " + show(p(s).value));
        assert TryParse(p)(s) == p(s);
        assert first(s) == fail(p(s).state);
      }
    }
    q
  }

  /** `eof()`: not followed by any token, labelled "end of input". */
  function Eof(): Parser<char> {
    Label(NotFollowedBy(AnyToken(), ShowItem), "end of input")
  }

  /** `str(x)` of a character value: the character itself, "None" for None. */
  function ShowItem(x: Option<char>): string {
    if x.Some? then [x.value] else "None"
  }

  /**
   * eof succeeds with None exactly at the end of input; on any other input it
   * fails after reading one character, with "unexpected <c>" at the
   * position after it, and the label does not apply.
   */
  lemma EofAtEnd(s: State)
    ensures |s.input| == 0 ==> Eof()(s) == Reply(None, s, None)
    ensures |s.input| > 0 ==>
              var t := State(s.input[1..], Update(s.pos, [s.input[0]]), s.user);
              Eof()(s) == Reply(None, t, Some(ParseError(t.pos, "unexpected " + [s.input[0]])))
  {
  }

  /** The body of many_till's `scan()` with the recursive scan passed in. */
  function ManyTillStep<T, E>(p: Parser<T>, end: Parser<E>, scan: Parser<List<T>>): Parser<List<T>> {
    Or(EndScan(end), Bind(p, ConsScan(scan)))
  }

  /** `end.bind(lambda _: pure([]))`: the empty list once end succeeds. */
  function EndScan<T, E>(end: Parser<E>): Parser<List<T>> {
    Bind(end, (_: Option<E>) => Pure(Some([])))
  }

  /** After an item x: scan the rest and put x in front. */
  function ConsScan<T>(scan: Parser<List<T>>): Option<T> -> Parser<List<T>> {
    (x: Option<T>) => Bind(scan, (xs: Option<List<T>>) => Pure(Cons(x, xs)))
  }

  lemma ConsScanAt<T>(scan: Parser<List<T>>, x: Option<T>, t: State)
    requires !scan(t).Failed()
    ensures ConsScan(scan)(x)(t) == Reply(Cons(x, scan(t).value), scan(t).state, None)
  {
  }

  /** many_till's `scan()` at s, entering the recursion only on shorter input. */
  function ManyTillScan<T, E>(p: Parser<T>, end: Parser<E>, s: State): Reply<List<T>>
    decreases |s.input|, 1
  {
    ManyTillStep(p, end, ManyTillBelow(p, end, s))(s)
  }

  /** many_till's scan on inputs shorter than bound's; NoProgress elsewhere. */
  function ManyTillBelow<T, E>(p: Parser<T>, end: Parser<E>, bound: State): Parser<List<T>>
    decreases |bound.input|, 0
  {
    (t: State) => if |t.input| < |bound.input| then ManyTillScan(p, end, t) else NoProgress(t)
  }

  /** `many_till(p, end)`. */
  function ManyTill<T, E>(p: Parser<T>, end: Parser<E>): Parser<List<T>> {
    (s: State) => ManyTillScan(p, end, s)
  }

  /** With p consuming, scan is its own recursive body. */
  lemma ManyTillUnfolds<T, E>(p: Parser<T>, end: Parser<E>, s: State)
    requires Consuming(p)
    ensures ManyTill(p, end)(s) == ManyTillStep(p, end, ManyTill(p, end))(s)
  {
    var a := p(s);
    if !a.Failed() {
      assert ManyTillBelow(p, end, s)(a.state) == ManyTill(p, end)(a.state);
    }
  }

  /**
   * From s, `end` declines and p reads xs[0], and so on, until `end`
   * succeeds and leaves `stop`.
   */
  ghost predicate TillTrace<T, E>(p: Parser<T>, end: Parser<E>, s: State, xs: List<T>, stop: State)
    decreases |xs|
  {
    var e := end(s);
    if xs == [] then !e.Failed() && e.state == stop
    else
      e.Failed() && e.state.input == s.input &&
      var r := p(s);
      !r.Failed() && r.value == xs[0] && |r.state.input| < |s.input| && TillTrace(p, end, r.state, xs[1..], stop)
  }

  /** many_till returns p's results in order, up to the first point where end succeeds, and end's state. */
  lemma {:induction false} ManyTillCollects<T, E>(p: Parser<T>, end: Parser<E>, s: State, xs: List<T>, stop: State)
    requires TillTrace(p, end, s, xs, stop)
    ensures ManyTill(p, end)(s) == Reply(Some(xs), stop, None)
    decreases |xs|
  {
    if xs != [] {
      assert [xs[0]] + xs[1..] == xs;
      var r := p(s);
      ManyTillCollects(p, end, r.state, xs[1..], stop);
      assert ManyTillBelow(p, end, s)(r.state) == Reply(Some(xs[1..]), stop, None);
      ManyTillStepTakesItem(p, end, ManyTillBelow(p, end, s), s);
    } else {
      ManyTillStepEnds(p, end, ManyTillBelow(p, end, s), s);
    }
  }

  /** scan where end succeeds: the empty list at end's state. */
  lemma ManyTillStepEnds<T, E>(p: Parser<T>, end: Parser<E>, scan: Parser<List<T>>, s: State)
    requires !end(s).Failed()
    ensures ManyTillStep(p, end, scan)(s) == Reply(Some([]), end(s).state, None)
  {
  }

  /** scan where end declines and p and the rest succeed: p's item in front of the rest. */
  lemma ManyTillStepTakesItem<T, E>(p: Parser<T>, end: Parser<E>, scan: Parser<List<T>>, s: State)
    requires end(s).Failed() && end(s).state.input == s.input
    requires !p(s).Failed() && !scan(p(s).state).Failed()
    ensures ManyTillStep(p, end, scan)(s) == Reply(Cons(p(s).value, scan(p(s).state).value), scan(p(s).state).state, None)
  {
    var e := EndScan<T, E>(end);
    ConsScanAt(scan, p(s).value, p(s).state);
    assert Declines(s, e(s));
  }
}

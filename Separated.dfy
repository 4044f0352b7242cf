/**
 * The separated and terminated lists of pyparsec/Combinators.py (sep_by,
 * sep_by1, end_by, sep_end_by and sep_end_by1) stated on runs of their item
 * parsers, then on character items, and the outcomes the test suite expects
 * of them on `char('a')` items.
 */
module Separated {
  import opened Parsec
  import opened Prim
  import opened Chars
  import opened Combinators

  // ------------------------------------------------------- runs of many

  /**
   * From s, p reads the items xs one at a time, each read moving the position
   * and shortening the input, and leaves `stop`.
   */
  ghost predicate ItemsRead<T>(p: Parser<T>, s: State, xs: List<T>, stop: State)
    decreases |xs|
  {
    if xs == [] then stop == s
    else
      var r := p(s);
      !r.Failed() && r.value == xs[0] && r.state.pos != s.pos && |r.state.input| < |s.input| &&
      ItemsRead(p, r.state, xs[1..], stop)
  }

  lemma {:induction false} ItemsReadShrinks<T>(p: Parser<T>, s: State, xs: List<T>, stop: State)
    requires ItemsRead(p, s, xs, stop)
    ensures |stop.input| <= |s.input|
    ensures xs != [] ==> |stop.input| < |s.input|
    decreases |xs|
  {
    if xs != [] {
      ItemsReadShrinks(p, p(s).state, xs[1..], stop);
    }
  }

  /** The loop of `many` carries the items read so far into its accumulator, in order. */
  lemma {:induction false} ManyRunReads<T>(p: Parser<T>, pre: List<T>, s: State, xs: List<T>, stop: State)
    requires ItemsRead(p, s, xs, stop)
    ensures ManyAccumRun(AppendItem, p, Some(pre), s) == ManyAccumRun(AppendItem, p, Some(pre + xs), stop)
    decreases |xs|
  {
    if xs == [] {
      assert pre + xs == pre;
    } else {
      var r := p(s);
      assert AppendItem(r.value, Some(pre)) == Some(pre + [xs[0]]);
      ManyRunReads(p, pre + [xs[0]], r.state, xs[1..], stop);
      assert pre + [xs[0]] + xs[1..] == pre + xs;
    }
  }

  /** `many(p)` returns the items p read, in order, and the state where p then declined without moving. */
  lemma ManyCollects<T>(p: Parser<T>, s: State, xs: List<T>, stop: State)
    requires ItemsRead(p, s, xs, stop)
    requires p(stop).Failed() && p(stop).state.pos == stop.pos
    ensures Many(p)(s) == Reply(Some(xs), stop, None)
  {
    ManyRunReads(p, [], s, xs, stop);
    assert [] + xs == xs;
  }

  /** A failure of p that moved the position ends `many(p)` with that failure. */
  lemma ManyFailsAfterMoving<T>(p: Parser<T>, s: State, xs: List<T>, stop: State)
    requires ItemsRead(p, s, xs, stop)
    requires p(stop).Failed() && p(stop).state.pos != stop.pos
    ensures Many(p)(s) == Reply(None, p(stop).state, p(stop).error)
  {
    ManyRunReads(p, [], s, xs, stop);
  }

  // ---------------------------------------------------------- sep_by

  /** sep_by1 needs a first item: a failure of p is its result. */
  lemma SepBy1NeedsOne<T, S>(p: Parser<T>, sep: Parser<S>, s: State)
    requires p(s).Failed()
    ensures SepBy1(p, sep)(s) == Reply(None, p(s).state, p(s).error)
  {
  }

  /** sep_by gives the empty list, reading nothing, when p fails without consuming. */
  lemma SepByNone<T, S>(p: Parser<T>, sep: Parser<S>, s: State)
    requires p(s).Failed() && !Consumed(s, p(s))
    ensures SepBy(p, sep)(s) == Reply(Some([]), s, None)
  {
    SepBy1NeedsOne(p, sep, s);
  }

  /**
   * A first item x, then `sep p` pairs read the items xs, then a `sep p` pair
   * declines without moving: sep_by1 and sep_by both return [x] + xs.
   */
  lemma SepByCollects<T, S>(p: Parser<T>, sep: Parser<S>, s: State, xs: List<T>, stop: State)
    requires !p(s).Failed()
    requires ItemsRead(Then(sep, p), p(s).state, xs, stop)
    requires Then(sep, p)(stop).Failed() && Then(sep, p)(stop).state.pos == stop.pos
    ensures SepBy1(p, sep)(s) == Reply(Some([p(s).value] + xs), stop, None)
    ensures SepBy(p, sep)(s) == Reply(Some([p(s).value] + xs), stop, None)
  {
    ManyCollects(Then(sep, p), p(s).state, xs, stop);
  }

  /**
   * A separator with no item after it: once items were read and sep moves on,
   * an item that then fails where it stands makes sep_by1 and sep_by fail
   * there, as for the trailing ',' of "a,a,".
   */
  lemma SepByTrailingSeparator<T, S>(p: Parser<T>, sep: Parser<S>, s: State, xs: List<T>, t: State)
    requires !p(s).Failed() && |p(s).state.input| < |s.input|
    requires ItemsRead(Then(sep, p), p(s).state, xs, t)
    requires !sep(t).Failed() && sep(t).state.pos != t.pos && |sep(t).state.input| <= |t.input|
    requires p(sep(t).state).Failed() && p(sep(t).state).state == sep(t).state
    ensures var u := sep(t).state;
            SepBy1(p, sep)(s) == Reply(None, u, p(u).error) && SepBy(p, sep)(s) == Reply(None, u, p(u).error)
  {
    var u := sep(t).state;
    ManyFailsAfterMoving(Then(sep, p), p(s).state, xs, t);
    ItemsReadShrinks(Then(sep, p), p(s).state, xs, t);
    assert Consumed(s, SepBy1(p, sep)(s)) by {
      assert |u.input| < |s.input|;
    }
  }

  // ---------------------------------------------------------- end_by

  /** end_by returns the items of its `p < sep` pairs, in order, up to the first pair that declines without moving. */
  lemma EndByCollects<T, S>(p: Parser<T>, sep: Parser<S>, s: State, xs: List<T>, stop: State)
    requires ItemsRead(Terminated(p, sep), s, xs, stop)
    requires p(stop).Failed() && p(stop).state == stop
    ensures EndBy(p, sep)(s) == Reply(Some(xs), stop, None)
  {
    ManyCollects(Terminated(p, sep), s, xs, stop);
  }

  /** An item without its terminator makes end_by fail where the terminator was expected. */
  lemma EndByMissingTerminator<T, S>(p: Parser<T>, sep: Parser<S>, s: State, xs: List<T>, t: State)
    requires ItemsRead(Terminated(p, sep), s, xs, t)
    requires !p(t).Failed() && p(t).state.pos != t.pos
    requires sep(p(t).state).Failed() && sep(p(t).state).state == p(t).state
    ensures EndBy(p, sep)(s) == Reply(None, p(t).state, sep(p(t).state).error)
  {
    ManyFailsAfterMoving(Terminated(p, sep), s, xs, t);
  }

  // ------------------------------------------------------ sep_end_by

  /** One round of sep_end_by1's body once the item has been read and the optional tail succeeded. */
  lemma SepEndBy1StepAt<T, S>(p: Parser<T>, sep: Parser<S>, f: Parser<List<T>>, s: State)
    requires !p(s).Failed()
    requires !OptionDefault(Some([]), Then(sep, Or(f, Pure(Some([])))))(p(s).state).Failed()
    ensures var tail := OptionDefault(Some([]), Then(sep, Or(f, Pure(Some([])))))(p(s).state);
            SepEndBy1Step(p, sep, f)(s) == Reply(Cons(p(s).value, tail.value), tail.state, None)
  {
  }

  /** The optional `sep (self | pure([]))` tail when sep declines: the empty list, nothing read. */
  lemma TailWithoutSeparator<T, S>(sep: Parser<S>, f: Parser<List<T>>, t: State)
    requires sep(t).Failed() && !Consumed(t, sep(t))
    ensures OptionDefault(Some([]), Then(sep, Or(f, Pure(Some([])))))(t) == Reply(Some([]), t, None)
  {
    assert Then(sep, Or(f, Pure(Some([]))))(t) == Reply(None, sep(t).state, sep(t).error);
  }

  /** The optional tail when sep succeeds and the recursion declines after it: the empty list, sep read. */
  lemma TailAfterSeparator<T, S>(sep: Parser<S>, f: Parser<List<T>>, t: State)
    requires !sep(t).Failed()
    requires var u := sep(t).state; f(u).Failed() && !Consumed(u, f(u))
    ensures OptionDefault(Some([]), Then(sep, Or(f, Pure(Some([])))))(t) == Reply(Some([]), sep(t).state, None)
  {
    var u := sep(t).state;
    assert Or(f, Pure(Some([])))(u) == Reply(Some([]), u, None);
  }

  /** The optional tail when sep succeeds and the recursion returns items after it. */
  lemma TailWithItems<T, S>(sep: Parser<S>, f: Parser<List<T>>, t: State, xs: List<T>, stop: State)
    requires !sep(t).Failed() && f(sep(t).state) == Reply(Some(xs), stop, None)
    ensures OptionDefault(Some([]), Then(sep, Or(f, Pure(Some([])))))(t) == Reply(Some(xs), stop, None)
  {
    assert Or(f, Pure(Some([])))(sep(t).state) == Reply(Some(xs), stop, None);
  }

  /** sep_end_by1 needs a first item: a failure of p is its result. */
  lemma SepEndBy1NeedsOne<T, S>(p: Parser<T>, sep: Parser<S>, s: State)
    requires Consuming(p) && NonGrowing(sep)
    requires p(s).Failed()
    ensures SepEndBy1(p, sep)(s) == Reply(None, p(s).state, p(s).error)
  {
    SepEndBy1Unfolds(p, sep, s);
  }

  lemma ConsOntoEmpty<T>(x: Option<T>)
    ensures Cons(x, Some([])) == Some([x])
  {
    assert [x] + Items(Some([])) == [x];
  }

  /** The last item, with no separator after it. */
  lemma SepEndBy1Last<T, S>(p: Parser<T>, sep: Parser<S>, s: State)
    requires Consuming(p) && NonGrowing(sep)
    requires !p(s).Failed()
    requires sep(p(s).state).Failed() && !Consumed(p(s).state, sep(p(s).state))
    ensures SepEndBy1(p, sep)(s) == Reply(Some([p(s).value]), p(s).state, None)
  {
    SepEndBy1Unfolds(p, sep, s);
    TailWithoutSeparator(sep, SepEndBy1(p, sep), p(s).state);
    SepEndBy1StepAt(p, sep, SepEndBy1(p, sep), s);
    ConsOntoEmpty(p(s).value);
  }

  /** The optional tail of sep_end_by1 when a separator is followed by no item: the empty list, sep read. */
  lemma TailAfterLastSeparator<T, S>(p: Parser<T>, sep: Parser<S>, t: State)
    requires Consuming(p) && NonGrowing(sep)
    requires !sep(t).Failed()
    requires p(sep(t).state).Failed() && p(sep(t).state).state == sep(t).state
    ensures OptionDefault(Some([]), Then(sep, Or(SepEndBy1(p, sep), Pure(Some([])))))(t) == Reply(Some([]), sep(t).state, None)
  {
    SepEndBy1NeedsOne(p, sep, sep(t).state);
    TailAfterSeparator(sep, SepEndBy1(p, sep), t);
  }

  /** The last item, followed by a separator after which no item starts. */
  lemma SepEndBy1LastTerminated<T, S>(p: Parser<T>, sep: Parser<S>, s: State)
    requires Consuming(p) && NonGrowing(sep)
    requires !p(s).Failed() && !sep(p(s).state).Failed()
    requires p(sep(p(s).state).state).Failed() && p(sep(p(s).state).state).state == sep(p(s).state).state
    ensures SepEndBy1(p, sep)(s) == Reply(Some([p(s).value]), sep(p(s).state).state, None)
  {
    SepEndBy1Unfolds(p, sep, s);
    TailAfterLastSeparator(p, sep, p(s).state);
    SepEndBy1StepAt(p, sep, SepEndBy1(p, sep), s);
    ConsOntoEmpty(p(s).value);
  }

  /** An item and a separator, followed by more items: the item goes in front of them. */
  lemma SepEndBy1More<T, S>(p: Parser<T>, sep: Parser<S>, s: State, xs: List<T>, stop: State)
    requires Consuming(p) && NonGrowing(sep)
    requires !p(s).Failed() && !sep(p(s).state).Failed()
    requires SepEndBy1(p, sep)(sep(p(s).state).state) == Reply(Some(xs), stop, None)
    ensures SepEndBy1(p, sep)(s) == Reply(Some([p(s).value] + xs), stop, None)
  {
    SepEndBy1Unfolds(p, sep, s);
    TailWithItems(sep, SepEndBy1(p, sep), p(s).state, xs, stop);
    SepEndBy1StepAt(p, sep, SepEndBy1(p, sep), s);
  }

  /** sep_end_by gives the empty list, reading nothing, when p fails without consuming. */
  lemma SepEndByNone<T, S>(p: Parser<T>, sep: Parser<S>, s: State)
    requires Consuming(p) && NonGrowing(sep)
    requires p(s).Failed() && !Consumed(s, p(s))
    ensures SepEndBy(p, sep)(s) == Reply(Some([]), s, None)
  {
    SepEndBy1NeedsOne(p, sep, s);
  }

  // ------------------------------------------------- on character items

  /** k copies of the two characters a b. */
  function Pairs(a: char, b: char, k: nat): (r: string)
    ensures |r| == 2 * k
  {
    if k == 0 then [] else [a, b] + Pairs(a, b, k - 1)
  }

  /** `char(c)` reads each character of its own and nothing else: it shortens every input it succeeds on. */
  lemma CharConsuming(c: char)
    ensures Consuming(Char(c))
  {
    AcceptsClassConsuming(Char(c), EqualTo(c), Quoted(c));
  }

  /** `char(a) >> char(b)` and `char(a) < char(b)` on input starting a b: both characters read. */
  lemma CharPairAt(a: char, b: char, s: State, rest: string)
    requires s.input == [a, b] + rest
    ensures var after := State(rest, UpdateChars(s.pos, [a, b]), s.user);
            Then(Char(a), Char(b))(s) == Reply(Some(b), after, None) &&
            Terminated(Char(a), Char(b))(s) == Reply(Some(a), after, None)
  {
    var t := State([b] + rest, Update(s.pos, [a]), s.user);
    assert s.input[1..] == t.input;
    CharAccepts(a, s);
    assert t.input[1..] == rest;
    CharAccepts(b, t);
    UpdateCharsCons(s.pos, a, [b]);
    UpdateCharsCons(t.pos, b, []);
    assert [b] + [] == [b];
  }

  lemma RepeatCons<T>(x: T, n: nat)
    requires n > 0
    ensures Repeat(x, n) == [x] + Repeat(x, n - 1)
  {
  }

  lemma RepeatZero<T>(x: T)
    ensures Repeat(x, 0) == []
  {
  }

  lemma RepeatOne<T>(x: T)
    ensures Repeat(x, 1) == [x]
  {
    RepeatCons(x, 1);
    RepeatZero(x);
  }

  /** One more item in front of a run of items. */
  lemma ItemsReadCons<T>(p: Parser<T>, s: State, x: Option<T>, t: State, xs: List<T>, stop: State)
    requires p(s) == Reply(x, t, None) && t.pos != s.pos && |t.input| < |s.input|
    requires ItemsRead(p, t, xs, stop)
    ensures ItemsRead(p, s, [x] + xs, stop)
  {
    assert ([x] + xs)[0] == x && ([x] + xs)[1..] == xs;
  }

  lemma PairsNone(a: char, b: char, rest: string)
    ensures Pairs(a, b, 0) + rest == rest
  {
  }

  /** The first pair of k > 0 pairs and what follows it. */
  lemma PairsSplit(a: char, b: char, k: nat, rest: string)
    requires k > 0
    ensures Pairs(a, b, k) + rest == [a, b] + (Pairs(a, b, k - 1) + rest)
  {
  }

  /** The first pair of k > 0 pairs: what follows it, and where reading all of them ends. */
  lemma PairsFirst(a: char, b: char, k: nat, rest: string, pos: SourcePos)
    requires k > 0
    ensures Pairs(a, b, k) + rest == [a, b] + (Pairs(a, b, k - 1) + rest)
    ensures UpdateChars(pos, Pairs(a, b, k)) == UpdateChars(UpdateChars(pos, [a, b]), Pairs(a, b, k - 1))
    ensures UpdateChars(pos, [a, b]) != pos
  {
    var more := Pairs(a, b, k - 1);
    assert [a, b] + more == [a] + ([b] + more);
    UpdateCharsCons(pos, a, [b] + more);
    UpdateCharsCons(Update(pos, [a]), b, more);
    assert [a, b] == [a] + [b] && [b] + [] == [b];
    UpdateCharsCons(pos, a, [b]);
    UpdateCharsCons(Update(pos, [a]), b, []);
    UpdateCharsAdvances(pos, [a, b]);
  }

  /** q reads the two characters a b wherever the input starts with them, with value x. */
  ghost predicate ReadsPair<T>(q: Parser<T>, x: Option<T>, a: char, b: char) {
    forall t: State {:trigger q(t)} :: |t.input| >= 2 && t.input[0] == a && t.input[1] == b ==>
      q(t) == Reply(x, State(t.input[2..], UpdateChars(t.pos, [a, b]), t.user), None)
  }

  /** The first of k > 0 pairs: q reads it as x and moves to the other k - 1. */
  lemma PairsHead<T>(q: Parser<T>, x: Option<T>, a: char, b: char, k: nat, rest: string, s: State)
    requires ReadsPair(q, x, a, b)
    requires k > 0 && s.input == Pairs(a, b, k) + rest
    ensures var t := State(Pairs(a, b, k - 1) + rest, UpdateChars(s.pos, [a, b]), s.user);
            q(s) == Reply(x, t, None) && t.pos != s.pos && |t.input| < |s.input| &&
            UpdateChars(t.pos, Pairs(a, b, k - 1)) == UpdateChars(s.pos, Pairs(a, b, k))
  {
    PairsFirst(a, b, k, rest, s.pos);
    assert s.input[2..] == Pairs(a, b, k - 1) + rest;
  }

  /** k items x read from s: the first at s, the other k - 1 after it. */
  lemma ItemsReadRepeat<T>(q: Parser<T>, s: State, x: Option<T>, t: State, k: nat, stop: State)
    requires k > 0 && q(s) == Reply(x, t, None) && t.pos != s.pos && |t.input| < |s.input|
    requires ItemsRead(q, t, Repeat(x, k - 1), stop)
    ensures ItemsRead(q, s, Repeat(x, k), stop)
  {
    RepeatCons(x, k);
    ItemsReadCons(q, s, x, t, Repeat(x, k - 1), stop);
  }

  /** A parser that reads pairs a b reads k of them as k items x. */
  lemma {:induction false} PairsReadBy<T>(q: Parser<T>, x: Option<T>, a: char, b: char, k: nat, rest: string, s: State)
    requires ReadsPair(q, x, a, b)
    requires s.input == Pairs(a, b, k) + rest
    ensures ItemsRead(q, s, Repeat(x, k), State(rest, UpdateChars(s.pos, Pairs(a, b, k)), s.user))
    decreases k
  {
    if k == 0 {
      PairsNone(a, b, rest);
      RepeatZero(x);
    } else {
      var t := State(Pairs(a, b, k - 1) + rest, UpdateChars(s.pos, [a, b]), s.user);
      PairsHead(q, x, a, b, k, rest, s);
      PairsReadBy(q, x, a, b, k - 1, rest, t);
      ItemsReadRepeat(q, s, x, t, k, State(rest, UpdateChars(s.pos, Pairs(a, b, k)), s.user));
    }
  }

  /** `char(a) >> char(b)` reads pairs a b with value b, and `char(a) < char(b)` with value a. */
  lemma CharPairsRead(a: char, b: char)
    ensures ReadsPair(Then(Char(a), Char(b)), Some(b), a, b)
    ensures ReadsPair(Terminated(Char(a), Char(b)), Some(a), a, b)
  {
    forall t: State | |t.input| >= 2 && t.input[0] == a && t.input[1] == b
      ensures Then(Char(a), Char(b))(t) == Reply(Some(b), State(t.input[2..], UpdateChars(t.pos, [a, b]), t.user), None)
      ensures Terminated(Char(a), Char(b))(t) == Reply(Some(a), State(t.input[2..], UpdateChars(t.pos, [a, b]), t.user), None)
    {
      assert t.input == [a, b] + t.input[2..];
      CharPairAt(a, b, t, t.input[2..]);
    }
  }

  /** On a (d a)^k then anything but d: `char(a)` reads the first a, the pairs d a follow, and then `char(d) >> char(a)` declines. */
  lemma SepByCharsRead(a: char, d: char, k: nat, rest: string, s: State)
    requires s.input == [a] + (Pairs(d, a, k) + rest)
    requires rest == [] || rest[0] != d
    ensures var t := State(Pairs(d, a, k) + rest, Update(s.pos, [a]), s.user);
            var stop := State(rest, UpdateChars(t.pos, Pairs(d, a, k)), s.user);
            Char(a)(s) == Reply(Some(a), t, None) &&
            ItemsRead(Then(Char(d), Char(a)), t, Repeat(Some(a), k), stop) &&
            Then(Char(d), Char(a))(stop).Failed() && Then(Char(d), Char(a))(stop).state == stop
  {
    var t := State(Pairs(d, a, k) + rest, Update(s.pos, [a]), s.user);
    var stop := State(rest, UpdateChars(t.pos, Pairs(d, a, k)), s.user);
    assert s.input[1..] == t.input;
    CharAccepts(a, s);
    CharPairsRead(d, a);
    PairsReadBy(Then(Char(d), Char(a)), Some(a), d, a, k, rest, t);
    CharRejects(d, stop);
  }

  /** `sep_by(char(a), char(d))` and `sep_by1` on a (d a)^k, then anything but d: k + 1 copies of a, stopping before the rest. */
  lemma SepByChars(a: char, d: char, k: nat, rest: string, s: State)
    requires s.input == [a] + (Pairs(d, a, k) + rest)
    requires rest == [] || rest[0] != d
    ensures var stop := State(rest, UpdateChars(s.pos, [a] + Pairs(d, a, k)), s.user);
            SepBy1(Char(a), Char(d))(s) == Reply(Some(Repeat(Some(a), k + 1)), stop, None) &&
            SepBy(Char(a), Char(d))(s) == Reply(Some(Repeat(Some(a), k + 1)), stop, None)
  {
    var t := State(Pairs(d, a, k) + rest, Update(s.pos, [a]), s.user);
    var stop := State(rest, UpdateChars(t.pos, Pairs(d, a, k)), s.user);
    var xs := [Some(a)] + Repeat(Some(a), k);
    assert SepBy1(Char(a), Char(d))(s) == Reply(Some(xs), stop, None) && SepBy(Char(a), Char(d))(s) == Reply(Some(xs), stop, None) by {
      SepByCharsRead(a, d, k, rest, s);
      SepByCollects(Char(a), Char(d), s, Repeat(Some(a), k), stop);
    }
    assert xs == Repeat(Some(a), k + 1) by {
      RepeatCons(Some(a), k + 1);
    }
    assert stop.pos == UpdateChars(s.pos, [a] + Pairs(d, a, k)) by {
      UpdateCharsCons(s.pos, a, Pairs(d, a, k));
    }
  }

  /** Without a leading a, `sep_by(char(a), char(d))` reads nothing and gives [], and `sep_by1` fails expecting a. */
  lemma SepByCharsNone(a: char, d: char, s: State)
    requires s.input == [] || s.input[0] != a
    ensures SepBy(Char(a), Char(d))(s) == Reply(Some([]), s, None)
    ensures SepBy1(Char(a), Char(d))(s) == Reply(None, s, Some(ParseError(s.pos, Expecting(Quoted(a)))))
  {
    CharRejects(a, s);
    SepByNone(Char(a), Char(d), s);
    SepBy1NeedsOne(Char(a), Char(d), s);
  }

  /** `end_by(char(a), char(d))` on (a d)^k, then anything but a: k copies of a, stopping before the rest. */
  lemma EndByChars(a: char, d: char, k: nat, rest: string, s: State)
    requires s.input == Pairs(a, d, k) + rest
    requires rest == [] || rest[0] != a
    ensures EndBy(Char(a), Char(d))(s) == Reply(Some(Repeat(Some(a), k)), State(rest, UpdateChars(s.pos, Pairs(a, d, k)), s.user), None)
  {
    CharPairsRead(a, d);
    PairsReadBy(Terminated(Char(a), Char(d)), Some(a), a, d, k, rest, s);
    var stop := State(rest, UpdateChars(s.pos, Pairs(a, d, k)), s.user);
    CharRejects(a, stop);
    EndByCollects(Char(a), Char(d), s, Repeat(Some(a), k), stop);
  }

  /** The guards under which sep_end_by1 of character parsers is its own body. */
  lemma CharsGuarded(a: char, d: char)
    ensures Consuming(Char(a)) && NonGrowing(Char(d))
  {
    CharConsuming(a);
    CharConsuming(d);
    ConsumingIsAdvancing(Char(d));
  }

  /** After a d: the state `char(a)` then `char(d)` leave. */
  function AfterPair(a: char, d: char, s: State, tail: string): State {
    State(tail, Update(Update(s.pos, [a]), [d]), s.user)
  }

  /** One a d at the front: `char(a)` reads a, then `char(d)` reads d. */
  lemma CharThenChar(a: char, d: char, s: State, tail: string)
    requires s.input == [a, d] + tail
    ensures Char(a)(s) == Reply(Some(a), State([d] + tail, Update(s.pos, [a]), s.user), None)
    ensures Char(d)(Char(a)(s).state) == Reply(Some(d), AfterPair(a, d, s, tail), None)
  {
    var t := State([d] + tail, Update(s.pos, [a]), s.user);
    assert s.input[1..] == t.input;
    CharAccepts(a, s);
    assert t.input[1..] == tail;
    CharAccepts(d, t);
  }

  /** sep_end_by1 on a single a that no d follows: [a]. */
  lemma SepEndByCharsOne(a: char, d: char, rest: string, s: State)
    requires s.input == [a] + rest
    requires rest == [] || rest[0] != d
    ensures SepEndBy1(Char(a), Char(d))(s) == Reply(Some([Some(a)]), State(rest, Update(s.pos, [a]), s.user), None)
  {
    CharsGuarded(a, d);
    var t := State(rest, Update(s.pos, [a]), s.user);
    assert s.input[1..] == rest;
    CharAccepts(a, s);
    CharRejects(d, t);
    SepEndBy1Last(Char(a), Char(d), s);
  }

  /** sep_end_by1 on a d that no a follows: [a], the d read. */
  lemma SepEndByCharsOneTerminated(a: char, d: char, rest: string, s: State)
    requires s.input == [a, d] + rest
    requires rest == [] || rest[0] != a
    ensures SepEndBy1(Char(a), Char(d))(s) == Reply(Some([Some(a)]), AfterPair(a, d, s, rest), None)
  {
    CharsGuarded(a, d);
    CharThenChar(a, d, s, rest);
    CharRejects(a, AfterPair(a, d, s, rest));
    SepEndBy1LastTerminated(Char(a), Char(d), s);
  }

  /** sep_end_by1 on a d followed by items xs: a, then xs. */
  lemma SepEndByCharsStep(a: char, d: char, tail: string, s: State, xs: List<char>, stop: State)
    requires s.input == [a, d] + tail
    requires SepEndBy1(Char(a), Char(d))(AfterPair(a, d, s, tail)) == Reply(Some(xs), stop, None)
    ensures SepEndBy1(Char(a), Char(d))(s) == Reply(Some([Some(a)] + xs), stop, None)
  {
    CharsGuarded(a, d);
    CharThenChar(a, d, s, tail);
    SepEndBy1More(Char(a), Char(d), s, xs, stop);
  }

  // ------------------------------------------- the test suite's inputs

  lemma Doubled<T>(x: T)
    ensures [x] + [x] == [x, x]
  {
  }

  lemma Shapes<T>(a: T, d: T)
    ensures [a, d, a] == [a, d] + [a] && [a, d, a, d] == [a, d] + [a, d]
    ensures [a] == [a] + [] && [a, d] == [a, d] + []
  {
  }

  /** The values the tests expect, as runs of one item. */
  lemma WrapAs()
    ensures Wrap("a") == Repeat(Some('a'), 1)
    ensures Wrap("aa") == Repeat(Some('a'), 2)
    ensures Wrap("aaa") == Repeat(Some('a'), 3)
  {
    RepeatOne(Some('a'));
    RepeatCons(Some('a'), 2);
    RepeatCons(Some('a'), 3);
    assert Wrap("a") == [Some('a')];
    assert Wrap("aaa") == [Some('a'), Some('a'), Some('a')];
  }

  /** The test inputs of sep_end_by, character by character. */
  lemma SepEndByInputs()
    ensures "a;a" == ['a', ';', 'a'] && "a;a;" == ['a', ';', 'a', ';']
    ensures Wrap("aa") == [Some('a'), Some('a')]
  {
  }

  /** The test inputs as pairs. */
  lemma InputsAsPairs()
    ensures "a,a,a" == ['a'] + (Pairs(',', 'a', 2) + [])
    ensures "a" == ['a'] + (Pairs(',', 'a', 0) + [])
    ensures "a;a;" == Pairs('a', ';', 2) + []
    ensures "" == Pairs('a', ';', 0) + []
  {
    assert Pairs(',', 'a', 1) == [',', 'a'] + [];
    assert Pairs('a', ';', 1) == ['a', ';'] + [];
  }

  /** `sep_by(char('a'), char(','))` on "a,a,a": three a's, all input read. */
  lemma SepByThreeExample(s: State)
    requires s.input == "a,a,a"
    ensures var r := SepBy(Char('a'), Char(','))(s);
            !r.Failed() && r.value == Some(Wrap("aaa")) && r.state.input == []
  {
    assert s.input == ['a'] + (Pairs(',', 'a', 2) + []) by { InputsAsPairs(); }
    assert !SepBy(Char('a'), Char(','))(s).Failed() && SepBy(Char('a'), Char(','))(s).value == Some(Repeat(Some('a'), 3))
        && SepBy(Char('a'), Char(','))(s).state.input == [] by {
      SepByChars('a', ',', 2, [], s);
    }
    WrapAs();
  }

  /** `sep_by(char('a'), char(','))` on "a": one a. */
  lemma SepByOneExample(s: State)
    requires s.input == "a"
    ensures var r := SepBy(Char('a'), Char(','))(s);
            !r.Failed() && r.value == Some(Wrap("a")) && r.state.input == []
  {
    InputsAsPairs();
    SepByChars('a', ',', 0, [], s);
    WrapAs();
  }

  /** `sep_by(char('a'), char(','))` on "" gives [], and `sep_by1` fails there. */
  lemma SepByEmptyExample(s: State)
    requires s.input == ""
    ensures SepBy(Char('a'), Char(','))(s) == Reply(Some([]), s, None)
    ensures SepBy1(Char('a'), Char(','))(s).Failed() && SepBy1(Char('a'), Char(','))(s).value == None
  {
    SepByCharsNone('a', ',', s);
  }

  /** `end_by(char('a'), char(';'))` on "a;a;": two a's. */
  lemma EndByTwoExample(s: State)
    requires s.input == "a;a;"
    ensures var r := EndBy(Char('a'), Char(';'))(s);
            !r.Failed() && r.value == Some(Wrap("aa")) && r.state.input == []
  {
    assert s.input == Pairs('a', ';', 2) + [] by { InputsAsPairs(); }
    assert !EndBy(Char('a'), Char(';'))(s).Failed() && EndBy(Char('a'), Char(';'))(s).value == Some(Repeat(Some('a'), 2))
        && EndBy(Char('a'), Char(';'))(s).state.input == [] by {
      EndByChars('a', ';', 2, [], s);
    }
    WrapAs();
  }

  /** `end_by(char('a'), char(';'))` on "": []. */
  lemma EndByEmptyExample(s: State)
    requires s.input == ""
    ensures EndBy(Char('a'), Char(';'))(s) == Reply(Some([]), s, None)
  {
    assert s.input == Pairs('a', ';', 0) + [] by { InputsAsPairs(); }
    EndByChars('a', ';', 0, [], s);
    RepeatZero(Some('a'));
  }

  /** sep_end_by1 on a d a, then nothing: two a's. */
  lemma SepEndByCharsTwo(a: char, d: char, s: State)
    requires s.input == [a, d, a]
    ensures var u := AfterPair(a, d, s, [a]);
            SepEndBy1(Char(a), Char(d))(s) == Reply(Some([Some(a), Some(a)]), State([], Update(u.pos, [a]), s.user), None)
  {
    Shapes(a, d);
    var u := AfterPair(a, d, s, [a]);
    var stop := State([], Update(u.pos, [a]), s.user);
    assert SepEndBy1(Char(a), Char(d))(u) == Reply(Some([Some(a)]), stop, None) by {
      SepEndByCharsOne(a, d, [], u);
    }
    SepEndByCharsStep(a, d, [a], s, [Some(a)], stop);
    Doubled(Some(a));
  }

  /** sep_end_by1 on a d a d, then nothing: two a's, the last d read. */
  lemma SepEndByCharsTwoTerminated(a: char, d: char, s: State)
    requires s.input == [a, d, a, d]
    ensures var u := AfterPair(a, d, s, [a, d]);
            SepEndBy1(Char(a), Char(d))(s) == Reply(Some([Some(a), Some(a)]), AfterPair(a, d, u, []), None)
  {
    Shapes(a, d);
    var u := AfterPair(a, d, s, [a, d]);
    assert SepEndBy1(Char(a), Char(d))(u) == Reply(Some([Some(a)]), AfterPair(a, d, u, []), None) by {
      SepEndByCharsOneTerminated(a, d, [], u);
    }
    SepEndByCharsStep(a, d, [a, d], s, [Some(a)], AfterPair(a, d, u, []));
    Doubled(Some(a));
  }

  /** A value-carrying success of sep_end_by1 is the result of sep_end_by. */
  lemma SepEndByOfOne<T, S>(p: Parser<T>, sep: Parser<S>, s: State, xs: List<T>, stop: State)
    requires SepEndBy1(p, sep)(s) == Reply(Some(xs), stop, None)
    ensures SepEndBy(p, sep)(s) == Reply(Some(xs), stop, None)
  {
  }

  /** `sep_end_by(char('a'), char(';'))` on "a;a": two a's, as sep_by would give. */
  lemma SepEndByUnterminatedExample(s: State)
    requires s.input == "a;a"
    ensures var r := SepEndBy(Char('a'), Char(';'))(s);
            !r.Failed() && r.value == Some(Wrap("aa")) && r.state.input == []
  {
    SepEndByInputs();
    var u := AfterPair('a', ';', s, ['a']);
    var stop := State([], Update(u.pos, ['a']), s.user);
    assert SepEndBy1(Char('a'), Char(';'))(s) == Reply(Some([Some('a'), Some('a')]), stop, None) by {
      SepEndByCharsTwo('a', ';', s);
    }
    SepEndByOfOne(Char('a'), Char(';'), s, [Some('a'), Some('a')], stop);
  }

  /** `sep_end_by(char('a'), char(';'))` on "a;a;": two a's, the trailing ';' read, as end_by would give. */
  lemma SepEndByTerminatedExample(s: State)
    requires s.input == "a;a;"
    ensures var r := SepEndBy(Char('a'), Char(';'))(s);
            !r.Failed() && r.value == Some(Wrap("aa")) && r.state.input == []
  {
    SepEndByInputs();
    var stop := AfterPair('a', ';', AfterPair('a', ';', s, ['a', ';']), []);
    assert SepEndBy1(Char('a'), Char(';'))(s) == Reply(Some([Some('a'), Some('a')]), stop, None) by {
      SepEndByCharsTwoTerminated('a', ';', s);
    }
    SepEndByOfOne(Char('a'), Char(';'), s, [Some('a'), Some('a')], stop);
  }

  /** `sep_end_by(char('a'), char(';'))` on "": []. */
  lemma SepEndByEmptyExample(s: State)
    requires s.input == ""
    ensures SepEndBy(Char('a'), Char(';'))(s) == Reply(Some([]), s, None)
  {
    CharsGuarded('a', ';');
    CharRejects('a', s);
    SepEndByNone(Char('a'), Char(';'), s);
  }

  // ------------------------------------------------------ through the runner

  /** `run_parser(sep_by(char('a'), char(',')), "a,a,a")`: the three a's and no error. */
  lemma RunSepByExample(u: UserState, name: string)
    ensures RunParser(SepBy(Char('a'), Char(',')), "a,a,a", u, name) == (Some(Wrap("aaa")), None)
  {
    SepByThreeExample(State("a,a,a", InitialPos(name), u));
  }

  /** `run_parser(sep_by1(char('a'), char(',')), "")`: no value, and an error at line 1, column 1. */
  lemma RunSepBy1EmptyExample(u: UserState, name: string)
    ensures var (v, e) := RunParser(SepBy1(Char('a'), Char(',')), "", u, name);
            v == None && e.Some? && e.value.pos == InitialPos(name)
  {
    SepByEmptyExample(State("", InitialPos(name), u));
  }

  /** `run_parser(end_by(char('a'), char(';')), "a;a;")`: the two a's and no error. */
  lemma RunEndByExample(u: UserState, name: string)
    ensures RunParser(EndBy(Char('a'), Char(';')), "a;a;", u, name) == (Some(Wrap("aa")), None)
  {
    EndByTwoExample(State("a;a;", InitialPos(name), u));
  }
}

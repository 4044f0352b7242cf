/**
 * The integer literals of a TokenParser: `decimal`, `hexadecimal`,
 * `octal`, `natural` with its leading-zero forms, and `integer` with its
 * optional sign; and the round trip from `str(n)` back to n.
 */
module TokenNumbers {
  import opened Parsec
  import opened Prim
  import opened Chars
  import opened Combinators
  import opened Numerals
  import opened Token
  import opened TokenWhite

  /** many1(p) where p and then many(p) succeed: the first value in front of many's list. */
  lemma Many1Succeeds<T>(p: Parser<T>, s: State)
    requires !p(s).Failed() && !Many(p)(p(s).state).Failed()
    ensures var m := Many(p)(p(s).state);
            Many1(p)(s) == Reply(Cons(p(s).value, m.value), m.state, None)
  {
  }

  /** Reading the first character of a non-empty run, then the rest of it. */
  lemma RunSplits(pos: SourcePos, ds: string)
    requires |ds| > 0
    ensures [Some(ds[0])] + Wrap(ds[1..]) == Wrap(ds)
    ensures UpdateChars(Update(pos, [ds[0]]), ds[1..]) == UpdateChars(pos, ds)
  {
  }

  /** What holds of every character of a run holds of every character of its tail. */
  lemma ClassTail(f: char -> bool, ds: string)
    requires |ds| > 0 && forall i :: 0 <= i < |ds| ==> f(ds[i])
    ensures forall i :: 0 <= i < |ds[1..]| ==> f(ds[1..][i])
  {
    forall i | 0 <= i < |ds[1..]| ensures f(ds[1..][i]) {
      assert ds[1..][i] == ds[i + 1];
    }
  }

  /** A class parser on a run reads the run's first character. */
  lemma ClassFirst(p: Parser<char>, f: char -> bool, msg: string, ds: string, rest: string, s: State)
    requires forall t: State :: AcceptsClass(p, f, msg, t)
    requires |ds| > 0 && f(ds[0]) && s.input == ds + rest
    ensures p(s) == Reply(Some(ds[0]), State(ds[1..] + rest, Update(s.pos, [ds[0]]), s.user), None)
  {
    assert AcceptsClass(p, f, msg, s);
    assert s.input[1..] == ds[1..] + rest;
  }

  /** `many1(p)` for a class parser on a non-empty run ds of the class followed by rest. */
  lemma Many1ClassRun(p: Parser<char>, f: char -> bool, msg: string, ds: string, rest: string, s: State)
    requires forall t: State :: AcceptsClass(p, f, msg, t)
    requires |ds| > 0 && forall i :: 0 <= i < |ds| ==> f(ds[i])
    requires rest == [] || !f(rest[0])
    requires s.input == ds + rest
    ensures Many1(p)(s) == Reply(Some(Wrap(ds)), State(rest, UpdateChars(s.pos, ds), s.user), None)
  {
    var t := State(ds[1..] + rest, Update(s.pos, [ds[0]]), s.user);
    ClassFirst(p, f, msg, ds, rest, s);
    ClassTail(f, ds);
    ManyClassRun(p, f, msg, ds[1..], rest, t);
    Many1Succeeds(p, s);
    RunSplits(s.pos, ds);
  }

  /** Joining the characters a run was read into gives the run back. */
  lemma {:induction false} JoinWrap(ds: string)
    ensures Join(Wrap(ds)) == ds
    decreases |ds|
  {
    if ds != [] {
      assert Wrap(ds)[1..] == Wrap(ds[1..]);
      JoinWrap(ds[1..]);
      assert [ds[0]] + ds[1..] == ds;
    }
  }

  /** A run of characters of class f, followed by something outside f. */
  predicate RunOf(f: char -> bool, ds: string, rest: string) {
    |ds| > 0 && (forall i :: 0 <= i < |ds| ==> f(ds[i])) && (rest == [] || !f(rest[0]))
  }

  /** `decimal` on a run of digits: the run's value in base 10; white space after it would be skipped. */
  lemma DecimalReads(tp: TokenParser, ds: string, rest: string, s: State)
    requires RunOf(tp.cls.isDigit, ds, rest) && !WhiteStart(tp, rest)
    requires forall i :: 0 <= i < |ds| ==> IsDecimalChar(ds[i])
    requires s.input == ds + rest
    ensures tp.Decimal()(s) == Reply(Some(DigitsValue(ds, 10)), State(rest, UpdateChars(s.pos, ds), s.user), None)
  {
    Many1ClassRun(Digit(tp.cls), tp.cls.isDigit, "digit", ds, rest, s);
    JoinWrap(ds);
    LexemeAtToken(tp, Map(Many1(Digit(tp.cls)), ValueIn(10)), s);
  }

  /** `decimal` fails without reading where no digit comes first. */
  lemma DecimalDeclines(tp: TokenParser, s: State)
    requires |s.input| == 0 || !tp.cls.isDigit(s.input[0])
    ensures Declines(s, tp.Decimal()(s)) && tp.Decimal()(s).Failed()
  {
    assert AcceptsClass(Digit(tp.cls), tp.cls.isDigit, "digit", s);
  }

  /** The value a run of digits is mapped to. */
  lemma ValueOfRun(ds: string, base: nat)
    ensures ValueIn(base)(Some(Wrap(ds))) == DigitsValue(ds, base)
  {
    JoinWrap(ds);
  }

  /** A prefix character read by q, then a run of digits read by digits (many1 of a digit class), taken as a number in the given base. */
  lemma PrefixedDigits(q: Parser<char>, digits: Parser<List<char>>, base: nat, x: char, ds: string, rest: string, s: State)
    requires q(s) == Reply(Some(x), State(ds + rest, Update(s.pos, [x]), s.user), None)
    requires digits(q(s).state) == Reply(Some(Wrap(ds)), State(rest, UpdateChars(q(s).state.pos, ds), s.user), None)
    ensures Map(Then(q, digits), ValueIn(base))(s)
            == Reply(Some(DigitsValue(ds, base)), State(rest, UpdateChars(s.pos, [x] + ds), s.user), None)
  {
    var t := q(s).state;
    var end := State(rest, UpdateChars(t.pos, ds), s.user);
    assert Map(Then(q, digits), ValueIn(base))(s) == Reply(Some(ValueIn(base)(Some(Wrap(ds)))), end, None) by {
      MapThen(q, digits, ValueIn(base), s);
    }
    assert ValueIn(base)(Some(Wrap(ds))) == DigitsValue(ds, base) by {
      ValueOfRun(ds, base);
    }
    assert UpdateChars(t.pos, ds) == UpdateChars(s.pos, [x] + ds) by {
      UpdateCharsCons(s.pos, x, ds);
    }
  }

  /** A class parser on a prefix character and a parser of a digit class on the run after it. */
  lemma PrefixedRun(q: Parser<char>, fq: char -> bool, mq: string, d: Parser<char>, fd: char -> bool, md: string,
                    x: char, ds: string, rest: string, s: State)
    requires forall t: State :: AcceptsClass(q, fq, mq, t)
    requires forall t: State :: AcceptsClass(d, fd, md, t)
    requires fq(x) && RunOf(fd, ds, rest)
    requires s.input == [x] + ds + rest
    ensures q(s) == Reply(Some(x), State(ds + rest, Update(s.pos, [x]), s.user), None)
    ensures Many1(d)(q(s).state) == Reply(Some(Wrap(ds)), State(rest, UpdateChars(q(s).state.pos, ds), s.user), None)
  {
    assert ([x] + ds)[1..] == ds;
    ClassFirst(q, fq, mq, [x] + ds, rest, s);
    Many1ClassRun(d, fd, md, ds, rest, q(s).state);
  }

  /** `hexadecimal`: 'x' or 'X', then a run of hexadecimal digits, read in base 16. */
  lemma HexadecimalReads(tp: TokenParser, x: char, ds: string, rest: string, s: State)
    requires x in "xX" && RunOf(HexTest(tp.cls), ds, rest) && !WhiteStart(tp, rest)
    requires forall i :: 0 <= i < |ds| ==> IsHexChar(ds[i])
    requires s.input == [x] + ds + rest
    ensures tp.Hexadecimal()(s) == Reply(Some(DigitsValue(ds, 16)), State(rest, UpdateChars(s.pos, [x] + ds), s.user), None)
  {
    PrefixedRun(OneOf("xX"), InSet("xX"), "one of " + "xX", HexDigit(tp.cls), HexTest(tp.cls), "hexadecimal digit",
                x, ds, rest, s);
    PrefixedDigits(OneOf("xX"), Many1(HexDigit(tp.cls)), 16, x, ds, rest, s);
    LexemeAtToken(tp, Map(Then(OneOf("xX"), Many1(HexDigit(tp.cls))), ValueIn(16)), s);
  }

  /** `hexadecimal` fails without reading where neither 'x' nor 'X' comes first. */
  lemma HexadecimalDeclines(tp: TokenParser, s: State)
    requires |s.input| == 0 || !InSet("xX")(s.input[0])
    ensures Declines(s, tp.Hexadecimal()(s)) && tp.Hexadecimal()(s).Failed()
  {
    assert AcceptsClass(OneOf("xX"), InSet("xX"), "one of " + "xX", s);
  }

  /** `octal`: 'o' or 'O', then a run of octal digits, read in base 8. */
  lemma OctalReads(tp: TokenParser, o: char, ds: string, rest: string, s: State)
    requires o in "oO" && RunOf(IsOctDigit, ds, rest) && !WhiteStart(tp, rest)
    requires s.input == [o] + ds + rest
    ensures tp.Octal()(s) == Reply(Some(DigitsValue(ds, 8)), State(rest, UpdateChars(s.pos, [o] + ds), s.user), None)
  {
    PrefixedRun(OneOf("oO"), InSet("oO"), "one of " + "oO", OctDigit(), IsOctDigit, "octal digit",
                o, ds, rest, s);
    PrefixedDigits(OneOf("oO"), Many1(OctDigit()), 8, o, ds, rest, s);
    LexemeAtToken(tp, Map(Then(OneOf("oO"), Many1(OctDigit())), ValueIn(8)), s);
  }

  /** `octal` fails without reading where neither 'o' nor 'O' comes first. */
  lemma OctalDeclines(tp: TokenParser, s: State)
    requires |s.input| == 0 || !InSet("oO")(s.input[0])
    ensures Declines(s, tp.Octal()(s)) && tp.Octal()(s).Failed()
  {
    assert AcceptsClass(OneOf("oO"), InSet("oO"), "one of " + "oO", s);
  }

  // ------------------------------------------------------------- natural

  /** `natural` on a run of digits that does not start with '0': the run read in base 10. */
  lemma NaturalDecimal(tp: TokenParser, ds: string, rest: string, s: State)
    requires RunOf(tp.cls.isDigit, ds, rest) && ds[0] != '0' && !WhiteStart(tp, rest)
    requires forall i :: 0 <= i < |ds| ==> IsDecimalChar(ds[i])
    requires s.input == ds + rest
    ensures tp.Natural()(s) == Reply(Some(DigitsValue(ds, 10)), State(rest, UpdateChars(s.pos, ds), s.user), None)
  {
    CharRejects('0', s);
    DecimalReads(tp, ds, rest, s);
    ChoiceOfTwo(Then(Char('0'), tp.AfterZero()), tp.Decimal(), s);
    LexemeAtToken(tp, Choice([Then(Char('0'), tp.AfterZero()), tp.Decimal()]), s);
  }

  /** After a leading '0' with nothing that continues a number: the value 0, and nothing more is read. */
  lemma AfterZeroAlone(tp: TokenParser, t: State)
    requires |t.input| == 0 || (!InSet("xX")(t.input[0]) && !InSet("oO")(t.input[0]) && !tp.cls.isDigit(t.input[0]))
    ensures tp.AfterZero()(t) == Reply(Some(0), t, None)
  {
    HexadecimalDeclines(tp, t);
    OctalDeclines(tp, t);
    DecimalDeclines(tp, t);
    ChoiceOfFour(tp.Hexadecimal(), tp.Octal(), tp.Decimal(), Pure(Some(0)), t);
  }

  /** After a leading '0', an 'x' or 'X' starts a hexadecimal body. */
  lemma AfterZeroHex(tp: TokenParser, x: char, ds: string, rest: string, t: State)
    requires InSet("xX")(x) && RunOf(HexTest(tp.cls), ds, rest) && !WhiteStart(tp, rest)
    requires forall i :: 0 <= i < |ds| ==> IsHexChar(ds[i])
    requires t.input == [x] + ds + rest
    ensures tp.AfterZero()(t) == Reply(Some(DigitsValue(ds, 16)), State(rest, UpdateChars(t.pos, [x] + ds), t.user), None)
  {
    HexadecimalReads(tp, x, ds, rest, t);
    ChoiceOfFour(tp.Hexadecimal(), tp.Octal(), tp.Decimal(), Pure(Some(0)), t);
  }

  /** After a leading '0', an 'o' or 'O' starts an octal body. */
  lemma AfterZeroOctal(tp: TokenParser, o: char, ds: string, rest: string, t: State)
    requires o in "oO" && RunOf(IsOctDigit, ds, rest) && !WhiteStart(tp, rest)
    requires t.input == [o] + ds + rest
    ensures tp.AfterZero()(t) == Reply(Some(DigitsValue(ds, 8)), State(rest, UpdateChars(t.pos, [o] + ds), t.user), None)
  {
    HexadecimalDeclines(tp, t);
    OctalReads(tp, o, ds, rest, t);
    ChoiceOfFour(tp.Hexadecimal(), tp.Octal(), tp.Decimal(), Pure(Some(0)), t);
  }

  /** After a leading '0', more digits are read in base 10 (so a leading zero does not make a number octal). */
  lemma AfterZeroDecimal(tp: TokenParser, ds: string, rest: string, t: State)
    requires RunOf(tp.cls.isDigit, ds, rest) && ds[0] !in "xXoO" && !WhiteStart(tp, rest)
    requires forall i :: 0 <= i < |ds| ==> IsDecimalChar(ds[i])
    requires t.input == ds + rest
    ensures tp.AfterZero()(t) == Reply(Some(DigitsValue(ds, 10)), State(rest, UpdateChars(t.pos, ds), t.user), None)
  {
    HexadecimalDeclines(tp, t);
    OctalDeclines(tp, t);
    DecimalReads(tp, ds, rest, t);
    ChoiceOfFour(tp.Hexadecimal(), tp.Octal(), tp.Decimal(), Pure(Some(0)), t);
  }

  /** `natural` on a leading '0': what follows it, read as AfterZero reads it. */
  lemma NaturalAfterZero(tp: TokenParser, s: State)
    requires |s.input| > 0 && s.input[0] == '0'
    requires var r := tp.AfterZero()(State(s.input[1..], Update(s.pos, "0"), s.user));
             r.value.Some? && !r.Failed() && !WhiteStart(tp, r.state.input)
    ensures tp.Natural()(s) == tp.AfterZero()(State(s.input[1..], Update(s.pos, "0"), s.user))
  {
    CharAccepts('0', s);
    ChoiceOfTwo(Then(Char('0'), tp.AfterZero()), tp.Decimal(), s);
    LexemeAtToken(tp, Choice([Then(Char('0'), tp.AfterZero()), tp.Decimal()]), s);
  }

  /** `natural` on "0" alone: 0. */
  lemma NaturalZero(tp: TokenParser, rest: string, s: State)
    requires rest == [] || (rest[0] !in "xXoO" && !tp.cls.isDigit(rest[0]))
    requires !WhiteStart(tp, rest)
    requires s.input == "0" + rest
    ensures tp.Natural()(s) == Reply(Some(0), State(rest, Update(s.pos, "0"), s.user), None)
  {
    var t := State(rest, Update(s.pos, "0"), s.user);
    assert s.input[1..] == rest;
    AfterZeroAlone(tp, t);
    NaturalAfterZero(tp, s);
  }

  // ------------------------------------------------------------- integer

  /** Without a sign, a signed number is the number. */
  lemma SignedUnsigned(num: Parser<int>, s: State)
    requires |s.input| == 0 || (s.input[0] != '-' && s.input[0] != '+')
    ensures Signed(num)(s) == num(s)
  {
    CharRejects('-', s);
    CharRejects('+', s);
  }

  /** Mapping Negate over a number that was read gives its negation. */
  lemma NegatedNumber(num: Parser<int>, t: State, m: int, end: State)
    requires num(t) == Reply(Some(m), end, None)
    ensures Map(num, Negate)(t) == Reply(Some(-m), end, None)
  {
  }

  /** After '-', a signed number is the number negated. */
  lemma SignedMinus(num: Parser<int>, s: State, m: int, end: State)
    requires |s.input| > 0 && s.input[0] == '-'
    requires num(State(s.input[1..], Update(s.pos, "-"), s.user)) == Reply(Some(m), end, None)
    ensures Signed(num)(s) == Reply(Some(-m), end, None)
  {
    var t := State(s.input[1..], Update(s.pos, "-"), s.user);
    assert Signed(num)(s) == Map(num, Negate)(t) by {
      CharAccepts('-', s);
    }
    assert Map(num, Negate)(t) == Reply(Some(-m), end, None) by {
      NegatedNumber(num, t, m, end);
    }
  }

  /** After '+', a signed number is the number. */
  lemma SignedPlus(num: Parser<int>, s: State)
    requires |s.input| > 0 && s.input[0] == '+'
    requires var r := num(State(s.input[1..], Update(s.pos, "+"), s.user));
             r.value.Some? && !r.Failed()
    ensures Signed(num)(s) == num(State(s.input[1..], Update(s.pos, "+"), s.user))
  {
    CharRejects('-', s);
    CharAccepts('+', s);
  }

  /** Without a sign, `integer` is `natural`. */
  lemma IntegerUnsigned(tp: TokenParser, s: State)
    requires |s.input| == 0 || (s.input[0] != '-' && s.input[0] != '+')
    requires var r := tp.Natural()(s);
             r.value.Some? && !r.Failed() && !WhiteStart(tp, r.state.input)
    ensures tp.Integer()(s) == tp.Natural()(s)
  {
    SignedUnsigned(tp.Natural(), s);
    LexemeAtToken(tp, Signed(tp.Natural()), s);
  }

  /** After '-', `integer` is the negated `natural`. */
  lemma IntegerMinus(tp: TokenParser, s: State, m: int, end: State)
    requires |s.input| > 0 && s.input[0] == '-'
    requires tp.Natural()(State(s.input[1..], Update(s.pos, "-"), s.user)) == Reply(Some(m), end, None)
    requires !WhiteStart(tp, end.input)
    ensures tp.Integer()(s) == Reply(Some(-m), end, None)
  {
    assert Signed(tp.Natural())(s) == Reply(Some(-m), end, None) by {
      SignedMinus(tp.Natural(), s, m, end);
    }
    LexemeAtToken(tp, Signed(tp.Natural()), s);
  }

  /** After '+', `integer` is `natural`. */
  lemma IntegerPlus(tp: TokenParser, s: State)
    requires |s.input| > 0 && s.input[0] == '+'
    requires var r := tp.Natural()(State(s.input[1..], Update(s.pos, "+"), s.user));
             r.value.Some? && !r.Failed() && !WhiteStart(tp, r.state.input)
    ensures tp.Integer()(s) == tp.Natural()(State(s.input[1..], Update(s.pos, "+"), s.user))
  {
    SignedPlus(tp.Natural(), s);
    LexemeAtToken(tp, Signed(tp.Natural()), s);
  }

  // ------------------------------------------------------------ round trip

  /** The classifier counts the ASCII digits as digits, as Python's `str.isdigit` does. */
  predicate KnowsDigits(cls: Classifier) {
    forall c :: IsDecimalChar(c) ==> cls.isDigit(c)
  }

  /** Nothing is left: no white space can begin. */
  lemma NoWhiteAtEnd(tp: TokenParser)
    ensures !WhiteStart(tp, [])
  {
  }

  /** `natural` reads `str(n)` back as n. */
  lemma NaturalOfString(tp: TokenParser, n: nat, s: State)
    requires KnowsDigits(tp.cls)
    requires s.input == NatToString(n)
    ensures tp.Natural()(s) == Reply(Some(n), State([], UpdateChars(s.pos, NatToString(n)), s.user), None)
  {
    var ds := NatToString(n);
    NatToStringDigits(n);
    NoWhiteAtEnd(tp);
    assert s.input == ds + [];
    if n == 0 {
      assert ds == "0";
      NaturalZero(tp, [], s);
    } else {
      NatToStringRoundTrip(n);
      NaturalDecimal(tp, ds, [], s);
    }
  }

  /** `integer` on `str(n)` for a natural number n. */
  lemma IntegerOfNatural(tp: TokenParser, n: nat, s: State)
    requires KnowsDigits(tp.cls)
    requires s.input == NatToString(n)
    ensures tp.Integer()(s) == Reply(Some(n), State([], UpdateChars(s.pos, NatToString(n)), s.user), None)
  {
    NoWhiteAtEnd(tp);
    NatToStringDigits(n);
    NaturalOfString(tp, n, s);
    IntegerUnsigned(tp, s);
  }

  /** `integer` on '-' followed by `str(m)`: -m. */
  lemma IntegerOfNegated(tp: TokenParser, m: nat, s: State)
    requires KnowsDigits(tp.cls)
    requires |s.input| > 0 && s.input[0] == '-' && s.input[1..] == NatToString(m)
    ensures tp.Integer()(s) == Reply(Some(-(m as int)), State([], UpdateChars(Update(s.pos, "-"), NatToString(m)), s.user), None)
  {
    var t := State(s.input[1..], Update(s.pos, "-"), s.user);
    var end := State([], UpdateChars(t.pos, NatToString(m)), s.user);
    assert tp.Natural()(t) == Reply(Some(m as int), end, None) by {
      NaturalOfString(tp, m, t);
    }
    NoWhiteAtEnd(tp);
    IntegerMinus(tp, s, m, end);
  }

  /** `integer` on `str(n)` for a negative number n. */
  lemma IntegerOfNegative(tp: TokenParser, n: int, s: State)
    requires KnowsDigits(tp.cls)
    requires n < 0 && s.input == IntToString(n)
    ensures tp.Integer()(s) == Reply(Some(n), State([], UpdateChars(s.pos, IntToString(n)), s.user), None)
  {
    var m: nat := -n;
    assert s.input == ['-'] + NatToString(m);
    var pos := UpdateChars(Update(s.pos, "-"), NatToString(m));
    assert pos == UpdateChars(s.pos, IntToString(n)) by {
      UpdateCharsCons(s.pos, '-', NatToString(m));
    }
    assert s.input[1..] == NatToString(m);
    IntegerOfNegated(tp, m, s);
  }

  /** `integer` reads `str(n)` back as n, for every integer n, and reads all of it. */
  lemma IntegerRoundTrip(tp: TokenParser, n: int, s: State)
    requires KnowsDigits(tp.cls)
    requires s.input == IntToString(n)
    ensures tp.Integer()(s) == Reply(Some(n), State([], UpdateChars(s.pos, IntToString(n)), s.user), None)
  {
    if n >= 0 {
      IntegerOfNatural(tp, n, s);
    } else {
      IntegerOfNegative(tp, n, s);
    }
  }

  // ------------------------------------------------------------ examples

  /** `str(123)` is "123" and `str(-123)` is "-123". */
  lemma Show123()
    ensures IntToString(123) == "123" && IntToString(-123) == "-123"
  {
    assert NatToString(12) == "12" by {
      assert NatToString(1) == "1";
    }
  }

  /** `integer` on "123" and on "-123": 123 and -123, reading all of the input. */
  lemma IntegerDecimalExamples(tp: TokenParser, pos: SourcePos, u: UserState)
    requires KnowsDigits(tp.cls)
    ensures var r := tp.Integer()(State("123", pos, u));
            r.value == Some(123) && r.state.input == [] && !r.Failed()
    ensures var r := tp.Integer()(State("-123", pos, u));
            r.value == Some(-123) && r.state.input == [] && !r.Failed()
  {
    Show123();
    IntegerRoundTrip(tp, 123, State("123", pos, u));
    IntegerRoundTrip(tp, -123, State("-123", pos, u));
  }

  /** `integer` on "+123": 123, reading all of the input. */
  lemma IntegerPlusExample(tp: TokenParser, s: State)
    requires KnowsDigits(tp.cls) && s.input == "+123"
    ensures var r := tp.Integer()(s);
            r.value == Some(123) && r.state.input == [] && !r.Failed()
  {
    var t := State("123", Update(s.pos, "+"), s.user);
    var end := State([], UpdateChars(t.pos, "123"), s.user);
    assert tp.Natural()(t) == Reply(Some(123), end, None) by {
      Show123();
      NaturalOfString(tp, 123, t);
    }
    assert s.input[1..] == t.input;
    NoWhiteAtEnd(tp);
    IntegerPlus(tp, s);
  }

  /** What follows the '0' of "0x1a": the hexadecimal number 26. */
  lemma AfterZeroHexExample(tp: TokenParser, t: State)
    requires KnowsDigits(tp.cls) && t.input == "x1a"
    ensures tp.AfterZero()(t) == Reply(Some(26), State([], UpdateChars(t.pos, "x1a"), t.user), None)
  {
    assert DigitsValue("1a", 16) == 26 by {
      assert DigitsValue("1", 16) == 1;
    }
    assert RunOf(HexTest(tp.cls), "1a", []) by {
      HexDigitLetters(tp.cls, '1');
      HexDigitLetters(tp.cls, 'a');
    }
    NoWhiteAtEnd(tp);
    assert ['x'] + "1a" == "x1a" && t.input == ['x'] + "1a" + [];
    AfterZeroHex(tp, 'x', "1a", [], t);
  }

  /** `integer` on "0x1a": 26. */
  lemma IntegerHexExample(tp: TokenParser, s: State)
    requires KnowsDigits(tp.cls) && s.input == "0x1a"
    ensures var r := tp.Integer()(s);
            r.value == Some(26) && r.state.input == [] && !r.Failed()
  {
    var t := State("x1a", Update(s.pos, "0"), s.user);
    assert s.input[1..] == t.input;
    AfterZeroHexExample(tp, t);
    ZeroPrefixed(tp, s, t, 26, State([], UpdateChars(t.pos, "x1a"), s.user));
  }

  /** What follows the '0' of "0o10": the octal number 8. */
  lemma AfterZeroOctalExample(tp: TokenParser, t: State)
    requires t.input == "o10"
    ensures tp.AfterZero()(t) == Reply(Some(8), State([], UpdateChars(t.pos, "o10"), t.user), None)
  {
    assert DigitsValue("10", 8) == 8 by {
      assert DigitsValue("1", 8) == 1;
    }
    assert RunOf(IsOctDigit, "10", []);
    NoWhiteAtEnd(tp);
    assert ['o'] + "10" == "o10" && t.input == ['o'] + "10" + [];
    AfterZeroOctal(tp, 'o', "10", [], t);
  }

  /** `integer` on "0o10": 8. */
  lemma IntegerOctalExample(tp: TokenParser, s: State)
    requires s.input == "0o10"
    ensures var r := tp.Integer()(s);
            r.value == Some(8) && r.state.input == [] && !r.Failed()
  {
    var t := State("o10", Update(s.pos, "0"), s.user);
    assert s.input[1..] == t.input;
    AfterZeroOctalExample(tp, t);
    ZeroPrefixed(tp, s, t, 8, State([], UpdateChars(t.pos, "o10"), s.user));
  }

  /** `integer` on '0' followed by what `AfterZero` reads to the end: that value. */
  lemma ZeroPrefixed(tp: TokenParser, s: State, t: State, v: int, end: State)
    requires |s.input| > 0 && s.input[0] == '0'
    requires t == State(s.input[1..], Update(s.pos, "0"), s.user)
    requires tp.AfterZero()(t) == Reply(Some(v), end, None) && end.input == []
    ensures tp.Integer()(s) == Reply(Some(v), end, None)
  {
    NoWhiteAtEnd(tp);
    assert tp.Natural()(s) == Reply(Some(v), end, None) by {
      NaturalAfterZero(tp, s);
    }
    IntegerUnsigned(tp, s);
  }
}

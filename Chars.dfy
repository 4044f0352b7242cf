/**
 * The character parsers of pyparsec/Char.py: `satisfy` and the parsers built
 * from it with a label, the end-of-line parsers, and the literal string
 * parsers built on `tokens` and `tokens_prime`.
 *
 * Python's character classes (`str.isspace`, `str.isupper`, ...) are library
 * calls with Unicode tables behind them; they enter the model as a
 * `Classifier`, a record of predicates every class parser takes as a
 * parameter. `AsciiClasses` is the classifier that agrees with Python on the
 * ASCII range; the concrete examples below use it.
 */
module Chars {
  import opened Parsec
  import opened Prim

  datatype Classifier = Classifier(
    isSpace: char -> bool,
    isUpper: char -> bool,
    isLower: char -> bool,
    isAlnum: char -> bool,
    isAlpha: char -> bool,
    isDigit: char -> bool)

  /** Python's ASCII white space: space, \t, \n, \r, \v, \f and the four separators \x1c-\x1f. */
  predicate AsciiSpace(c: char) {
    c in " \t\n\r\U{000B}\U{000C}\U{001C}\U{001D}\U{001E}\U{001F}"
  }

  predicate AsciiUpper(c: char) { 'A' <= c <= 'Z' }
  predicate AsciiLower(c: char) { 'a' <= c <= 'z' }
  predicate AsciiDigit(c: char) { '0' <= c <= '9' }
  predicate AsciiAlpha(c: char) { AsciiUpper(c) || AsciiLower(c) }
  predicate AsciiAlnum(c: char) { AsciiAlpha(c) || AsciiDigit(c) }

  /** Python's character classes restricted to ASCII (no character above 0x7f is in any class). */
  const AsciiClasses: Classifier :=
    Classifier(AsciiSpace, AsciiUpper, AsciiLower, AsciiAlnum, AsciiAlpha, AsciiDigit)

  /** `c.lower()` on the ASCII letters; every other character is its own lower case. */
  function LowerCase(c: char): (r: char)
    ensures AsciiUpper(c) ==> AsciiLower(r) && r as int == c as int + 32
    ensures !AsciiUpper(c) ==> r == c
  {
    if AsciiUpper(c) then (c as int + 32) as char else c
  }

  /** The message `satisfy` gives for a character its test rejects. */
  function UnexpectedChar(c: char): string {
    "unexpected '" + [c] + "'"
  }

  /**
   * `satisfy(f)`: at end of input fails with "unexpected EOF"; on a first
   * character that f rejects fails with "unexpected '<c>'"; both keep the
   * state. Otherwise returns the character, drops it and moves the position
   * over it.
   */
  function Satisfy(f: char -> bool): (p: Parser<char>)
    ensures forall s: State :: |s.input| == 0 ==> p(s) == Reply(None, s, Some(ParseError(s.pos, "unexpected EOF")))
    ensures forall s: State :: |s.input| > 0 && !f(s.input[0]) ==>
              p(s) == Reply(None, s, Some(ParseError(s.pos, UnexpectedChar(s.input[0]))))
    ensures forall s: State :: |s.input| > 0 && f(s.input[0]) ==>
              p(s) == Reply(Some(s.input[0]), State(s.input[1..], Update(s.pos, [s.input[0]]), s.user), None)
  {
    (s: State) =>
      if |s.input| == 0 then Reply(None, s, Some(ParseError(s.pos, "unexpected EOF")))
      else
        var c := s.input[0];
        if f(c) then Reply(Some(c), State(s.input[1..], Update(s.pos, [c]), s.user), None)
        else Reply(None, s, Some(ParseError(s.pos, UnexpectedChar(c))))
  }

  /** `satisfy(f)` is `token` with a test that keeps the characters f accepts. */
  lemma SatisfyIsToken(f: char -> bool, s: State)
    ensures Satisfy(f)(s) == Token(Quoted, (c: char) => if f(c) then Some(c) else None)(s)
  {
    if |s.input| > 0 {
      var c := s.input[0];
      assert "unexpected " + Quoted(c) == UnexpectedChar(c);
    }
  }

  lemma SatisfyConsuming(f: char -> bool)
    ensures Consuming(Satisfy(f))
  {
  }

  /**
   * The outcome of a labelled single-character parser: when the first
   * character is in the class it is returned, dropped and the position moves
   * over it; otherwise (end of input included) the parser fails at the
   * original state with "expecting <msg>".
   */
  predicate AcceptsClass(p: Parser<char>, f: char -> bool, msg: string, s: State) {
    if |s.input| > 0 && f(s.input[0]) then
      p(s) == Reply(Some(s.input[0]), State(s.input[1..], Update(s.pos, [s.input[0]]), s.user), None)
    else
      p(s) == Reply(None, s, Some(ParseError(s.pos, Expecting(msg))))
  }

  /** `satisfy(f).label(msg)` accepts exactly the class f, with the label as its only message. */
  lemma LabelledSatisfy(f: char -> bool, msg: string, s: State)
    ensures AcceptsClass(Label(Satisfy(f), msg), f, msg, s)
  {
  }

  function EqualTo(c: char): char -> bool {
    x => x == c
  }

  function InSet(cs: seq<char>): char -> bool {
    x => x in cs
  }

  function NotInSet(cs: seq<char>): char -> bool {
    x => x !in cs
  }

  function Quoted(c: char): string {
    "'" + [c] + "'"
  }

  /** `char(c)`: succeeds exactly when the input starts with c, else "expecting '<c>'". */
  function Char(c: char): (p: Parser<char>)
    ensures forall s: State :: AcceptsClass(p, EqualTo(c), Quoted(c), s)
  {
    var p := Label(Satisfy(EqualTo(c)), Quoted(c));
    assert forall s: State :: AcceptsClass(p, EqualTo(c), Quoted(c), s) by {
      forall s: State ensures AcceptsClass(p, EqualTo(c), Quoted(c), s) {
        LabelledSatisfy(EqualTo(c), Quoted(c), s);
      }
    }
    p
  }

  /** `one_of(cs)`: accepts exactly the characters in cs. */
  function OneOf(cs: seq<char>): (p: Parser<char>)
    ensures forall s: State :: AcceptsClass(p, InSet(cs), "one of " + cs, s)
  {
    var p := Label(Satisfy(InSet(cs)), "one of " + cs);
    assert forall s: State :: AcceptsClass(p, InSet(cs), "one of " + cs, s) by {
      forall s: State ensures AcceptsClass(p, InSet(cs), "one of " + cs, s) {
        LabelledSatisfy(InSet(cs), "one of " + cs, s);
      }
    }
    p
  }

  /** `none_of(cs)`: accepts exactly the characters not in cs. */
  function NoneOf(cs: seq<char>): (p: Parser<char>)
    ensures forall s: State :: AcceptsClass(p, NotInSet(cs), "none of " + cs, s)
  {
    var p := Label(Satisfy(NotInSet(cs)), "none of " + cs);
    assert forall s: State :: AcceptsClass(p, NotInSet(cs), "none of " + cs, s) by {
      forall s: State ensures AcceptsClass(p, NotInSet(cs), "none of " + cs, s) {
        LabelledSatisfy(NotInSet(cs), "none of " + cs, s);
      }
    }
    p
  }

  /** On a non-empty input exactly one of `one_of(cs)` and `none_of(cs)` succeeds. */
  lemma OneOfNoneOfComplement(cs: seq<char>, s: State)
    requires |s.input| > 0
    ensures OneOf(cs)(s).Failed() != NoneOf(cs)(s).Failed()
  {
    assert AcceptsClass(OneOf(cs), InSet(cs), "one of " + cs, s);
    assert AcceptsClass(NoneOf(cs), NotInSet(cs), "none of " + cs, s);
  }

  /** A labelled character class, the shape of `space`, `upper`, `digit` and the rest. */
  function ClassParser(f: char -> bool, msg: string): (p: Parser<char>)
    ensures forall s: State :: AcceptsClass(p, f, msg, s)
  {
    var p := Label(Satisfy(f), msg);
    assert forall s: State :: AcceptsClass(p, f, msg, s) by {
      forall s: State ensures AcceptsClass(p, f, msg, s) {
        LabelledSatisfy(f, msg, s);
      }
    }
    p
  }

  function Space(cls: Classifier): (p: Parser<char>)
    ensures forall s: State :: AcceptsClass(p, cls.isSpace, "space", s)
  {
    ClassParser(cls.isSpace, "space")
  }

  function Upper(cls: Classifier): (p: Parser<char>)
    ensures forall s: State :: AcceptsClass(p, cls.isUpper, "uppercase letter", s)
  {
    ClassParser(cls.isUpper, "uppercase letter")
  }

  function Lower(cls: Classifier): (p: Parser<char>)
    ensures forall s: State :: AcceptsClass(p, cls.isLower, "lowercase letter", s)
  {
    ClassParser(cls.isLower, "lowercase letter")
  }

  function AlphaNum(cls: Classifier): (p: Parser<char>)
    ensures forall s: State :: AcceptsClass(p, cls.isAlnum, "letter or digit", s)
  {
    ClassParser(cls.isAlnum, "letter or digit")
  }

  function Letter(cls: Classifier): (p: Parser<char>)
    ensures forall s: State :: AcceptsClass(p, cls.isAlpha, "letter", s)
  {
    ClassParser(cls.isAlpha, "letter")
  }

  function Digit(cls: Classifier): (p: Parser<char>)
    ensures forall s: State :: AcceptsClass(p, cls.isDigit, "digit", s)
  {
    ClassParser(cls.isDigit, "digit")
  }

  /** hex_digit's test: a digit, or a character whose lower case is one of a-f. */
  predicate IsHexDigit(cls: Classifier, c: char) {
    cls.isDigit(c) || LowerCase(c) in "abcdef"
  }

  function HexTest(cls: Classifier): char -> bool {
    c => IsHexDigit(cls, c)
  }

  function HexDigit(cls: Classifier): (p: Parser<char>)
    ensures forall s: State :: AcceptsClass(p, HexTest(cls), "hexadecimal digit", s)
  {
    ClassParser(HexTest(cls), "hexadecimal digit")
  }

  /** Lower-casing before the test makes hex_digit accept the letters a-f in either case, and no other letter. */
  lemma HexDigitLetters(cls: Classifier, c: char)
    ensures IsHexDigit(cls, c) <==> cls.isDigit(c) || c in "abcdefABCDEF"
  {
    if AsciiUpper(c) {
      var l := LowerCase(c);
      if l in "abcdef" {
        assert c in "ABCDEF";
      }
      if c in "ABCDEF" {
        assert l in "abcdef";
      }
    }
  }

  /** With Python's ASCII classes: hex_digit accepts 0-9, a-f and A-F and rejects 'g'. */
  lemma HexDigitAscii(c: char)
    ensures IsHexDigit(AsciiClasses, c) <==> AsciiDigit(c) || c in "abcdefABCDEF"
    ensures IsHexDigit(AsciiClasses, 'a') && IsHexDigit(AsciiClasses, 'F') && IsHexDigit(AsciiClasses, '9')
    ensures !IsHexDigit(AsciiClasses, 'g')
  {
    HexDigitLetters(AsciiClasses, c);
    HexDigitLetters(AsciiClasses, 'a');
    HexDigitLetters(AsciiClasses, 'F');
    HexDigitLetters(AsciiClasses, '9');
    HexDigitLetters(AsciiClasses, 'g');
  }

  predicate IsOctDigit(c: char) {
    c in "01234567"
  }

  function OctDigit(): (p: Parser<char>)
    ensures forall s: State :: AcceptsClass(p, IsOctDigit, "octal digit", s)
  {
    ClassParser(IsOctDigit, "octal digit")
  }

  /** oct_digit accepts exactly 0-7: '7' is in, '8' is out. */
  lemma OctDigitRange(c: char)
    ensures IsOctDigit(c) <==> '0' <= c <= '7'
    ensures IsOctDigit('7') && !IsOctDigit('8')
  {
    if '0' <= c <= '7' {
      assert c == "01234567"[c as int - '0' as int];
    }
  }

  /** `any_char`: any first character; the only failure is "unexpected EOF" at the end of input. */
  function AnyChar(): (p: Parser<char>)
    ensures forall s: State :: |s.input| == 0 ==> p(s) == Reply(None, s, Some(ParseError(s.pos, "unexpected EOF")))
    ensures forall s: State :: |s.input| > 0 ==>
              p(s) == Reply(Some(s.input[0]), State(s.input[1..], Update(s.pos, [s.input[0]]), s.user), None)
  {
    Satisfy(_ => true)
  }

  /** The input with its leading characters of class f removed. */
  function DropWhile(f: char -> bool, text: string): (r: string)
    ensures |r| <= |text| && r == text[|text| - |r|..]
    ensures r == [] || !f(r[0])
    ensures forall i :: 0 <= i < |text| - |r| ==> f(text[i])
  {
    if text != [] && f(text[0]) then DropWhile(f, text[1..]) else text
  }

  /** `spaces()`: `skip_many(space()).label("white space")`. */
  function Spaces(cls: Classifier): Parser<char> {
    Label(SkipMany<char, char>(Space(cls)), "white space")
  }

  /** The loop behind `spaces` never fails: it stops at the first non-space, with value None. */
  lemma {:induction false} SkipSpacesRun(cls: Classifier, s: State)
    ensures var r := ManyAccumRun<char, char>(Discard, Space(cls), None, s);
            !r.Failed() && r.value.None? && r.state.input == DropWhile(cls.isSpace, s.input) && r.state.user == s.user
    decreases |s.input|
  {
    var r := Space(cls)(s);
    assert AcceptsClass(Space(cls), cls.isSpace, "space", s);
    if |s.input| > 0 && cls.isSpace(s.input[0]) {
      assert Precedes(s.pos, r.state.pos);
      SkipSpacesRun(cls, r.state);
    }
  }

  /** `spaces` succeeds with None on any input and drops exactly the leading white space. */
  lemma SpacesSkipsWhiteSpace(cls: Classifier, s: State)
    ensures !Spaces(cls)(s).Failed() && Spaces(cls)(s).value.None?
    ensures Spaces(cls)(s).state.input == DropWhile(cls.isSpace, s.input)
  {
    SkipSpacesRun(cls, s);
  }

  function Newline(): Parser<char> {
    Label(Char('\n'), "lf new-line")
  }

  /** `crlf`: '\r' then '\n', returning '\n' (`bind` with a continuation that ignores its argument). */
  function Crlf(): Parser<char> {
    Label(Then(Char('\r'), Char('\n')), "crlf new-line")
  }

  /** `end_of_line`: `newline() | crlf().label("new-line")`. */
  function EndOfLine(): Parser<char> {
    Or(Newline(), Label(Crlf(), "new-line"))
  }

  function Tab(): Parser<char> {
    Label(Char('\t'), "tab")
  }

  /** `tab` reads one tab and moves one column, like any other character. */
  lemma TabMovesOneColumn(s: State)
    requires |s.input| > 0 && s.input[0] == '\t'
    ensures Tab()(s) == Reply(Some('\t'), State(s.input[1..], SourcePos(s.pos.line, s.pos.column + 1, s.pos.name), s.user), None)
  {
    assert AcceptsClass(Char('\t'), EqualTo('\t'), Quoted('\t'), s);
  }

  /** `crlf` reads "\r\n" and returns '\n'. */
  lemma CrlfReads(s: State)
    requires |s.input| >= 2 && s.input[0] == '\r' && s.input[1] == '\n'
    ensures Crlf()(s) == Reply(Some('\n'), State(s.input[2..], Update(Update(s.pos, "\r"), "\n"), s.user), None)
  {
    assert AcceptsClass(Char('\r'), EqualTo('\r'), Quoted('\r'), s);
    var t := State(s.input[1..], Update(s.pos, "\r"), s.user);
    assert AcceptsClass(Char('\n'), EqualTo('\n'), Quoted('\n'), t);
    assert s.input[1..][1..] == s.input[2..];
  }

  /** `end_of_line` on "\n...": returns '\n' and moves to the next line. */
  lemma EndOfLineLf(s: State)
    requires |s.input| > 0 && s.input[0] == '\n'
    ensures EndOfLine()(s) == Reply(Some('\n'), State(s.input[1..], Update(s.pos, "\n"), s.user), None)
  {
    assert AcceptsClass(Char('\n'), EqualTo('\n'), Quoted('\n'), s);
  }

  /** `end_of_line` on "\r\n...": returns '\n' as well. */
  lemma EndOfLineCrlf(s: State)
    requires |s.input| >= 2 && s.input[0] == '\r' && s.input[1] == '\n'
    ensures EndOfLine()(s) == Reply(Some('\n'), State(s.input[2..], Update(Update(s.pos, "\r"), "\n"), s.user), None)
  {
    assert AcceptsClass(Char('\n'), EqualTo('\n'), Quoted('\n'), s);
    CrlfReads(s);
  }

  /** Without '\n' or '\r' in front, `end_of_line` fails at the original state with "expecting new-line". */
  lemma EndOfLineRejects(s: State)
    requires |s.input| == 0 || (s.input[0] != '\n' && s.input[0] != '\r')
    ensures EndOfLine()(s) == Reply(None, s, Some(ParseError(s.pos, Expecting("new-line"))))
  {
    CharRejects('\n', s);
    CharRejects('\r', s);
    assert Newline()(s) == Reply(None, s, Some(ParseError(s.pos, Expecting("lf new-line"))));
    assert Crlf()(s) == Reply(None, s, Some(ParseError(s.pos, Expecting("crlf new-line"))));
  }

  /**
   * A '\r' without '\n' after it: crlf has consumed the '\r', so the failure
   * is reported after it and is not relabelled.
   */
  lemma EndOfLineLoneCr(s: State)
    requires |s.input| > 0 && s.input[0] == '\r' && (|s.input| == 1 || s.input[1] != '\n')
    ensures EndOfLine()(s).Failed() && EndOfLine()(s).state.input == s.input[1..]
    ensures EndOfLine()(s).error == Some(ParseError(Update(s.pos, "\r"), Expecting(Quoted('\n'))))
  {
    assert AcceptsClass(Char('\n'), EqualTo('\n'), Quoted('\n'), s);
    assert AcceptsClass(Char('\r'), EqualTo('\r'), Quoted('\r'), s);
    var t := State(s.input[1..], Update(s.pos, "\r"), s.user);
    assert AcceptsClass(Char('\n'), EqualTo('\n'), Quoted('\n'), t);
  }

  function ShowQuoted(text: string): string {
    "'" + text + "'"
  }

  /**
   * `string(s)`: the literal s, moving the position by a single
   * `pos.update(s)` whatever the length of s.
   */
  function String(lit: string): (p: Parser<string>)
    ensures forall s: State :: StartsWith(s.input, lit) ==>
              p(s) == Reply(Some(lit), State(s.input[|lit|..], Update(s.pos, lit), s.user), None)
    ensures forall s: State :: !StartsWith(s.input, lit) ==>
              p(s) == Reply(None, s, Some(ParseError(s.pos, Expecting(ShowQuoted(lit)))))
  {
    Label(Tokens(ShowQuoted, (pos: SourcePos, _: string) => Update(pos, lit), lit), ShowQuoted(lit))
  }

  /** `string(s)` on s + rest returns s and leaves rest. */
  lemma StringReadsLiteral(lit: string, rest: string, s: State)
    requires s.input == lit + rest
    ensures String(lit)(s) == Reply(Some(lit), State(rest, Update(s.pos, lit), s.user), None)
  {
    assert s.input[..|lit|] == lit;
    assert s.input[|lit|..] == rest;
  }

  /**
   * The position after `string(s)` is one column on unless s is exactly
   * "\n", whatever the length of s; in particular `string("")` moves the
   * column without reading anything.
   */
  lemma StringMovesOneStep(lit: string, s: State)
    requires StartsWith(s.input, lit)
    ensures String(lit)(s).state.pos == if lit == "\n" then SourcePos(s.pos.line + 1, 1, s.pos.name)
                                         else SourcePos(s.pos.line, s.pos.column + 1, s.pos.name)
    ensures lit == [] ==> String(lit)(s).state.input == s.input && String(lit)(s).state.pos != s.pos
  {
  }

  /** `string_prime(s)`: the same test as `string(s)`, but a success keeps the state. */
  function StringPrime(lit: string): (p: Parser<string>)
    ensures forall s: State :: StartsWith(s.input, lit) ==> p(s) == Reply(Some(lit), s, None)
    ensures forall s: State :: !StartsWith(s.input, lit) ==> p(s) == String(lit)(s)
  {
    Label(TokensPrime(ShowQuoted, (pos: SourcePos, _: string) => Update(pos, lit), lit), ShowQuoted(lit))
  }

  /** `string_prime("")` always succeeds with "" and the state as it was. */
  lemma StringPrimeEmpty(s: State)
    ensures StringPrime("")(s) == Reply(Some(""), s, None)
  {
    assert s.input[..0] == "";
  }

  /**
   * The position-based guard of `_many_accum` does not catch `string("")`: it
   * succeeds and moves the column without reading, so the source's loop would
   * run forever. The model stops at once with NoProgress.
   */
  lemma ManyOfEmptyStringStops(s: State)
    ensures String("")(s).state.pos != s.pos && String("")(s).state.input == s.input
    ensures Many(String(""))(s) == NoProgress(String("")(s).state)
  {
    assert s.input[..0] == "";
  }

  /** n copies of c. */
  function Repeat<T>(x: T, n: nat): (r: seq<T>)
    ensures |r| == n && forall i :: 0 <= i < n ==> r[i] == x
  {
    seq(n, _ => x)
  }

  /** n > 0 copies of x, then rest: x first, and n - 1 copies then rest after it. */
  lemma RepeatFirst<T>(x: T, n: nat, rest: seq<T>)
    requires n > 0
    ensures Repeat(x, n) + rest == [x] + (Repeat(x, n - 1) + rest)
    ensures (Repeat(x, n) + rest)[0] == x && (Repeat(x, n) + rest)[1..] == Repeat(x, n - 1) + rest
  {
    assert Repeat(x, n) == [x] + Repeat(x, n - 1);
  }

  /** pre, then x, then n - 1 more copies of x: pre then n copies. */
  lemma RepeatAfter<T>(pre: seq<T>, x: T, n: nat)
    requires n > 0
    ensures pre + [x] + Repeat(x, n - 1) == pre + Repeat(x, n)
  {
    RepeatFirst(x, n, []);
    assert Repeat(x, n) + [] == Repeat(x, n) && Repeat(x, n - 1) + [] == Repeat(x, n - 1);
  }

  lemma CharAccepts(c: char, s: State)
    requires |s.input| > 0 && s.input[0] == c
    ensures Char(c)(s) == Reply(Some(c), State(s.input[1..], Update(s.pos, [c]), s.user), None)
  {
    assert AcceptsClass(Char(c), EqualTo(c), Quoted(c), s);
  }

  lemma CharRejects(c: char, s: State)
    requires |s.input| == 0 || s.input[0] != c
    ensures Char(c)(s) == Reply(None, s, Some(ParseError(s.pos, Expecting(Quoted(c)))))
  {
    assert AcceptsClass(Char(c), EqualTo(c), Quoted(c), s);
  }

  /** One round of `many(char(c))` on input that starts with c appends c and moves past it. */
  lemma ManyCharStep(c: char, pre: seq<Option<char>>, s: State)
    requires |s.input| > 0 && s.input[0] == c
    ensures ManyAccumRun(AppendItem, Char(c), Some(pre), s)
            == ManyAccumRun(AppendItem, Char(c), Some(pre + [Some(c)]), State(s.input[1..], Update(s.pos, [c]), s.user))
  {
    CharAccepts(c, s);
    assert Precedes(s.pos, Update(s.pos, [c]));
    assert AppendItem(Some(c), Some(pre)) == Some(pre + [Some(c)]);
  }

  /**
   * `many(char(c))` on n copies of c followed by anything that does not start
   * with c returns n items, in order, and stops before the rest.
   */
  lemma {:induction false} ManyCharCounts(c: char, pre: seq<Option<char>>, n: nat, rest: string, s: State)
    requires s.input == Repeat(c, n) + rest
    requires rest == [] || rest[0] != c
    ensures var r := ManyAccumRun(AppendItem, Char(c), Some(pre), s);
            r.value == Some(pre + Repeat(Some(c), n)) && !r.Failed() && r.state.input == rest
    decreases n
  {
    if n == 0 {
      assert s.input == rest;
      CharRejects(c, s);
      assert pre + Repeat(Some(c), 0) == pre;
    } else {
      var t := State(s.input[1..], Update(s.pos, [c]), s.user);
      RepeatFirst(c, n, rest);
      assert ManyAccumRun(AppendItem, Char(c), Some(pre), s) == ManyAccumRun(AppendItem, Char(c), Some(pre + [Some(c)]), t) by {
        ManyCharStep(c, pre, s);
      }
      ManyCharCounts(c, pre + [Some(c)], n - 1, rest, t);
      RepeatAfter(pre, Some(c), n);
    }
  }

  /** `many(char('a'))` on 5000 'a's returns 5000 items. */
  lemma ManyCharFiveThousand(s: State)
    requires s.input == Repeat('a', 5000)
    ensures Many(Char('a'))(s).value == Some(Repeat(Some('a'), 5000))
  {
    assert s.input == Repeat('a', 5000) + [];
    ManyCharCounts('a', [], 5000, [], s);
    assert [] + Repeat(Some('a'), 5000) == Repeat(Some('a'), 5000);
  }

  // ------------------------------------------- runs of one character class

  /** The leading characters of class f: what DropWhile drops. */
  function TakeWhile(f: char -> bool, text: string): (r: string)
    ensures r + DropWhile(f, text) == text
    ensures forall i :: 0 <= i < |r| ==> f(r[i])
  {
    var k := |text| - |DropWhile(f, text)|;
    assert text[..k] + text[k..] == text;
    text[..k]
  }

  /** A run of class f that starts with text[0] is text[0] followed by the run after it. */
  lemma TakeWhileCons(f: char -> bool, text: string)
    requires text != [] && f(text[0])
    ensures TakeWhile(f, text) == [text[0]] + TakeWhile(f, text[1..])
    ensures DropWhile(f, text) == DropWhile(f, text[1..])
  {
    var rest := DropWhile(f, text[1..]);
    assert DropWhile(f, text) == rest;
    assert TakeWhile(f, text) + rest == text;
    assert TakeWhile(f, text[1..]) + rest == text[1..];
    assert ([text[0]] + TakeWhile(f, text[1..])) + rest == text;
  }

  /** p reads a first character of class f by itself, as `satisfy(f)` does. */
  predicate ReadsFirst(p: Parser<char>, f: char -> bool, t: State) {
    |t.input| > 0 && f(t.input[0]) ==>
      p(t) == Reply(Some(t.input[0]), State(t.input[1..], Update(t.pos, [t.input[0]]), t.user), None)
  }

  lemma AcceptsClassReadsFirst(p: Parser<char>, f: char -> bool, msg: string)
    requires forall t: State :: AcceptsClass(p, f, msg, t)
    ensures forall t: State :: ReadsFirst(p, f, t)
  {
    forall t: State ensures ReadsFirst(p, f, t) {
      assert AcceptsClass(p, f, msg, t);
    }
  }

  /** The accumulator after feeding it each character of cs in turn. */
  function AccumAll<A>(combine: (Option<char>, Option<A>) -> Option<A>, acc: Option<A>, cs: string): Option<A>
    decreases |cs|
  {
    if cs == [] then acc else AccumAll(combine, combine(Some(cs[0]), acc), cs[1..])
  }

  /** Each character as a present list item. */
  function Wrap(cs: string): (r: seq<Option<char>>)
    ensures |r| == |cs| && forall i :: 0 <= i < |cs| ==> r[i] == Some(cs[i])
  {
    seq(|cs|, i requires 0 <= i < |cs| => Some(cs[i]))
  }

  /** many's accumulator collects the characters, in order. */
  lemma {:induction false} AccumAllAppends(pre: seq<Option<char>>, cs: string)
    ensures AccumAll(AppendItem, Some(pre), cs) == Some(pre + Wrap(cs))
    decreases |cs|
  {
    if cs != [] {
      AccumAllAppends(pre + [Some(cs[0])], cs[1..]);
      assert pre + [Some(cs[0])] + Wrap(cs[1..]) == pre + Wrap(cs);
    } else {
      assert pre + Wrap(cs) == pre;
    }
  }

  /** skip_many's accumulator ends as None once anything was read. */
  lemma {:induction false} AccumAllDiscards<A>(acc: Option<A>, cs: string)
    ensures AccumAll(Discard, acc, cs) == if cs == [] then acc else None
    decreases |cs|
  {
    if cs != [] {
      AccumAllDiscards<A>(None, cs[1..]);
    }
  }

  /**
   * Repetition of a parser that reads each character of class f by itself:
   * the loop reads the leading run of class f, one item per character, and
   * stops where p fails without moving, just after the run.
   */
  lemma {:induction false} ManyReadsRun<A>(combine: (Option<char>, Option<A>) -> Option<A>, p: Parser<char>, f: char -> bool,
                                           acc: Option<A>, s: State)
    requires forall t: State :: ReadsFirst(p, f, t)
    requires var stop := State(DropWhile(f, s.input), UpdateChars(s.pos, TakeWhile(f, s.input)), s.user);
             p(stop).Failed() && p(stop).state.pos == stop.pos
    ensures ManyAccumRun(combine, p, acc, s)
            == Reply(AccumAll(combine, acc, TakeWhile(f, s.input)),
                     State(DropWhile(f, s.input), UpdateChars(s.pos, TakeWhile(f, s.input)), s.user), None)
    decreases |s.input|
  {
    if |s.input| > 0 && f(s.input[0]) {
      var c := s.input[0];
      var t := State(s.input[1..], Update(s.pos, [c]), s.user);
      assert ManyAccumRun(combine, p, acc, s) == ManyAccumRun(combine, p, combine(Some(c), acc), t) by {
        assert ReadsFirst(p, f, s);
        assert Precedes(s.pos, t.pos);
      }
      assert TakeWhile(f, s.input) == [c] + TakeWhile(f, t.input) && DropWhile(f, s.input) == DropWhile(f, t.input) by {
        TakeWhileCons(f, s.input);
      }
      assert UpdateChars(s.pos, TakeWhile(f, s.input)) == UpdateChars(t.pos, TakeWhile(f, t.input)) by {
        UpdateCharsCons(s.pos, c, TakeWhile(f, t.input));
      }
      ManyReadsRun(combine, p, f, combine(Some(c), acc), t);
    }
  }

  /** `many(p)` for a class parser: the leading run of the class, as a list. */
  lemma ManyClass(p: Parser<char>, f: char -> bool, msg: string, s: State)
    requires forall t: State :: AcceptsClass(p, f, msg, t)
    ensures Many(p)(s) == Reply(Some(Wrap(TakeWhile(f, s.input))),
                                State(DropWhile(f, s.input), UpdateChars(s.pos, TakeWhile(f, s.input)), s.user), None)
  {
    AcceptsClassReadsFirst(p, f, msg);
    var stop := State(DropWhile(f, s.input), UpdateChars(s.pos, TakeWhile(f, s.input)), s.user);
    assert AcceptsClass(p, f, msg, stop);
    ManyReadsList(p, f, s);
  }

  /** `many(p)` for a parser that reads each character of class f: the leading run, as a list. */
  lemma ManyReadsList(p: Parser<char>, f: char -> bool, s: State)
    requires forall t: State :: ReadsFirst(p, f, t)
    requires var stop := State(DropWhile(f, s.input), UpdateChars(s.pos, TakeWhile(f, s.input)), s.user);
             p(stop).Failed() && p(stop).state.pos == stop.pos
    ensures Many(p)(s) == Reply(Some(Wrap(TakeWhile(f, s.input))),
                                State(DropWhile(f, s.input), UpdateChars(s.pos, TakeWhile(f, s.input)), s.user), None)
  {
    ManyReadsRun(AppendItem, p, f, Some([]), s);
    AccumAllAppends([], TakeWhile(f, s.input));
    assert [] + Wrap(TakeWhile(f, s.input)) == Wrap(TakeWhile(f, s.input));
  }


  /** A parser of one character class shortens the input whenever it succeeds. */
  lemma AcceptsClassConsuming(p: Parser<char>, f: char -> bool, msg: string)
    requires forall t: State :: AcceptsClass(p, f, msg, t)
    ensures Consuming(p)
  {
    forall t: State | !p(t).Failed() ensures |p(t).state.input| < |t.input| {
      assert AcceptsClass(p, f, msg, t);
    }
  }

  /** A run of class f followed by a character outside f (or nothing) splits there. */
  lemma {:induction false} DropWhileRun(f: char -> bool, ds: string, rest: string)
    requires forall i :: 0 <= i < |ds| ==> f(ds[i])
    requires rest == [] || !f(rest[0])
    ensures DropWhile(f, ds + rest) == rest
    decreases |ds|
  {
    if ds == [] {
      assert ds + rest == rest;
    } else {
      var text := ds + rest;
      assert text[0] == ds[0] && f(text[0]);
      assert text[1..] == ds[1..] + rest;
      assert forall i :: 0 <= i < |ds[1..]| ==> f(ds[1..][i]) by {
        forall i | 0 <= i < |ds[1..]| ensures f(ds[1..][i]) {
          assert ds[1..][i] == ds[i + 1];
        }
      }
      DropWhileRun(f, ds[1..], rest);
    }
  }

  lemma TakeWhileRun(f: char -> bool, ds: string, rest: string)
    requires forall i :: 0 <= i < |ds| ==> f(ds[i])
    requires rest == [] || !f(rest[0])
    ensures TakeWhile(f, ds + rest) == ds && DropWhile(f, ds + rest) == rest
  {
    DropWhileRun(f, ds, rest);
    var r := TakeWhile(f, ds + rest);
    assert r + rest == ds + rest;
    assert |r| == |ds|;
    assert r == (ds + rest)[..|ds|];
  }

  /** Reading c and then text moves the position as reading c + text does. */
  lemma UpdateCharsCons(pos: SourcePos, c: char, text: string)
    ensures UpdateChars(pos, [c] + text) == UpdateChars(Update(pos, [c]), text)
  {
    assert ([c] + text)[1..] == text;
  }

  /** `many(p)` for a class parser on a run ds of the class followed by rest. */
  lemma ManyClassRun(p: Parser<char>, f: char -> bool, msg: string, ds: string, rest: string, s: State)
    requires forall t: State :: AcceptsClass(p, f, msg, t)
    requires forall i :: 0 <= i < |ds| ==> f(ds[i])
    requires rest == [] || !f(rest[0])
    requires s.input == ds + rest
    ensures Many(p)(s) == Reply(Some(Wrap(ds)), State(rest, UpdateChars(s.pos, ds), s.user), None)
  {
    TakeWhileRun(f, ds, rest);
    ManyClass(p, f, msg, s);
  }

}

/**
 * The names of a TokenParser: `identifier` and `operator` (a start
 * character, then letters, then the reserved-name check), `reserved` and
 * `reserved_op` (a fixed word not followed by a letter), and `symbol`.
 */
module TokenNames {
  import opened Parsec
  import opened Prim
  import opened Chars
  import opened Combinators
  import opened Token
  import opened TokenWhite
  import opened TokenNumbers

  // --------------------------------------------------- one-character classes

  /**
   * p reads one character of class f and fails without moving on anything
   * else: what `satisfy`, `one_of` and the language's start and letter
   * parsers do.
   */
  ghost predicate ClassOf(p: Parser<char>, f: char -> bool) {
    forall t: State :: ReadsFirst(p, f, t) && (!(|t.input| > 0 && f(t.input[0])) ==> p(t).Failed() && p(t).state == t)
  }

  /** `satisfy(f)` is a parser of the class f. */
  lemma SatisfyClass(f: char -> bool)
    ensures ClassOf(Satisfy(f), f)
  {
  }

  /** `one_of(cs)` is a parser of the class of the characters in cs. */
  lemma OneOfClass(cs: seq<char>)
    ensures ClassOf(OneOf(cs), InSet(cs))
  {
    forall t: State ensures ReadsFirst(OneOf(cs), InSet(cs), t) &&
                            (!(|t.input| > 0 && InSet(cs)(t.input[0])) ==> OneOf(cs)(t).Failed() && OneOf(cs)(t).state == t) {
      assert AcceptsClass(OneOf(cs), InSet(cs), "one of " + cs, t);
    }
  }

  /** A name of the language: a start character, then letters, then something that is not a letter. */
  predicate NameRun(start: char -> bool, letter: char -> bool, name: string, rest: string) {
    |name| > 0 && start(name[0]) && (forall i :: 1 <= i < |name| ==> letter(name[i])) && (rest == [] || !letter(rest[0]))
  }

  /** `many(p)` for a parser of the class f on a run of the class: the run, as a list. */
  lemma ManyOfClass(p: Parser<char>, f: char -> bool, ds: string, rest: string, s: State)
    requires ClassOf(p, f)
    requires (forall i :: 0 <= i < |ds| ==> f(ds[i])) && (rest == [] || !f(rest[0]))
    requires s.input == ds + rest
    ensures Many(p)(s) == Reply(Some(Wrap(ds)), State(rest, UpdateChars(s.pos, ds), s.user), None)
  {
    TakeWhileRun(f, ds, rest);
    var stop := State(rest, UpdateChars(s.pos, ds), s.user);
    assert p(stop).Failed() && p(stop).state.pos == stop.pos;
    ManyReadsList(p, f, s);
  }

  /** The letters after the start character, read by `many(letter)`. */
  lemma LettersOfName(letter: Parser<char>, fs: char -> bool, fl: char -> bool, name: string, rest: string, t: State)
    requires ClassOf(letter, fl) && NameRun(fs, fl, name, rest)
    requires t.input == name[1..] + rest
    ensures Many(letter)(t) == Reply(Some(Wrap(name[1..])), State(rest, UpdateChars(t.pos, name[1..]), t.user), None)
  {
    assert forall i :: 0 <= i < |name[1..]| ==> fl(name[1..][i]) by {
      forall i | 0 <= i < |name[1..]| ensures fl(name[1..][i]) {
        assert name[1..][i] == name[i + 1];
      }
    }
    ManyOfClass(letter, fl, name[1..], rest, t);
  }

  /** The name assembled from its first character and the list of the others. */
  lemma NameOfParts(name: string)
    requires |name| > 0
    ensures NameOf(Some(name[0]), Some(Wrap(name[1..]))) == name
  {
    JoinWrap(name[1..]);
    assert [name[0]] + name[1..] == name;
  }

  // ------------------------------------------------------------------ words

  /** The first character of name + rest, and what follows it. */
  lemma HeadOfName(name: string, rest: string)
    requires |name| > 0
    ensures (name + rest)[0] == name[0] && (name + rest)[1..] == name[1..] + rest
  {
  }

  /** A word from the replies of its two parts: the name made of the start character and the letters. */
  lemma WordOfParts(start: Parser<char>, letter: Parser<char>, c: char, cs: List<char>, t: State, end: State, s: State)
    requires start(s) == Reply(Some(c), t, None) && Many(letter)(t) == Reply(Some(cs), end, None)
    ensures Word(start, letter)(s) == Reply(Some(NameOf(Some(c), Some(cs))), end, None)
  {
  }

  /** The start character and then `many(letter)` read a whole name: the name. */
  lemma WordReads(start: Parser<char>, fs: char -> bool, letter: Parser<char>, fl: char -> bool,
                  name: string, rest: string, s: State)
    requires ClassOf(start, fs) && ClassOf(letter, fl) && NameRun(fs, fl, name, rest)
    requires s.input == name + rest
    ensures Word(start, letter)(s) == Reply(Some(name), State(rest, UpdateChars(s.pos, name), s.user), None)
  {
    var t := State(name[1..] + rest, Update(s.pos, [name[0]]), s.user);
    assert start(s) == Reply(Some(name[0]), t, None) by {
      HeadOfName(name, rest);
      assert ReadsFirst(start, fs, s);
    }
    var end := State(rest, UpdateChars(t.pos, name[1..]), s.user);
    assert Many(letter)(t) == Reply(Some(Wrap(name[1..])), end, None) by {
      LettersOfName(letter, fs, fl, name, rest, t);
    }
    WordOfParts(start, letter, name[0], Wrap(name[1..]), t, end, s);
    assert NameOf(Some(name[0]), Some(Wrap(name[1..]))) == name by {
      NameOfParts(name);
    }
    assert UpdateChars(t.pos, name[1..]) == UpdateChars(s.pos, name) by {
      UpdateCharsCons(s.pos, name[0], name[1..]);
      assert [name[0]] + name[1..] == name;
    }
  }

  /** Without a start character the word fails where it is, with the start parser's error. */
  lemma WordDeclines(start: Parser<char>, fs: char -> bool, letter: Parser<char>, s: State)
    requires ClassOf(start, fs) && !(|s.input| > 0 && fs(s.input[0]))
    ensures Word(start, letter)(s) == Reply(None, s, start(s).error)
  {
    assert start(s).Failed() && start(s).state == s;
  }

  /**
   * A word and then `validate`: the name when it is not reserved; when it
   * is, a failure with ReservedMessage after the name.
   */
  lemma ValidatedWord(start: Parser<char>, fs: char -> bool, letter: Parser<char>, fl: char -> bool,
                      reserved: seq<string>, kind: string, name: string, rest: string, s: State)
    requires ClassOf(start, fs) && ClassOf(letter, fl) && NameRun(fs, fl, name, rest)
    requires s.input == name + rest
    ensures var end := State(rest, UpdateChars(s.pos, name), s.user);
            Bind(Word(start, letter), Validate(reserved, kind))(s)
            == if name in reserved then Reply(None, end, Some(ParseError(end.pos, ReservedMessage(kind, name))))
               else Reply(Some(name), end, None)
  {
    WordReads(start, fs, letter, fl, name, rest, s);
  }

  /**
   * `lexeme` over a validated word, at a name followed by something that
   * is not white space: the name when it is not reserved; when it is, the
   * reserved-name failure after the name.
   */
  lemma LexemeValidatedWord(tp: TokenParser, start: Parser<char>, fs: char -> bool, letter: Parser<char>, fl: char -> bool,
                            reserved: seq<string>, kind: string, name: string, rest: string, s: State)
    requires ClassOf(start, fs) && ClassOf(letter, fl) && NameRun(fs, fl, name, rest)
    requires s.input == name + rest && !WhiteStart(tp, rest)
    ensures var end := State(rest, UpdateChars(s.pos, name), s.user);
            tp.Lexeme(Bind(Word(start, letter), Validate(reserved, kind)))(s)
            == if name in reserved then Reply(None, end, Some(ParseError(end.pos, ReservedMessage(kind, name))))
               else Reply(Some(name), end, None)
  {
    var p := Bind(Word(start, letter), Validate(reserved, kind));
    ValidatedWord(start, fs, letter, fl, reserved, kind, name, rest, s);
    if name !in reserved {
      LexemeAtToken(tp, p, s);
    }
  }

  /** `identifier`: a name that is not a reserved name is read; a reserved name fails after it. */
  lemma IdentifierReads(tp: TokenParser, fs: char -> bool, fl: char -> bool, name: string, rest: string, s: State)
    requires ClassOf(tp.lang.identStart, fs) && ClassOf(tp.lang.identLetter, fl) && NameRun(fs, fl, name, rest)
    requires s.input == name + rest && !WhiteStart(tp, rest)
    ensures var end := State(rest, UpdateChars(s.pos, name), s.user);
            tp.Identifier()(s)
            == if name in tp.lang.reservedNames
               then Reply(None, end, Some(ParseError(end.pos, ReservedMessage("name", name))))
               else Reply(Some(name), end, None)
  {
    LexemeValidatedWord(tp, tp.lang.identStart, fs, tp.lang.identLetter, fl, tp.lang.reservedNames, "name", name, rest, s);
  }

  /** `operator`: a name that is not a reserved operator is read; a reserved operator fails after it. */
  lemma OperatorReads(tp: TokenParser, fs: char -> bool, fl: char -> bool, name: string, rest: string, s: State)
    requires ClassOf(tp.lang.opStart, fs) && ClassOf(tp.lang.opLetter, fl) && NameRun(fs, fl, name, rest)
    requires s.input == name + rest && !WhiteStart(tp, rest)
    ensures var end := State(rest, UpdateChars(s.pos, name), s.user);
            tp.Operator()(s)
            == if name in tp.lang.reservedOpNames
               then Reply(None, end, Some(ParseError(end.pos, ReservedMessage("op", name))))
               else Reply(Some(name), end, None)
  {
    LexemeValidatedWord(tp, tp.lang.opStart, fs, tp.lang.opLetter, fl, tp.lang.reservedOpNames, "op", name, rest, s);
  }

  /** `identifier` where no name starts: it fails where it is. */
  lemma IdentifierDeclines(tp: TokenParser, fs: char -> bool, s: State)
    requires ClassOf(tp.lang.identStart, fs) && !(|s.input| > 0 && fs(s.input[0]))
    ensures var r := tp.Identifier()(s);
            r.Failed() && r.state == s && r.value.None?
  {
    WordDeclines(tp.lang.identStart, fs, tp.lang.identLetter, s);
  }

  // ---------------------------------------------------------------- keywords

  /** The label a keyword failure carries. */
  function KeywordExpecting(name: string, what: string): string {
    Expecting(what + " '" + name + "'")
  }

  /** A keyword followed by something that is not a letter: read, with no value. */
  lemma KeywordAccepts(name: string, letter: Parser<char>, fl: char -> bool, what: string, rest: string, s: State)
    requires ClassOf(letter, fl)
    requires s.input == name + rest && (rest == [] || !fl(rest[0]))
    ensures Keyword(name, letter, what)(s) == Reply(None, State(rest, Update(s.pos, name), s.user), None)
  {
    StringReadsLiteral(name, rest, s);
    var t := State(rest, Update(s.pos, name), s.user);
    assert letter(t).Failed();
  }

  /** A keyword followed by a letter (a longer name): it fails without reading, with the keyword's label. */
  lemma KeywordRejectsLetter(name: string, letter: Parser<char>, fl: char -> bool, what: string, rest: string, s: State)
    requires ClassOf(letter, fl)
    requires s.input == name + rest && |rest| > 0 && fl(rest[0])
    ensures Keyword(name, letter, what)(s) == Reply(None, s, Some(ParseError(s.pos, KeywordExpecting(name, what))))
  {
    StringReadsLiteral(name, rest, s);
    var t := State(rest, Update(s.pos, name), s.user);
    assert ReadsFirst(letter, fl, t);
    assert Consumed(t, letter(t));
  }

  /** Input that does not start with the keyword: it fails without reading, with the keyword's label. */
  lemma KeywordRejectsOther(name: string, letter: Parser<char>, what: string, s: State)
    requires !StartsWith(s.input, name)
    ensures Keyword(name, letter, what)(s) == Reply(None, s, Some(ParseError(s.pos, KeywordExpecting(name, what))))
  {
  }

  /** `reserved(name)` on the name and then a non-letter that is not white space: read, no value. */
  lemma ReservedAccepts(tp: TokenParser, fl: char -> bool, name: string, rest: string, s: State)
    requires ClassOf(tp.lang.identLetter, fl)
    requires s.input == name + rest && (rest == [] || !fl(rest[0])) && !WhiteStart(tp, rest)
    ensures tp.Reserved(name)(s) == Reply(None, State(rest, Update(s.pos, name), s.user), None)
  {
    KeywordAccepts(name, tp.lang.identLetter, fl, "reserved word", rest, s);
    LexemeAtToken(tp, Keyword(name, tp.lang.identLetter, "reserved word"), s);
  }

  /** `reserved(name)` where the name goes on with a letter: it fails where it is. */
  lemma ReservedRejectsLonger(tp: TokenParser, fl: char -> bool, name: string, rest: string, s: State)
    requires ClassOf(tp.lang.identLetter, fl)
    requires s.input == name + rest && |rest| > 0 && fl(rest[0])
    ensures tp.Reserved(name)(s) == Reply(None, s, Some(ParseError(s.pos, KeywordExpecting(name, "reserved word"))))
  {
    KeywordRejectsLetter(name, tp.lang.identLetter, fl, "reserved word", rest, s);
  }

  /** `reserved_op(name)` on the operator and then a non-operator character that is not white space: read, no value. */
  lemma ReservedOpAccepts(tp: TokenParser, fl: char -> bool, name: string, rest: string, s: State)
    requires ClassOf(tp.lang.opLetter, fl)
    requires s.input == name + rest && (rest == [] || !fl(rest[0])) && !WhiteStart(tp, rest)
    ensures tp.ReservedOp(name)(s) == Reply(None, State(rest, Update(s.pos, name), s.user), None)
  {
    KeywordAccepts(name, tp.lang.opLetter, fl, "reserved operator", rest, s);
    LexemeAtToken(tp, Keyword(name, tp.lang.opLetter, "reserved operator"), s);
  }

  /** `reserved_op(name)` where the operator goes on with another operator character: it fails where it is. */
  lemma ReservedOpRejectsLonger(tp: TokenParser, fl: char -> bool, name: string, rest: string, s: State)
    requires ClassOf(tp.lang.opLetter, fl)
    requires s.input == name + rest && |rest| > 0 && fl(rest[0])
    ensures tp.ReservedOp(name)(s) == Reply(None, s, Some(ParseError(s.pos, KeywordExpecting(name, "reserved operator"))))
  {
    KeywordRejectsLetter(name, tp.lang.opLetter, fl, "reserved operator", rest, s);
  }

  // ----------------------------------------------------------------- symbols

  /** `symbol(name)` on the name and then something that is not white space: the name. */
  lemma SymbolReads(tp: TokenParser, name: string, rest: string, s: State)
    requires s.input == name + rest && !WhiteStart(tp, rest)
    ensures tp.Symbol(name)(s) == Reply(Some(name), State(rest, Update(s.pos, name), s.user), None)
  {
    StringReadsLiteral(name, rest, s);
    LexemeAtToken(tp, String(name), s);
  }

  /** `symbol(name)` on input that does not start with the name: it fails where it is. */
  lemma SymbolRejects(tp: TokenParser, name: string, s: State)
    requires !StartsWith(s.input, name)
    ensures tp.Symbol(name)(s) == Reply(None, s, Some(ParseError(s.pos, Expecting(ShowQuoted(name)))))
  {
  }

  /** `symbol(name)` on the name and pieces of white space that fit: the name, with the white space skipped. */
  lemma SymbolSkips(tp: TokenParser, name: string, ws: seq<WhitePiece>, rest: string, s: State)
    requires s.input == name + (PiecesText(tp, ws) + rest)
    requires PiecesFit(tp, ws, rest) && !WhiteStart(tp, rest)
    ensures tp.Symbol(name)(s) == Reply(Some(name), State(rest, PiecesEnd(tp, ws, Update(s.pos, name)), s.user), None)
  {
    StringReadsLiteral(name, PiecesText(tp, ws) + rest, s);
    LexemeSkips(tp, String(name), ws, rest, s);
  }

  // ------------------------------------------------------------ brackets

  /**
   * p between the symbols `open` and `close`, each with the white space after
   * it: p's value, and the state after the closing symbol's white space.
   */
  lemma EnclosedReads<T>(tp: TokenParser, open: string, close: string, p: Parser<T>, s: State,
                         ws1: seq<WhitePiece>, inner: string, v: T, mid: State, ws2: seq<WhitePiece>, rest: string)
    requires s.input == open + (PiecesText(tp, ws1) + inner)
    requires PiecesFit(tp, ws1, inner) && !WhiteStart(tp, inner)
    requires p(State(inner, PiecesEnd(tp, ws1, Update(s.pos, open)), s.user)) == Reply(Some(v), mid, None)
    requires mid.input == close + (PiecesText(tp, ws2) + rest)
    requires PiecesFit(tp, ws2, rest) && !WhiteStart(tp, rest)
    ensures tp.Enclosed(open, close, p)(s)
            == Reply(Some(v), State(rest, PiecesEnd(tp, ws2, Update(mid.pos, close)), mid.user), None)
  {
    SymbolSkips(tp, open, ws1, inner, s);
    SymbolSkips(tp, close, ws2, rest, mid);
  }

  /** `parens(p)` on "(", p's text and ")": p's value, the parentheses and the white space after each read. */
  lemma ParensReads<T>(tp: TokenParser, p: Parser<T>, s: State,
                       ws1: seq<WhitePiece>, inner: string, v: T, mid: State, ws2: seq<WhitePiece>, rest: string)
    requires s.input == "(" + (PiecesText(tp, ws1) + inner)
    requires PiecesFit(tp, ws1, inner) && !WhiteStart(tp, inner)
    requires p(State(inner, PiecesEnd(tp, ws1, Update(s.pos, "(")), s.user)) == Reply(Some(v), mid, None)
    requires mid.input == ")" + (PiecesText(tp, ws2) + rest)
    requires PiecesFit(tp, ws2, rest) && !WhiteStart(tp, rest)
    ensures tp.Parens(p)(s) == Reply(Some(v), State(rest, PiecesEnd(tp, ws2, Update(mid.pos, ")")), mid.user), None)
  {
    EnclosedReads(tp, "(", ")", p, s, ws1, inner, v, mid, ws2, rest);
  }

  /** `parens(p)` where p fails: it fails with p's error, whatever closes. */
  lemma ParensPassesFailure<T>(tp: TokenParser, p: Parser<T>, s: State,
                               ws1: seq<WhitePiece>, inner: string)
    requires s.input == "(" + (PiecesText(tp, ws1) + inner)
    requires PiecesFit(tp, ws1, inner) && !WhiteStart(tp, inner)
    requires p(State(inner, PiecesEnd(tp, ws1, Update(s.pos, "(")), s.user)).Failed()
    ensures var r := p(State(inner, PiecesEnd(tp, ws1, Update(s.pos, "(")), s.user));
            tp.Parens(p)(s) == Reply(None, r.state, r.error)
  {
    SymbolSkips(tp, "(", ws1, inner, s);
  }

  /** `parens(p)` on input that does not start with "(": it fails where it is, without running p. */
  lemma ParensRejects<T>(tp: TokenParser, p: Parser<T>, s: State)
    requires !StartsWith(s.input, "(")
    ensures tp.Parens(p)(s) == Reply(None, s, Some(ParseError(s.pos, Expecting(ShowQuoted("(")))))
  {
    SymbolRejects(tp, "(", s);
  }

  // ---------------------------------------------------------------- examples

  /** The operator characters of the default language make "-->" and "+=" whole operator names. */
  lemma OperatorNames()
    ensures NameRun(InSet(OperatorChars), InSet(OperatorChars), "-->", [])
    ensures NameRun(InSet(OperatorChars), InSet(OperatorChars), "+=", [])
  {
  }

  /**
   * With operators of the default language's characters: `operator` reads
   * "-->" when it is not reserved and fails on "+=" when it is, and
   * `reserved_op("+=")` reads "+=" with no value.
   */
  lemma OperatorExamples(tp: TokenParser, pos: SourcePos, u: UserState)
    requires tp.lang.opStart == OneOf(OperatorChars) && tp.lang.opLetter == OneOf(OperatorChars)
    requires "-->" !in tp.lang.reservedOpNames && "+=" in tp.lang.reservedOpNames
    ensures tp.Operator()(State("-->", pos, u)).value == Some("-->")
    ensures tp.Operator()(State("+=", pos, u)).value.None? && tp.Operator()(State("+=", pos, u)).Failed()
    ensures tp.ReservedOp("+=")(State("+=", pos, u)).value.None? && !tp.ReservedOp("+=")(State("+=", pos, u)).Failed()
  {
    OneOfClass(OperatorChars);
    OperatorNames();
    NoWhiteAtEnd(tp);
    assert "-->" == "-->" + [] && "+=" == "+=" + [];
    OperatorReads(tp, InSet(OperatorChars), InSet(OperatorChars), "-->", [], State("-->", pos, u));
    OperatorReads(tp, InSet(OperatorChars), InSet(OperatorChars), "+=", [], State("+=", pos, u));
    ReservedOpAccepts(tp, InSet(OperatorChars), "+=", [], State("+=", pos, u));
  }

  /** The default identifier tests over ASCII: letters and '_' start a name; letters, digits and '_' go on with it. */
  lemma AsciiIdentChars(c: char)
    ensures (AsciiAlpha(c) || c == '_') ==> IdentStartTest(AsciiClasses)(c)
    ensures (AsciiAlpha(c) || AsciiDigit(c) || c == '_') ==> IdentLetterTest(AsciiClasses)(c)
  {
    assert AsciiClasses.isAlpha == AsciiAlpha && AsciiClasses.isAlnum == AsciiAlnum;
    assert IdentLetterTest(AsciiClasses)(c) == (AsciiAlnum(c) || c == '_');
  }

  /** With the default identifier tests over ASCII: "my_var" and "def" are whole names. */
  lemma IdentifierNames()
    ensures NameRun(IdentStartTest(AsciiClasses), IdentLetterTest(AsciiClasses), "my_var", [])
    ensures NameRun(IdentStartTest(AsciiClasses), IdentLetterTest(AsciiClasses), "def", [])
  {
    forall c | c in "my_vardef" ensures IdentStartTest(AsciiClasses)(c) && IdentLetterTest(AsciiClasses)(c) {
      AsciiIdentChars(c);
    }
  }

  /** `identifier` reads "my_var" and fails on "def" when "def" is a reserved name. */
  lemma IdentifierExamples(tp: TokenParser, pos: SourcePos, u: UserState)
    requires tp.lang.identStart == Satisfy(IdentStartTest(AsciiClasses))
    requires tp.lang.identLetter == Satisfy(IdentLetterTest(AsciiClasses))
    requires "my_var" !in tp.lang.reservedNames && "def" in tp.lang.reservedNames
    ensures tp.Identifier()(State("my_var", pos, u)).value == Some("my_var")
    ensures tp.Identifier()(State("def", pos, u)).value.None? && tp.Identifier()(State("def", pos, u)).Failed()
  {
    SatisfyClass(IdentStartTest(AsciiClasses));
    SatisfyClass(IdentLetterTest(AsciiClasses));
    IdentifierNames();
    NoWhiteAtEnd(tp);
    assert "my_var" == "my_var" + [] && "def" == "def" + [];
    IdentifierReads(tp, IdentStartTest(AsciiClasses), IdentLetterTest(AsciiClasses), "my_var", [], State("my_var", pos, u));
    IdentifierReads(tp, IdentStartTest(AsciiClasses), IdentLetterTest(AsciiClasses), "def", [], State("def", pos, u));
  }
}

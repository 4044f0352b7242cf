/**
 * The lexeme layer of pyparsec/Token.py: a language definition, and the
 * token parsers a `TokenParser` builds from it once, in its constructor:
 * white space with line and (nested) block comments, symbols and brackets,
 * integer literals in decimal, hexadecimal and octal, escapes, character and
 * string literals, identifiers and operators with reserved-name rejection,
 * and reserved words. Float literals are not part of this model.
 *
 * The constructor only ever assigns each field once, so a token parser is
 * modelled as a value: each field is a function of the language definition
 * (and of the character classifier, which stands for Python's `str` class
 * tests).
 */
module Token {
  import opened Parsec
  import opened Prim
  import opened Chars
  import opened Combinators
  import opened Numerals

  /** The default operator characters of a language definition. */
  const OperatorChars: string := ":!#$%&*+./<=>?@\\^|-~"

  datatype LanguageDef = LanguageDef(
    commentStart: string,
    commentEnd: string,
    commentLine: string,
    nestedComments: bool,
    identStart: Parser<char>,
    identLetter: Parser<char>,
    opStart: Parser<char>,
    opLetter: Parser<char>,
    reservedNames: seq<string>,
    reservedOpNames: seq<string>,
    caseSensitive: bool)

  /** The default identifier tests: a letter or '_' first, then letters, digits and '_'. */
  function IdentStartTest(cls: Classifier): char -> bool {
    c => cls.isAlpha(c) || c == '_'
  }

  function IdentLetterTest(cls: Classifier): char -> bool {
    c => cls.isAlnum(c) || c == '_'
  }

  /** `LanguageDef()` with every field at its default. */
  function DefaultLanguage(cls: Classifier): LanguageDef {
    LanguageDef("", "", "", true,
                Satisfy(IdentStartTest(cls)), Satisfy(IdentLetterTest(cls)),
                OneOf(OperatorChars), OneOf(OperatorChars),
                [], [], true)
  }

  /** Python's `s[:1]`. */
  function Head(s: string): string {
    if s == [] then [] else s[..1]
  }

  const EndOfInputInComment: string := "end of input in comment"

  /** The escape table: the character after a backslash, and the character it stands for. */
  const EscapeMap: map<char, char> :=
    map['n' := '\n', 'r' := '\r', 't' := '\t', '\\' := '\\', '"' := '"', '\'' := '\'',
        'b' := '\U{0008}', 'f' := '\U{000C}']

  /** The keys of the escape table, in the table's order. */
  const EscapeKeys: string := "nrt\\\"'bf"

  /** The character an escape key stands for (one_of only ever hands over a key). */
  function Unescape(c: Option<char>): char {
    match c
    case Some(k) => if k in EscapeMap then EscapeMap[k] else k
    case None => '\0'
  }

  /** The test a line comment's body applies: anything but a newline. */
  function NotNewline(): char -> bool {
    c => c != '\n'
  }

  /** A string character is anything but the quote and the backslash. */
  function LetterTest(quote: char): char -> bool {
    c => c != quote && c != '\\'
  }

  /** The text of a single character value (`c + ...` in Python; None never reaches it). */
  function CharText(c: Option<char>): string {
    if c.Some? then [c.value] else []
  }

  /** `"".join(chars)` on a list of character values. */
  function Join(xs: seq<Option<char>>): string
    decreases |xs|
  {
    if xs == [] then [] else CharText(xs[0]) + Join(xs[1..])
  }

  function JoinList(xs: Option<List<char>>): string {
    Join(Items(xs))
  }

  /** The name an identifier or operator builder assembles: first character, then the rest. */
  function NameOf(c: Option<char>, cs: Option<List<char>>): string {
    CharText(c) + JoinList(cs)
  }

  /**
   * The quote `repr` puts around a string: a double quote when the string
   * holds a single quote and no double quote, otherwise a single quote.
   */
  function ReprQuote(name: string): char {
    if '\'' in name && '"' !in name then '"' else '\''
  }

  /**
   * `repr` of one character inside quotes q: the quote and the backslash
   * escaped, tab, newline and carriage return by name, the other ASCII
   * control characters as `\xNN`, everything else as itself.
   */
  function ReprChar(c: char, q: char): string {
    if c == q || c == '\\' then ['\\', c]
    else if c == '\t' then "\\t"
    else if c == '\n' then "\\n"
    else if c == '\r' then "\\r"
    else if c < ' ' || c == '\U{007F}' then "\\x" + [HexChar(c as int / 16), HexChar(c as int % 16)]
    else [c]
  }

  function ReprBody(name: string, q: char): string
    decreases |name|
  {
    if name == [] then [] else ReprChar(name[0], q) + ReprBody(name[1..], q)
  }

  /** Python's `repr` of a string, as `{name!r}` formats it. */
  function Repr(name: string): string {
    var q := ReprQuote(name);
    [q] + ReprBody(name, q) + [q]
  }

  /** A character `repr` shows as itself inside single quotes. */
  predicate ReprPlainChar(c: char) {
    c != '\'' && c != '\\' && ' ' <= c && c != '\U{007F}'
  }

  lemma {:induction false} ReprBodyPlain(name: string)
    requires forall i :: 0 <= i < |name| ==> ReprPlainChar(name[i])
    ensures ReprBody(name, '\'') == name
    decreases |name|
  {
    if name != [] {
      ReprBodyPlain(name[1..]);
      assert [name[0]] + name[1..] == name;
    }
  }

  /** A name without quotes, backslashes or control characters is shown as itself in single quotes. */
  lemma ReprPlain(name: string)
    requires forall i :: 0 <= i < |name| ==> ReprPlainChar(name[i])
    ensures Repr(name) == "'" + name + "'"
  {
    ReprBodyPlain(name);
  }

  /** Haskell's reserved operator `\` is shown with its backslash doubled. */
  lemma ReprBackslashExample()
    ensures Repr("\\") == ['\'', '\\', '\\', '\'']
  {
    assert ReprBody("\\", '\'') == ['\\', '\\'] + ReprBody([], '\'');
  }

  /** A name with a single quote and no double quote is shown in double quotes. */
  lemma ReprQuoteExample()
    ensures Repr("it's") == "\"it's\""
  {
    var s := "it's";
    assert s[1..][1..][1..][1..] == [];
  }

  /** A tab is shown by its escape. */
  lemma ReprTabExample()
    ensures Repr("a\tb") == ['\'', 'a', '\\', 't', 'b', '\'']
  {
    var t := "a\tb";
    assert t[1..][1..][1..] == [];
  }

  /** The value of a digit list in the given base: `int("".join(ds), base)`. */
  function ValueIn(base: nat): Option<List<char>> -> int {
    ds => DigitsValue(JoinList(ds), base)
  }

  function Negate(n: Option<int>): int {
    if n.Some? then -n.value else 0
  }

  /** An optional sign in front of a number: '-' negates it, '+' keeps it. */
  function Signed(num: Parser<int>): Parser<int> {
    Or(Or(Then(Char('-'), Map(num, Negate)), Then(Char('+'), num)), num)
  }

  /** `ident_start` (or `op_start`) then many `ident_letter` (or `op_letter`), joined into a name. */
  function Word(start: Parser<char>, letter: Parser<char>): Parser<string> {
    Bind(start, (c: Option<char>) => Bind(Many(letter), (cs: Option<List<char>>) => Pure(Some(NameOf(c, cs)))))
  }

  /** The message of `validate` on a reserved name: "unexpected reserved <kind> <repr>". */
  function ReservedMessage(kind: string, name: string): string {
    "unexpected reserved " + kind + " " + Repr(name)
  }

  /** The message for Python's reserved name "def". */
  lemma ReservedNameMessageExample()
    ensures ReservedMessage("name", "def") == "unexpected reserved name 'def'"
  {
    ReprPlain("def");
  }

  /** The message for Haskell's reserved operator `\`: its backslash doubled, as `repr` shows it. */
  lemma ReservedOpMessageExample()
    ensures ReservedMessage("op", "\\") == "unexpected reserved op '\\\\'"
  {
    ReprBackslashExample();
  }

  /** `validate`: a reserved name fails with ReservedMessage, any other is returned. */
  function Validate(reserved: seq<string>, kind: string): Option<string> -> Parser<string> {
    (name: Option<string>) => if name.Some? && name.value in reserved then Fail(ReservedMessage(kind, name.value))
            else Pure(name)
  }

  /** `try_parse(string(name) >> not_followed_by(letter)).label(what + " '" + name + "'")`. */
  function Keyword(name: string, letter: Parser<char>, what: string): Parser<char> {
    Label(TryParse(Then(String(name), NotFollowedBy(letter, ShowItem))), what + " '" + name + "'")
  }

  // ------------------------------------------------------- block comments

  /** `try_parse(string(marker))` reads the marker whenever it succeeds. */
  lemma MarkerConsuming(marker: string)
    requires marker != []
    ensures Consuming(TryParse(String(marker)))
  {
  }

  /**
   * What `parse_block_comment` closes over: `start_p`, `end_p`,
   * `scan_non_markers`, `scan_one_marker`, and whether comments nest.
   */
  datatype CommentScanner = CommentScanner(
    startP: Parser<string>,
    endP: Parser<string>,
    skipRun: Parser<char>,
    skipMarker: Parser<char>,
    nested: bool)

  /** Each of the scanner's parsers shortens the input whenever it succeeds. */
  ghost predicate Shortening(sc: CommentScanner) {
    Consuming(sc.startP) && Consuming(sc.endP) && Consuming(sc.skipRun) && Consuming(sc.skipMarker)
  }

  /**
   * The `while nesting > 0` loop of `parse_block_comment` from depth
   * `nesting`, as a recursive function; the branches in the source's order:
   * a closing marker, an opening marker where comments nest, the end of
   * input, a run of non-marker characters, a single marker character, and
   * otherwise an error with no message.
   */
  function CommentLoop(sc: CommentScanner, nesting: nat, cur: State): Reply<char>
    requires Shortening(sc)
    decreases |cur.input|
  {
    if nesting == 0 then Reply(None, cur, None)
    else
      var e := sc.endP(cur);
      if !e.Failed() then CommentLoop(sc, nesting - 1, e.state)
      else if sc.nested && !sc.startP(cur).Failed() then CommentLoop(sc, nesting + 1, sc.startP(cur).state)
      else if |cur.input| == 0 then Reply(None, cur, Some(ParseError(cur.pos, EndOfInputInComment)))
      else
        var k := sc.skipRun(cur);
        if !k.Failed() then CommentLoop(sc, nesting, k.state)
        else
          var m := sc.skipMarker(cur);
          if !m.Failed() then CommentLoop(sc, nesting, m.state)
          else Reply(None, cur, Some(ParseError(cur.pos, "")))
  }

  /** `parse_block_comment`: the opening marker (its error and state passed on), then the loop at depth 1. */
  function BlockCommentWith(sc: CommentScanner): Parser<char>
    requires Shortening(sc)
  {
    (s: State) =>
      var r := sc.startP(s);
      if r.Failed() then Reply(None, r.state, r.error) else CommentLoop(sc, 1, r.state)
  }

  /** `parse_block_comment` with its `while` loop, proved to compute BlockCommentWith. */
  method ParseBlockComment(sc: CommentScanner, state: State) returns (result: Reply<char>)
    requires Shortening(sc)
    ensures result == BlockCommentWith(sc)(state)
  {
    ghost var target := BlockCommentWith(sc)(state);
    var res := sc.startP(state);
    if res.Failed() {
      return Reply(None, res.state, res.error);
    }
    var cur := res.state;
    var nesting: nat := 1;
    while nesting > 0
      invariant CommentLoop(sc, nesting, cur) == target
      decreases |cur.input|
    {
      var resEnd := sc.endP(cur);
      if !resEnd.Failed() {
        nesting := nesting - 1;
        cur := resEnd.state;
        continue;
      }
      if sc.nested {
        var resStart := sc.startP(cur);
        if !resStart.Failed() {
          nesting := nesting + 1;
          cur := resStart.state;
          continue;
        }
      }
      if |cur.input| == 0 {
        return Reply(None, cur, Some(ParseError(cur.pos, EndOfInputInComment)));
      }
      var resSkip := sc.skipRun(cur);
      if !resSkip.Failed() {
        cur := resSkip.state;
        continue;
      }
      var resChar := sc.skipMarker(cur);
      if !resChar.Failed() {
        cur := resChar.state;
        continue;
      }
      return Reply(None, cur, Some(ParseError(cur.pos, "")));
    }
    return Reply(None, cur, None);
  }

  datatype TokenParser = TokenParser(lang: LanguageDef, cls: Classifier) {

    // ------------------------------------------------- white space, comments

    /** Neither a block nor a line comment is defined: white space is only spaces. */
    predicate SpacesOnly() {
      lang.commentStart == [] && lang.commentLine == []
    }

    predicate HasLineComments() {
      lang.commentLine != []
    }

    predicate HasBlockComments() {
      lang.commentStart != [] && lang.commentEnd != []
    }

    /** A line comment: the marker, then everything up to (not including) the next newline. */
    function LineComment(): Parser<char> {
      Then(TryParse(String(lang.commentLine)), SkipMany<char, char>(Satisfy(NotNewline())))
    }

    function StartP(): Parser<string> {
      TryParse(String(lang.commentStart))
    }

    function EndP(): Parser<string> {
      TryParse(String(lang.commentEnd))
    }

    /**
     * The first characters of the two block markers. The source turns them
     * into a set; only membership is ever asked of them, and a repeated
     * character changes no answer.
     */
    function Markers(): string {
      Head(lang.commentStart) + Head(lang.commentEnd)
    }

    /** A run of characters that cannot start a marker. */
    function ScanNonMarkers(): Parser<char> {
      SkipMany1<char, char>(NoneOf(Markers()))
    }

    /** A single marker character. */
    function ScanOneMarker(): Parser<char> {
      OneOf(Markers())
    }

    /** What `parse_block_comment` closes over; each of its parsers reads something whenever it succeeds. */
    function Scanner(): (sc: CommentScanner)
      requires HasBlockComments()
      ensures Shortening(sc)
    {
      MarkerConsuming(lang.commentStart);
      MarkerConsuming(lang.commentEnd);
      AcceptsClassConsuming(NoneOf(Markers()), NotInSet(Markers()), "none of " + Markers());
      SkipMany1Consuming<char, char>(NoneOf(Markers()));
      AcceptsClassConsuming(OneOf(Markers()), InSet(Markers()), "one of " + Markers());
      CommentScanner(StartP(), EndP(), ScanNonMarkers(), ScanOneMarker(), lang.nestedComments)
    }

    /** `block_comment`. */
    function BlockComment(): Parser<char>
      requires HasBlockComments()
    {
      BlockCommentWith(Scanner())
    }

    /** The alternatives white space is made of: a space, then a line comment, then a block comment, as defined. */
    function WhiteSpaceParsers(): seq<Parser<char>> {
      [Space(cls)]
      + (if HasLineComments() then [LineComment()] else [])
      + (if HasBlockComments() then [BlockComment()] else [])
    }

    /** One piece of white space. */
    function WhiteSpaceItem(): Parser<char> {
      if SpacesOnly() then Space(cls) else Choice(WhiteSpaceParsers())
    }

    /** `white_space`: `skip_many` of the pieces. */
    function WhiteSpace(): Parser<char> {
      SkipMany<char, char>(WhiteSpaceItem())
    }

    // ------------------------------------------------------- lexeme layer

    /** `lexeme(p)`: p, then trailing white space; p's value. */
    function Lexeme<T>(p: Parser<T>): Parser<T> {
      SeqLeft(p, WhiteSpace())
    }

    function Symbol(name: string): Parser<string> {
      Lexeme(String(name))
    }

    function Semi(): Parser<string> { Symbol(";") }
    function Comma(): Parser<string> { Symbol(",") }
    function Colon(): Parser<string> { Symbol(":") }
    function Dot(): Parser<string> { Symbol(".") }

    /** p between two symbols; `parens`, `braces`, `angles` and `brackets` are its four instances. */
    function Enclosed<T>(open: string, close: string, p: Parser<T>): Parser<T> {
      Between(Symbol(open), Symbol(close), p)
    }

    function Parens<T>(p: Parser<T>): Parser<T> { Enclosed("(", ")", p) }
    function Braces<T>(p: Parser<T>): Parser<T> { Enclosed("{", "}", p) }
    function Angles<T>(p: Parser<T>): Parser<T> { Enclosed("<", ">", p) }
    function Brackets<T>(p: Parser<T>): Parser<T> { Enclosed("[", "]", p) }

    function SemiSep<T>(p: Parser<T>): Parser<List<T>> { SepBy(p, Semi()) }
    function SemiSep1<T>(p: Parser<T>): Parser<List<T>> { SepBy1(p, Semi()) }
    function CommaSep<T>(p: Parser<T>): Parser<List<T>> { SepBy(p, Comma()) }
    function CommaSep1<T>(p: Parser<T>): Parser<List<T>> { SepBy1(p, Comma()) }

    // ----------------------------------------------------------- integers

    function Decimal(): Parser<int> {
      Lexeme(Map(Many1(Digit(cls)), ValueIn(10)))
    }

    function Hexadecimal(): Parser<int> {
      Lexeme(Map(Then(OneOf("xX"), Many1(HexDigit(cls))), ValueIn(16)))
    }

    function Octal(): Parser<int> {
      Lexeme(Map(Then(OneOf("oO"), Many1(OctDigit())), ValueIn(8)))
    }

    /** After a leading '0': a hexadecimal or octal body, more decimal digits, or nothing (the value 0). */
    function AfterZero(): Parser<int> {
      Choice([Hexadecimal(), Octal(), Decimal(), Pure(Some(0))])
    }

    function Natural(): Parser<int> {
      Lexeme(Choice([Then(Char('0'), AfterZero()), Decimal()]))
    }

    function Integer(): Parser<int> {
      Lexeme(Signed(Natural()))
    }

    // --------------------------------------------------- characters, strings

    function EscapeCode(): Parser<char> {
      Then(Char('\\'), Choice([Map(OneOf(EscapeKeys), Unescape), AnyChar()]))
    }

    function CharLetter(quote: char): Parser<char> {
      Satisfy(LetterTest(quote))
    }

    function StringChar(quote: char): Parser<char> {
      Or(CharLetter(quote), EscapeCode())
    }

    function CharLiteral(): Parser<char> {
      Lexeme(Between(Char('\''), Char('\''), StringChar('\'')))
    }

    function StringLiteral(): Parser<string> {
      Lexeme(Map(Between(Char('"'), Char('"'), Many(StringChar('"'))), JoinList))
    }

    // ------------------------------------- identifiers, operators, reserved

    function Identifier(): Parser<string> {
      Lexeme(Bind(Word(lang.identStart, lang.identLetter), Validate(lang.reservedNames, "name")))
    }

    function Operator(): Parser<string> {
      Lexeme(Bind(Word(lang.opStart, lang.opLetter), Validate(lang.reservedOpNames, "op")))
    }

    function Reserved(name: string): Parser<char> {
      Lexeme(Keyword(name, lang.identLetter, "reserved word"))
    }

    function ReservedOp(name: string): Parser<char> {
      Lexeme(Keyword(name, lang.opLetter, "reserved operator"))
    }
  }
}

/**
 * The character and string literals of a TokenParser: `escape_code`,
 * `string_char`, `char_literal` and `string_literal`; what each reads, and
 * the round trip from a text written with the escapes back to the text.
 */
module TokenText {
  import opened Parsec
  import opened Prim
  import opened Chars
  import opened Combinators
  import opened Token
  import opened TokenSpace
  import opened TokenWhite
  import opened TokenNumbers

  // --------------------------------------------------------------- escapes

  /** one_of is handed exactly the keys of the escape table. */
  lemma EscapeKeysAreTable(k: char)
    ensures k in EscapeKeys <==> k in EscapeMap
  {
    if k in EscapeMap {
      assert k in "nrt\\\"'bf";
    }
  }

  /** The character that `\k` stands for: the table's entry, or k itself for any other k. */
  function Escaped(k: char): char {
    if k in EscapeMap then EscapeMap[k] else k
  }

  /** The choice after the backslash on k: the table's entry when k is a key, else k itself. */
  lemma EscapeChoiceReads(k: char, rest: string, t: State)
    requires t.input == [k] + rest
    ensures Choice([Map(OneOf(EscapeKeys), Unescape), AnyChar()])(t)
         == Reply(Some(Escaped(k)), State(rest, Update(t.pos, [k]), t.user), None)
  {
    assert t.input[1..] == rest;
    var alts := [Map(OneOf(EscapeKeys), Unescape), AnyChar()];
    assert AcceptsClass(OneOf(EscapeKeys), InSet(EscapeKeys), "one of " + EscapeKeys, t);
    EscapeKeysAreTable(k);
    if k in EscapeKeys {
      assert alts[0](t) == Reply(Some(Escaped(k)), State(rest, Update(t.pos, [k]), t.user), None);
      ChoiceFirstSuccess(alts, 0, t);
    } else {
      assert Declines(t, alts[0](t));
      ChoiceFirstSuccess(alts, 1, t);
    }
  }

  /** The position after two characters. */
  lemma TwoChars(pos: SourcePos, a: char, b: char)
    ensures UpdateChars(pos, [a, b]) == Update(Update(pos, [a]), [b])
  {
    assert [a, b] == [a] + [b];
    UpdateCharsCons(pos, a, [b]);
    UpdateCharsCons(Update(pos, [a]), b, []);
    assert [b] + [] == [b];
  }

  /** A backslash and then the choice on k. */
  lemma BackslashThenChoice(k: char, rest: string, s: State)
    requires s.input == ['\\', k] + rest
    ensures Then(Char('\\'), Choice([Map(OneOf(EscapeKeys), Unescape), AnyChar()]))(s)
         == Reply(Some(Escaped(k)), State(rest, Update(Update(s.pos, "\\"), [k]), s.user), None)
  {
    var t := State([k] + rest, Update(s.pos, "\\"), s.user);
    assert s.input[1..] == t.input;
    CharAccepts('\\', s);
    EscapeChoiceReads(k, rest, t);
  }

  /** `escape_code` on a backslash and k: the character `\k` stands for, both characters read. */
  lemma EscapeCodeReads(tp: TokenParser, k: char, rest: string, s: State)
    requires s.input == ['\\', k] + rest
    ensures tp.EscapeCode()(s) == Reply(Some(Escaped(k)), State(rest, UpdateChars(s.pos, ['\\', k]), s.user), None)
  {
    BackslashThenChoice(k, rest, s);
    TwoChars(s.pos, '\\', k);
  }

  /** `escape_code` where no backslash comes next: it fails without reading. */
  lemma EscapeCodeDeclines(tp: TokenParser, s: State)
    requires |s.input| == 0 || s.input[0] != '\\'
    ensures tp.EscapeCode()(s) == Reply(None, s, Some(ParseError(s.pos, Expecting(Quoted('\\')))))
  {
    CharRejects('\\', s);
  }

  // ------------------------------------------------------- string characters

  /** `string_char(q)` on a character other than q and the backslash: that character. */
  lemma StringCharPlain(tp: TokenParser, q: char, c: char, rest: string, s: State)
    requires c != q && c != '\\' && s.input == [c] + rest
    ensures tp.StringChar(q)(s) == Reply(Some(c), State(rest, Update(s.pos, [c]), s.user), None)
  {
    assert s.input[1..] == rest;
  }

  /** `string_char(q)` on a backslash and k: the escape. */
  lemma StringCharEscape(tp: TokenParser, q: char, k: char, rest: string, s: State)
    requires s.input == ['\\', k] + rest
    ensures tp.StringChar(q)(s) == Reply(Some(Escaped(k)), State(rest, UpdateChars(s.pos, ['\\', k]), s.user), None)
  {
    EscapeCodeReads(tp, k, rest, s);
  }

  /** `string_char(q)` at the quote or at the end of the input: it fails without reading. */
  lemma StringCharStops(tp: TokenParser, q: char, s: State)
    requires q != '\\'
    requires |s.input| == 0 || s.input[0] == q
    ensures tp.StringChar(q)(s) == Reply(None, s, Some(ParseError(s.pos, Expecting(Quoted('\\')))))
  {
    EscapeCodeDeclines(tp, s);
  }

  /** How c is written inside quotes q: with a backslash in front when it is q or the backslash. */
  function EscapeChar(q: char, c: char): string {
    if c == q || c == '\\' then ['\\', c] else [c]
  }

  /** A text written inside quotes q, each character as EscapeChar writes it. */
  function Escape(q: char, text: string): string
    decreases |text|
  {
    if text == [] then [] else EscapeChar(q, text[0]) + Escape(q, text[1..])
  }

  /** The two quotes the literals use. */
  predicate IsQuote(q: char) {
    q == '"' || q == '\''
  }

  /** A quote or the backslash after a backslash stands for itself. */
  lemma EscapedQuote(c: char)
    requires IsQuote(c) || c == '\\'
    ensures Escaped(c) == c
  {
  }

  /** `string_char(q)` reads back the character that EscapeChar wrote. */
  lemma StringCharOfEscaped(tp: TokenParser, q: char, c: char, rest: string, s: State)
    requires IsQuote(q) && s.input == EscapeChar(q, c) + rest
    ensures tp.StringChar(q)(s) == Reply(Some(c), State(rest, UpdateChars(s.pos, EscapeChar(q, c)), s.user), None)
  {
    if c == q || c == '\\' {
      assert s.input == ['\\', c] + rest;
      EscapedQuote(c);
      StringCharEscape(tp, q, c, rest, s);
    } else {
      StringCharPlain(tp, q, c, rest, s);
    }
  }

  /** A text with neither the quote nor the backslash in it is written as it is. */
  lemma {:induction false} EscapePlain(q: char, text: string)
    requires forall i :: 0 <= i < |text| ==> text[i] != q && text[i] != '\\'
    ensures Escape(q, text) == text
    decreases |text|
  {
    if text != [] {
      EscapePlain(q, text[1..]);
      assert [text[0]] + text[1..] == text;
    }
  }

  /** The escaped text splits after its first character's piece. */
  lemma EscapeSplit(q: char, text: string, rest: string)
    requires text != []
    ensures Escape(q, text) + [q] + rest == EscapeChar(q, text[0]) + (Escape(q, text[1..]) + [q] + rest)
    ensures Escape(q, text) == EscapeChar(q, text[0]) + Escape(q, text[1..])
  {
  }

  /** Appending the first character's value and then the rest's values appends the text's values. */
  lemma WrapSplit(pre: seq<Option<char>>, text: string)
    requires text != []
    ensures pre + [Some(text[0])] + Wrap(text[1..]) == pre + Wrap(text)
  {
    assert Wrap(text) == [Some(text[0])] + Wrap(text[1..]);
  }

  /** Escaping a concatenation escapes each part. */
  lemma {:induction false} EscapeAppend(q: char, a: string, b: string)
    ensures Escape(q, a + b) == Escape(q, a) + Escape(q, b)
    decreases |a|
  {
    if a != [] {
      assert (a + b)[0] == a[0] && (a + b)[1..] == a[1..] + b;
      EscapeAppend(q, a[1..], b);
    } else {
      assert a + b == b;
    }
  }

  /** p reads back every character written by EscapeChar. */
  ghost predicate ReadsEscaped(p: Parser<char>, q: char) {
    forall c: char, t: State ::
      var piece := EscapeChar(q, c);
      |piece| <= |t.input| && t.input[..|piece|] == piece ==>
      p(t) == Reply(Some(c), State(t.input[|piece|..], UpdateChars(t.pos, piece), t.user), None)
  }

  /** p fails without moving at the quote. */
  ghost predicate StopsAtQuote(p: Parser<char>, q: char) {
    forall t: State :: |t.input| > 0 && t.input[0] == q ==> p(t).Failed() && p(t).state.pos == t.pos
  }

  lemma StringCharReadsEscaped(tp: TokenParser, q: char)
    requires IsQuote(q)
    ensures ReadsEscaped(tp.StringChar(q), q) && StopsAtQuote(tp.StringChar(q), q)
  {
    forall c: char, t: State | |EscapeChar(q, c)| <= |t.input| && t.input[..|EscapeChar(q, c)|] == EscapeChar(q, c)
      ensures tp.StringChar(q)(t)
           == Reply(Some(c), State(t.input[|EscapeChar(q, c)|..], UpdateChars(t.pos, EscapeChar(q, c)), t.user), None)
    {
      var piece := EscapeChar(q, c);
      assert t.input == piece + t.input[|piece|..];
      StringCharOfEscaped(tp, q, c, t.input[|piece|..], t);
    }
    forall t: State | |t.input| > 0 && t.input[0] == q
      ensures tp.StringChar(q)(t).Failed() && tp.StringChar(q)(t).state.pos == t.pos
    {
      StringCharStops(tp, q, t);
    }
  }

  /** One character of the text read back by a parser that reads escapes. */
  lemma ReadsPiece(p: Parser<char>, q: char, text: string, rest: string, s: State)
    requires ReadsEscaped(p, q) && text != [] && s.input == Escape(q, text) + [q] + rest
    ensures p(s) == Reply(Some(text[0]),
                          State(Escape(q, text[1..]) + [q] + rest, UpdateChars(s.pos, EscapeChar(q, text[0])), s.user), None)
  {
    EscapeSplit(q, text, rest);
    var piece := EscapeChar(q, text[0]);
    var later := Escape(q, text[1..]) + [q] + rest;
    assert s.input == piece + later;
    assert s.input[..|piece|] == piece && s.input[|piece|..] == later;
  }

  /**
   * `many(p)` over an escaped text and then the quote, for a p that reads
   * escapes and stops at the quote: every character of the text, in order,
   * appended to what was there; it stops at the quote without error.
   */
  lemma {:induction false} EscapedRun(p: Parser<char>, q: char, pre: seq<Option<char>>, text: string, rest: string, s: State)
    requires ReadsEscaped(p, q) && StopsAtQuote(p, q)
    requires s.input == Escape(q, text) + [q] + rest
    ensures ManyAccumRun(AppendItem, p, Some(pre), s)
         == Reply(Some(pre + Wrap(text)), State([q] + rest, UpdateChars(s.pos, Escape(q, text)), s.user), None)
    decreases |text|
  {
    if text == [] {
      assert pre + Wrap(text) == pre;
    } else {
      var c := text[0];
      var piece := EscapeChar(q, c);
      var later := Escape(q, text[1..]);
      var t := State(later + [q] + rest, UpdateChars(s.pos, piece), s.user);
      ReadsPiece(p, q, text, rest, s);
      EscapeSplit(q, text, rest);
      UpdateCharsAdvances(s.pos, piece);
      ManyAccumStep(AppendItem, p, Some(pre), s, Some(c), t);
      EscapedRun(p, q, pre + [Some(c)], text[1..], rest, t);
      WrapSplit(pre, text);
      UpdateCharsAppend(s.pos, piece, later);
    }
  }

  /** `many(p)` over an escaped text and then the quote, for a p that reads escapes and stops at the quote. */
  lemma ManyEscaped(p: Parser<char>, q: char, text: string, rest: string, s: State)
    requires ReadsEscaped(p, q) && StopsAtQuote(p, q)
    requires s.input == Escape(q, text) + [q] + rest
    ensures Many(p)(s) == Reply(Some(Wrap(text)), State([q] + rest, UpdateChars(s.pos, Escape(q, text)), s.user), None)
  {
    EscapedRun(p, q, [], text, rest, s);
    assert [] + Wrap(text) == Wrap(text);
  }

  /** `many(string_char(q))` over an escaped text and then the quote: the text's characters. */
  lemma StringBodyRun(tp: TokenParser, q: char, text: string, rest: string, s: State)
    requires IsQuote(q) && s.input == Escape(q, text) + [q] + rest
    ensures Many(tp.StringChar(q))(s)
         == Reply(Some(Wrap(text)), State([q] + rest, UpdateChars(s.pos, Escape(q, text)), s.user), None)
  {
    StringCharReadsEscaped(tp, q);
    ManyEscaped(tp.StringChar(q), q, text, rest, s);
  }

  // ---------------------------------------------------------------- literals

  /** `between(char(q), char(q), p)` where p reads up to a second q: p's value, both quotes read. */
  lemma BetweenQuotes<T>(q: char, p: Parser<T>, s: State, v: T, mid: State)
    requires |s.input| > 0 && s.input[0] == q
    requires p(State(s.input[1..], Update(s.pos, [q]), s.user)) == Reply(Some(v), mid, None)
    requires |mid.input| > 0 && mid.input[0] == q
    ensures Between(Char(q), Char(q), p)(s) == Reply(Some(v), State(mid.input[1..], Update(mid.pos, [q]), mid.user), None)
  {
    CharAccepts(q, s);
    CharAccepts(q, mid);
  }

  /** `between(char(q), char(q), p).map(f)` where p reads up to a second q: f of p's value. */
  lemma MapBetweenQuotes<T, U>(q: char, p: Parser<T>, f: Option<T> -> U, s: State, v: T, mid: State)
    requires |s.input| > 0 && s.input[0] == q
    requires p(State(s.input[1..], Update(s.pos, [q]), s.user)) == Reply(Some(v), mid, None)
    requires |mid.input| > 0 && mid.input[0] == q
    ensures Map(Between(Char(q), Char(q), p), f)(s)
         == Reply(Some(f(Some(v))), State(mid.input[1..], Update(mid.pos, [q]), mid.user), None)
  {
    BetweenQuotes(q, p, s, v, mid);
  }

  /** Positions after an opening quote, a body and a closing quote. */
  lemma QuotedPos(pos: SourcePos, q: char, body: string)
    ensures UpdateChars(pos, [q] + body + [q]) == Update(UpdateChars(Update(pos, [q]), body), [q])
  {
    UpdateCharsAppend(pos, [q] + body, [q]);
    UpdateCharsCons(pos, q, body);
  }

  /** The part of `string_literal` inside `lexeme`, on an escaped text between double quotes. */
  lemma StringLiteralBody(tp: TokenParser, text: string, rest: string, s: State)
    requires s.input == ['"'] + Escape('"', text) + ['"'] + rest
    ensures Map(Between(Char('"'), Char('"'), Many(tp.StringChar('"'))), JoinList)(s)
         == Reply(Some(text), State(rest, Update(UpdateChars(Update(s.pos, "\""), Escape('"', text)), "\""), s.user), None)
  {
    var body := Escape('"', text);
    var t := State(s.input[1..], Update(s.pos, "\""), s.user);
    var mid := State(['"'] + rest, UpdateChars(t.pos, body), s.user);
    assert Many(tp.StringChar('"'))(t) == Reply(Some(Wrap(text)), mid, None) by {
      assert t.input == body + ['"'] + rest;
      StringBodyRun(tp, '"', text, rest, t);
    }
    assert mid.input[1..] == rest;
    MapBetweenQuotes('"', Many(tp.StringChar('"')), JoinList, s, Wrap(text), mid);
    assert JoinList(Some(Wrap(text))) == text by {
      JoinWrap(text);
    }
  }

  /** `string_literal` on a text written with its escapes, between double quotes: the text. */
  lemma StringLiteralRoundTrip(tp: TokenParser, text: string, rest: string, s: State)
    requires s.input == ['"'] + Escape('"', text) + ['"'] + rest && !WhiteStart(tp, rest)
    ensures tp.StringLiteral()(s)
         == Reply(Some(text), State(rest, UpdateChars(s.pos, ['"'] + Escape('"', text) + ['"']), s.user), None)
  {
    var p := Map(Between(Char('"'), Char('"'), Many(tp.StringChar('"'))), JoinList);
    var end := State(rest, Update(UpdateChars(Update(s.pos, "\""), Escape('"', text)), "\""), s.user);
    assert p(s) == Reply(Some(text), end, None) by {
      StringLiteralBody(tp, text, rest, s);
    }
    assert tp.StringLiteral()(s) == p(s) by {
      LexemeAtToken(tp, p, s);
    }
    QuotedPos(s.pos, '"', Escape('"', text));
  }

  /** `string_literal` on a text without quotes and backslashes, between double quotes: the text. */
  lemma StringLiteralPlain(tp: TokenParser, text: string, s: State)
    requires forall i :: 0 <= i < |text| ==> text[i] != '"' && text[i] != '\\'
    requires s.input == ['"'] + text + ['"']
    ensures var r := tp.StringLiteral()(s);
            r.value == Some(text) && !r.Failed() && r.state.input == []
  {
    EscapePlain('"', text);
    assert s.input == ['"'] + Escape('"', text) + ['"'] + [];
    NoWhiteAtEnd(tp);
    StringLiteralRoundTrip(tp, text, [], s);
  }

  /** `char_literal` on a character written with its escape between single quotes: the character. */
  lemma CharLiteralRoundTrip(tp: TokenParser, c: char, rest: string, s: State)
    requires s.input == ['\''] + EscapeChar('\'', c) + ['\''] + rest && !WhiteStart(tp, rest)
    ensures tp.CharLiteral()(s)
         == Reply(Some(c), State(rest, UpdateChars(s.pos, ['\''] + EscapeChar('\'', c) + ['\'']), s.user), None)
  {
    var body := EscapeChar('\'', c);
    var t := State(s.input[1..], Update(s.pos, "'"), s.user);
    var mid := State(['\''] + rest, UpdateChars(t.pos, body), s.user);
    assert tp.StringChar('\'')(t) == Reply(Some(c), mid, None) by {
      assert t.input == body + (['\''] + rest);
      StringCharOfEscaped(tp, '\'', c, ['\''] + rest, t);
    }
    var end := State(rest, Update(mid.pos, "'"), s.user);
    assert mid.input[1..] == rest;
    assert Between(Char('\''), Char('\''), tp.StringChar('\''))(s) == Reply(Some(c), end, None) by {
      BetweenQuotes('\'', tp.StringChar('\''), s, c, mid);
    }
    LexemeAtToken(tp, Between(Char('\''), Char('\''), tp.StringChar('\'')), s);
    QuotedPos(s.pos, '\'', body);
  }

  /** The pieces of a quoted escape. */
  lemma QuotedEscapeSplit(k: char, rest: string)
    ensures (['\'', '\\', k, '\''] + rest)[1..] == ['\\', k] + (['\''] + rest)
    ensures ['\'', '\\', k, '\''] == ['\''] + ['\\', k] + ['\'']
  {
  }

  /** `char_literal` on a backslash and any k between single quotes: what `\k` stands for. */
  lemma CharLiteralEscape(tp: TokenParser, k: char, rest: string, s: State)
    requires s.input == ['\'', '\\', k, '\''] + rest && !WhiteStart(tp, rest)
    ensures tp.CharLiteral()(s)
         == Reply(Some(Escaped(k)), State(rest, UpdateChars(s.pos, ['\'', '\\', k, '\'']), s.user), None)
  {
    var t := State(s.input[1..], Update(s.pos, "'"), s.user);
    var mid := State(['\''] + rest, UpdateChars(t.pos, ['\\', k]), s.user);
    var p := Between(Char('\''), Char('\''), tp.StringChar('\''));
    var end := State(rest, Update(mid.pos, "'"), s.user);
    assert p(s) == Reply(Some(Escaped(k)), end, None) by {
      assert tp.StringChar('\'')(t) == Reply(Some(Escaped(k)), mid, None) by {
        QuotedEscapeSplit(k, rest);
        StringCharEscape(tp, '\'', k, ['\''] + rest, t);
      }
      assert mid.input[1..] == rest;
      BetweenQuotes('\'', tp.StringChar('\''), s, Escaped(k), mid);
    }
    assert tp.CharLiteral()(s) == p(s) by {
      LexemeAtToken(tp, p, s);
    }
    QuotedEscapeSplit(k, rest);
    QuotedPos(s.pos, '\'', ['\\', k]);
  }

  // ---------------------------------------------------------------- examples

  /** What `\n`, `\'`, `\\`, `\t` and the unknown escape `\z` stand for. */
  lemma EscapedExamples()
    ensures Escaped('n') == '\n' && Escaped('\'') == '\'' && Escaped('\\') == '\\'
    ensures Escaped('t') == '\t' && Escaped('z') == 'z'
  {
    EscapeKeysAreTable('z');
  }

  /** The text `say"hi` is written `say\"hi` between double quotes. */
  lemma EscapeQuoteExample()
    ensures Escape('"', "say\"hi") == "say\\\"hi"
  {
  }
}

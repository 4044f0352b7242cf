/**
 * The white space a TokenParser skips after every lexeme: single spaces,
 * line comments and block comments, tried in that order by `choice` and
 * repeated by `skip_many` until none of them applies.
 */
module TokenWhite {
  import opened Parsec
  import opened Prim
  import opened Chars
  import opened Combinators
  import opened Token
  import opened TokenSpace

  /** Some piece of white space can begin at the start of the input. */
  predicate WhiteStart(tp: TokenParser, input: string) {
    (|input| > 0 && tp.cls.isSpace(input[0])) ||
    (tp.HasLineComments() && StartsWith(input, tp.lang.commentLine)) ||
    (tp.HasBlockComments() && StartsWith(input, tp.lang.commentStart))
  }

  lemma SatisfyReadsFirst(f: char -> bool)
    ensures forall u: State :: ReadsFirst(Satisfy(f), f, u)
  {
  }

  /** Skipping characters of class f reads exactly a run of the class, up to the first character outside it. */
  lemma SkipClassReads(f: char -> bool, text: string, rest: string, t: State)
    requires t.input == text + rest
    requires forall i :: 0 <= i < |text| ==> f(text[i])
    requires rest == [] || !f(rest[0])
    ensures SkipMany<char, char>(Satisfy(f))(t) == Reply(None, State(rest, UpdateChars(t.pos, text), t.user), None)
  {
    var stop := State(rest, UpdateChars(t.pos, text), t.user);
    assert TakeWhile(f, t.input) == text && DropWhile(f, t.input) == rest by {
      TakeWhileRun(f, text, rest);
    }
    assert Satisfy(f)(stop).Failed() && Satisfy(f)(stop).state == stop;
    SatisfyReadsFirst(f);
    ManyReadsRun<char>(Discard, Satisfy(f), f, None, t);
    AccumAllDiscards<char>(None, text);
  }

  /** The body of a line comment: every character up to, not including, the next newline. */
  lemma LineBodyReads(text: string, rest: string, t: State)
    requires t.input == text + rest
    requires forall i :: 0 <= i < |text| ==> NotNewline()(text[i])
    requires rest == [] || !NotNewline()(rest[0])
    ensures SkipMany<char, char>(Satisfy(NotNewline()))(t) == Reply(None, State(rest, UpdateChars(t.pos, text), t.user), None)
  {
    SkipClassReads(NotNewline(), text, rest, t);
  }

  /**
   * A line comment reads its marker and then every character up to, not
   * including, the next newline (or the end of the input).
   */
  lemma LineCommentReads(tp: TokenParser, text: string, rest: string, s: State)
    requires tp.HasLineComments() && s.input == tp.lang.commentLine + (text + rest)
    requires forall i :: 0 <= i < |text| ==> NotNewline()(text[i])
    requires rest == [] || !NotNewline()(rest[0])
    ensures tp.LineComment()(s)
            == Reply(None, State(rest, UpdateChars(Update(s.pos, tp.lang.commentLine), text), s.user), None)
  {
    StringReadsLiteral(tp.lang.commentLine, text + rest, s);
    LineBodyReads(text, rest, State(text + rest, Update(s.pos, tp.lang.commentLine), s.user));
  }

  /** A line comment, wherever its marker begins, succeeds with None and stops at the first newline after the marker. */
  lemma LineCommentToNewline(tp: TokenParser, s: State)
    requires tp.HasLineComments() && StartsWith(s.input, tp.lang.commentLine)
    ensures var body := s.input[|tp.lang.commentLine|..];
            var f := NotNewline();
            tp.LineComment()(s)
            == Reply(None, State(DropWhile(f, body), UpdateChars(Update(s.pos, tp.lang.commentLine), TakeWhile(f, body)), s.user), None)
  {
    var cl := tp.lang.commentLine;
    var body := s.input[|cl|..];
    var f := NotNewline();
    assert s.input == cl + body;
    LineCommentReads(tp, TakeWhile(f, body), DropWhile(f, body), s);
  }

  /** The reply of a parser that fails without reading anything. */
  predicate FailsAt<T>(r: Reply<T>, s: State) {
    r.Failed() && r.state == s
  }

  lemma SpaceFailsAt(tp: TokenParser, s: State)
    requires !(|s.input| > 0 && tp.cls.isSpace(s.input[0]))
    ensures FailsAt(Space(tp.cls)(s), s)
  {
    assert AcceptsClass(Space(tp.cls), tp.cls.isSpace, "space", s);
  }

  lemma LineCommentFailsAt(tp: TokenParser, s: State)
    requires !StartsWith(s.input, tp.lang.commentLine)
    ensures FailsAt(tp.LineComment()(s), s)
  {
  }

  lemma BlockCommentFailsAt(tp: TokenParser, s: State)
    requires tp.HasBlockComments() && !StartsWith(s.input, tp.lang.commentStart)
    ensures FailsAt(tp.BlockComment()(s), s)
  {
    BlockCommentOutcome(tp, s);
  }

  /** Where no piece of white space begins, every alternative, and so the choice of them, fails without reading. */
  lemma WhiteSpaceItemFailsAt(tp: TokenParser, s: State)
    requires !WhiteStart(tp, s.input)
    ensures FailsAt(tp.WhiteSpaceItem()(s), s)
  {
    var sp := Space(tp.cls);
    assert FailsAt(sp(s), s) by {
      SpaceFailsAt(tp, s);
    }
    if tp.SpacesOnly() {
    } else if tp.HasLineComments() {
      var lc := tp.LineComment();
      assert FailsAt(lc(s), s) by {
        LineCommentFailsAt(tp, s);
      }
      if tp.HasBlockComments() {
        var bc := tp.BlockComment();
        assert FailsAt(bc(s), s) by {
          BlockCommentFailsAt(tp, s);
        }
        assert tp.WhiteSpaceParsers() == [sp, lc, bc] by {
          WhiteSpaceParsersAre(tp);
        }
        ChoiceOfThree(sp, lc, bc, s);
      } else {
        assert tp.WhiteSpaceParsers() == [sp, lc] by {
          WhiteSpaceParsersAre(tp);
        }
        ChoiceOfTwo(sp, lc, s);
      }
    } else if tp.HasBlockComments() {
      var bc := tp.BlockComment();
      assert FailsAt(bc(s), s) by {
        BlockCommentFailsAt(tp, s);
      }
      assert tp.WhiteSpaceParsers() == [sp, bc] by {
        WhiteSpaceParsersAre(tp);
      }
      ChoiceOfTwo(sp, bc, s);
    } else {
      assert tp.WhiteSpaceParsers() == [sp] by {
        WhiteSpaceParsersAre(tp);
      }
    }
  }

  /** Where no piece of white space begins, white space reads nothing and succeeds. */
  lemma WhiteSpaceStops(tp: TokenParser, s: State)
    requires !WhiteStart(tp, s.input)
    ensures tp.WhiteSpace()(s) == Reply(None, s, None)
  {
    WhiteSpaceItemFailsAt(tp, s);
  }

  /** A space character is one piece of white space by itself. */
  lemma WhiteSpaceItemSpace(tp: TokenParser, s: State)
    requires |s.input| > 0 && tp.cls.isSpace(s.input[0])
    ensures tp.WhiteSpaceItem()(s) == Reply(Some(s.input[0]), State(s.input[1..], Update(s.pos, [s.input[0]]), s.user), None)
  {
    assert AcceptsClass(Space(tp.cls), tp.cls.isSpace, "space", s);
    if !tp.SpacesOnly() {
      ChoiceHeadWins(tp.WhiteSpaceParsers(), s);
    }
  }

  /** The alternatives of a piece of white space, for each way line and block comments may be defined. */
  lemma WhiteSpaceParsersAre(tp: TokenParser)
    ensures var ps, sp := tp.WhiteSpaceParsers(), Space(tp.cls);
            (tp.HasLineComments() && tp.HasBlockComments() ==> ps == [sp, tp.LineComment(), tp.BlockComment()]) &&
            (tp.HasLineComments() && !tp.HasBlockComments() ==> ps == [sp, tp.LineComment()]) &&
            (!tp.HasLineComments() && tp.HasBlockComments() ==> ps == [sp, tp.BlockComment()]) &&
            (!tp.HasLineComments() && !tp.HasBlockComments() ==> ps == [sp])
  {
  }

  /** A line comment whose marker is there succeeds with None and reads something. */
  lemma LineCommentCommits(tp: TokenParser, s: State)
    requires tp.HasLineComments() && StartsWith(s.input, tp.lang.commentLine)
    ensures var r := tp.LineComment()(s);
            !r.Failed() && r.value.None? && |r.state.input| < |s.input|
  {
    LineCommentToNewline(tp, s);
  }

  /** Where a line comment begins (and its marker does not start with a space), it is the piece read. */
  lemma WhiteSpaceItemLine(tp: TokenParser, s: State)
    requires tp.HasLineComments() && StartsWith(s.input, tp.lang.commentLine)
    requires !tp.cls.isSpace(tp.lang.commentLine[0])
    ensures tp.WhiteSpaceItem()(s) == tp.LineComment()(s)
  {
    var sp, lc := Space(tp.cls), tp.LineComment();
    assert Declines(s, sp(s)) by {
      assert s.input[0] == tp.lang.commentLine[0];
      SpaceFailsAt(tp, s);
    }
    assert lc(s).value.None? && Consumed(s, lc(s)) by {
      LineCommentCommits(tp, s);
    }
    if tp.HasBlockComments() {
      assert tp.WhiteSpaceParsers() == [sp, lc, tp.BlockComment()] by {
        WhiteSpaceParsersAre(tp);
      }
      ChoiceOfThree(sp, lc, tp.BlockComment(), s);
    } else {
      assert tp.WhiteSpaceParsers() == [sp, lc] by {
        WhiteSpaceParsersAre(tp);
      }
      ChoiceOfTwo(sp, lc, s);
    }
  }

  /**
   * Where a block comment begins (its marker not starting with a space, and
   * no line comment beginning there), it is the piece read.
   */
  lemma WhiteSpaceItemBlock(tp: TokenParser, s: State)
    requires tp.HasBlockComments() && StartsWith(s.input, tp.lang.commentStart)
    requires !tp.cls.isSpace(tp.lang.commentStart[0])
    requires !(tp.HasLineComments() && StartsWith(s.input, tp.lang.commentLine))
    ensures tp.WhiteSpaceItem()(s) == tp.BlockComment()(s)
  {
    var sp, bc := Space(tp.cls), tp.BlockComment();
    assert Declines(s, sp(s)) by {
      assert s.input[0] == tp.lang.commentStart[0];
      SpaceFailsAt(tp, s);
    }
    if tp.HasLineComments() {
      var lc := tp.LineComment();
      assert Declines(s, lc(s)) by {
        LineCommentFailsAt(tp, s);
      }
      assert tp.WhiteSpaceParsers() == [sp, lc, bc] by {
        WhiteSpaceParsersAre(tp);
      }
      ChoiceOfThree(sp, lc, bc, s);
    } else {
      assert tp.WhiteSpaceParsers() == [sp, bc] by {
        WhiteSpaceParsersAre(tp);
      }
      ChoiceOfTwo(sp, bc, s);
    }
  }

  /** A piece that reads forward hands the rest of the white space on to where it stopped. */
  lemma WhiteSpaceStep(tp: TokenParser, s: State)
    requires var r := tp.WhiteSpaceItem()(s);
             !r.Failed() && r.state.pos != s.pos && |r.state.input| < |s.input|
    ensures tp.WhiteSpace()(s) == tp.WhiteSpace()(tp.WhiteSpaceItem()(s).state)
  {
  }

  /** A piece that fails after reading something makes all of the white space fail there. */
  lemma WhiteSpaceFails(tp: TokenParser, s: State)
    requires var r := tp.WhiteSpaceItem()(s);
             r.Failed() && r.state.pos != s.pos
    ensures var r := tp.WhiteSpaceItem()(s);
            tp.WhiteSpace()(s) == Reply(None, r.state, r.error)
  {
  }

  /** A run of space characters is skipped one by one. */
  lemma {:induction false} WhiteSpaceSpaces(tp: TokenParser, sp: string, rest: string, s: State)
    requires forall i :: 0 <= i < |sp| ==> tp.cls.isSpace(sp[i])
    requires s.input == sp + rest
    ensures tp.WhiteSpace()(s) == tp.WhiteSpace()(State(rest, UpdateChars(s.pos, sp), s.user))
    decreases |sp|
  {
    if sp == [] {
      assert s.input == rest;
    } else {
      assert s.input[0] == sp[0];
      WhiteSpaceItemSpace(tp, s);
      var t := State(sp[1..] + rest, Update(s.pos, [sp[0]]), s.user);
      assert s.input[1..] == t.input;
      WhiteSpaceStep(tp, s);
      WhiteSpaceSpaces(tp, sp[1..], rest, t);
    }
  }

  /** Without comments, white space is exactly the leading run of space characters. */
  lemma WhiteSpaceSpacesOnly(tp: TokenParser, s: State)
    requires tp.SpacesOnly()
    ensures var run := TakeWhile(tp.cls.isSpace, s.input);
            tp.WhiteSpace()(s) == Reply(None, State(DropWhile(tp.cls.isSpace, s.input), UpdateChars(s.pos, run), s.user), None)
  {
    var f := tp.cls.isSpace;
    var p := Space(tp.cls);
    AcceptsClassReadsFirst(p, f, "space");
    var stop := State(DropWhile(f, s.input), UpdateChars(s.pos, TakeWhile(f, s.input)), s.user);
    assert AcceptsClass(p, f, "space", stop);
    ManyReadsRun<char>(Discard, p, f, None, s);
    AccumAllDiscards<char>(None, TakeWhile(f, s.input));
  }

  // ------------------------------------------------- runs of white pieces

  /**
   * One stretch of white space as the pieces of `white_space` read it: a run
   * of space characters, a line comment (its marker and the text after it up
   * to a newline) or a block comment nested d deep around a body.
   */
  datatype WhitePiece = Spaces(sp: string) | LineCmt(text: string) | BlockCmt(d: nat, body: string)

  /** The characters a piece is made of. */
  function PieceText(tp: TokenParser, w: WhitePiece): string {
    match w
    case Spaces(sp) => sp
    case LineCmt(text) => tp.lang.commentLine + text
    case BlockCmt(d, body) => Times(tp.lang.commentStart, d) + (body + Times(tp.lang.commentEnd, d))
  }

  /** Where the position is after a piece; a comment marker moves it as one token. */
  function PieceEnd(tp: TokenParser, w: WhitePiece, pos: SourcePos): SourcePos {
    match w
    case Spaces(sp) => UpdateChars(pos, sp)
    case LineCmt(text) => UpdateChars(Update(pos, tp.lang.commentLine), text)
    case BlockCmt(d, body) =>
      UpdateTimes(UpdateChars(UpdateTimes(pos, tp.lang.commentStart, d), body), tp.lang.commentEnd, d)
  }

  /**
   * The piece is read whole when `after` follows it: spaces are space
   * characters; a line comment's text holds no newline and is followed by one
   * or by the end; a block comment (where comments nest and the markers
   * differ in their first character) has no marker beginning in its body.
   * No comment marker may start with a space character, and a block comment
   * may not start where a line comment does, since those alternatives come
   * first.
   */
  ghost predicate PieceFits(tp: TokenParser, w: WhitePiece, after: string) {
    match w
    case Spaces(sp) => forall i :: 0 <= i < |sp| ==> tp.cls.isSpace(sp[i])
    case LineCmt(text) =>
      tp.HasLineComments() && !tp.cls.isSpace(tp.lang.commentLine[0]) &&
      (forall i :: 0 <= i < |text| ==> NotNewline()(text[i])) &&
      (after == [] || !NotNewline()(after[0]))
    case BlockCmt(d, body) =>
      var cs, ce := tp.lang.commentStart, tp.lang.commentEnd;
      tp.HasBlockComments() && tp.lang.nestedComments && d > 0 && cs[0] != ce[0] && !tp.cls.isSpace(cs[0]) &&
      Unmarked(tp, body + (Times(ce, d) + after), |body|) &&
      !(tp.HasLineComments() && StartsWith(PieceText(tp, w) + after, tp.lang.commentLine))
  }

  function PiecesText(tp: TokenParser, ws: seq<WhitePiece>): string
    decreases |ws|
  {
    if ws == [] then [] else PieceText(tp, ws[0]) + PiecesText(tp, ws[1..])
  }

  function PiecesEnd(tp: TokenParser, ws: seq<WhitePiece>, pos: SourcePos): SourcePos
    decreases |ws|
  {
    if ws == [] then pos else PiecesEnd(tp, ws[1..], PieceEnd(tp, ws[0], pos))
  }

  /** Every piece fits before the pieces after it and then `rest`. */
  ghost predicate PiecesFit(tp: TokenParser, ws: seq<WhitePiece>, rest: string)
    decreases |ws|
  {
    ws == [] || (PieceFits(tp, ws[0], PiecesText(tp, ws[1..]) + rest) && PiecesFit(tp, ws[1..], rest))
  }

  lemma {:induction false} UpdateTimesAdvances(pos: SourcePos, text: string, d: nat)
    requires d > 0
    ensures Precedes(pos, UpdateTimes(pos, text, d))
    decreases d
  {
    if d > 1 {
      UpdateTimesAdvances(Update(pos, text), text, d - 1);
      PrecedesTransitive(pos, Update(pos, text), UpdateTimes(Update(pos, text), text, d - 1));
    }
  }

  lemma UpdateCharsNotBefore(pos: SourcePos, text: string)
    ensures NotBefore(pos, UpdateChars(pos, text))
  {
    if text != [] {
      UpdateCharsAdvances(pos, text);
    }
  }

  /** A line comment that fits is one piece of white space, handing the rest on to where it ends. */
  lemma WhiteSpaceLineComment(tp: TokenParser, text: string, after: string, s: State)
    requires PieceFits(tp, LineCmt(text), after) && s.input == tp.lang.commentLine + (text + after)
    ensures tp.WhiteSpace()(s) == tp.WhiteSpace()(State(after, PieceEnd(tp, LineCmt(text), s.pos), s.user))
  {
    var cl := tp.lang.commentLine;
    assert StartsWith(s.input, cl) by {
      assert s.input[..|cl|] == cl;
    }
    WhiteSpaceItemLine(tp, s);
    LineCommentReads(tp, text, after, s);
    var mid := Update(s.pos, cl);
    assert Precedes(s.pos, UpdateChars(mid, text)) by {
      UpdateCharsNotBefore(mid, text);
      if mid != UpdateChars(mid, text) {
        PrecedesTransitive(s.pos, mid, UpdateChars(mid, text));
      }
    }
    WhiteSpaceStep(tp, s);
  }

  /** A nested block comment that fits is one piece of white space, handing the rest on to where it ends. */
  lemma WhiteSpaceBlockComment(tp: TokenParser, d: nat, body: string, after: string, s: State)
    requires PieceFits(tp, BlockCmt(d, body), after) && s.input == PieceText(tp, BlockCmt(d, body)) + after
    ensures tp.WhiteSpace()(s) == tp.WhiteSpace()(State(after, PieceEnd(tp, BlockCmt(d, body), s.pos), s.user))
  {
    var cs, ce := tp.lang.commentStart, tp.lang.commentEnd;
    assert s.input == Times(cs, d) + (body + (Times(ce, d) + after));
    assert StartsWith(s.input, cs) by {
      TimesFirst(cs, d, d - 1, body + (Times(ce, d) + after));
      assert s.input[..|cs|] == cs;
    }
    WhiteSpaceItemBlock(tp, s);
    BlockCommentNested(tp, d, body, after, s);
    var p1 := UpdateTimes(s.pos, cs, d);
    var p2 := UpdateChars(p1, body);
    var p3 := UpdateTimes(p2, ce, d);
    assert Precedes(s.pos, p3) by {
      UpdateTimesAdvances(s.pos, cs, d);
      UpdateCharsNotBefore(p1, body);
      UpdateTimesAdvances(p2, ce, d);
      if p1 != p2 {
        PrecedesTransitive(s.pos, p1, p2);
      }
      PrecedesTransitive(s.pos, p2, p3);
    }
    assert |after| < |s.input| by {
      assert |Times(cs, d)| > 0 by {
        TimesFirst(cs, d, d - 1, []);
      }
    }
    WhiteSpaceStep(tp, s);
  }

  /** A piece that fits hands the rest of the white space on to where it ends. */
  lemma WhiteSpacePiece(tp: TokenParser, w: WhitePiece, after: string, s: State)
    requires PieceFits(tp, w, after) && s.input == PieceText(tp, w) + after
    ensures tp.WhiteSpace()(s) == tp.WhiteSpace()(State(after, PieceEnd(tp, w, s.pos), s.user))
  {
    match w
    case Spaces(sp) => WhiteSpaceSpaces(tp, sp, after, s);
    case LineCmt(text) =>
      assert s.input == tp.lang.commentLine + (text + after);
      WhiteSpaceLineComment(tp, text, after, s);
    case BlockCmt(d, body) => WhiteSpaceBlockComment(tp, d, body, after, s);
  }

  /**
   * `white_space` reads a sequence of pieces that fit, before a rest where no
   * white space begins, and stops right after the last of them.
   */
  lemma {:induction false} WhiteSpaceSkips(tp: TokenParser, ws: seq<WhitePiece>, rest: string, s: State)
    requires PiecesFit(tp, ws, rest) && !WhiteStart(tp, rest)
    requires s.input == PiecesText(tp, ws) + rest
    ensures tp.WhiteSpace()(s) == Reply(None, State(rest, PiecesEnd(tp, ws, s.pos), s.user), None)
    decreases |ws|
  {
    if ws == [] {
      assert s.input == rest;
      WhiteSpaceStops(tp, s);
    } else {
      var after := PiecesText(tp, ws[1..]) + rest;
      assert s.input == PieceText(tp, ws[0]) + after;
      WhiteSpacePiece(tp, ws[0], after, s);
      WhiteSpaceSkips(tp, ws[1..], rest, State(after, PieceEnd(tp, ws[0], s.pos), s.user));
    }
  }

  /** `white_space` reads all of an input made of pieces that fit. */
  lemma WhiteSpaceSkipsAll(tp: TokenParser, ws: seq<WhitePiece>, s: State)
    requires PiecesFit(tp, ws, []) && s.input == PiecesText(tp, ws)
    ensures tp.WhiteSpace()(s) == Reply(None, State([], PiecesEnd(tp, ws, s.pos), s.user), None)
  {
    assert s.input == PiecesText(tp, ws) + [];
    WhiteSpaceSkips(tp, ws, [], s);
  }

  /**
   * `lexeme(p)`: p's value, with the white space after p's token (spaces,
   * line comments, block comments) skipped up to where no more begins.
   */
  lemma LexemeSkips<T>(tp: TokenParser, p: Parser<T>, ws: seq<WhitePiece>, rest: string, s: State)
    requires !p(s).Failed() && p(s).state.input == PiecesText(tp, ws) + rest
    requires PiecesFit(tp, ws, rest) && !WhiteStart(tp, rest)
    ensures tp.Lexeme(p)(s) == Reply(p(s).value, State(rest, PiecesEnd(tp, ws, p(s).state.pos), p(s).state.user), None)
  {
    WhiteSpaceSkips(tp, ws, rest, p(s).state);
  }

  /**
   * The python-style comments: "#" to the end of the line and no block
   * comments; the classifier takes ' ' and '\n' for space and '#' not, as
   * Python's `str.isspace` does.
   */
  predicate PythonComments(tp: TokenParser) {
    tp.lang.commentLine == "#" && tp.lang.commentStart == "" &&
    tp.cls.isSpace(' ') && tp.cls.isSpace('\n') && !tp.cls.isSpace('#')
  }

  /** "   # comment\n  " as pieces: three spaces, a line comment, a newline and two spaces. */
  function CommentPieces(): seq<WhitePiece> {
    [Spaces("   "), LineCmt(" comment"), Spaces("\n  ")]
  }

  /** The text of three pieces in a row. */
  lemma PiecesTextOfThree(tp: TokenParser, a: WhitePiece, b: WhitePiece, c: WhitePiece)
    ensures PiecesText(tp, [a, b, c]) == PieceText(tp, a) + (PieceText(tp, b) + PieceText(tp, c))
  {
    var ws := [a, b, c];
    assert ws[1..] == [b, c] && ws[1..][1..] == [c] && ws[1..][1..][1..] == [];
    assert PiecesText(tp, [c]) == PieceText(tp, c) + [];
  }

  /** The end of three pieces in a row. */
  lemma PiecesEndOfThree(tp: TokenParser, a: WhitePiece, b: WhitePiece, c: WhitePiece, pos: SourcePos)
    ensures PiecesEnd(tp, [a, b, c], pos) == PieceEnd(tp, c, PieceEnd(tp, b, PieceEnd(tp, a, pos)))
  {
    var p1 := PieceEnd(tp, a, pos);
    var p2 := PieceEnd(tp, b, p1);
    assert PiecesEnd(tp, [c], p2) == PieceEnd(tp, c, p2) by {
      assert [c][1..] == [];
    }
    assert PiecesEnd(tp, [b, c], p1) == PiecesEnd(tp, [c], p2) by {
      assert [b, c][1..] == [c];
    }
    assert [a, b, c][1..] == [b, c];
  }

  /** Three pieces in a row fit when each fits before the ones after it. */
  lemma PiecesFitOfThree(tp: TokenParser, a: WhitePiece, b: WhitePiece, c: WhitePiece, rest: string)
    requires PieceFits(tp, c, rest)
    requires PieceFits(tp, b, PieceText(tp, c) + rest)
    requires PieceFits(tp, a, PieceText(tp, b) + (PieceText(tp, c) + rest))
    ensures PiecesFit(tp, [a, b, c], rest)
  {
    assert PiecesFit(tp, [c], rest) by {
      assert [c][1..] == [];
      assert PiecesText(tp, []) + rest == rest;
    }
    assert PiecesFit(tp, [b, c], rest) by {
      assert [b, c][1..] == [c];
      assert PiecesText(tp, [c]) == PieceText(tp, c) + PiecesText(tp, []);
      assert PiecesText(tp, [c]) + rest == PieceText(tp, c) + rest;
    }
    assert [a, b, c][1..] == [b, c];
    assert PiecesText(tp, [b, c]) + rest == PieceText(tp, b) + (PieceText(tp, c) + rest) by {
      PiecesTextOfThree(tp, a, b, c);
      assert [b, c][1..] == [c] && [c][1..] == [];
      assert PiecesText(tp, [c]) == PieceText(tp, c) + PiecesText(tp, []);
    }
  }

  lemma CommentPiecesText(tp: TokenParser)
    requires tp.lang.commentLine == "#"
    ensures PiecesText(tp, CommentPieces()) == "   # comment\n  "
  {
    PiecesTextOfThree(tp, Spaces("   "), LineCmt(" comment"), Spaces("\n  "));
  }

  lemma CommentPiecesFit(tp: TokenParser)
    requires PythonComments(tp)
    ensures PiecesFit(tp, CommentPieces(), [])
  {
    var a, b, c := Spaces("   "), LineCmt(" comment"), Spaces("\n  ");
    assert PieceFits(tp, c, []);
    assert PieceFits(tp, b, "\n  ");
    assert PieceFits(tp, a, "# comment\n  ");
    assert PieceText(tp, c) + [] == "\n  " && PieceText(tp, b) + (PieceText(tp, c) + []) == "# comment\n  ";
    PiecesFitOfThree(tp, a, b, c, []);
  }

  lemma CommentPiecesEnd(tp: TokenParser, pos: SourcePos)
    requires tp.lang.commentLine == "#"
    ensures PiecesEnd(tp, CommentPieces(), pos) == SourcePos(pos.line + 1, 3, pos.name)
  {
    PiecesEndOfThree(tp, Spaces("   "), LineCmt(" comment"), Spaces("\n  "), pos);
    var p1 := SourcePos(pos.line, pos.column + 3, pos.name);
    ThreeSpacesPos(pos);
    CommentTextPos(Update(p1, "#"));
    NewlineTwoSpacesPos(SourcePos(pos.line, pos.column + 12, pos.name));
  }

  /**
   * With python-style comments, white space on "   # comment\n  " reads all of
   * it, with no error, and stops at column 3 of the next line.
   */
  lemma PythonCommentExample(tp: TokenParser, s: State)
    requires PythonComments(tp) && s.input == "   # comment\n  "
    ensures tp.WhiteSpace()(s) == Reply(None, State([], SourcePos(s.pos.line + 1, 3, s.pos.name), s.user), None)
  {
    CommentPiecesText(tp);
    CommentPiecesFit(tp);
    CommentPiecesEnd(tp, s.pos);
    WhiteSpaceSkipsAll(tp, CommentPieces(), s);
  }

  /** `lexeme(p)` where p succeeds just before something that is not white space: p's reply, unchanged. */
  lemma LexemeAtToken<T>(tp: TokenParser, p: Parser<T>, s: State)
    requires !p(s).Failed() && !WhiteStart(tp, p(s).state.input)
    ensures tp.Lexeme(p)(s) == p(s)
  {
    WhiteSpaceStops(tp, p(s).state);
  }
}

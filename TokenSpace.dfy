/**
 * Properties of block comments, the one piece of white space with a loop of
 * its own: what the loop reads, how the nesting count moves, and where an
 * unclosed comment fails.
 */
module TokenSpace {
  import opened Parsec
  import opened Prim
  import opened Chars
  import opened Combinators
  import opened Token

  /** `rest` is what remains of `text` once a prefix of it has been read. */
  predicate SuffixOf(rest: string, text: string)
    decreases |text|
  {
    rest == text || (text != [] && SuffixOf(rest, text[1..]))
  }

  /** Dropping any prefix leaves a suffix. */
  lemma {:induction false} DropIsSuffix(text: string, k: nat)
    requires k <= |text|
    ensures SuffixOf(text[k..], text)
    decreases k
  {
    if k > 0 {
      DropIsSuffix(text[1..], k - 1);
      assert text[1..][k - 1..] == text[k..];
    }
  }

  /** Position b is a, or comes after it. */
  predicate NotBefore(a: SourcePos, b: SourcePos) {
    a == b || Precedes(a, b)
  }

  lemma {:induction false} SuffixTransitive(a: string, b: string, c: string)
    requires SuffixOf(a, b) && SuffixOf(b, c)
    ensures SuffixOf(a, c)
    decreases |c|
  {
    if b != c {
      SuffixTransitive(a, b, c[1..]);
    }
  }

  // ------------------------------------------------------ the block scanner

  /**
   * Away from a marker character the loop skips the whole run of
   * non-marker characters in one go, with value None.
   */
  lemma ScanNonMarkersReads(tp: TokenParser, cur: State)
    requires tp.HasBlockComments() && |cur.input| > 0 && cur.input[0] !in tp.Markers()
    ensures var run := TakeWhile(NotInSet(tp.Markers()), cur.input);
            run != [] &&
            tp.ScanNonMarkers()(cur)
            == Reply(None, State(DropWhile(NotInSet(tp.Markers()), cur.input), UpdateChars(cur.pos, run), cur.user), None)
  {
    var m := tp.Markers();
    var f := NotInSet(m);
    var p := NoneOf(m);
    var c := cur.input[0];
    assert AcceptsClass(p, f, "none of " + m, cur);
    var t := State(cur.input[1..], Update(cur.pos, [c]), cur.user);
    assert p(cur) == Reply(Some(c), t, None);
    ManyClass(p, f, "none of " + m, t);
    assert TakeWhile(f, cur.input) == [c] + TakeWhile(f, t.input) && DropWhile(f, cur.input) == DropWhile(f, t.input) by {
      TakeWhileCons(f, cur.input);
    }
    UpdateCharsCons(cur.pos, c, TakeWhile(f, t.input));
  }

  /** On a marker character the run of non-markers fails and the single marker character is read instead. */
  lemma ScanOneMarkerReads(tp: TokenParser, cur: State)
    requires tp.HasBlockComments() && |cur.input| > 0 && cur.input[0] in tp.Markers()
    ensures tp.ScanNonMarkers()(cur).Failed()
    ensures tp.ScanOneMarker()(cur)
            == Reply(Some(cur.input[0]), State(cur.input[1..], Update(cur.pos, [cur.input[0]]), cur.user), None)
  {
    var m := tp.Markers();
    assert AcceptsClass(NoneOf(m), NotInSet(m), "none of " + m, cur);
    assert AcceptsClass(OneOf(m), InSet(m), "one of " + m, cur);
  }

  /**
   * What every run of the block-comment loop from state cur gives: value
   * None, an input that is what is left of cur's after a prefix, a position
   * not before cur's, the user state untouched, and as its only failure
   * "end of input in comment", raised where the input ran out.
   */
  predicate LoopOutcome(r: Reply<char>, cur: State) {
    r.value.None? && r.state.user == cur.user && SuffixOf(r.state.input, cur.input) &&
    NotBefore(cur.pos, r.state.pos) &&
    (r.Failed() ==> r.state.input == [] && r.error == Some(ParseError(r.state.pos, EndOfInputInComment)))
  }

  /** Every success reads forward: a suffix of the input is left, the position does not go back, the user state is kept. */
  ghost predicate Forward<T>(p: Parser<T>) {
    forall s: State :: !p(s).Failed() ==>
      p(s).state.user == s.user && SuffixOf(p(s).state.input, s.input) && NotBefore(s.pos, p(s).state.pos)
  }

  /**
   * A scanner whose parsers read forward, and where a non-empty input that
   * the run of non-markers refuses is taken by the single-marker step.
   */
  ghost predicate Sound(sc: CommentScanner) {
    Shortening(sc) && Forward(sc.startP) && Forward(sc.endP) && Forward(sc.skipRun) && Forward(sc.skipMarker) &&
    forall s: State :: |s.input| > 0 && sc.skipRun(s).Failed() ==> !sc.skipMarker(s).Failed()
  }

  /** An outcome from a state reached by reading forward is an outcome from the earlier state too. */
  lemma LoopOutcomeBack(r: Reply<char>, mid: State, cur: State)
    requires LoopOutcome(r, mid)
    requires mid.user == cur.user && SuffixOf(mid.input, cur.input) && NotBefore(cur.pos, mid.pos)
    ensures LoopOutcome(r, cur)
  {
    SuffixTransitive(r.state.input, mid.input, cur.input);
  }

  /**
   * The loop of `parse_block_comment` has a LoopOutcome from every state.
   * In particular the error with no message at the bottom of the loop is
   * never raised by a sound scanner.
   */
  lemma {:induction false} CommentLoopOutcome(sc: CommentScanner, n: nat, cur: State)
    requires Sound(sc)
    ensures LoopOutcome(CommentLoop(sc, n, cur), cur)
    decreases |cur.input|
  {
    if n == 0 {
      return;
    }
    var r := CommentLoop(sc, n, cur);
    var t: State;
    if !sc.endP(cur).Failed() {
      t := sc.endP(cur).state;
      CommentLoopOutcome(sc, n - 1, t);
    } else if sc.nested && !sc.startP(cur).Failed() {
      t := sc.startP(cur).state;
      CommentLoopOutcome(sc, n + 1, t);
    } else if |cur.input| == 0 {
      return;
    } else if !sc.skipRun(cur).Failed() {
      t := sc.skipRun(cur).state;
      CommentLoopOutcome(sc, n, t);
    } else {
      t := sc.skipMarker(cur).state;
      CommentLoopOutcome(sc, n, t);
    }
    LoopOutcomeBack(r, t, cur);
  }


  // ------------------------------------------- the scanner a TokenParser builds

  /** `try_parse(string(marker))` reads forward. */
  lemma MarkerForward(marker: string)
    ensures Forward(TryParse(String(marker)))
  {
    forall s: State | !TryParse(String(marker))(s).Failed()
      ensures var t := TryParse(String(marker))(s).state;
              t.user == s.user && SuffixOf(t.input, s.input) && NotBefore(s.pos, t.pos)
    {
      DropIsSuffix(s.input, |marker|);
    }
  }

  /** The run of non-markers succeeds exactly on a non-marker first character. */
  lemma ScanNonMarkersFails(tp: TokenParser, cur: State)
    requires tp.HasBlockComments()
    requires |cur.input| == 0 || cur.input[0] in tp.Markers()
    ensures tp.ScanNonMarkers()(cur).Failed()
  {
    var m := tp.Markers();
    assert AcceptsClass(NoneOf(m), NotInSet(m), "none of " + m, cur);
  }

  /** The scanner of every TokenParser with block comments is sound. */
  lemma ScannerSound(tp: TokenParser)
    requires tp.HasBlockComments()
    ensures Sound(tp.Scanner())
  {
    var sc := tp.Scanner();
    var m := tp.Markers();
    MarkerForward(tp.lang.commentStart);
    MarkerForward(tp.lang.commentEnd);
    forall s: State | !sc.skipRun(s).Failed()
      ensures sc.skipRun(s).state.user == s.user && SuffixOf(sc.skipRun(s).state.input, s.input)
              && NotBefore(s.pos, sc.skipRun(s).state.pos)
    {
      if |s.input| == 0 || s.input[0] in m {
        ScanNonMarkersFails(tp, s);
      } else {
        ScanNonMarkersReads(tp, s);
        var rest := DropWhile(NotInSet(m), s.input);
        DropIsSuffix(s.input, |s.input| - |rest|);
        UpdateCharsAdvances(s.pos, TakeWhile(NotInSet(m), s.input));
      }
    }
    forall s: State | !sc.skipMarker(s).Failed()
      ensures sc.skipMarker(s).state.user == s.user && SuffixOf(sc.skipMarker(s).state.input, s.input)
              && NotBefore(s.pos, sc.skipMarker(s).state.pos)
    {
      assert AcceptsClass(OneOf(m), InSet(m), "one of " + m, s);
      DropIsSuffix(s.input, 1);
    }
    forall s: State | |s.input| > 0 && sc.skipRun(s).Failed()
      ensures !sc.skipMarker(s).Failed()
    {
      if s.input[0] in m {
        ScanOneMarkerReads(tp, s);
      } else {
        ScanNonMarkersReads(tp, s);
      }
    }
  }

  /**
   * `parse_block_comment`: without the opening marker it fails where it
   * stands with "expecting '<marker>'"; after it, it returns None, leaves a
   * suffix of what followed the marker, and fails only with "end of input
   * in comment", where the input ran out.
   */
  lemma BlockCommentOutcome(tp: TokenParser, s: State)
    requires tp.HasBlockComments()
    ensures var cs := tp.lang.commentStart;
            var r := tp.BlockComment()(s);
            (!StartsWith(s.input, cs) ==> r == Reply(None, s, Some(ParseError(s.pos, Expecting(ShowQuoted(cs)))))) &&
            (StartsWith(s.input, cs) ==> LoopOutcome(r, State(s.input[|cs|..], Update(s.pos, cs), s.user)))
  {
    var cs := tp.lang.commentStart;
    ScannerSound(tp);
    if StartsWith(s.input, cs) {
      CommentLoopOutcome(tp.Scanner(), 1, State(s.input[|cs|..], Update(s.pos, cs), s.user));
    }
  }

  // ------------------------------------------------ one step of the loop

  lemma CommentLoopCloseStep(sc: CommentScanner, m: nat, cur: State)
    requires Shortening(sc) && !sc.endP(cur).Failed()
    ensures CommentLoop(sc, m + 1, cur) == CommentLoop(sc, m, sc.endP(cur).state)
  {
  }

  lemma CommentLoopOpenStep(sc: CommentScanner, n: nat, cur: State)
    requires Shortening(sc) && n > 0 && sc.endP(cur).Failed() && sc.nested && !sc.startP(cur).Failed()
    ensures CommentLoop(sc, n, cur) == CommentLoop(sc, n + 1, sc.startP(cur).state)
  {
  }

  lemma CommentLoopSkipStep(sc: CommentScanner, n: nat, cur: State)
    requires Shortening(sc) && n > 0 && sc.endP(cur).Failed() && !(sc.nested && !sc.startP(cur).Failed())
    requires |cur.input| > 0
    ensures !sc.skipRun(cur).Failed() ==> CommentLoop(sc, n, cur) == CommentLoop(sc, n, sc.skipRun(cur).state)
    ensures sc.skipRun(cur).Failed() && !sc.skipMarker(cur).Failed() ==>
              CommentLoop(sc, n, cur) == CommentLoop(sc, n, sc.skipMarker(cur).state)
  {
  }

  // ------------------------------------------------ text, openings, closings

  /** Reading a + b moves the position as reading a and then b does. */
  lemma {:induction false} UpdateCharsAppend(pos: SourcePos, a: string, b: string)
    ensures UpdateChars(pos, a + b) == UpdateChars(UpdateChars(pos, a), b)
    decreases |a|
  {
    if a == [] {
      assert a + b == b;
    } else {
      assert (a + b)[1..] == a[1..] + b;
      UpdateCharsAppend(Update(pos, [a[0]]), a[1..], b);
    }
  }

  /** The run of class f stops at the first character outside f. */
  lemma TakeWhileStops(f: char -> bool, text: string, j: nat)
    requires j < |text| && !f(text[j])
    ensures |TakeWhile(f, text)| <= j
  {
  }

  /** No closing marker (nor, where comments nest, an opening one) begins in the first k characters of the input. */
  predicate Unmarked(tp: TokenParser, input: string, k: nat)
    requires k <= |input|
  {
    forall i :: 0 <= i < k ==>
      !StartsWith(input[i..], tp.lang.commentEnd) &&
      (tp.lang.nestedComments ==> !StartsWith(input[i..], tp.lang.commentStart))
  }

  /** Reading the first k characters of text and then the others moves the position as reading text does. */
  lemma UpdateCharsSplit(pos: SourcePos, text: string, k: nat)
    requires k <= |text|
    ensures UpdateChars(UpdateChars(pos, text[..k]), text[k..]) == UpdateChars(pos, text)
  {
    UpdateCharsAppend(pos, text[..k], text[k..]);
    assert text[..k] + text[k..] == text;
  }

  /** Splitting text + rest after k <= |text| characters. */
  lemma SplitAppend(text: string, rest: string, k: nat)
    requires k <= |text|
    ensures (text + rest)[..k] == text[..k] && (text + rest)[k..] == text[k..] + rest
    ensures text[..k] + text[k..] == text
    ensures forall i :: 0 <= i <= |text| - k ==> (text + rest)[k..][i..] == (text + rest)[i + k..]
  {
  }

  /** One step over unmarked text: a run of ordinary characters, or a single marker character. */
  lemma SkipTextRun(tp: TokenParser, n: nat, text: string, rest: string, cur: State) returns (k: nat)
    requires tp.HasBlockComments() && n > 0 && text != [] && text[0] !in tp.Markers()
    requires cur.input == text + rest && Unmarked(tp, cur.input, |text|)
    requires rest == [] || rest[0] in tp.Markers()
    ensures 0 < k <= |text|
    ensures CommentLoop(tp.Scanner(), n, cur)
            == CommentLoop(tp.Scanner(), n, State(text[k..] + rest, UpdateChars(cur.pos, text[..k]), cur.user))
  {
    var sc := tp.Scanner();
    assert cur.input[0..] == cur.input;
    CommentLoopSkipStep(sc, n, cur);
    var m := tp.Markers();
    ScanNonMarkersReads(tp, cur);
    var run := TakeWhile(NotInSet(m), cur.input);
    if rest != [] {
      TakeWhileStops(NotInSet(m), cur.input, |text|);
    }
    k := |run|;
    SplitAppend(text, rest, k);
    SplitAppend(run, DropWhile(NotInSet(m), cur.input), k);
  }

  lemma SkipTextMarker(tp: TokenParser, n: nat, text: string, rest: string, cur: State)
    requires tp.HasBlockComments() && n > 0 && text != [] && text[0] in tp.Markers()
    requires cur.input == text + rest && Unmarked(tp, cur.input, |text|)
    ensures CommentLoop(tp.Scanner(), n, cur)
            == CommentLoop(tp.Scanner(), n, State(text[1..] + rest, UpdateChars(cur.pos, text[..1]), cur.user))
  {
    var sc := tp.Scanner();
    assert cur.input[0..] == cur.input;
    CommentLoopSkipStep(sc, n, cur);
    ScanOneMarkerReads(tp, cur);
    SplitAppend(text, rest, 1);
    UpdateCharsAppend(cur.pos, [text[0]], []);
  }

  /**
   * Inside a comment, text in which no marker begins is skipped at the same
   * depth, up to a marker character or the end of the input.
   */
  lemma {:induction false} CommentLoopSkipsText(tp: TokenParser, n: nat, text: string, rest: string, cur: State)
    requires tp.HasBlockComments() && n > 0
    requires cur.input == text + rest && Unmarked(tp, cur.input, |text|)
    requires rest == [] || rest[0] in tp.Markers()
    ensures CommentLoop(tp.Scanner(), n, cur)
            == CommentLoop(tp.Scanner(), n, State(rest, UpdateChars(cur.pos, text), cur.user))
    decreases |text|
  {
    if text == [] {
      assert cur.input == rest;
      return;
    }
    var k: nat := 1;
    if text[0] !in tp.Markers() {
      k := SkipTextRun(tp, n, text, rest, cur);
    } else {
      SkipTextMarker(tp, n, text, rest, cur);
    }
    var t := State(text[k..] + rest, UpdateChars(cur.pos, text[..k]), cur.user);
    assert Unmarked(tp, t.input, |text| - k) by {
      SplitAppend(text, rest, k);
    }
    CommentLoopSkipsText(tp, n, text[k..], rest, t);
    assert UpdateChars(t.pos, text[k..]) == UpdateChars(cur.pos, text) by {
      UpdateCharsSplit(cur.pos, text, k);
    }
  }

  lemma CommentLoopRunsOut(sc: CommentScanner, n: nat, cur: State)
    requires Shortening(sc) && n > 0 && cur.input == []
    requires sc.endP(cur).Failed() && !(sc.nested && !sc.startP(cur).Failed())
    ensures CommentLoop(sc, n, cur) == Reply(None, cur, Some(ParseError(cur.pos, EndOfInputInComment)))
  {
  }

  /** d copies of text, one after another. */
  function Times(text: string, d: nat): string {
    if d == 0 then [] else text + Times(text, d - 1)
  }

  /** The position after reading d copies of text. */
  function UpdateTimes(pos: SourcePos, text: string, d: nat): SourcePos
    decreases d
  {
    if d == 0 then pos else UpdateTimes(Update(pos, text), text, d - 1)
  }

  /** d = e + 1 copies of text are one copy, then e more. */
  lemma TimesFirst(text: string, d: nat, e: nat, rest: string)
    requires d == e + 1
    ensures Times(text, d) + rest == text + (Times(text, e) + rest)
  {
    assert Times(text, d) == text + Times(text, e);
  }

  /** Reading d = e + 1 copies of text reads one copy, then e more. */
  lemma UpdateTimesFirst(pos: SourcePos, text: string, d: nat, e: nat)
    requires d == e + 1
    ensures UpdateTimes(pos, text, d) == UpdateTimes(Update(pos, text), text, e)
  {
  }

  /** m closing markers in a row end a comment nested m deep, right after the last of them. */
  lemma {:induction false} CommentLoopCloses(tp: TokenParser, m: nat, rest: string, cur: State)
    requires tp.HasBlockComments()
    requires cur.input == Times(tp.lang.commentEnd, m) + rest
    ensures CommentLoop(tp.Scanner(), m, cur)
            == Reply(None, State(rest, UpdateTimes(cur.pos, tp.lang.commentEnd, m), cur.user), None)
    decreases m
  {
    if m == 0 {
      assert cur.input == rest;
    } else {
      var ce := tp.lang.commentEnd;
      var m' := m - 1;
      var after := Times(ce, m') + rest;
      assert cur.input == ce + after;
      StringReadsLiteral(ce, after, cur);
      CommentLoopCloseStep(tp.Scanner(), m', cur);
      CommentLoopCloses(tp, m', rest, State(after, Update(cur.pos, ce), cur.user));
    }
  }

  /** On input that begins with cs, the scanner's opening step reads cs and its closing step fails. */
  ghost predicate OpensOn(sc: CommentScanner, cs: string) {
    forall t: State {:trigger StartsWith(t.input, cs)} :: StartsWith(t.input, cs) ==>
      sc.endP(t).Failed() &&
      sc.startP(t) == Reply(Some(cs), State(t.input[|cs|..], Update(t.pos, cs), t.user), None)
  }

  lemma {:induction false} CommentLoopOpensOn(sc: CommentScanner, cs: string, n: nat, d: nat, m: nat, rest: string, cur: State)
    requires Shortening(sc) && sc.nested && OpensOn(sc, cs) && n > 0 && m == n + d
    requires cur.input == Times(cs, d) + rest
    ensures CommentLoop(sc, n, cur) == CommentLoop(sc, m, State(rest, UpdateTimes(cur.pos, cs, d), cur.user))
    decreases d
  {
    if d == 0 {
      assert cur.input == rest;
    } else {
      var after := Times(cs, d - 1) + rest;
      var t := State(after, Update(cur.pos, cs), cur.user);
      assert CommentLoop(sc, n, cur) == CommentLoop(sc, n + 1, t) by {
        assert cur.input == cs + after;
        assert StartsWith(cur.input, cs) && cur.input[|cs|..] == after;
        CommentLoopOpenStep(sc, n, cur);
      }
      assert UpdateTimes(cur.pos, cs, d) == UpdateTimes(t.pos, cs, d - 1);
      CommentLoopOpensOn(sc, cs, n + 1, d - 1, m, rest, t);
    }
  }

  /**
   * Where comments nest and the two markers differ in their first character,
   * d opening markers in a row deepen the comment by d.
   */
  lemma CommentLoopOpens(tp: TokenParser, n: nat, d: nat, m: nat, rest: string, cur: State)
    requires tp.HasBlockComments() && tp.lang.nestedComments && n > 0 && m == n + d
    requires tp.lang.commentStart[0] != tp.lang.commentEnd[0]
    requires cur.input == Times(tp.lang.commentStart, d) + rest
    ensures CommentLoop(tp.Scanner(), n, cur)
            == CommentLoop(tp.Scanner(), m, State(rest, UpdateTimes(cur.pos, tp.lang.commentStart, d), cur.user))
  {
    var cs := tp.lang.commentStart;
    forall t: State | StartsWith(t.input, cs)
      ensures !StartsWith(t.input, tp.lang.commentEnd)
    {
      assert t.input[0] == cs[0];
    }
    CommentLoopOpensOn(tp.Scanner(), cs, n, d, m, rest, cur);
  }

  /** Inside a comment at the end of the input, the loop fails with "end of input in comment". */
  lemma CommentLoopAtEnd(tp: TokenParser, n: nat, cur: State)
    requires tp.HasBlockComments() && n > 0 && cur.input == []
    ensures CommentLoop(tp.Scanner(), n, cur) == Reply(None, cur, Some(ParseError(cur.pos, EndOfInputInComment)))
  {
    assert !StartsWith(cur.input, tp.lang.commentEnd) && !StartsWith(cur.input, tp.lang.commentStart);
    CommentLoopRunsOut(tp.Scanner(), n, cur);
  }

  /** The block comment reads its opening marker and enters the loop one level deep. */
  lemma BlockCommentEnters(tp: TokenParser, rest: string, s: State)
    requires tp.HasBlockComments() && s.input == tp.lang.commentStart + rest
    ensures tp.BlockComment()(s)
            == CommentLoop(tp.Scanner(), 1, State(rest, Update(s.pos, tp.lang.commentStart), s.user))
  {
    StringReadsLiteral(tp.lang.commentStart, rest, s);
  }

  /** Inside a comment, input in which no marker begins runs out with "end of input in comment". */
  lemma CommentLoopUnclosed(tp: TokenParser, n: nat, cur: State)
    requires tp.HasBlockComments() && n > 0 && Unmarked(tp, cur.input, |cur.input|)
    ensures var e := UpdateChars(cur.pos, cur.input);
            CommentLoop(tp.Scanner(), n, cur) == Reply(None, State([], e, cur.user), Some(ParseError(e, EndOfInputInComment)))
  {
    assert cur.input + [] == cur.input;
    CommentLoopSkipsText(tp, n, cur.input, [], cur);
    CommentLoopAtEnd(tp, n, State([], UpdateChars(cur.pos, cur.input), cur.user));
  }

  /**
   * A comment in which, after its opening marker, no marker begins fails at
   * the end of the input with "end of input in comment".
   */
  lemma BlockCommentUnclosed(tp: TokenParser, body: string, s: State)
    requires tp.HasBlockComments() && s.input == tp.lang.commentStart + body
    requires Unmarked(tp, body, |body|)
    ensures var e := UpdateChars(Update(s.pos, tp.lang.commentStart), body);
            tp.BlockComment()(s) == Reply(None, State([], e, s.user), Some(ParseError(e, EndOfInputInComment)))
  {
    BlockCommentEnters(tp, body, s);
    CommentLoopUnclosed(tp, 1, State(body, Update(s.pos, tp.lang.commentStart), s.user));
  }

  lemma TimesStarts(text: string, d: nat, rest: string)
    requires d > 0 && text != []
    ensures |Times(text, d) + rest| > 0 && (Times(text, d) + rest)[0] == text[0]
  {
  }

  lemma TimesOne(text: string)
    ensures Times(text, 1) == text
  {
    assert text + [] == text;
  }

  /** The first character of each marker is a marker character. */
  lemma MarkerHeads(tp: TokenParser)
    requires tp.HasBlockComments()
    ensures tp.lang.commentStart[0] in tp.Markers() && tp.lang.commentEnd[0] in tp.Markers()
  {
    assert tp.Markers() == [tp.lang.commentStart[0], tp.lang.commentEnd[0]];
  }

  /** d levels deep, a body in which no marker begins and d closing markers close the comment. */
  lemma CommentLoopBodyCloses(tp: TokenParser, d: nat, body: string, rest: string, cur: State)
    requires tp.HasBlockComments() && d > 0
    requires cur.input == body + (Times(tp.lang.commentEnd, d) + rest)
    requires Unmarked(tp, cur.input, |body|)
    ensures CommentLoop(tp.Scanner(), d, cur)
            == Reply(None, State(rest, UpdateTimes(UpdateChars(cur.pos, body), tp.lang.commentEnd, d), cur.user), None)
  {
    var closing := Times(tp.lang.commentEnd, d) + rest;
    TimesStarts(tp.lang.commentEnd, d, rest);
    MarkerHeads(tp);
    CommentLoopSkipsText(tp, d, body, closing, cur);
    CommentLoopCloses(tp, d, rest, State(closing, UpdateChars(cur.pos, body), cur.user));
  }

  /**
   * One level deep, e further opening markers, a body in which no marker
   * begins and d = e + 1 closing markers close the comment right after the last of them.
   */
  lemma CommentLoopBalanced(tp: TokenParser, d: nat, e: nat, body: string, rest: string, cur: State)
    requires tp.HasBlockComments() && tp.lang.nestedComments && d == 1 + e
    requires tp.lang.commentStart[0] != tp.lang.commentEnd[0]
    requires cur.input == Times(tp.lang.commentStart, e) + (body + (Times(tp.lang.commentEnd, d) + rest))
    requires Unmarked(tp, body + (Times(tp.lang.commentEnd, d) + rest), |body|)
    ensures var cs, ce := tp.lang.commentStart, tp.lang.commentEnd;
            CommentLoop(tp.Scanner(), 1, cur)
            == Reply(None, State(rest, UpdateTimes(UpdateChars(UpdateTimes(cur.pos, cs, e), body), ce, d), cur.user), None)
  {
    var inner := body + (Times(tp.lang.commentEnd, d) + rest);
    var t := State(inner, UpdateTimes(cur.pos, tp.lang.commentStart, e), cur.user);
    assert CommentLoop(tp.Scanner(), 1, cur) == CommentLoop(tp.Scanner(), d, t) by {
      CommentLoopOpens(tp, 1, e, d, inner, cur);
    }
    assert CommentLoop(tp.Scanner(), d, t)
           == Reply(None, State(rest, UpdateTimes(UpdateChars(t.pos, body), tp.lang.commentEnd, d), cur.user), None) by {
      CommentLoopBodyCloses(tp, d, body, rest, t);
    }
  }

  /**
   * Where comments nest and the markers differ in their first character,
   * d opening markers, a body in which no marker begins and d closing markers
   * make one comment, which ends right after the last closing marker.
   */
  lemma BlockCommentNested(tp: TokenParser, d: nat, body: string, rest: string, s: State)
    requires tp.HasBlockComments() && tp.lang.nestedComments && d > 0
    requires tp.lang.commentStart[0] != tp.lang.commentEnd[0]
    requires s.input == Times(tp.lang.commentStart, d) + (body + (Times(tp.lang.commentEnd, d) + rest))
    requires Unmarked(tp, body + (Times(tp.lang.commentEnd, d) + rest), |body|)
    ensures var cs, ce := tp.lang.commentStart, tp.lang.commentEnd;
            tp.BlockComment()(s)
            == Reply(None, State(rest, UpdateTimes(UpdateChars(UpdateTimes(s.pos, cs, d), body), ce, d), s.user), None)
  {
    var cs, ce := tp.lang.commentStart, tp.lang.commentEnd;
    var e: nat := d - 1;
    var after := Times(cs, e) + (body + (Times(ce, d) + rest));
    var t := State(after, Update(s.pos, cs), s.user);
    assert tp.BlockComment()(s) == CommentLoop(tp.Scanner(), 1, t) by {
      TimesFirst(cs, d, e, body + (Times(ce, d) + rest));
      BlockCommentEnters(tp, after, s);
    }
    assert UpdateTimes(s.pos, cs, d) == UpdateTimes(t.pos, cs, e) by {
      UpdateTimesFirst(s.pos, cs, d, e);
    }
    CommentLoopBalanced(tp, d, e, body, rest, t);
  }

  // C-style comments that nest: "/*" repeated d times, a body without '/',
  // and "*/" repeated d times are skipped as one comment.
  lemma CStyleNestedComment(tp: TokenParser, d: nat, body: string, rest: string, s: State)
    requires tp.lang.commentStart == "/*" && tp.lang.commentEnd == "*/" && tp.lang.nestedComments
    requires d > 0 && '/' !in body
    requires s.input == Times("/*", d) + (body + (Times("*/", d) + rest))
    ensures tp.BlockComment()(s)
            == Reply(None, State(rest, UpdateTimes(UpdateChars(UpdateTimes(s.pos, "/*", d), body), "*/", d), s.user), None)
  {
    var text := body + (Times("*/", d) + rest);
    assert Times("*/", d)[0] == '*';
    forall i | 0 <= i < |body|
      ensures !StartsWith(text[i..], "*/") && !StartsWith(text[i..], "/*")
    {
      assert text[i] == body[i];
      assert text[i + 1] != '/' by {
        if i + 1 < |body| {
          assert text[i + 1] == body[i + 1];
        } else {
          assert text[i + 1] == Times("*/", d)[0];
        }
      }
      assert text[i..][..2] == [text[i], text[i + 1]];
    }
    BlockCommentNested(tp, d, body, rest, s);
  }

  /** With C-style markers, text without '/' and '*' has no marker beginning in it. */
  lemma UnmarkedCStyle(tp: TokenParser, text: string, rest: string)
    requires tp.lang.commentStart == "/*" && tp.lang.commentEnd == "*/"
    requires '/' !in text && '*' !in text
    ensures Unmarked(tp, text + rest, |text|)
  {
    forall i | 0 <= i < |text|
      ensures !StartsWith((text + rest)[i..], "*/") && !StartsWith((text + rest)[i..], "/*")
    {
      assert (text + rest)[i..][0] == text[i];
    }
  }

  /** Text in which neither '/' nor '*' occurs. */
  predicate Plain(text: string) {
    '/' !in text && '*' !in text
  }

  /** Inside a comment that nests, text in which no marker begins and an opening marker take the loop one level deeper. */
  lemma CommentLoopOpensAfter(tp: TokenParser, n: nat, n': nat, a: string, rest: string, cur: State) returns (pos: SourcePos)
    requires tp.HasBlockComments() && tp.lang.nestedComments && n > 0 && n' == n + 1
    requires tp.lang.commentStart[0] != tp.lang.commentEnd[0]
    requires cur.input == a + (tp.lang.commentStart + rest) && Unmarked(tp, cur.input, |a|)
    ensures pos == Update(UpdateChars(cur.pos, a), tp.lang.commentStart)
    ensures CommentLoop(tp.Scanner(), n, cur) == CommentLoop(tp.Scanner(), n', State(rest, pos, cur.user))
  {
    var cs := tp.lang.commentStart;
    var t := State(cs + rest, UpdateChars(cur.pos, a), cur.user);
    pos := Update(t.pos, cs);
    assert CommentLoop(tp.Scanner(), n, cur) == CommentLoop(tp.Scanner(), n, t) by {
      MarkerHeads(tp);
      CommentLoopSkipsText(tp, n, a, t.input, cur);
    }
    assert t.input == Times(cs, 1) + rest by {
      TimesOne(cs);
    }
    CommentLoopOpens(tp, n, 1, n', rest, t);
  }

  /** d = m + 1 levels deep, a closing marker takes the loop back to m levels. */
  lemma CommentLoopCloseMarker(tp: TokenParser, d: nat, m: nat, rest: string, t: State)
    requires tp.HasBlockComments() && d == m + 1 && t.input == tp.lang.commentEnd + rest
    ensures CommentLoop(tp.Scanner(), d, t)
            == CommentLoop(tp.Scanner(), m, State(rest, Update(t.pos, tp.lang.commentEnd), t.user))
  {
    StringReadsLiteral(tp.lang.commentEnd, rest, t);
    CommentLoopCloseStep(tp.Scanner(), m, t);
  }

  /** d = m + 1 levels deep, text in which no marker begins and a closing marker take the loop back to m levels. */
  lemma CommentLoopClosesAfter(tp: TokenParser, d: nat, m: nat, b: string, rest: string, cur: State) returns (pos: SourcePos)
    requires tp.HasBlockComments() && d == m + 1
    requires cur.input == b + (tp.lang.commentEnd + rest) && Unmarked(tp, cur.input, |b|)
    ensures pos == Update(UpdateChars(cur.pos, b), tp.lang.commentEnd)
    ensures CommentLoop(tp.Scanner(), d, cur) == CommentLoop(tp.Scanner(), m, State(rest, pos, cur.user))
  {
    var ce := tp.lang.commentEnd;
    var t := State(ce + rest, UpdateChars(cur.pos, b), cur.user);
    pos := Update(t.pos, ce);
    assert CommentLoop(tp.Scanner(), d, cur) == CommentLoop(tp.Scanner(), d, t) by {
      MarkerHeads(tp);
      CommentLoopSkipsText(tp, d, b, t.input, cur);
    }
    CommentLoopCloseMarker(tp, d, m, rest, t);
  }

  // One level deep, with C-style markers that nest, plain text a and "/*"
  // take the loop two levels deep.
  lemma CStyleOpensInner(tp: TokenParser, a: string, rest: string, cur: State) returns (pos: SourcePos)
    requires tp.lang.commentStart == "/*" && tp.lang.commentEnd == "*/" && tp.lang.nestedComments
    requires Plain(a) && cur.input == a + ("/*" + rest)
    ensures CommentLoop(tp.Scanner(), 1, cur) == CommentLoop(tp.Scanner(), 2, State(rest, pos, cur.user))
  {
    UnmarkedCStyle(tp, a, "/*" + rest);
    pos := CommentLoopOpensAfter(tp, 1, 2, a, rest, cur);
  }

  // Two levels deep, with C-style markers, plain text b and "*/" take the loop
  // back to one level.
  lemma CStyleClosesInner(tp: TokenParser, b: string, rest: string, cur: State) returns (pos: SourcePos)
    requires tp.lang.commentStart == "/*" && tp.lang.commentEnd == "*/"
    requires Plain(b) && cur.input == b + ("*/" + rest)
    ensures CommentLoop(tp.Scanner(), 2, cur) == CommentLoop(tp.Scanner(), 1, State(rest, pos, cur.user))
  {
    UnmarkedCStyle(tp, b, "*/" + rest);
    pos := CommentLoopClosesAfter(tp, 2, 1, b, rest, cur);
  }

  // Inside a comment one level deep, with C-style markers that nest, plain
  // text a, "/*", plain text b and "*/" leave the loop one level deep again.
  lemma CStyleInnerLoop(tp: TokenParser, a: string, b: string, rest: string, cur: State)
    returns (pos: SourcePos)
    requires tp.lang.commentStart == "/*" && tp.lang.commentEnd == "*/" && tp.lang.nestedComments
    requires Plain(a) && Plain(b)
    requires cur.input == a + ("/*" + (b + ("*/" + rest)))
    ensures CommentLoop(tp.Scanner(), 1, cur) == CommentLoop(tp.Scanner(), 1, State(rest, pos, cur.user))
  {
    var mid := CStyleOpensInner(tp, a, b + ("*/" + rest), cur);
    pos := CStyleClosesInner(tp, b, rest, State(b + ("*/" + rest), mid, cur.user));
  }

  // One level deep, with C-style markers, plain text runs out with "end of input in comment".
  lemma CStyleRunsOut(tp: TokenParser, c: string, cur: State)
    requires tp.lang.commentStart == "/*" && tp.lang.commentEnd == "*/"
    requires Plain(c) && cur.input == c
    ensures var r := CommentLoop(tp.Scanner(), 1, cur);
            r.value == None && r.state.input == [] && r.error == Some(ParseError(r.state.pos, EndOfInputInComment))
  {
    UnmarkedCStyle(tp, c, []);
    assert c + [] == c;
    CommentLoopUnclosed(tp, 1, cur);
  }

  // One level deep, plain text c and "*/" close the comment.
  lemma CStyleLastCloses(tp: TokenParser, c: string, rest: string, cur: State)
    requires tp.lang.commentStart == "/*" && tp.lang.commentEnd == "*/"
    requires Plain(c) && cur.input == c + ("*/" + rest)
    ensures var r := CommentLoop(tp.Scanner(), 1, cur);
            r.value == None && r.error == None && r.state.input == rest && r.state.user == cur.user
  {
    MarkerHeads(tp);
    var t := State("*/" + rest, UpdateChars(cur.pos, c), cur.user);
    UnmarkedCStyle(tp, c, t.input);
    CommentLoopSkipsText(tp, 1, c, t.input, cur);
    TimesOne("*/");
    CommentLoopCloses(tp, 1, rest, t);
  }

  // "/*" a "/*" b "*/" c "*/" is one comment, read up to what follows, when a, b and c are plain text.
  lemma CStyleNestedOnce(tp: TokenParser, a: string, b: string, c: string, rest: string, s: State)
    requires tp.lang.commentStart == "/*" && tp.lang.commentEnd == "*/" && tp.lang.nestedComments
    requires Plain(a) && Plain(b) && Plain(c)
    requires s.input == "/*" + (a + ("/*" + (b + ("*/" + (c + ("*/" + rest))))))
    ensures var r := tp.BlockComment()(s);
            r.value == None && r.error == None && r.state.input == rest && r.state.user == s.user
  {
    var t := State(a + ("/*" + (b + ("*/" + (c + ("*/" + rest))))), Update(s.pos, "/*"), s.user);
    BlockCommentEnters(tp, t.input, s);
    var pos := CStyleInnerLoop(tp, a, b, c + ("*/" + rest), t);
    CStyleLastCloses(tp, c, rest, State(c + ("*/" + rest), pos, s.user));
  }

  // "/*" a "/*" b "*/" c, with a, b and c plain text, fails at the end of the input with "end of input in comment".
  lemma CStyleNestedUnclosed(tp: TokenParser, a: string, b: string, c: string, s: State)
    requires tp.lang.commentStart == "/*" && tp.lang.commentEnd == "*/" && tp.lang.nestedComments
    requires Plain(a) && Plain(b) && Plain(c)
    requires s.input == "/*" + (a + ("/*" + (b + ("*/" + c))))
    ensures var r := tp.BlockComment()(s);
            r.value == None && r.state.input == [] && r.error == Some(ParseError(r.state.pos, EndOfInputInComment))
  {
    var t := State(a + ("/*" + (b + ("*/" + c))), Update(s.pos, "/*"), s.user);
    BlockCommentEnters(tp, t.input, s);
    var pos := CStyleInnerLoop(tp, a, b, c, t);
    CStyleRunsOut(tp, c, State(c, pos, s.user));
  }

  lemma JavaNestedSplits()
    ensures "/* outer /* inner */ outer */ 123"
            == "/*" + (" outer " + ("/*" + (" inner " + ("*/" + (" outer " + ("*/" + " 123"))))))
  {
  }

  /** The nested comment of the Java-style example is skipped up to " 123". */
  lemma JavaNestedCommentExample(tp: TokenParser, s: State)
    requires tp.lang.commentStart == "/*" && tp.lang.commentEnd == "*/" && tp.lang.nestedComments
    requires s.input == "/* outer /* inner */ outer */ 123"
    ensures var r := tp.BlockComment()(s);
            r.value == None && r.error == None && r.state.input == " 123" && r.state.user == s.user
  {
    JavaNestedSplits();
    assert Plain(" outer ") && Plain(" inner ");
    CStyleNestedOnce(tp, " outer ", " inner ", " outer ", " 123", s);
  }

  lemma JavaUnclosedSplits()
    ensures "/* outer /* inner */ oops" == "/*" + (" outer " + ("/*" + (" inner " + ("*/" + " oops"))))
  {
  }

  /** The comment of the unclosed Java-style example runs to the end of the input and fails there. */
  lemma JavaUnclosedCommentExample(tp: TokenParser, s: State)
    requires tp.lang.commentStart == "/*" && tp.lang.commentEnd == "*/" && tp.lang.nestedComments
    requires s.input == "/* outer /* inner */ oops"
    ensures var r := tp.BlockComment()(s);
            r.value == None && r.state.input == [] && r.error == Some(ParseError(r.state.pos, EndOfInputInComment))
  {
    JavaUnclosedSplits();
    assert Plain(" outer ") && Plain(" inner ") && Plain(" oops");
    CStyleNestedUnclosed(tp, " outer ", " inner ", " oops", s);
  }
}

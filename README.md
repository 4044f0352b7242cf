# PyParsec's parser-combinator core in Dafny

A model of the `pyparsec` package, a Parsec-style parser-combinator library.
A parser is a function from a state (remaining input, source position, user
value) to a triple (value, new state, error). The model covers six layers:

- `Parsec.dfy`: source positions and their update rule, states, errors, the
  reply triple, and the core algebra: bind, alternation that never backtracks
  once input was consumed, the three sequencing operators, and labels.
- `Prim.dfy`: pure, fail, try, look-ahead, single tokens, literal token
  sequences, and the `_many_accum` repetition loop behind `many` and
  `skip_many`. The loop is a `while` method proved equal to a recursive
  specification function.
- `Chars.dfy`: `satisfy` and every character parser built on it, plus
  `string` and `string_prime`.
- `Combinators.dfy`: choice, count (a loop method proved against its
  specification), between, option, the sep/end-by family, the chains,
  not-followed-by, eof and many-till.
- `Separated.dfy`: what `many` and the separated and terminated lists
  (`sep_by`, `sep_by1`, `end_by`, `sep_end_by`, `sep_end_by1`) return on runs
  of their item parsers, then on `char` items, with the outcomes the test
  suite expects on inputs such as "a,a,a" and "a;a;".
- `Expr.dfy`: the precedence-table expression builder. The per-level
  operator lists are built by a loop method, and the level parsers are
  assembled the way the source assembles them. `Numerals.dfy` holds the small
  digit-value helpers the examples share.
- `Token.dfy` and the `Token*.dfy` files: the lexeme layer. This covers
  white space with line comments and nested block comments (the comment loop
  is a `while` method proved against its specification), decimal, hexadecimal
  and octal numbers with an optional sign, escapes, character and string
  literals, identifiers and operators with reserved-name rejection, and the
  bracket and separator helpers.

Repetitions and recursive combinators terminate on the length of the
remaining input. Each recursion is guarded by that length, as an explicit
hypothesis or with a guard. Where the source would loop or recurse forever
without consuming, the model returns an error (`NoProgress`) instead.

Some names are used by the source but not defined in the revision shown.
They are modelled as the usual derivations:
- `p.map(f)` is `bind(p, v => pure(f(v)))`;
- `p >> q` with `q` a parser is `bind(p, _ => q)`;
- the `Ok`/`Error` results of `count` and the block-comment loop are triples:
  - a success is `(value, state, None)`;
  - an error without consumption keeps the start state;
  - an error after consumption keeps the state reached.

Character classes that Python takes from `str` (`isspace`, `isalpha`,
`isdigit`, ...) are the fields of a `Classifier` record and stay
uninterpreted. The examples state what they need of them, for instance that
the ASCII digits are digits.

## Model

| member | source | states |
|---|---|---|
| Parsec.Update | pyparsec/Parsec.py:14-18 | a token that is exactly "\n" moves to column 1 of the next line; any other token, of any length, moves one column right. The name is kept, and the new position always comes strictly after the old one |
| Parsec.PrecedesTransitive | pyparsec/Parsec.py:14-18 | the order in which positions advance is transitive |
| Parsec.UpdateCharsAdvances | pyparsec/Parsec.py:14-18 | reading non-empty text one character at a time ends strictly after the start, so never back at it, with the name kept. The position-equality progress test of `_many_accum` depends on this |
| Parsec.Bind | pyparsec/Parsec.py:51-65 | a failure of p gives (None, p's state, p's error) and f is not applied; otherwise f(p's value) runs on p's state |
| Parsec.Or | pyparsec/Parsec.py:69-78 | p's result when p succeeds with a value. q on the original state when p left the remaining input unchanged: a failure, or a success with value None. Otherwise (None, p's state, p's error) |
| Parsec.OrCommits | pyparsec/Parsec.py:74-77 | once p has consumed, the result is the same whatever the alternative is and keeps p's state: no backtracking |
| Parsec.OrKeepsConsumedSuccess | pyparsec/Parsec.py:71-77 | a success of p that consumed is the result, even when its value is None |
| Parsec.And | pyparsec/Parsec.py:82-93 | runs p, then q on p's state. It stops at the first error with that parser's state and error; otherwise it returns the pair of values at q's state |
| Parsec.SeqRight | pyparsec/Parsec.py:97-108 | as `&`, keeping q's value |
| Parsec.SeqLeft | pyparsec/Parsec.py:112-123 | as `&`, keeping p's value at q's state |
| Parsec.SequencingAgree | pyparsec/Parsec.py:82-123 | `&`, `>` and `<` always end in the same state with the same error. `>` and `<` return the second and the first component of `&`'s pair |
| Parsec.Label | pyparsec/Parsec.py:132-138 | a failure that left the remaining input unchanged becomes ParseError(original position, "expecting msg"), with p's state. Successes and failures after consumption pass through unchanged |
| Parsec.LabelKeepsOutcome | pyparsec/Parsec.py:132-138 | a label never changes the new state, whether the parser failed, or the value of a success |
| Parsec.BindConsuming | pyparsec/Parsec.py:51-65 | bind of a parser that always shortens the input on success, with continuations that never lengthen it, shortens it on every success |
| Parsec.BindNonGrowing | pyparsec/Parsec.py:51-65 | bind of parsers that never lengthen the input never lengthens it |
| Parsec.BindThenConsuming | pyparsec/Parsec.py:51-65 | bind of a non-lengthening parser with always-shortening continuations always shortens |
| Parsec.OrConsuming | pyparsec/Parsec.py:69-78 | `p \| q` shortens the input on every success when both p and q do |
| Parsec.OrNonGrowing | pyparsec/Parsec.py:69-78 | `p \| q` never lengthens the input when neither p nor q does |
| Parsec.LabelConsuming | pyparsec/Parsec.py:132-138 | a label keeps "shortens the input on every success" |
| Prim.Pure | pyparsec/Prim.py:4-8 | returns (v, state, None) on every state |
| Prim.Fail | pyparsec/Prim.py:10-14 | returns (None, state, ParseError(pos, msg)) and leaves the state alone |
| Prim.TryParse | pyparsec/Prim.py:16-23 | a success of p is returned as it is; a failure becomes (None, original state, p's error) |
| Prim.LookAhead | pyparsec/Prim.py:25-32 | always returns the original state with p's error. The value is p's on success and None on failure |
| Prim.Token | pyparsec/Prim.py:34-46 | three outcomes. Empty input fails with "unexpected EOF". A test that gives None fails with "unexpected " + show(token). Both keep the state. Otherwise the result is the test's value, exactly the first item is dropped, and the position is updated over it |
| Prim.TokenConsuming | pyparsec/Prim.py:34-46 | every success of `token` shortens the input |
| Prim.ManyAccumLoop | pyparsec/Prim.py:70-103 | the `while True` loop returns what ManyAccumRun specifies, for every parser whose position-moving successes shorten the input. ManyAccumRun covers the four branches. A failure without a position change stops with the accumulator and the state before the attempt. A failure after a position change returns p's state and error. A success without a position change is the guard's error at the current state. Otherwise the item is folded in and the loop goes on |
| Prim.ManyOfPureFails | pyparsec/Prim.py:92-98 | `many(pure(v))` does not loop: it fails at once, at the current state, with the guard's message |
| Prim.ManyAccumStep | pyparsec/Prim.py:99-101 | when p succeeds and moves the position, the loop folds p's value into the accumulator and goes on from p's state |
| Prim.ManyAppendsInOrder | pyparsec/Prim.py:108-116 | running the loop from a list pre gives pre followed by the run from [] (same state, same error), so items come out in input order |
| Prim.ManySuccessEndsAtDecline | pyparsec/Prim.py:79-85 | a successful repetition ends at a state where p failed without moving the position, and never lengthens the input |
| Prim.SkipManyValueIsNone | pyparsec/Prim.py:119-127 | `skip_many`'s value is None whatever p returns |
| Prim.ManyValueIsList | pyparsec/Prim.py:108-116 | a success of `many` carries a list and a failure carries none |
| Prim.ManyAccumNonGrowing | pyparsec/Prim.py:75-103 | the repetition never lengthens the input |
| Prim.ManyNonGrowing | pyparsec/Prim.py:108-116 | `many(p)` never lengthens the input |
| Prim.SkipManyNonGrowing | pyparsec/Prim.py:119-127 | `skip_many(p)` never lengthens the input |
| Prim.Tokens | pyparsec/Prim.py:150-175 | succeeds exactly when the input starts with the target: it returns the target, drops that many items and moves the position by next_pos. Otherwise it keeps the state, with the message "expected <shown target>, got '<prefix of that length, or EOF>'" |
| Prim.TokensPrime | pyparsec/Prim.py:178-202 | the same test as `tokens`; a success keeps the original state and a failure is `tokens`' failure |
| Prim.TokensPrimeIsLookAhead | pyparsec/Prim.py:150-202 | `tokens_prime` is `look_ahead(tokens)`. The empty target always matches, without consuming |
| Prim.TokensConsuming | pyparsec/Prim.py:150-175 | a non-empty target shortens the input whenever it matches |
| Prim.Map | pyparsec/Token.py:68 | `p.map(f)`, taken to be `bind(p, v => pure(f(v)))`: on success f of p's value at p's state, and a failure passes through |
| Prim.Then | pyparsec/Token.py:71 | `p >> q` for a parser q, taken to be `bind(p, _ => q)`: q on p's state after a success, and p's failure otherwise |
| Prim.MapThen | pyparsec/Token.py:70-72 | `(p >> q).map(f)` when both succeed: f of q's value at q's state |
| Prim.LeftIdentity | pyparsec/Parsec.py:51-65 | monad law: bind(pure(v), f) behaves as f(v) |
| Prim.RightIdentity | pyparsec/Parsec.py:51-65 | monad law: bind(m, pure) behaves as m (for replies whose failures carry no value, which every parser here returns) |
| Prim.Associativity | pyparsec/Parsec.py:51-65 | monad law: bind(bind(m, f), g) behaves as bind(m, x => bind(f(x), g)) |
| Prim.PureNonGrowing | pyparsec/Prim.py:4-8 | `pure` never lengthens the input |
| Prim.TryParseConsuming | pyparsec/Prim.py:16-23 | `try_parse` keeps "shortens the input on every success" |
| Prim.ThenConsuming | pyparsec/Token.py:71 | `p >> q` shortens the input when p does and q never lengthens it |
| Prim.MapConsuming | pyparsec/Token.py:68 | `map` keeps "shortens the input on every success" |
| Prim.MapNonGrowing | pyparsec/Token.py:68 | `map` keeps "never lengthens the input" |
| Chars.LowerCase | pyparsec/Char.py:92 | `c.lower()` on ASCII: an upper-case letter becomes the lower-case letter 32 code points up, and every other character is unchanged |
| Chars.Satisfy | pyparsec/Char.py:11-22 | empty input fails with "unexpected EOF", and a first character that f rejects fails with "unexpected '<c>'". Both keep the state. Otherwise the character is returned and dropped, and the position is updated over it |
| Chars.SatisfyIsToken | pyparsec/Char.py:11-22 | `satisfy(f)` behaves as `token` with a quoting show function and a test that keeps exactly the characters f accepts |
| Chars.SatisfyConsuming | pyparsec/Char.py:11-22 | every success of `satisfy` shortens the input |
| Chars.LabelledSatisfy | pyparsec/Char.py:8 | `satisfy(f).label(msg)` accepts exactly the class f. Every other first character, and end of input, fails at the original state with "expecting msg" |
| Chars.Char | pyparsec/Char.py:6-8 | `char(c)` succeeds exactly when the input starts with c. Otherwise it fails at the original state with "expecting '<c>'" |
| Chars.CharAccepts | pyparsec/Char.py:6-8 | `char(c)` on input starting with c returns c and moves one character on |
| Chars.CharRejects | pyparsec/Char.py:6-8 | `char(c)` on input not starting with c fails at the original state with "expecting '<c>'" |
| Chars.OneOf | pyparsec/Char.py:25-27 | `one_of(cs)` accepts exactly the characters in cs, with the label "one of <cs>" |
| Chars.NoneOf | pyparsec/Char.py:30-32 | `none_of(cs)` accepts exactly the characters not in cs, with the label "none of <cs>" |
| Chars.OneOfNoneOfComplement | pyparsec/Char.py:25-32 | on non-empty input exactly one of `one_of(cs)` and `none_of(cs)` succeeds |
| Chars.ClassParser | pyparsec/Char.py:65-87 | a labelled character class accepts exactly its class; anything else fails at the original state with "expecting <label>" |
| Chars.Space | pyparsec/Char.py:40-42 | `space` accepts exactly the white-space class, label "space" |
| Chars.Upper | pyparsec/Char.py:65-67 | `upper` accepts exactly the upper-case class, label "uppercase letter" |
| Chars.Lower | pyparsec/Char.py:70-72 | `lower` accepts exactly the lower-case class, label "lowercase letter" |
| Chars.AlphaNum | pyparsec/Char.py:75-77 | `alpha_num` accepts exactly the alphanumeric class, label "letter or digit" |
| Chars.Letter | pyparsec/Char.py:80-82 | `letter` accepts exactly the alphabetic class, label "letter" |
| Chars.Digit | pyparsec/Char.py:85-87 | `digit` accepts exactly the digit class, label "digit" |
| Chars.HexDigit | pyparsec/Char.py:90-92 | `hex_digit` accepts exactly the digits and the characters whose lower case is one of a-f, label "hexadecimal digit" |
| Chars.HexDigitLetters | pyparsec/Char.py:92 | lower-casing before the test makes `hex_digit` accept exactly the digits and a-f in either case |
| Chars.HexDigitAscii | pyparsec/Char.py:90-92 | with the ASCII classes, `hex_digit` accepts exactly 0-9, a-f and A-F: 'a', 'F' and '9' are in and 'g' is out |
| Chars.OctDigit | pyparsec/Char.py:95-97 | `oct_digit` accepts exactly the characters of "01234567", label "octal digit" |
| Chars.OctDigitRange | pyparsec/Char.py:95-97 | the octal digits are exactly '0' to '7': '7' is in and '8' is out |
| Chars.AnyChar | pyparsec/Char.py:100-102 | `any_char` returns and drops any first character. Its only failure is "unexpected EOF" at the end of input |
| Chars.SkipSpacesRun | pyparsec/Char.py:35-37 | the repetition inside `spaces` never fails. It has value None and stops exactly at the first character that is not white space |
| Chars.SpacesSkipsWhiteSpace | pyparsec/Char.py:35-37 | `spaces` succeeds with None on any input and drops exactly the leading white space |
| Chars.TabMovesOneColumn | pyparsec/Char.py:60-62 | `tab` reads one tab and moves one column, like any other character: there are no tab stops |
| Chars.CrlfReads | pyparsec/Char.py:50-52 | `crlf` reads "\r\n" and returns '\n' |
| Chars.EndOfLineLf | pyparsec/Char.py:55-57 | `end_of_line` on "\n" returns '\n' and moves to the next line |
| Chars.EndOfLineCrlf | pyparsec/Char.py:55-57 | `end_of_line` on "\r\n" returns '\n' |
| Chars.EndOfLineRejects | pyparsec/Char.py:55-57 | without '\n' or '\r' in front, `end_of_line` fails at the original state with "expecting new-line" |
| Chars.EndOfLineLoneCr | pyparsec/Char.py:50-57 | a '\r' not followed by '\n' fails after the '\r' with "expecting '\n'". Because `crlf` consumed, the failure is not relabelled |
| Chars.String | pyparsec/Char.py:105-109 | `string(s)` succeeds exactly when the input starts with s, returns s and drops it, and moves the position by one `update(s)`. Otherwise it fails at the original state with "expecting '<s>'" |
| Chars.StringReadsLiteral | pyparsec/Char.py:105-109 | `string(s)` on s + rest returns s and leaves rest |
| Chars.StringMovesOneStep | pyparsec/Char.py:109 | after `string(s)` the position is one column on, or the next line when s is exactly "\n", whatever the length of s. `string("")` moves without reading |
| Chars.StringPrime | pyparsec/Char.py:112-116 | `string_prime(s)` has the same test as `string(s)`; a success keeps the state and a failure is `string`'s |
| Chars.StringPrimeEmpty | pyparsec/Char.py:112-116 | `string_prime("")` always succeeds with "" and the original state |
| Chars.ManyOfEmptyStringStops | pyparsec/Char.py:109 | `string("")` moves the position without reading, so `_many_accum`'s position guard does not stop `many(string(""))`. The model returns the no-progress error where the source would not terminate |
| Chars.ManyCharCounts | pyparsec/Prim.py:108-116 | `many(char(c))` on n copies of c followed by anything else returns the n items in order and stops before the rest |
| Chars.ManyCharFiveThousand | tests/test_recursion.py:5-12 | `many(char('a'))` on 5000 'a's returns 5000 items |
| Chars.ManyReadsRun | pyparsec/Prim.py:75-103 | repeating a parser that reads each character of a class by itself reads the leading run of the class, folds one item per character, and stops right after the run |
| Chars.ManyReadsList | pyparsec/Prim.py:108-116 | `many` of such a parser returns the leading run as a list, in order |
| Chars.ManyClass | pyparsec/Prim.py:108-116 | `many` of a labelled class parser returns the leading run of the class as a list and stops right after it |
| Chars.ManyClassRun | pyparsec/Prim.py:108-116 | the same, for input given as a run of the class followed by a rest that does not start with the class |
| Combinators.Cons | pyparsec/Combinators.py:110 | `[x] + xs` is always a list: x in front of the items of xs, with a missing list read as empty |
| Combinators.BuildChoice | pyparsec/Combinators.py:7-17 | the loop builds `fail("no alternatives")` for an empty list and otherwise the left fold of `\|` over the parsers |
| Combinators.ChoiceEmpty | pyparsec/Combinators.py:12-13 | a choice of nothing fails without consuming, with "no alternatives" at the current position |
| Combinators.ChoiceSkipsDeclined | pyparsec/Combinators.py:14-17 | alternatives that fail (or give no value) without consuming are skipped: the choice behaves as the choice of the remaining list |
| Combinators.ChoiceFoldDeclines | pyparsec/Combinators.py:14-17 | when every alternative declines, the choice returns the last alternative's reply |
| Combinators.ChoiceHeadWins | pyparsec/Combinators.py:14-17 | a first alternative that succeeds with a value is the result, whatever follows |
| Combinators.ChoiceHeadCommits | pyparsec/Combinators.py:14-17 | a first alternative that fails after consuming is the result: later alternatives are not tried |
| Combinators.ChoiceFirstSuccess | pyparsec/Combinators.py:14-17 | the result is the reply of the first alternative that succeeds with a value, when all before it declined |
| Combinators.ChoiceOfTwo | pyparsec/Combinators.py:14-17 | for two alternatives: the first on success, the second when the first declines |
| Combinators.ChoiceOfThree | pyparsec/Combinators.py:14-17 | for three alternatives: the second commits once it consumed, and the third runs when the first two decline |
| Combinators.ChoiceOfFour | pyparsec/Combinators.py:14-17 | for four alternatives: each one is the result exactly when it is the first to succeed |
| Combinators.CountLoop | pyparsec/Combinators.py:23-63 | the loop returns the reply of the recursive specification `Count` for every n > 0 |
| Combinators.CountNonPositive | pyparsec/Combinators.py:21-22 | n <= 0 succeeds with the empty list without consuming |
| Combinators.CountFromCollects | pyparsec/Combinators.py:29-63 | from iteration i on, n - i successes of p append their values in order and end in the last state reached |
| Combinators.CountCollects | pyparsec/Combinators.py:29-63 | n successes of p give the n values in order and the state after the last one |
| Combinators.CountFromStops | pyparsec/Combinators.py:29-51 | for any p, a failure of p before the n-th item fails with p's error and no value. The state is p's state if the failing call changed the input, else the state where it failed if some earlier item changed the input, else the initial state |
| Combinators.CountStopsAtFailure | pyparsec/Combinators.py:29-51 | the same for a whole run of `count` from its start state: whether the state is rolled back depends on whether any item (TraceConsumes) or the failing call changed the input |
| Combinators.Between | pyparsec/Combinators.py:66-70 | open, p and close run in turn. The first failure is returned with that parser's state and error; otherwise p's value at close's state |
| Combinators.OptionDefault | pyparsec/Combinators.py:73-77 | p's success is the result; if p declines, the default at the original state; if p fails after consuming, that failure |
| Combinators.OptionMaybe | pyparsec/Combinators.py:80-85 | None at the original state when p declines, otherwise p's outcome |
| Combinators.Optional | pyparsec/Combinators.py:88-92 | the value is always None. It fails exactly when p fails after consuming; it keeps the original state when p did not consume, else p's state |
| Combinators.Many1NeedsOne | pyparsec/Combinators.py:102-113 | a first failure of p is the result of many1, with p's state and error |
| Combinators.Many1AgreesWithMany | pyparsec/Combinators.py:102-113 | once p succeeds by consuming, many1 gives the same reply as many |
| Combinators.SkipMany1Value | pyparsec/Combinators.py:95-99 | skip_many1 fails as p does on a first failure, and its value is always None |
| Combinators.SkipMany1Consuming | pyparsec/Combinators.py:95-99 | skip_many1 of a parser that always consumes on success consumes on every success |
| Combinators.TerminatedIsSeqLeft | pyparsec/Combinators.py:136 | the item parser of end_by, p then sep keeping p's value, is the `<` operator |
| Combinators.SepEndBy1Unfolds | pyparsec/Combinators.py:147-164 | the recursion of sep_end_by1 through sep_end_by unfolds to its one-step definition: p, then optionally sep followed by the rest or nothing, with p's value in front |
| Combinators.SepEndBy1StepAgrees | pyparsec/Combinators.py:156-164 | the step only looks at the recursive parser on strictly shorter input |
| Combinators.ChainlRestUnfolds | pyparsec/Combinators.py:178-179 | `rest(x)` unfolds to `op >>= f. p >>= y. rest(f(x, y))`, or else `pure(x)` |
| Combinators.ChainlRestStepAgrees | pyparsec/Combinators.py:178-179 | `rest` only looks at its recursive call on strictly shorter input |
| Combinators.ChainlRestFolds | pyparsec/Combinators.py:178-179 | after a sequence of operator/operand pairs, `rest(x)` returns x combined with them from the left, at the state after the last pair |
| Combinators.ChainlFoldsLeft | pyparsec/Combinators.py:174-180 | chainl1 returns the left-associated fold of the operands it read, ending where the operator/operand trace ends |
| Combinators.OpTraceShrinks | pyparsec/Combinators.py:178-179 | each operator/operand pair read shortens the input: a chain never ends where it began once a pair was read |
| Combinators.ChainrScanUnfolds | pyparsec/Combinators.py:194-198 | `scan` unfolds to p followed by `rest`, where `rest` takes an operator and another `scan` or returns x |
| Combinators.ChainrRestStepAgrees | pyparsec/Combinators.py:196-197 | `rest` only looks at `scan` on input shorter than its bound |
| Combinators.ChainrCombineAt | pyparsec/Combinators.py:197 | after the operator, a successful `scan` yields f(x, y) at scan's state |
| Combinators.ChainrRestFolds | pyparsec/Combinators.py:196-197 | after a sequence of operator/operand pairs, `rest(x)` returns x combined with them from the right |
| Combinators.ChainrScanAt | pyparsec/Combinators.py:194-195 | `scan` is p followed by `rest` of p's value |
| Combinators.ChainrRestTakesOperator | pyparsec/Combinators.py:196-197 | when op and the nested scan succeed, `rest(x)` returns f(x, y) at the nested scan's state |
| Combinators.ChainrRestDeclines | pyparsec/Combinators.py:197 | when op fails without consuming, `rest(x)` returns x at the current state |
| Combinators.ChainrFoldsRight | pyparsec/Combinators.py:190-198 | chainr1 returns the right-associated fold of the operands it read, ending where the trace ends |
| Combinators.ChainDefaults | pyparsec/Combinators.py:167-187 | chainl and chainr return the default at the original state when p declines |
| Combinators.ChainFoldExamples | tests/test_combinators.py:114-142 | the operands of "9-3-2" fold from the left to 4 (from the right they would give 8), and those of "2^3^2" fold from the right to 512 (from the left they would give 64) |
| Combinators.AnyToken | pyparsec/Combinators.py:208-212 | at the end of input: "unexpected EOF" without consuming; otherwise the first character, one position step further |
| Combinators.NotFollowedBy | pyparsec/Combinators.py:215-224 | succeeds with None at the original state when p fails or succeeds without consuming. When p succeeds by consuming, it fails with "unexpected <value>" at p's state |
| Combinators.EofAtEnd | pyparsec/Combinators.py:201-205 | eof succeeds at the end of input without consuming. Otherwise it fails after consuming one character, with "unexpected c" at the next position; the label does not apply, since input was consumed |
| Combinators.ConsScanAt | pyparsec/Combinators.py:232 | after an item, a successful scan yields the item in front of the scanned list |
| Combinators.ManyTillUnfolds | pyparsec/Combinators.py:231-233 | `scan` unfolds to `end` giving [] or else p followed by `scan` |
| Combinators.ManyTillCollects | pyparsec/Combinators.py:227-233 | when p succeeds on each item while `end` declines, and `end` then succeeds, many_till returns the items in order at end's state |
| Combinators.ManyTillStepEnds | pyparsec/Combinators.py:232 | when `end` succeeds, the step returns [] at end's state |
| Combinators.ManyTillStepTakesItem | pyparsec/Combinators.py:232 | when `end` declines and p and the rest succeed, the step returns p's value in front of the rest |
| Numerals.DigitChar | pyparsec/Combinators.py:47 | the digit character of d is a decimal digit whose distance from '0' is d |
| Numerals.NatToString | pyparsec/Combinators.py:47 | `str(n)` is never empty |
| Numerals.NatToStringDigits | pyparsec/Combinators.py:47 | `str(n)` consists of decimal digits and starts with '0' exactly when n is 0 |
| Numerals.DigitValue | pyparsec/Token.py:68-76 | the value `int()` gives a digit: 0-9 for decimal digits, 10-15 for a-f and A-F |
| Numerals.NatToStringRoundTrip | pyparsec/Token.py:68 | reading `str(n)` back as a decimal number gives n |
| Expr.SplitAppend | pyparsec/Expr.py:45-53 | sorting a row is sorting its two halves and concatenating list by list, so table order is kept within each list |
| Expr.SplitSingle | pyparsec/Expr.py:46-53 | an infix operator goes to the right, left or non-associative list by its associativity; prefix and postfix operators go to their own lists |
| Expr.SplitKeepsAll | pyparsec/Expr.py:45-53 | every operator of the row lands in exactly one list |
| Expr.UnaryDefaults | pyparsec/Expr.py:57-65 | when no prefix (postfix) alternative applies, the identity function is taken without consuming |
| Expr.LevelTermApplies | pyparsec/Expr.py:69-72 | a level term reads one prefix f or none, the term x, one postfix g or none, and returns g(f(x)) at the postfix parser's state |
| Expr.LevelTermPlain | pyparsec/Expr.py:57-72 | with no prefix and no postfix operators, a level term gives the term's reply (with the value dropped on failure) |
| Expr.NonAssocLogicIsChainrRest | pyparsec/Expr.py:87-90 | one step of `non_assoc_logic` is one step of chainr1's `rest` |
| Expr.NonAssocIsChainr1 | pyparsec/Expr.py:85-92 | because `result_parser` is looked up when the lambda runs, after it has been rebound, the non-associative level equals `chainr1(result_parser, op_n)` |
| Expr.NonAssocLateBinding | pyparsec/Expr.py:85-92 | the non-associative level parses x and, if op_n follows, reads the right operand with the level itself |
| Expr.NonAssocLogicAgrees | pyparsec/Expr.py:87-90 | the logic reads its right-operand parser only after op_n succeeded |
| Expr.NonAssocGroupsRight | pyparsec/Expr.py:85-92 | "x op y op z" at a non-associative level groups as op(x, op(y, z)) |
| Expr.MakeLevelParser | pyparsec/Expr.py:38-94 | the sorting loop and the assembly give the level parser: the level term, then chainl1 over the left operators if any, then chainr1 over the right ones, then the non-associative step |
| Expr.LevelFoldsLeft | pyparsec/Expr.py:75-79 | a row of left-associative operators folds term op term op ... to the left |
| Expr.BuildExpressionParser | pyparsec/Expr.py:32-36 | the loop builds each row's level over the parser built from the rows before it |
| Expr.ExpressionFirstRowInnermost | pyparsec/Expr.py:32-36 | the first row binds tightest: it is the level built directly over the simple term |
| Expr.ExpressionLastRowOutermost | pyparsec/Expr.py:32-36 | the last row's level is the whole expression parser |
| Token.MarkerConsuming | pyparsec/Token.py:213-214 | `try_parse(string(marker))` for a non-empty marker shortens the input whenever it succeeds |
| Token.ParseBlockComment | pyparsec/Token.py:220-264 | the `while` loop returns the reply of the recursive specification: the opening marker's failure, or the loop from depth 1 |
| Token.TokenParser.Scanner | pyparsec/Token.py:212-218 | each of the parsers the block-comment loop uses reads something whenever it succeeds, so the loop ends |
| TokenSpace.ScanNonMarkersReads | pyparsec/Token.py:215-217 | at a character that cannot start a marker, `scan_non_markers` reads the whole run of such characters and stops after it |
| TokenSpace.ScanOneMarkerReads | pyparsec/Token.py:215-218 | at a marker character, `scan_non_markers` fails and `scan_one_marker` reads that one character |
| TokenSpace.CommentLoopOutcome | pyparsec/Token.py:229-264 | every run of the loop yields no value and keeps the user state. It ends on a suffix of its input, at a position not before its start; if it fails, it is at the end of the input with "end of input in comment". So the error with no message at the bottom of the loop never arises |
| TokenSpace.ScannerSound | pyparsec/Token.py:212-218 | the scanner's parsers keep the user state and only read forward. On non-empty input, one of the two scans always succeeds |
| TokenSpace.BlockCommentOutcome | pyparsec/Token.py:220-264 | without the opening marker, the block comment fails without consuming with "expecting" the marker. With it, the result is a loop outcome from just after the marker |
| TokenSpace.CommentLoopCloseStep | pyparsec/Token.py:230-234 | a closing marker lowers the depth by one and continues after it |
| TokenSpace.CommentLoopOpenStep | pyparsec/Token.py:236-241 | when comments nest and no closing marker is present, an opening marker raises the depth by one |
| TokenSpace.CommentLoopSkipStep | pyparsec/Token.py:250-258 | otherwise the loop skips a run of non-marker characters, or else one marker character |
| TokenSpace.CommentLoopRunsOut | pyparsec/Token.py:243-248 | at the end of input inside a comment, the loop fails with "end of input in comment" at the current state |
| TokenSpace.CommentLoopSkipsText | pyparsec/Token.py:229-258 | text holding no marker is skipped whole, the position advancing over each character |
| TokenSpace.CommentLoopCloses | pyparsec/Token.py:229-234 | m closing markers at depth m end the comment right after them |
| TokenSpace.CommentLoopOpens | pyparsec/Token.py:236-241 | with nesting, d opening markers raise the depth by d |
| TokenSpace.CommentLoopAtEnd | pyparsec/Token.py:243-248 | the loop at any positive depth fails at the end of input with "end of input in comment" |
| TokenSpace.BlockCommentEnters | pyparsec/Token.py:221-227 | after the opening marker, the block comment is the loop at depth 1 |
| TokenSpace.CommentLoopUnclosed | pyparsec/Token.py:229-248 | input holding no closing or opening marker is read to its end, then the loop fails with "end of input in comment" |
| TokenSpace.BlockCommentUnclosed | pyparsec/Token.py:220-248 | a comment opened and never closed fails at the end of input with "end of input in comment" |
| TokenSpace.CommentLoopBodyCloses | pyparsec/Token.py:229-258 | at depth d, a marker-free body followed by d closing markers ends the comment after the last of them |
| TokenSpace.CommentLoopBalanced | pyparsec/Token.py:229-264 | with nesting, e more openings, a marker-free body and e + 1 closings end the loop after the last closing, with the position advanced over all of it |
| TokenSpace.BlockCommentNested | pyparsec/Token.py:220-264 | d openings, a marker-free body and d closings form one comment that ends right after the last closing, for every depth d > 0 |
| TokenSpace.CStyleNestedComment | tests/test_token.py:208-214 | the same for `/*` and `*/` with a body free of '/': the property of the nested-comments test at any depth |
| TokenSpace.CStyleNestedOnce | pyparsec/Token.py:220-264 | "/* a /* b */ c */" rest, with a, b and c free of '/' and '*', is one comment ending before rest |
| TokenSpace.CStyleNestedUnclosed | pyparsec/Token.py:220-264 | "/* a /* b */ c" fails at the end of input with "end of input in comment" |
| TokenSpace.JavaNestedCommentExample | tests/test_token.py:159-168 | "/* outer /* inner */ outer */ 123" is one comment, leaving " 123" |
| TokenSpace.JavaUnclosedCommentExample | tests/test_token.py:170-173 | "/* outer /* inner */ oops" fails at the end of input with "end of input in comment" |
| TokenWhite.SkipClassReads | pyparsec/Prim.py:119-127 | `skip_many(satisfy(f))` reads the leading run of f and returns None right after it |
| TokenWhite.LineCommentReads | pyparsec/Token.py:206-210 | a line comment reads its marker and then everything up to the next newline, leaving the newline |
| TokenWhite.LineCommentToNewline | pyparsec/Token.py:206-210 | the same for any input starting with the marker: it stops at the first newline or the end of input |
| TokenWhite.SpaceFailsAt | pyparsec/Char.py:40-42 | `space()` fails without moving at anything but a space character |
| TokenWhite.LineCommentFailsAt | pyparsec/Token.py:207 | a line comment fails without moving where its marker is absent, thanks to `try_parse` |
| TokenWhite.BlockCommentFailsAt | pyparsec/Token.py:221-224 | a block comment fails without moving where its opening marker is absent |
| TokenWhite.WhiteSpaceItemFailsAt | pyparsec/Token.py:199-269 | where no space, line-comment marker or block-comment opening starts the input, a white-space item fails without moving |
| TokenWhite.WhiteSpaceStops | pyparsec/Token.py:199-269 | there, white space succeeds with None and reads nothing |
| TokenWhite.WhiteSpaceItemSpace | pyparsec/Token.py:201-204 | at a space character, a white-space item reads exactly that character |
| TokenWhite.WhiteSpaceParsersAre | pyparsec/Token.py:204-267 | the alternatives are space, then a line comment if one is defined, then a block comment if both markers are defined, in that order |
| TokenWhite.LineCommentCommits | pyparsec/Token.py:206-210 | a line comment at its marker succeeds and consumes |
| TokenWhite.WhiteSpaceItemLine | pyparsec/Token.py:204-269 | at a line-comment marker that does not start with a space, the item is the line comment |
| TokenWhite.WhiteSpaceItemBlock | pyparsec/Token.py:204-269 | at a block opening that is neither a space nor a line-comment marker, the item is the block comment |
| TokenWhite.WhiteSpaceStep | pyparsec/Token.py:269 | after a consuming item, white space continues from the item's state |
| TokenWhite.WhiteSpaceFails | pyparsec/Token.py:269 | an item that fails after consuming (an unclosed comment) makes white space fail with that error |
| TokenWhite.WhiteSpaceSpaces | pyparsec/Token.py:269 | a run of space characters is skipped whole |
| TokenWhite.WhiteSpaceSpacesOnly | pyparsec/Token.py:200-201 | with no comment markers defined, white space reads exactly the leading run of spaces |
| TokenWhite.LexemeAtToken | pyparsec/Token.py:159-161 | `lexeme(p)` is p where no white space follows p's token |
| TokenNumbers.Many1Succeeds | pyparsec/Combinators.py:102-113 | many1 returns p's value in front of many's list, at many's state |
| TokenNumbers.Many1ClassRun | pyparsec/Combinators.py:102-113 | many1 of a class parser reads a non-empty run of the class whole and returns its characters |
| TokenNumbers.JoinWrap | pyparsec/Token.py:68 | `"".join` of the characters of a string gives the string back |
| TokenNumbers.DecimalReads | pyparsec/Token.py:68 | `decimal` reads a run of ASCII digits and returns its base-10 value, stopping after it |
| TokenNumbers.DecimalDeclines | pyparsec/Token.py:68 | `decimal` fails without consuming where no digit starts the input |
| TokenNumbers.PrefixedDigits | pyparsec/Token.py:70-76 | a prefix character then a digit run gives the run's value in the base, at the state after the run |
| TokenNumbers.HexadecimalReads | pyparsec/Token.py:70-72 | `hexadecimal` reads 'x' or 'X' and a run of ASCII hex digits and returns the base-16 value |
| TokenNumbers.HexadecimalDeclines | pyparsec/Token.py:70-72 | `hexadecimal` fails without consuming where no 'x' or 'X' starts the input |
| TokenNumbers.OctalReads | pyparsec/Token.py:74-76 | `octal` reads 'o' or 'O' and a run of octal digits and returns the base-8 value |
| TokenNumbers.OctalDeclines | pyparsec/Token.py:74-76 | `octal` fails without consuming where no 'o' or 'O' starts the input |
| TokenNumbers.NaturalDecimal | pyparsec/Token.py:78-85 | an ASCII digit run not starting with '0' is read by the second alternative, as its decimal value |
| TokenNumbers.AfterZeroAlone | pyparsec/Token.py:81 | after a '0' followed by no 'x', 'o' or digit, the value is 0 and nothing more is read |
| TokenNumbers.AfterZeroHex | pyparsec/Token.py:81 | after '0', 'x' and ASCII hex digits give the hexadecimal value |
| TokenNumbers.AfterZeroOctal | pyparsec/Token.py:81 | after '0', 'o' and octal digits give the octal value |
| TokenNumbers.AfterZeroDecimal | pyparsec/Token.py:81 | after '0', more ASCII decimal digits give their decimal value: "012" is 12 |
| TokenNumbers.NaturalAfterZero | pyparsec/Token.py:78-85 | at a leading '0', `natural` is whatever follows the zero |
| TokenNumbers.NaturalZero | pyparsec/Token.py:78-85 | "0" alone is 0 |
| TokenNumbers.SignedUnsigned | pyparsec/Token.py:87-91 | without a sign, the signed parser is the number parser |
| TokenNumbers.SignedMinus | pyparsec/Token.py:88 | '-' followed by a number m gives -m |
| TokenNumbers.SignedPlus | pyparsec/Token.py:89 | '+' followed by a number gives that number |
| TokenNumbers.IntegerUnsigned | pyparsec/Token.py:87-91 | `integer` without a sign is `natural` |
| TokenNumbers.IntegerMinus | pyparsec/Token.py:87-88 | `integer` at "-" and a natural m returns -m |
| TokenNumbers.IntegerPlus | pyparsec/Token.py:87-89 | `integer` at "+" is the natural that follows |
| TokenNumbers.NaturalOfString | pyparsec/Token.py:78-85 | `natural` reads `str(n)` whole and returns n |
| TokenNumbers.IntegerOfNatural | pyparsec/Token.py:87-91 | `integer` reads `str(n)` whole and returns n, for n >= 0 |
| TokenNumbers.IntegerOfNegated | pyparsec/Token.py:87-88 | `integer` reads "-" + `str(m)` whole and returns -m |
| TokenNumbers.IntegerOfNegative | pyparsec/Token.py:87-88 | `integer` reads `str(n)` of a negative n whole and returns n |
| TokenNumbers.IntegerRoundTrip | tests/test_token.py:19-24 | for every integer n, `integer` reads `str(n)` to its end and returns n with no error: the round-trip property test |
| TokenNumbers.IntegerDecimalExamples | tests/test_token.py:29-31 | "123" gives 123 and "-123" gives -123, reading everything |
| TokenNumbers.IntegerPlusExample | tests/test_token.py:30 | "+123" gives 123, reading everything |
| TokenNumbers.AfterZeroHexExample | pyparsec/Token.py:70-72 | after the '0' of "0x1a", the rest reads as 26 |
| TokenNumbers.IntegerHexExample | tests/test_token.py:32 | "0x1a" gives 26, reading everything |
| TokenNumbers.AfterZeroOctalExample | pyparsec/Token.py:74-76 | after the '0' of "0o10", the rest reads as 8 |
| TokenNumbers.IntegerOctalExample | tests/test_token.py:33 | "0o10" gives 8, reading everything |
| TokenNumbers.ZeroPrefixed | pyparsec/Token.py:78-91 | at a leading '0' whose remainder reads to the end, `integer` returns that remainder's value |
| TokenText.EscapeKeysAreTable | pyparsec/Token.py:121-134 | the characters `one_of` is given are exactly the keys of the escape table |
| TokenText.EscapeChoiceReads | pyparsec/Token.py:133-135 | after the backslash, one character k is read: a table key gives its translation, anything else gives k itself |
| TokenText.EscapeCodeReads | pyparsec/Token.py:132-135 | `escape_code` reads a backslash and one character and returns the escaped character |
| TokenText.EscapeCodeDeclines | pyparsec/Token.py:132-135 | without a leading backslash, `escape_code` fails without consuming with "expecting '\\'" |
| TokenText.StringCharPlain | pyparsec/Token.py:137-141 | a character other than the quote and the backslash is read as itself |
| TokenText.StringCharEscape | pyparsec/Token.py:140-141 | a backslash and one character are read as the escaped character |
| TokenText.StringCharStops | pyparsec/Token.py:137-141 | at the quote or the end of input, `string_char` fails without consuming |
| TokenText.EscapedQuote | pyparsec/Token.py:121-130 | the escape table maps both quotes and the backslash to themselves |
| TokenText.StringCharOfEscaped | pyparsec/Token.py:137-141 | a character written in its escaped form (quote and backslash escaped, all else plain) reads back as itself |
| TokenText.EscapePlain | pyparsec/Token.py:137-141 | text without the quote and the backslash is its own escaped form |
| TokenText.EscapeAppend | pyparsec/Token.py:137-141 | escaping is done character by character: the escaped form of a + b is that of a followed by that of b |
| TokenText.StringCharReadsEscaped | pyparsec/Token.py:137-141 | for either quote, `string_char` reads each escaped character back and stops at the unescaped quote |
| TokenText.ManyEscaped | pyparsec/Prim.py:108-116 | `many` of such a parser reads an escaped text up to the closing quote and returns its characters |
| TokenText.StringBodyRun | pyparsec/Token.py:147-149 | `many(string_char(q))` reads the escaped form of any text and stops at the closing quote |
| TokenText.BetweenQuotes | pyparsec/Combinators.py:66-70 | between two quote characters, p's value is returned after the closing quote |
| TokenText.StringLiteralBody | pyparsec/Token.py:147-149 | the quoted, escaped form of any text reads back as that text |
| TokenText.StringLiteralRoundTrip | pyparsec/Token.py:147-149 | `string_literal` reads the quoted, escaped form of any text and returns the text, when no white space follows (TokenWhite.LexemeSkips covers white space after any lexeme) |
| TokenText.StringLiteralPlain | tests/test_token.py:123-135 | any text without '"' and '\\', in double quotes, reads back whole as itself without error: the string property test |
| TokenText.CharLiteralRoundTrip | pyparsec/Token.py:143-145 | `char_literal` reads any character in its quoted, escaped form and returns it |
| TokenText.CharLiteralEscape | tests/test_token.py:88-103 | a quoted backslash escape returns the table's translation, or the character itself when it is not in the table ('\\z' is "z") |
| TokenText.EscapedExamples | tests/test_token.py:94-103 | `\n`, `\'`, `\\` and `\t` translate as in the table; `\z` falls back to 'z' |
| TokenText.EscapeQuoteExample | pyparsec/Token.py:140-141 | inside a double-quoted string, a quote is written with a backslash in front: `say"hi` becomes `say\"hi` |
| TokenNames.SatisfyClass | pyparsec/Char.py:11-22 | `satisfy(f)` reads exactly one character when f holds of it, and otherwise fails without consuming |
| TokenNames.OneOfClass | pyparsec/Char.py:25-27 | `one_of(cs)` reads exactly the characters in cs |
| TokenNames.ManyOfClass | pyparsec/Prim.py:108-116 | `many` of a class parser reads the leading run of the class and returns its characters |
| TokenNames.WordReads | pyparsec/Token.py:277-279 | a start character followed by letters, up to the first non-letter, is read and returned as one name |
| TokenNames.WordDeclines | pyparsec/Token.py:277-279 | where no start character is found, the name parser fails without consuming, with the start parser's error |
| TokenNames.ValidatedWord | pyparsec/Token.py:272-281 | a reserved name fails after being read, with "unexpected reserved <kind> " and the name as Python's repr writes it. Any other name is returned |
| TokenNames.LexemeValidatedWord | pyparsec/Token.py:152-161 | the same through `lexeme` when no white space follows |
| TokenNames.IdentifierReads | pyparsec/Token.py:271-281 | `identifier` reads a whole name and rejects the reserved names with "unexpected reserved name " and the name as Python's repr writes it |
| TokenNames.OperatorReads | pyparsec/Token.py:288-298 | `operator` reads a whole operator and rejects the reserved ones with "unexpected reserved op " and the name as Python's repr writes it |
| TokenNames.IdentifierDeclines | pyparsec/Token.py:271-281 | `identifier` fails without consuming where no identifier starts |
| TokenNames.KeywordAccepts | pyparsec/Token.py:283-286 | the keyword parser reads the name when no letter follows it, with value None |
| TokenNames.KeywordRejectsLetter | pyparsec/Token.py:283-286 | when a letter follows the name, it fails without consuming, with "expecting <what> '<name>'" |
| TokenNames.KeywordRejectsOther | pyparsec/Token.py:283-286 | when the input does not start with the name, it fails the same way |
| TokenNames.ReservedAccepts | pyparsec/Token.py:191-192 | `reserved(name)` reads the name when no identifier letter follows |
| TokenNames.ReservedRejectsLonger | pyparsec/Token.py:283-286 | `reserved(name)` refuses a longer identifier without consuming, "expecting reserved word '<name>'" |
| TokenNames.ReservedOpAccepts | pyparsec/Token.py:194-195 | `reserved_op(name)` reads the operator when no operator letter follows |
| TokenNames.ReservedOpRejectsLonger | pyparsec/Token.py:300-303 | `reserved_op(name)` refuses a longer operator without consuming, "expecting reserved operator '<name>'" |
| TokenNames.SymbolReads | pyparsec/Token.py:163-165 | `symbol(name)` reads the name and returns it |
| TokenNames.SymbolRejects | pyparsec/Token.py:163-165 | `symbol(name)` fails without consuming where the name is absent |
| TokenNames.OperatorExamples | tests/test_token.py:190-198 | with the default operator characters, "-->" is an operator. "+=" is refused by `operator` when reserved, and accepted by `reserved_op("+=")` |
| TokenNames.IdentifierExamples | tests/test_token.py:179-188 | with the default identifier classes on ASCII letters, "my_var" is an identifier and a reserved "def" is refused |
| Separated.ItemsReadShrinks | pyparsec/Prim.py:97-101 | a run of successful, moving reads never lengthens the input, and a non-empty run shortens it |
| Separated.ManyRunReads | pyparsec/Prim.py:71-101 | the loop of `_many_accum` with the list-append accumulator carries every item read, in order, from one state to the next |
| Separated.ManyCollects | pyparsec/Prim.py:108-116 | `many(p)` returns exactly the items p read, in order, and stops at the state where p failed without moving |
| Separated.ManyFailsAfterMoving | pyparsec/Prim.py:81-88 | a failure of p that moved the position ends `many(p)` with p's error and state, whatever was read before |
| Separated.SepBy1NeedsOne | pyparsec/Combinators.py:125-129 | sep_by1 fails with p's error when the first item fails |
| Separated.SepByNone | pyparsec/Combinators.py:118-122 | sep_by gives the empty list without reading when the first item fails without consuming |
| Separated.SepByCollects | pyparsec/Combinators.py:118-129 | after a first item, sep_by1 and sep_by collect the items of the `sep p` pairs, in order, with the first item in front |
| Separated.SepByTrailingSeparator | pyparsec/Combinators.py:125-129 | a separator with no item after it makes sep_by1 and sep_by fail where the item was expected (no backtracking to the list read so far) |
| Separated.EndByCollects | pyparsec/Combinators.py:132-136 | end_by returns the items of its `p sep` pairs, in order, up to the first item that fails without moving |
| Separated.EndByMissingTerminator | pyparsec/Combinators.py:132-136 | an item without its terminator makes end_by fail with the terminator's error |
| Separated.SepEndBy1NeedsOne | pyparsec/Combinators.py:156-164 | sep_end_by1 fails with p's error when the first item fails |
| Separated.SepEndBy1Last | pyparsec/Combinators.py:156-164 | an item with no separator after it is the last: [x], ending after the item |
| Separated.SepEndBy1LastTerminated | pyparsec/Combinators.py:147-164 | an item followed by a separator after which no item starts is the last: [x], with the trailing separator read |
| Separated.SepEndBy1More | pyparsec/Combinators.py:147-164 | an item and a separator followed by more items put the item in front of them |
| Separated.SepEndByOfOne | pyparsec/Combinators.py:147-153 | a value-carrying success of sep_end_by1 is the result of sep_end_by |
| Separated.SepEndByNone | pyparsec/Combinators.py:147-153 | sep_end_by gives the empty list without reading when the first item fails without consuming |
| Separated.CharConsuming | pyparsec/Char.py:6-22 | `char(c)` shortens the input whenever it succeeds |
| Separated.PairsReadBy | pyparsec/Prim.py:71-101 | a parser that reads a two-character pair reads k repeated pairs as k items, ending after them |
| Separated.CharPairsRead | pyparsec/Combinators.py:125-136 | `sep >> p` and `p < sep` of two character parsers read a pair, with the value of the second and of the first character |
| Separated.SepByChars | pyparsec/Combinators.py:118-129 | sep_by and sep_by1 of `char(a)` and `char(d)` on a (d a)^k, followed by anything but d, give k + 1 copies of a and stop before the rest |
| Separated.SepByCharsNone | pyparsec/Combinators.py:118-129 | without a leading a, sep_by gives [] without reading and sep_by1 fails expecting a |
| Separated.EndByChars | pyparsec/Combinators.py:132-136 | end_by of `char(a)` and `char(d)` on (a d)^k, followed by anything but a, gives k copies of a and stops before the rest |
| Separated.SepEndByCharsOne | pyparsec/Combinators.py:156-164 | sep_end_by1 of characters on a single a with no d after it gives [a] |
| Separated.SepEndByCharsOneTerminated | pyparsec/Combinators.py:147-164 | sep_end_by1 of characters on a d with no a after it gives [a], the d read |
| Separated.SepEndByCharsStep | pyparsec/Combinators.py:147-164 | sep_end_by1 of characters on a d followed by items puts a in front of them |
| Separated.SepEndByCharsTwo | pyparsec/Combinators.py:147-164 | sep_end_by1 of characters on a d a gives two a's |
| Separated.SepEndByCharsTwoTerminated | pyparsec/Combinators.py:147-164 | sep_end_by1 of characters on a d a d gives two a's, the trailing d read |
| Separated.SepByThreeExample | tests/test_combinators.py:86-90 | `sep_by(char('a'), char(','))` on "a,a,a" gives ['a', 'a', 'a'] |
| Separated.SepByOneExample | tests/test_combinators.py:91 | the same parser on "a" gives ['a'] |
| Separated.SepByEmptyExample | tests/test_combinators.py:92-96 | on "" sep_by gives [] and sep_by1 fails with no value |
| Separated.EndByTwoExample | tests/test_combinators.py:98-101 | `end_by(char('a'), char(';'))` on "a;a;" gives ['a', 'a'] |
| Separated.EndByEmptyExample | tests/test_combinators.py:102 | the same parser on "" gives [] |
| Separated.SepEndByUnterminatedExample | tests/test_combinators.py:104-108 | `sep_end_by(char('a'), char(';'))` on "a;a" gives ['a', 'a'] |
| Separated.SepEndByTerminatedExample | tests/test_combinators.py:109 | the same parser on "a;a;" gives ['a', 'a'] |
| Separated.SepEndByEmptyExample | tests/test_combinators.py:110 | the same parser on "" gives [] |
| Prim.Many | pyparsec/Prim.py:108-116 | definition: `many(p)`, the repetition loop with the list-append accumulator started from the empty list. Its properties are the Prim.Many* and Separated.ManyCollects rows |
| Prim.SkipMany | pyparsec/Prim.py:119-127 | definition: `skip_many(p)`, the same loop with an accumulator that stays None. Its properties are Prim.SkipManyValueIsNone and TokenWhite.SkipClassReads |
| Combinators.Choice | pyparsec/Combinators.py:7-18 | definition: `fail("no alternatives")` for no parsers, otherwise the left fold of `|` over the list. Its properties are the Combinators.Choice* rows |
| Combinators.Count | pyparsec/Combinators.py:20-63 | definition: `pure([])` for n <= 0, otherwise the recursive loop `CountFrom`. The loop method and its properties are the Combinators.Count* rows |
| Combinators.Many1 | pyparsec/Combinators.py:102-116 | definition: p, then `many(p)`, with p's value put in front. TokenNumbers.Many1Succeeds and TokenNumbers.Many1ClassRun state it |
| Combinators.SkipMany1 | pyparsec/Combinators.py:95-99 | definition: p, then `skip_many(p)`, with None as value. Combinators.SkipMany1Consuming states that it shortens the input |
| Combinators.SepBy | pyparsec/Combinators.py:118-122 | definition: `sep_by1(p, sep) \| pure([])`. Its properties are the Separated.SepBy* rows |
| Combinators.SepBy1 | pyparsec/Combinators.py:125-129 | definition: p, then `many(sep >> p)`, with the first value in front |
| Combinators.EndBy | pyparsec/Combinators.py:132-136 | definition: `many` of `p < sep`. Its properties are the Separated.EndBy* rows |
| Combinators.EndBy1 | pyparsec/Combinators.py:139-143 | definition: `many1` of `p < sep` |
| Combinators.SepEndBy | pyparsec/Combinators.py:147-152 | definition: `sep_end_by1(p, sep) \| pure([])`. Its properties are the Separated.SepEndBy* rows |
| Combinators.SepEndBy1 | pyparsec/Combinators.py:156-164 | definition: p, then `option([], sep >> sep_end_by(p, sep))`, with p's value put in front. The mutual recursion is guarded by input length |
| Combinators.Chainl | pyparsec/Combinators.py:167-171 | definition: `chainl1(p, op) \| pure(x)`. Combinators.ChainDefaults states it |
| Combinators.Chainl1 | pyparsec/Combinators.py:174-180 | definition: p, then `rest`, which takes an operator and an operand and folds to the left, or returns the value so far. Combinators.ChainlFoldsLeft states it |
| Combinators.Chainr | pyparsec/Combinators.py:183-187 | definition: `chainr1(p, op) \| pure(x)`. Combinators.ChainDefaults states it |
| Combinators.Chainr1 | pyparsec/Combinators.py:190-198 | definition: `scan`, which is p followed by `rest`; `rest` takes an operator and a further `scan` and combines to the right. Combinators.ChainrFoldsRight states it |
| Combinators.Eof | pyparsec/Combinators.py:201-205 | definition: `not_followed_by(any_token())` labelled "end of input". Combinators.EofAtEnd states it |
| Combinators.ManyTill | pyparsec/Combinators.py:227-233 | definition: end (giving []), or else p followed by the rest of the scan. Its properties are the Combinators.ManyTill* rows |
| Expr.Split | pyparsec/Expr.py:39-53 | definition: the operators of one row sorted into right-, left- and non-associative infix, prefix and postfix lists, in table order. Its properties are the Expr.Split* rows |
| Expr.LevelTerm | pyparsec/Expr.py:55-72 | definition: optional prefix, the term, optional postfix, and g(f(x)) as value. Expr.LevelTermApplies and Expr.LevelTermPlain state it |
| Expr.NonAssoc | pyparsec/Expr.py:85-92 | definition: the level parser bound to `non_assoc_logic`, where the parser it calls back is the level parser itself, through Python's late binding. Its properties are the Expr.NonAssoc* rows |
| Expr.Level | pyparsec/Expr.py:38-94 | definition: the term of the level, then chainl1, chainr1 and the non-associative step, each applied when its list is not empty. Expr.MakeLevelParser and Expr.LevelFoldsLeft state it |
| Expr.Expression | pyparsec/Expr.py:32-36 | definition: one level per row of the table, the first row innermost. Expr.BuildExpressionParser and the Expr.Expression* rows state it |
| Token.TokenParser.Lexeme | pyparsec/Token.py:159-161 | definition: `p < white_space`. TokenWhite.LexemeSkips and TokenWhite.LexemeAtToken state it |
| Token.TokenParser.Symbol | pyparsec/Token.py:163-165 | definition: `lexeme(string(name))`. TokenNames.SymbolSkips, TokenNames.SymbolReads and TokenNames.SymbolRejects state it |
| Token.TokenParser.WhiteSpace | pyparsec/Token.py:199-269 | definition: `skip_many` of the choice of space, line comment and block comment. TokenWhite.WhiteSpaceSkips states it |
| Token.TokenParser.LineComment | pyparsec/Token.py:206-210 | definition: `try_parse(string(marker))`, then `skip_many` of non-newline characters. TokenWhite.LineCommentReads states it |
| Token.TokenParser.BlockComment | pyparsec/Token.py:212-267 | definition: the block-comment loop over the scanner of the two markers. Token.ParseBlockComment and TokenSpace.BlockCommentNested state it |
| Token.TokenParser.Decimal | pyparsec/Token.py:68 | definition: `lexeme` of `many1(digit())` mapped to its base-10 value. TokenNumbers.DecimalReads states it |
| Token.TokenParser.Hexadecimal | pyparsec/Token.py:70-72 | definition: `lexeme` of 'x' or 'X', then `many1(hex_digit())`, taken in base 16. TokenNumbers.HexadecimalReads states it |
| Token.TokenParser.Octal | pyparsec/Token.py:74-76 | definition: `lexeme` of 'o' or 'O', then `many1(oct_digit())`, taken in base 8. TokenNumbers.OctalReads states it |
| Token.TokenParser.Natural | pyparsec/Token.py:78-85 | definition: `lexeme` of the choice between '0' followed by AfterZero, and decimal. The TokenNumbers.Natural* rows state it |
| Token.TokenParser.Integer | pyparsec/Token.py:87-91 | definition: `lexeme` of '-' with the negated natural, '+' with the natural, or the natural. TokenNumbers.IntegerRoundTrip states it |
| Token.TokenParser.StringChar | pyparsec/Token.py:137-141 | definition: a character other than the quote and '\\', or an escape. Its properties are the TokenText.StringChar* rows |
| Token.TokenParser.CharLiteral | pyparsec/Token.py:143-145 | definition: `lexeme` of a string character between two single quotes. The TokenText.CharLiteral* rows state it |
| Token.TokenParser.StringLiteral | pyparsec/Token.py:147-149 | definition: `lexeme` of `many(string_char('"'))` between double quotes, joined. TokenText.StringLiteralRoundTrip states it |
| Token.TokenParser.Identifier | pyparsec/Token.py:152 | definition: `lexeme` of the identifier word bound to the reserved-name check. TokenNames.IdentifierReads states it |
| Token.TokenParser.Operator | pyparsec/Token.py:155 | definition: `lexeme` of the operator word bound to the reserved-operator check. TokenNames.OperatorReads states it |
| Token.TokenParser.Reserved | pyparsec/Token.py:191-192 | definition: `lexeme` of the keyword parser for the name, with the identifier letters. The TokenNames.Reserved* rows state it |
| Token.TokenParser.ReservedOp | pyparsec/Token.py:194-195 | definition: `lexeme` of the keyword parser for the operator, with the operator letters. The TokenNames.ReservedOp* rows state it |
| Token.TokenParser.Enclosed | pyparsec/Token.py:167-177 | definition: `between(symbol(open), symbol(close), p)`, which parens, braces, angles and brackets instantiate. TokenNames.EnclosedReads states it |
| Token.TokenParser.Parens | pyparsec/Token.py:167-168 | definition: Enclosed with "(" and ")". TokenNames.ParensReads states it |
| Token.TokenParser.Braces | pyparsec/Token.py:170-171 | definition: Enclosed with "{" and "}"; what EnclosedReads states holds for it |
| Token.TokenParser.Angles | pyparsec/Token.py:173-174 | definition: Enclosed with "<" and ">"; what EnclosedReads states holds for it |
| Token.TokenParser.Brackets | pyparsec/Token.py:176-177 | definition: Enclosed with "[" and "]"; what EnclosedReads states holds for it |
| Token.TokenParser.SemiSep | pyparsec/Token.py:179-180 | definition: `sep_by(p, semi)` |
| Token.TokenParser.SemiSep1 | pyparsec/Token.py:182-183 | definition: `sep_by1(p, semi)` |
| Token.TokenParser.CommaSep | pyparsec/Token.py:185-186 | definition: `sep_by(p, comma)` |
| Token.TokenParser.CommaSep1 | pyparsec/Token.py:188-189 | definition: `sep_by1(p, comma)` |
| Prim.RunParser | pyparsec/Prim.py:132-136 | definition: runs p from line 1, column 1 of the source name with the given user value, and returns the value and the error. The Separated.Run* rows state test outcomes through it |
| Parsec.UpdateCharsInLine | pyparsec/Parsec.py:14-18 | reading text with no newline moves the column by its length and keeps the line |
| Parsec.NewlineThenInLine | pyparsec/Parsec.py:14-18 | reading a newline followed by text with no newline ends on the next line, at column 1 plus that text's length |
| Separated.RunSepByExample | tests/test_combinators.py:86-90 | `run(sep_by(char('a'), char(',')), "a,a,a")` gives the list of three 'a' and no error |
| Separated.RunSepBy1EmptyExample | tests/test_combinators.py:94-96 | `run(sep_by1(char('a'), char(',')), "")` gives no value and an error at line 1, column 1 |
| Separated.RunEndByExample | tests/test_combinators.py:98-101 | `run(end_by(char('a'), char(';')), "a;a;")` gives the list of two 'a' and no error |
| TokenWhite.WhiteSpaceLineComment | pyparsec/Token.py:206-210 | one white-space item reads a line comment up to, not including, its newline |
| TokenWhite.WhiteSpaceBlockComment | pyparsec/Token.py:212-264 | one white-space item reads a nested block comment of depth d with its body and d closing markers |
| TokenWhite.WhiteSpacePiece | pyparsec/Token.py:199-269 | one white-space item reads any fitting piece (spaces, a line comment or a block comment) and ends where the piece's text ends |
| TokenWhite.WhiteSpaceSkips | pyparsec/Token.py:199-269 | `white_space` reads any sequence of fitting pieces up to text that does not start white space, with no value and no error, at the position reached by reading the pieces |
| TokenWhite.WhiteSpaceSkipsAll | pyparsec/Token.py:199-269 | the same when the pieces are the whole input |
| TokenWhite.LexemeSkips | pyparsec/Token.py:159-161 | `lexeme(p)` keeps p's value and skips all white space after it, ending after the last piece |
| TokenWhite.CommentPiecesText | tests/test_token.py:141-150 | "   # comment\n  " is three spaces, a "#" comment and a newline with two spaces |
| TokenWhite.CommentPiecesEnd | tests/test_token.py:141-150 | reading those pieces ends on the next line, at column 3 |
| TokenWhite.CommentPiecesFit | tests/test_token.py:141-150 | those pieces fit the Python style's white space |
| TokenWhite.PythonCommentExample | tests/test_token.py:141-150 | `white_space` in the Python style reads all of "   # comment\n  " with no error, ending at column 3 of the next line |
| TokenNames.SymbolSkips | pyparsec/Token.py:163-165 | `symbol(name)` on the name and fitting white space returns the name and ends after the white space |
| TokenNames.EnclosedReads | pyparsec/Token.py:167-177 | the opening symbol, p's value, the closing symbol, each with its white space, gives p's value and ends after the last white space |
| TokenNames.ParensReads | pyparsec/Token.py:167-168 | `parens(p)` on "(" + text p reads + ")" returns p's value |
| TokenNames.ParensPassesFailure | pyparsec/Token.py:167-168 | when p fails after "(", `parens(p)` fails with p's state and error |
| TokenNames.ParensRejects | pyparsec/Token.py:167-168 | input not starting with "(" fails at once, without consuming, expecting "(" |
| Token.Repr | pyparsec/Token.py:271-274 | definition: Python's `repr` of a string, as `{name!r}` formats it: the quote chosen by the string's quotes, and the quote, the backslash and the control characters escaped |
| Token.ReprPlain | pyparsec/Token.py:271-274 | a name without quotes, backslashes or control characters is shown as itself in single quotes |
| Token.ReprBackslashExample | pyparsec/Token.py:288-291 | the operator `\` is shown as `'\\'` |
| Token.ReprQuoteExample | pyparsec/Token.py:271-274 | a name holding a single quote and no double quote is shown in double quotes |
| Token.ReprTabExample | pyparsec/Token.py:271-274 | a tab is shown as its escape `\t` |
| Token.ReservedNameMessageExample | pyparsec/Token.py:271-274 | the reserved name "def" gives "unexpected reserved name 'def'" |
| Token.ReservedOpMessageExample | pyparsec/Token.py:288-291 | the reserved operator `\` gives `unexpected reserved op '\\'`, its backslash doubled |
| Numerals.HexChar | pyparsec/Token.py:271-274 | the hexadecimal digit character of d, lower case as `repr`'s `\x` escapes write it |

## Left out

- Float lexing (pyparsec/Token.py:94-118): it relies on Python's `float()` conversion and floating-point arithmetic.
- Unicode character classification (`str.isspace`, `isalpha`, `isdigit`, `isalnum`, `isupper`, `islower`): these are calls into Python's string library. They stay uninterpreted fields of `Chars.Classifier`, and only the ASCII classifier `Chars.AsciiClasses` is given a definition.
- Chars.LowerCase: folds only the ASCII letters; Python's `str.lower` folds the whole Unicode range.
- Error kinds and merging (`MessageType`, `ParseError.new_unknown`, `ParseError.merge`): an error is one position and one message. The "unknown" error that `count` and the block-comment loop treat as "no error" is therefore never produced, and the merged `last_error` that `count` threads through its successes is not kept.
- Position and error rendering (`__str__` in pyparsec/Parsec.py): formatting only. Messages are kept as plain strings; count's iteration message uses `Numerals.NatToString`.
- Non-termination: where the source would loop or recurse forever on a parser that succeeds without consuming (a recursive combinator whose item parser reads nothing), the model stops with the `NoProgress` error. The fixed-point lemmas hold only under the consuming hypotheses they state.
- Closures: a parser is a Dafny function value, and a recursive combinator is its body with the recursive reference passed in. Python's late binding of names is modelled only where the source depends on it (the non-associative expression level).
- Block-comment marker set: the source builds `list(set(...))` from the first characters of the two markers; the model keeps them as a string, since only membership is ever asked of them.
- `parser_trace` and `parser_traced` (pyparsec/Combinators.py:241-262): their only effect is printing.
- `look_ahead` in pyparsec/Combinators.py:237-238: it calls itself and never returns; `Prim.LookAhead` models the working one in pyparsec/Prim.py.
- pyparsec/Language.py: it only holds constant language definitions. The model has the `LanguageDef` record with the defaults of its constructor (`Token.DefaultLanguage`), and the examples state the fields they need (for instance C-style comment markers) as hypotheses on the token parser. Its `case_sensitive` field is never read by the token layer.
- pyparsec/__init__.py: re-exports only.
- PyParsec/Parsec.py and PyParsec/Prim.py: an older duplicate that nothing imports.
- Test expectations the core does not implement: tab stops, merged alternatives in choice errors, a stored "consumed" flag, "end of input" in eof's error after a consumed token, `update_pos_string`, and a `next_pos` argument to `token`.
- Expression examples on concrete arithmetic ("2+3*4" gives 14, "-3*2" gives -6): the table builder is proved on arbitrary rows, with no concrete digit parser.
- Chain examples: `Combinators.ChainFoldExamples` proves the folds of the operand values of "9-3-2" and "2^3^2", not the parse of those strings by `digit().map(int)`.
- sep_end_by on longer inputs: the character lemmas cover one and two items, with and without a trailing separator. The general k-item case is stated generically (`Separated.SepEndBy1More`, `Separated.SepEndBy1Last`) but not instantiated for every k.
- Prim.RightIdentity: assumes that a failing `m` carries no value; the source's `bind` drops the value of a failure, so for a failure with a value `bind(m, pure)` differs from `m`.
- TokenText.StringCharOfEscaped: stated only for the two quote characters `"` and `'` as the delimiter, the ones the string and character literals use.
- Combinators.Power: returns no value for a negative exponent, where Python's `**` would give a float.
- Numerals.DigitValue: Python's `int()` also reads non-ASCII Unicode decimal digits, and raises ValueError on digit characters such as '²' that have no decimal value. The model gives every character outside 0-9, a-f and A-F the value 0, so the lemmas about digit runs require ASCII digits.
- TokenNumbers.DecimalReads: requires a run of ASCII digits; a run holding other Unicode digits is not covered (see Numerals.DigitValue).
- TokenNumbers.HexadecimalReads: requires ASCII hexadecimal digits, for the same reason.
- TokenNumbers.NaturalDecimal: requires ASCII digits, for the same reason.
- TokenNumbers.AfterZeroHex: requires ASCII hexadecimal digits, for the same reason.
- TokenNumbers.AfterZeroDecimal: requires ASCII digits, for the same reason.
- Token.ValueIn: agrees with `int("".join(ds), base)` only on ASCII digits.
- Token.Repr: keeps every non-ASCII character as it is; Python escapes the non-printable ones according to its Unicode tables.
- TokenNames.ValidatedWord: the message holds `Token.Repr` of the name, so for names with non-printable non-ASCII characters it differs from Python's.
- TokenNames.LexemeValidatedWord: the same gap in the message as TokenNames.ValidatedWord.
- TokenNames.IdentifierReads: the same gap in the message as TokenNames.ValidatedWord.
- TokenNames.OperatorReads: the same gap in the message as TokenNames.ValidatedWord.
- TokenText.StringLiteralRoundTrip: stated for input where no white space follows the literal. TokenWhite.LexemeSkips gives the general lexeme step, but the two are not combined into one lemma.
- The chained example `white_space >> integer` on "   # comment\n 123" is not stated as one lemma. TokenWhite.PythonCommentExample covers its white-space part and TokenNumbers.IntegerRoundTrip its number part.

# Verified model of the template engine, the calendars, the matcher and the bridge

Dafny models of the parts of the repository that carry the hardest promises, and proofs of those promises:

- **inja** (`include/inja.hpp`): the state-machine lexer, the operator-stack expression parser, the statement parser
  that walks `current_block` with its stacks of pointers, and the renderer with its evaluation stacks. Lexer, parser
  and renderer are classes with the source's fields; every method is proved equal to a function of the old state, and
  the theorems are about these functions: parsing undoes printing, no token sequence makes the parser misuse a stack,
  the stack evaluator refines a recursive meaning, loops with one shared loop object behave like scoped ones, the
  tokens of an input tile it, a template tree survives the way through its text, lexer and parser, and every accepted
  template that is a tree has a normal form.
- **date** (`include/date/islamic.h`, `include/date/iso_week.h`): closed-form day counts with truncating division,
  16-bit years, 8-bit months and days and 32-bit unsigned wrap-around written out, proved to be bijections on exactly
  the range in which a year fits its short.
- **jpcre2** (`include/jpcre2.hpp`): the global match loop over a regular expression engine and the replacement that
  splices its matches.
- **the bridge** (`bridge/`, `scripts/generate_proxy_validation.go`): loose base64, the expansion of standard Mieru
  links, the filtering of proxies, and the collection of tagged fields over a graph of embedded struct types.

What the repository takes from elsewhere is a parameter, constrained only where a theorem says so: the JSON reader and
the value primitives of inja, PCRE2 (`RegexMatch.Sound`, `RegexMatch.Leftmost`), net/url (`Mieru.UrlsAreSimple`),
protocol buffers, YAML and the link converter. The base64 decoders follow the documented behaviour of Go's
encoding/base64: line breaks are skipped and unused trailing bits are not looked at.

`go_strings.dfy`, `weekdays.dfy` and `wrappers.dfy` hold what several modules share. `dafny verify dfyconfig.toml` checks everything.

## Where the code does something else

These are results, stated as theorems about the code as it is. Each has an input that shows it and the exact condition.

- **`not` after an operator** (include/inja.hpp:1778-1786). `not` is pushed like a left-associative operator, so an
  operator that binds as tightly is popped before its right operand is read and takes what stands to its left:
  `x + a * not b` is read as `(x * a) + not b` (`TimesNotBecomesSum`) and `x and not not a` as `(not x) and (not a)`
  (`NotNotTakesLeftNeighbour`); with nothing to its left it fails (`NotNotFailsAtStart`). Written without parentheses,
  `l op (not r)` comes back if and only if `op` binds more loosely than `not` (`NotComesBack`), and `not not r` never
  does (`NotNotNeverComesBack`). All in `InjaExpressionLimits`.
- **A pipe without an operand** (include/inja.hpp:1810-1822). `{{ | f }}` reads the back of an empty argument list
  (`InjaTemplateLimits.EmptyPipeRead`); an expression does so exactly when it, or one inside it, comes to a pipe
  before its first operand (`InjaExpressionLimits.StarvesExactly`).
- **A bracket left open** (include/inja.hpp:1640-1655, 1851-1869). At the end of an expression nobody looks at the
  bracket levels, so a bracket that is never closed vanishes with all that stands inside: `{{ x [ 1 }}` is read as
  `x` and `{{ [ 1 }}` as nothing at all (`InjaOperands.UnclosedBracketAccepted`, and for any such text in any context
  `InjaOperands.UnclosedBracketVanishes`). None is left open in an accepted expression, or in one inside it, if and only
  if as many brackets close as open in what it has read (`InjaOperands.BracketsAreClosed`).
- **An empty expression** is accepted wherever an expression is expected: `{{ }}` and `{{ [ 1 }}`
  (`EmptyOutputAccepted`, `UnclosedBracketOutput` in `InjaTemplateLimits`). An accepted expression is empty if and only if
  its tokens hold no operand, which is a predicate on the tokens (`InjaOperands.EmptyExactly`).
- **A minus after a negative number or a string** (include/inja.hpp:1121-1137) is read as a sign, so `-5 - 3` lexes as
  three numbers (`InjaSource.MinusAfterNegative`); and the state is carried over from tag to tag, so after `{{ a }}` the
  number in `{{ -5 }}` is not read as one (`InjaSource.MinusAfterTag`). Written tokens are lexed back if and only if every
  sign fits the token before it, be it in an earlier tag (`InjaSource.TokensRoundTrip`).
- **Tags that do not nest.** At the end of the input only the if and for stacks are looked at, and they are separate
  (include/inja.hpp:2065-2074): an open block, crossed closing tags, a second `else` and an `else if` after an `else` are
  accepted (`UnclosedBlockAccepted`, `CrossedTagsAccepted`, `DoubleElseAccepted`, `LateElseIfAccepted` in
  `InjaTemplateLimits`). The blocks of an accepted template are closed if and only if as many block tags open as close
  (`InjaTags.BlocksAreClosed`); the current block at its end is a function of its tags (`InjaEnds.EndsExactly`), so it ends
  at the root if and only if they say so (`InjaEnds.EndsAtRootExactly`); and its nodes are a template tree if and only if
  each of its expressions holds an operand and each `else if` finds the false branch of its if still empty
  (`InjaTrees.AcceptedIsTreeExactly`). With well-nested tags it ends at the root, is a tree if and only if each of its
  expressions holds an operand, and the tree has the tags of the template (`InjaTrees.WellNestedIsTree`); with other tags
  the tree, if there is one, has other tags (`InjaTrees.TreeHasTheTags`).
- **A last line statement without a line break** (include/inja.hpp:2087-2095). The end of the input closes it, but if it ends
  in an expression, as `if x` does, the expression is not followed by the close it asks for, and the template is rejected
  (`InjaStyles.RoundTripWithOpenEnd`, `InjaStyles.ParsedWithOpenEnd`).
- **A dot over a resolved name** (include/inja.hpp:2484-2494) pops a pending name of somebody else
  (`ResolvedElementTakesPending`), after which the top of an empty stack may be taken (`ResolvedElementUnderflows`).
  The evaluator agrees with the recursive meaning on all stacks of a run if and only if the meaning does not stop at
  such a dot (`RefinesExactly`), and it can only do so if the expression has one (`OnlyDotsStop`). After a visit that
  succeeds there are as many null entries as pending names if and only if the meaning does not stop at such a dot, and
  only if it does is the top of an empty stack taken (`StaysInStepExactly`; all in `InjaEval`). What happens past such a
  dot is told without exception by a recursion that hands on the pending names (`InjaNames.VisitIsGiven`): a call takes
  the top of an empty stack if and only if one of its arguments has no value and no name is pending any more
  (`InjaNames.CallUnderflowsExactly`).
- **A dot after a name that is not found** reaches through a null pointer (include/inja.hpp:2485-2493): `(x).y` with
  neither found (`InjaEval.NullContainerReached`). The right operand being a name as it should be, this happens exactly
  when the left one is not found (`InjaEval.NullContainerExactly`). In the recursive meaning the error `NullContainer`
  marks these places.
- **Match options.** With any option set the match loop does not stop where nothing matches any more
  (include/jpcre2.hpp:5030-5035): it runs past the end of the subject and reports the engine's bad offset as an error, as
  for the pattern `a` on `a` (`RegexMatch.OptionsEndInError`). Over an engine that errs only inside characters there is
  no error if and only if no option is set, or there is nothing to loop over, or the last match is an empty one at the
  end (`RegexMatch.ErrsExactly`). No match is missed for it (`RegexMatch.FindAllMissesNothing`).
- **The ends of the ISO range.** The least year, -32768, breaks ISO week dates: the year before it wraps around.
  `IsoWeek.ToDaysExactly` and `IsoWeek.FromDaysExactly` give the exact ranges. The days of week year 32768, stored as
  -32768, do come back, but for the last one (`IsoWeek.DayRoundTrip`), and so do the week dates of the least year, but
  for its last eight days (`IsoWeek.WeekDateRoundTrip`).
- **A strict document may hold an invalid proxy**, if its name was taken by a valid one before (bridge/parser.go:52-63):
  `ProxyFilter.ShadowedProxyAccepted`, and exactly then, `ProxyFilter.FilterProxies`.

## Model

| member | source | states |
|---|---|---|
| InjaLexer.ScanIsGood | include/inja.hpp:1327-1460 | one scan keeps the lexer's invariant (cursor inside the input, the opening string of a start state under the cursor); any token but Eof moves the cursor on, and between old cursor, token and new cursor lie only spaces |
| InjaLexer.OnlySpacesAreDropped | include/inja.hpp:1078-1258 | over a whole run token ranges ascend and are disjoint, only the last token is Eof, and every character no token covers is white space |
| InjaLexer.TagsAreBracketed | include/inja.hpp:1334-1460 | text and tags alternate: no two adjacent texts, each tag ends with the close of its own kind, no text or opening inside it |
| InjaLexer.TextsFrom | include/inja.hpp:1340-1391 | without trimming and strip markers the Text tokens are character for character the input outside its tags, from every reachable state |
| InjaLexer.TextsHaveNoConstruct | include/inja.hpp:1341-1379 | no construct opens anywhere inside a Text token |
| InjaLexer.TagFree | include/inja.hpp:1340-1391 | an input lexes to one Text token equal to itself if and only if no construct opens in it, whatever the trimming options |
| InjaLexer.InputIsTiled | include/inja.hpp:1314-1460 | the covering, bracketing and exact-text theorems for an input from its start |
| InjaLexer.ClearFinalLineExactly | include/inja.hpp:1292-1305 | a text loses its last line, from the last line break or its beginning on, if and only if nothing but blanks is on it |
| InjaLexer.ClearFinalLineIfWhitespace | include/inja.hpp:1292-1305 | the loop over the last line does exactly that |
| InjaLexer.FirstNewlineExactly | include/inja.hpp:1272-1290 | what is trimmed, told from the characters: the blanks and exactly one line break behind them - line feed, carriage return or both - and the blanks alone if none follows |
| InjaLexer.Lexer.Start | include/inja.hpp:1314-1325 | resets all fields and drops a byte order mark |
| InjaLexer.Lexer.Scan | include/inja.hpp:1327-1460 | the imperative scan returns the specified token and leaves state, minus state and cursor as specified, and keeps the invariant |
| InjaLexer.Lexer.ScanBodyTag | include/inja.hpp:1078-1128 | scan_body: skips space, tries the stripping close, then the plain one, then a token |
| InjaLexer.Lexer.ScanOne | include/inja.hpp:1123-1209 | the token switch with its two-valued minus state |
| InjaLexer.Lexer.ScanId | include/inja.hpp:1211-1223 | the longest run of identifier characters |
| InjaLexer.Lexer.ScanNumber | include/inja.hpp:1225-1238 | digits, dots, exponents, and signs right after an exponent |
| InjaLexer.Lexer.ScanString | include/inja.hpp:1240-1258 | up to the next quote not escaped by a backslash |
| InjaLexer.Lexer.ScanAll | include/inja.hpp:1314-1460 | running the lexer object to the end yields tokens with all the tiling properties |
| InjaDelimiters.OpensExactly | include/inja.hpp:1347-1431 | for each of the usual openings: a minus strips the blank rest of the line before it, a plus does not, plain statements and comments do as configured, expressions and line statements never; the text ends where that begins, and the opening is read with the kind and the state it leads to |
| InjaDelimiters.ClosesExactly | include/inja.hpp:1085-1111 | for each close, behind any white space: with a minus all white space that follows is dropped, a plain statement close drops the first line break as configured, the closes of expressions and line statements nothing; where the text goes on is told from the characters |
| InjaDelimiters.CommentExactly | include/inja.hpp:1438-1458 | a comment ends at its first close and drops the first line break behind it if a minus stands before the close or trimming is on |
| InjaExpression.RoundTrip | include/inja.hpp:1603-1870 | every tree of variables, literals (bracketed JSON too), calls, `not` and the binary operators of both associativities, printed with only the parentheses of the precedence table and followed by anything that stops an expression, parses back to itself and leaves what follows |
| InjaExpression.PrintIsInjective | include/inja.hpp:525-619 | no two trees print alike: the precedence table leaves no ambiguity |
| InjaExpression.PendingCollapses | include/inja.hpp:1775-1786 | popping the pending operators of an expression's spine assembles exactly that expression, below any other pending operators |
| InjaExpression.LiteralTail | include/inja.hpp:1624-1655 | inside a bracketed JSON literal the loop only counts brackets, and the one that closes it adds a literal whose text is every token from the opening bracket on |
| InjaExpression.LiteralSpanIsRead | include/inja.hpp:1527-1530 | the text of a literal with the tokens after it is everything from where the literal began |
| InjaExpression.PipeStep | include/inja.hpp:1810-1849 | a pipe takes the last argument on the stack as the call's first |
| InjaExpression.PipeIsCall | include/inja.hpp:1810-1849 | `x \| f(args)` after a primary operand parses as `f(x, args)`, whatever operators wait to its left |
| InjaPrecedence.ChainGroups | include/inja.hpp:525-619 | for every chain of operands and binary operators, by an explicit list of the operators in rows: the tokens are parsed to the tree whose root is the last operator of the loosest row, or the first `^` if that is the loosest, and likewise on both sides |
| InjaPrecedence.TwoOperators | include/inja.hpp:1775-1786 | `a op1 b op2 c` is read as `(a op1 b) op2 c` if op1 is of a tighter row or of the same row and that is not `^`, and as `a op1 (b op2 c)` otherwise |
| InjaPrecedence.ComparisonsJoined | include/inja.hpp:529-585 | two comparisons joined by `and` or `or` are both read before they are joined |
| InjaPrecedence.NotGroups | include/inja.hpp:525-528 | `not a op b` negates a alone, unless the operator is `^` or `.` |
| InjaPrecedence.NotComesBackByRow | include/inja.hpp:1780-1786 | `l op not r` without parentheses is read as that exactly for `and`, `or`, the comparisons, `+` and `-` |
| InjaCalls.CallExactly | include/inja.hpp:1673-1696 | a call takes the function of its very number of arguments, one of any number only if it has arguments and there is none of their number, and is an error otherwise |
| InjaExpressionLimits.NotAfterOperator | include/inja.hpp:1778-1786 | reading `not` while an operator awaits its right operand: one that binds more loosely goes on waiting, any other takes its left neighbour or fails for want of one - on any stacks |
| InjaExpressionLimits.NotAfterNot | include/inja.hpp:1778-1786 | a `not` that awaits its operand never goes on waiting when a second one is read |
| InjaExpressionLimits.NotComesBack | include/inja.hpp:1780-1786 | in every context in which `l op (not r)` may stand and that completes: without the parentheses the tree comes back if and only if op binds more loosely than `not` |
| InjaExpressionLimits.NotNotNeverComesBack | include/inja.hpp:1780-1786 | in every such context `not not r` does not come back |
| InjaExpressionLimits.NotTakesLeftNeighbour | include/inja.hpp:1780-1786 | `x op0 l op not r`, with op as tight as `not` and op0 looser, is read as `(x op l) op0 (not r)` |
| InjaExpressionLimits.NotNotTakesLeftNeighbour | include/inja.hpp:1780-1786 | `x op0 not not r` is read as `(not x) op0 (not r)` |
| InjaExpressionLimits.NotNotFailsAtStart | include/inja.hpp:1536-1538 | with nothing to its left `not not r` fails |
| InjaExpressionLimits.TimesNotBecomesSum | include/inja.hpp:1780-1786 | `x + a * not b`, token by token, is read as `(x * a) + not b` |
| InjaExpressionLimits.OperandsStay | include/inja.hpp:1609-1855 | once an expression has read an operand, every further step leaves it one |
| InjaExpressionLimits.StarvesExactly | include/inja.hpp:1810-1822 | parsing reads the back of an empty argument list if and only if the expression, or one inside it, comes to a pipe before its first operand: that is a predicate on its tokens, and which inner expressions are reached is told by the parser's own steps |
| InjaExpressionLimits.BarePipeStarves | include/inja.hpp:1810-1822 | it does so for everything that begins with a pipe and a name |
| InjaOperands.EmptyExactly | include/inja.hpp:1609-1870 | an accepted expression is empty if and only if up to where it stops there are only brackets left open and what may stand inside them |
| InjaOperands.UnclosedBracketVanishes | include/inja.hpp:1640-1655 | whatever has been read before: a bracket that is never closed vanishes with all that stands inside |
| InjaOperands.UnclosedBracketAccepted | include/inja.hpp:1851-1869 | `x [ 1` is accepted as `x`, and `[ 1` as nothing |
| InjaOperands.BracketsAreCounted | include/inja.hpp:1640-1672 | in the tokens of every accepted expression as many more brackets open than close as levels are left open in it and in the expressions inside it |
| InjaOperands.BracketsAreClosed | include/inja.hpp:1851-1869 | none is left open if and only if as many close as open |
| InjaOperands.ParsedIsPrintable | include/inja.hpp:1603-1870 | with a JSON reader that takes only JSON texts every tree the parser makes, of any tokens, can be printed |
| InjaOperands.PrintedParsesAgain | include/inja.hpp:1603-1870 | and is parsed again from its print: what was read has a normal form |
| InjaSource.ReadsBack | include/inja.hpp:1116-1258 | every name, number, string and operator, spelled by independent tables of characters and signs and followed by a blank, is scanned as itself and leaves the minus state it should |
| InjaSource.ReadsBackExactly | include/inja.hpp:1121-1137 | a spelled token is scanned as one of its kind if and only if its sign fits: a minus only after an operand, a negative number only elsewhere |
| InjaSource.NameExactly | include/inja.hpp:1211-1223 | a name ends exactly before the first character that belongs to no name |
| InjaSource.NumberExactly | include/inja.hpp:1225-1238 | and a number before the first that does not continue it |
| InjaSource.TokenScanned | include/inja.hpp:1078-1114 | inside a tag white space is skipped and a legible token is never taken for a close |
| InjaSource.TextScanned | include/inja.hpp:1340-1391 | a text in which nothing opens is read as one token up to what the next tag strips of it, said by quantifiers over the characters, and that tag then starts in the right state |
| InjaSource.OpenScanned | include/inja.hpp:1382-1390 | an opening that strips all of the text before it takes that up as part of its token |
| InjaSource.TokensRoundTrip | include/inja.hpp:1078-1460 | for every sequence of texts and tags that can be written down, with the blanks that are stripped before a tag and the blanks and line breaks that are trimmed behind one, under any trimming options: lexing the text gives the tokens without them, and does so if and only if every sign fits the token before it, across tags too |
| InjaSource.PlainRoundTrip | include/inja.hpp:1078-1460 | with nothing stripped or trimmed the text is lexed to the very tokens, if and only if the signs fit |
| InjaSource.TemplateRoundTrip | include/inja.hpp:2058-2118 | from a template tree to its text, through the lexer and the statement parser, back to that tree and no other, also where line breaks behind its tags are trimmed and lines before them stripped |
| InjaSource.SourceIsInjective | include/inja.hpp:2058-2118 | no two template trees have the same text, whatever is stripped and trimmed of it |
| InjaSource.MinusAfterNegative | include/inja.hpp:1121-1137 | after a negative number a lone minus is lexed as a number |
| InjaSource.MinusAfterTag | include/inja.hpp:1121-1137 | `{{ a }}{{ -5 }}` does not lex as written, though the second tag alone does |
| InjaSource.LinesAreDropped | include/inja.hpp:1272-1305 | an if, a text and an endif on lines of their own, with trimming and stripping on: the text that is lexed is its one line |
| InjaSource.LexedIsInput | include/inja.hpp:1314-1460 | every text, under any sane configuration, is lexed to what the theorems about accepted templates ask of their tokens |
| InjaParser.Parser.GetNextToken | include/inja.hpp:1511-1518 | one-token lookahead: takes the peeked token if there is one, else scans |
| InjaParser.Parser.GetPeekToken | include/inja.hpp:1520-1525 | looks ahead without consuming |
| InjaParser.Parser.AddOperator | include/inja.hpp:1532-1545 | the loop that moves arguments below the operator computes its specification |
| InjaParser.Parser.PopOperators | include/inja.hpp:1780-1784 | the popping loop computes its specification, on which PendingCollapses rests |
| InjaParser.Parser.ParseArguments | include/inja.hpp:1675-1686 | the comma-separated argument loop, tied to the specification the round trip is about |
| InjaParser.Parser.ParseCall | include/inja.hpp:1673-1696 | a call with its arity lookup |
| InjaParser.Parser.ParsePipe | include/inja.hpp:1811-1849 | the pipe branch with its optional argument list |
| InjaParser.Parser.ParseParenthesis | include/inja.hpp:1798-1808 | a parenthesised operand |
| InjaParser.Parser.ParseExpression | include/inja.hpp:1603-1870 | the whole expression loop over the token cursor, operator and argument stacks, tied to the specification RoundTrip is about |
| InjaParser.Parser.ParseElse | include/inja.hpp:1889-1912 | else and chained else-if |
| InjaParser.Parser.ParseEndif | include/inja.hpp:1913-1927 | pops the chained ifs, then the one that holds the parent block |
| InjaParser.Parser.ParseBlock | include/inja.hpp:1928-1946 | named blocks, duplicates rejected after they were entered |
| InjaParser.Parser.ParseFor | include/inja.hpp:1957-2001 | loops over arrays and objects |
| InjaParser.Parser.ParseSet | include/inja.hpp:2030-2051 | assignments |
| InjaParser.Parser.ParseStatement | include/inja.hpp:1872-2056 | the dispatch over statement keywords |
| InjaParser.Parser.ParseInto | include/inja.hpp:2058-2118 | the loop over text, statements, expressions and comments, with all fields as specified |
| InjaParser.Parse | include/inja.hpp:2058-2118 | a fresh parser object makes of a token stream what the specification says |
| InjaStatement.StepKeepsInvariant | include/inja.hpp:2062-2117 | one round of the loop keeps every pointer valid and an outer if at the bottom of the if stack |
| InjaStatement.PopNestedIsDefined | include/inja.hpp:1918-1923 | the loop over nested ifs stops before the stack runs out |
| InjaStatement.NeverUndefined | include/inja.hpp:1872-2118 | no token sequence whatsoever makes the statement parser read an empty if, for or block stack or a dangling pointer; on success the if and for stacks are empty. What the expression parser reads is stated by InjaExpressionLimits.StarvesExactly |
| InjaTemplate.RepresentsUnique | include/inja.hpp:1872-2056 | the nodes in memory determine the tree they represent |
| InjaTemplate.RoundTrip | include/inja.hpp:1872-2118 | every well-formed tree of text, output, if / else / else-if chains, loops, set, include and distinctly named blocks is rebuilt from its printed tokens, with the current block at the root, all stacks empty and exactly its blocks stored; nothing else is represented |
| InjaStyles.ParsedByItems | include/inja.hpp:2058-2118 | however tags are written, each as a statement tag or as a line statement closed by the close of its own kind, with any delimiters, and with comments before, between and after them: the parser does what the tags say and comments leave nothing |
| InjaStyles.ParsedWithOpenEnd | include/inja.hpp:2087-2095 | a last line statement that only the end of the input closes is parsed as with its close, or, if it ends in an expression, rejected with ExpectedStatement |
| InjaStyles.RoundTripInAnyStyle | include/inja.hpp:2058-2118 | the round trip in every mixture of statement tags, line statements and comments: parsed back to that tree and no other |
| InjaStyles.RoundTripWithOpenEnd | include/inja.hpp:2087-2095 | and with the last line statement closed by the end of the input, unless it ends in an expression |
| InjaStyles.RoundTripReopened | include/inja.hpp:2058-2118 | the text of an opening, which may hold what it has stripped, does not matter |
| InjaTags.ExprQuiet | include/inja.hpp:1603-1870 | no tag opens in what an expression reads, wherever it is embedded |
| InjaTags.StepTags | include/inja.hpp:2062-2117 | every round of the loop reads the one tag it begins with and no other |
| InjaTags.BlocksAreCounted | include/inja.hpp:1928-1956 | on every success, from every state, the block stack holds the opened blocks less the closed ones |
| InjaTags.BlocksAreClosed | include/inja.hpp:2065-2074 | the blocks of an accepted template are all closed if and only if as many block tags open as close |
| InjaNesting.OpenedElseIf | include/inja.hpp:1889-1912 | an else-if links a chained if alone into the false branch and keeps every open construct in place |
| InjaNesting.OpenedEndif | include/inja.hpp:1913-1927 | endif pops the whole chain of an if and goes back to the block around it |
| InjaNesting.NestedRun | include/inja.hpp:2058-2118 | whatever the tags have opened, current_block and the three stacks are those of the open constructs, through every well-nested run |
| InjaReading.PrintedTags | include/inja.hpp:1872-2056 | printing a tree writes down the tags of the tree, in order, and what is printed is input of the parser |
| InjaReading.PrintedIsWellNested | include/inja.hpp:1872-2056 | the printed tokens of every template tree have well-nested tags |
| InjaReading.TreeOfTags | include/inja.hpp:1872-2056 | and every well-nested sequence of tags is that of a tree that can be printed and parsed |
| InjaPlaces.StepEffect | include/inja.hpp:2062-2117 | every text, output and tag links the one node it makes into the current block, an else-if into the false branch of the if on top of the stack, and moves the pointer and the stacks as its tag says |
| InjaEnds.StepFollows | include/inja.hpp:1872-2056 | every tag leaves the current block, the three stacks, the parent of every node, what is in every block and which ifs have had an else as functions of the tags read so far, also when tags cross |
| InjaEnds.EndsExactly | include/inja.hpp:2058-2118 | for every accepted template: its current block and its open blocks at the end, told from the tags alone; no if and no loop is open |
| InjaEnds.EndsAtRootExactly | include/inja.hpp:2065-2074 | it ends at the root with every construct closed if and only if its last tag closes what its own kind opened at the root and as many block tags open as close |
| InjaTrees.HeapIsTreeExactly | include/inja.hpp:638-735 | nodes woven as the parser weaves them are a template tree if and only if no expression in them is empty and every chained if is alone in its false branch |
| InjaTrees.RunSealed | include/inja.hpp:1889-1912 | every chained if is alone at the end if and only if every else-if found the false branch of its if empty: the parser never comes back to such a branch |
| InjaTrees.RunFilled | include/inja.hpp:1603-1870 | no expression in the nodes is empty if and only if each expression of the template holds an operand, read off its tokens |
| InjaTrees.AcceptedIsTreeExactly | include/inja.hpp:2058-2118 | an accepted template, however its tags cross, is a template tree if and only if each of its expressions holds an operand and each else-if finds the false branch it goes to still empty, both predicates on the tokens |
| InjaTrees.TagsFixHeap | include/inja.hpp:1872-2056 | two templates with the same tags yield the same nodes, up to leaves and expressions |
| InjaTrees.TreeHasTheTags | include/inja.hpp:2058-2118 | the tree that an accepted template is has the very tags of the template if and only if those are well nested |
| InjaTrees.WellNestedIsTree | include/inja.hpp:2058-2118 | the converse of the round trip: an accepted template with well-nested tags ends at the root with all three stacks empty, is a tree if and only if each of its expressions holds an operand, and the tree has its tags |
| InjaNormal.TreeIsWellFormed | include/inja.hpp:1872-2118 | with a JSON reader that takes only JSON texts and files stored under their own names, the tree of any accepted template, however its tags cross, can be printed, and no two of its blocks have one name |
| InjaNormal.NormalForm | include/inja.hpp:2058-2118 | so its print is accepted, with everything closed, and parsed to that tree and no other |
| InjaNormal.IncludeComesBackExactly | include/inja.hpp:1547-1583 | a template that includes a file comes back from its print if and only if that file is stored under its own name |
| InjaTemplateLimits.UnclosedBlockAccepted | include/inja.hpp:2065-2074 | a template whose block is never closed is accepted |
| InjaTemplateLimits.CrossedTagsAccepted | include/inja.hpp:1913-2011 | `if`, `for`, `endif`, `endfor` is accepted and ends inside the closed if |
| InjaTemplateLimits.DoubleElseAccepted | include/inja.hpp:1889-1897 | a second `else` is accepted, and both branches become one |
| InjaTemplateLimits.EmptyOutputAccepted | include/inja.hpp:2096-2106 | an output without an expression is accepted, and is in no tree |
| InjaTemplateLimits.LateElseIfAccepted | include/inja.hpp:1889-1912 | an `else if` after an `else` with a text is accepted, and no tree |
| InjaTemplateLimits.UnclosedBracketOutput | include/inja.hpp:1640-1655 | `{{ [ 1 }}` is accepted as an output without an expression |
| InjaTemplateLimits.EmptyPipeRead | include/inja.hpp:1820-1821 | `{{ \| f }}` reads the back of an empty argument list |
| InjaEval.Refines | include/inja.hpp:2300-2328 | visiting any expression on any stacks pushes exactly its recursive value and leaves the rest untouched, or fails exactly as the meaning fails, short circuits included |
| InjaEval.RefinesExactly | include/inja.hpp:2484-2494 | that agreement holds on all stacks on which every null entry has its name if and only if the meaning does not stop at a dot whose right operand resolved |
| InjaEval.OnlyDotsStop | include/inja.hpp:2484-2494 | to look for before evaluating: a meaning stops for want of an element only at a dot whose right operand resolves, and reaches through a null pointer only at one neither operand of which does |
| InjaEval.RefinesWithoutDots | include/inja.hpp:2300-2328 | an expression without dots over resolved names evaluates to its meaning on any stacks |
| InjaEval.StopsThere | include/inja.hpp:2487-2489 | with no name pending, the machine does stop at such a dot, as the meaning does |
| InjaEval.NullContainerExactly | include/inja.hpp:2485-2493 | a dot whose right operand is a name that was not found reaches through a null pointer, on any stacks, if and only if its left operand was not found either |
| InjaEval.NullContainerReached | include/inja.hpp:2485-2493 | `(x).y` with neither name found does |
| InjaEval.VisitKeepsStacksInStep | include/inja.hpp:2313-2326 | a visit keeps the number of null entries equal to the number of names not found and never takes the top of an empty stack |
| InjaEval.StaysInStepExactly | include/inja.hpp:2484-2494 | after a successful visit from stacks in step they are in step if and only if the meaning does not stop at a dot over a resolved name; and the top of an empty stack is taken only if it does |
| InjaEval.DotStaysInStepExactly | include/inja.hpp:2484-2494 | for a dot whose operands have a meaning: if and only if its right operand is a name that was not found |
| InjaEval.VisitLoses | include/inja.hpp:2313-2326 | no visit, from any stacks, lowers the number of null entries that have lost their name |
| InjaEval.VisitKeepsCovered | include/inja.hpp:2377-2395 | in every reachable state, without any exception, there are at most as many names as null entries |
| InjaEval.VisitSpends | include/inja.hpp:2484-2494 | how many pending names and entries an expression may consume at most |
| InjaEval.ResolvedElementTakesPending | include/inja.hpp:2484-2494 | a concrete run in which a dot takes somebody else's entry |
| InjaEval.ResolvedElementUnderflows | include/inja.hpp:2318-2320 | a concrete run that then takes the top of an empty stack |
| InjaEval.StacksEmptyBetween | include/inja.hpp:2260-2287 | every successful top-level evaluation leaves both stacks empty |
| InjaEval.EvaluatesToMeaning | include/inja.hpp:2260-2287 | a top-level evaluation returns the meaning, names the missing variable, or fails as the meaning does, but for a dot over a resolved name while another name is pending |
| InjaNames.VisitIsGiven | include/inja.hpp:2300-2494 | for every expression and all stacks, past any dot: a visit pushes one entry with the value of a recursion without a data stack, which hands on the pending names alone, leaves the data below untouched, or fails as the recursion does |
| InjaNames.OnlyNamesMatter | include/inja.hpp:2300-2494 | a visit depends on the stack of names only |
| InjaNames.CallUnderflowsExactly | include/inja.hpp:2313-2326 | a call whose arguments are given takes the top of an empty stack if and only if one of them has no value and no name is pending any more |
| InjaNames.EvaluatesAsGiven | include/inja.hpp:2260-2287 | what a top-level evaluation returns, for every expression |
| InjaNames.EvaluatesToMeaningExactly | include/inja.hpp:2260-2287 | it is what the meaning says if and only if the meaning does not stop at a dot over a resolved name or the recursion stops at one too |
| InjaLaws.TruthIs | include/inja.hpp:2232-2239 | which values are truthy, constructor by constructor |
| InjaLaws.LeafIs | include/inja.hpp:2373-2395 | a literal is its value and a name what it resolves to; a name that is not found is pending |
| InjaLaws.ConnectiveIs | include/inja.hpp:2403-2408 | for all scopes, operands and stacks: `and` with a falsy first operand is false whatever the second does, failing or not, and otherwise the truth of the second; `or` dually; a first operand without a value fails |
| InjaLaws.DefaultIs | include/inja.hpp:2511-2514 | `default(x, y)` is x, and y exactly if x was not found |
| InjaLaws.ElementIs | include/inja.hpp:2484-2494 | `l.r` is the element of l under the last pending name, or what the dot over a resolved name makes of it |
| InjaLaws.CallIs | include/inja.hpp:2300-2328 | every other operation reads its arguments in order, all of which must have values, and applies its primitive to them |
| InjaLaws.TrueAndFalse | include/inja.hpp:2403-2408 | `true and false` is false and `true or false` is true |
| InjaRender.RenderIsScoped | include/inja.hpp:2687-2724 | rendering with one mutable loop object gives the output and data of the semantics in which each iteration has a loop object of its own |
| InjaRender.LoopDataRestored | include/inja.hpp:2693-2723 | a template entered with non-empty loop data leaves it exactly as found, whatever loops it runs |
| InjaRender.IterateEnters | include/inja.hpp:2698-2717 | a loop fails before its i-th iteration or enters its body with the data stated, and goes on from what the body leaves |
| InjaRender.LoopVisibleInBody | include/inja.hpp:2698-2715 | in a running loop over n items, once the iterations before i and any part of the body have been rendered with any inner loops, index is i, index1 is i + 1, is_first iff i = 0, is_last iff i = n - 1, and parent is the loop around |
| InjaRenderLaws.PartsOfJoined | include/inja.hpp:2377-2395 | a name comes apart into its pieces, whichever separators stand between them |
| InjaRenderLaws.ResolveIs | include/inja.hpp:2377-2395 | a pointer goes to the field of an object or to the element of an array under a decimal number, and else nowhere |
| InjaRenderLaws.WordLookup | include/inja.hpp:2377-2395 | a name of one piece: the additional data first, then the input, then a callback, and each only if those before it have nothing |
| InjaRenderLaws.PiecesLookup | include/inja.hpp:2377-2395 | and a name of several pieces |
| InjaRenderLaws.SetIs | include/inja.hpp:2809-2814 | under a contract of the store: a `set` leaves the output, its target is then found with the value, and every name with another first piece is found as before; it fails exactly if its expression or the store does |
| InjaRenderLaws.SetThenOutput | include/inja.hpp:2809-2814 | `{% set x = e %}{{ x }}` writes the value of e |
| InjaRenderLaws.SequenceIs | include/inja.hpp:2357-2365 | statements one after the other render as one after the other, and stop at the first failure |
| InjaRenderLaws.IfIs | include/inja.hpp:2765-2772 | the branch that the truth of the condition says; a chained else-if is an if in place of the else |
| InjaRenderLaws.ForShows | include/inja.hpp:2687-2724 | a loop that writes its variable writes the items in order, and leaves all data but the variable and the loop object as it was |
| InjaRenderLaws.ForNeedsArray | include/inja.hpp:2687-2691 | what is no array is not looped over |
| InjaRenderer.Renderer.PopArguments | include/inja.hpp:2313-2327 | the loop that pops arguments and pending names |
| InjaRenderer.Renderer.GetArguments | include/inja.hpp:2300-2328 | visits arguments in order and pops them, on the fields of the renderer |
| InjaRenderer.Renderer.Visit | include/inja.hpp:2373-2482 | the visitor over expression nodes changes the stack fields as the specification Refines is about |
| InjaRenderer.Renderer.EvalExpressionList | include/inja.hpp:2260-2287 | top-level evaluation on the fields |
| InjaRenderer.Renderer.RenderBlock | include/inja.hpp:2357-2365 | the loop over the nodes of a block |
| InjaRenderer.Renderer.RenderStatement | include/inja.hpp:2765-2772 | ifs, output, set and blocks on the fields |
| InjaRenderer.Renderer.RenderFor | include/inja.hpp:2687-2724 | the array loop on the fields, as the specification RenderIsScoped is about |
| Islamic.LeapAgrees | include/date/islamic.h:1049-1074 | the eleven-entry switch agrees for every integer year with the closed-form leap count inside to_days |
| Islamic.YearOfCycle | include/date/islamic.h:2261-2261 | the Galois link: (30*doe+10646)/10631 - 1 is the year of the cycle whose days hold doe, and only that year |
| Islamic.MonthOfYear | include/date/islamic.h:2264-2265 | (11*doy+330)/325 is the month whose days hold doy |
| Islamic.DateRoundTrip | include/date/islamic.h:2139-2156 | every valid date survives to_days and from_days |
| Islamic.DayRoundTrip | include/date/islamic.h:2249-2267 | a day number survives the way to a valid date and back if and only if its year fits a short |
| Islamic.ToDaysIncreases | include/date/islamic.h:2148-2155 | day numbers are in date order, both ways |
| Islamic.ToDaysSteps | include/date/islamic.h:1929-1938 | day numbers advance by one per calendar day, with the month lengths of year_month_day_last |
| Islamic.WalkAgrees | include/date/islamic.h:2139-2267 | walking the calendar k pages on from any date reaches the date of the day number plus k: both closed forms agree with counting days one by one |
| IslamicCalendar.LeapYears | include/date/islamic.h:1049-1074 | the leap years of a cycle are the 2nd, 5th, 7th, 10th, 13th, 16th, 18th, 21st, 24th, 26th and 29th |
| IslamicCalendar.MonthLengths | include/date/islamic.h:1929-1938 | months of 30 and 29 days in turn, and a thirtieth day of the twelfth in those years |
| IslamicCalendar.YearLengths | include/date/islamic.h:2139-2156 | the first days of two years are 355 days apart for a leap year and 354 for another |
| IslamicCalendar.BeginsOnFriday | include/date/islamic.h:2139-2156 | the calendar begins on the Friday 492148 days before January 1 of 1970 |
| Weekdays.NextWeekday | include/date/islamic.h:2442-2450 | adding a weekday difference reaches that weekday within a week |
| Weekdays.WeekdayCycles | include/date/islamic.h:1190-1197 | the weekday of every day number, before and after day 0, a Thursday, is its count modulo seven |
| Islamic.WeekdayRoundTrip | include/date/islamic.h:2431-2450 | a day converts to an ok month, weekday and index, and back to the same day |
| Islamic.WeekdayOkExactly | include/date/islamic.h:2418-2429 | a triple is ok if and only if the day it denotes lies in its own month, for every index |
| Islamic.LastWeekdayIsLatest | include/date/islamic.h:2615-2622 | the last such weekday is in the month, of that weekday, and no later day is both |
| Islamic.AddMonthsComposes | include/date/islamic.h:1558-1567 | adding months in two steps is adding them at once, also across year wrap-around |
| IslamicCalendar.NextMonth | include/date/islamic.h:1558-1567 | one month more is the next month, across the end of a year too, and twelve are one year |
| IsoWeek.LeapMeans53Weeks | include/date/iso_week.h:604-613 | is_leap holds exactly when the week year has 371 days, for every year a short holds |
| IsoWeek.WeekStartIsMonday | include/date/iso_week.h:1486-1492 | week 1 begins on a Monday within three days of January 1: it holds January 4 |
| IsoWeek.ToDaysExactly | include/date/iso_week.h:1486-1492 | the conversion to days is that of section 3.2.2 of ISO 8601:2004 if and only if the year is above -32768 |
| IsoWeek.WeekYearExists | include/date/iso_week.h:1515-1523 | every day lies in some week year |
| IsoWeek.WeekYearUnique | include/date/iso_week.h:1515-1523 | and in only one |
| IsoWeek.TrueDateDenotes | include/date/iso_week.h:1505-1508 | the week date of a day denotes it, with a week number within the year's 52 or 53 |
| IsoWeek.FromDaysExactly | include/date/iso_week.h:1511-1527 | from_days, with its correction by one year, gives that week date if and only if the week year is within -32767..32767 |
| IsoWeek.DayRoundTrip | include/date/iso_week.h:1511-1527 | a day maps to an ok triple that converts back to it if and only if it lies in one range, which ends within week year 32768 |
| IsoWeek.WeekDateRoundTrip | include/date/iso_week.h:1486-1508 | an ok week date survives the way to its day and back if and only if its year is above the least one or its day is not among the last eight |
| RegexMatch.MatchesAreDisjoint | include/jpcre2.hpp:4994-5090 | for every engine meeting its contract and every option the loop ends, and its matches are ordered, disjoint, within the subject, from the start offset on, with no two empty ones at one offset |
| RegexMatch.AdvanceToBoundary | include/jpcre2.hpp:5036-5047 | advancing leads to the beginning of a character and passes by none, but for the line feed of a newline |
| RegexCharacters.TrailingExactly | include/jpcre2.hpp:5041-5047 | trailing units are the bytes 80 to BF in 8 bits, the low surrogates DC00 to DFFF in 16, and none in 32 |
| RegexCharacters.UnitsOfCharacter | include/jpcre2.hpp:5041-5047 | of the units UTF-8 and UTF-16 give a character the first is not trailing and all others are |
| RegexCharacters.AdvancesByCharacter | include/jpcre2.hpp:5036-5047 | in any encoded text advancing leads from each character to the next, and from a CR LF newline behind both |
| RegexCharacters.EncodedNewlinesAreWhole | include/jpcre2.hpp:5036-5040 | in an encoded text a boundary follows every CR LF, as FindAllMissesNothing asks |
| RegexMatch.FindAllMissesNothing | include/jpcre2.hpp:4994-5058 | over an engine that is leftmost where characters begin, with any match options, in subjects with characters of several units too: no match is missed, nothing matches in the gaps |
| RegexMatch.ErrsExactly | include/jpcre2.hpp:5028-5058 | over an engine that errs only inside characters and outside the subject: the loop reports no error if and only if no match options are set, there was at most one match to look for, or the last one is empty at the end; so without options the engine is never asked inside a character |
| RegexMatch.OptionsEndInError | include/jpcre2.hpp:5030-5035 | a concrete pattern, subject and option for which the match is found and an error reported |
| RegexMatch.FillSplicesBack | include/jpcre2.hpp:4634-4671 | splicing every match with itself rebuilds the subject from any point on |
| RegexMatch.FillIsIdentity | include/jpcre2.hpp:2056-2062 | replacing with callback::fill, or any callback that gives its match back, gives back the subject, for every pattern and start offset |
| RegexMatch.Matcher.FindMatches | include/jpcre2.hpp:4840-5095 | the loop over the output vector records exactly those matches in the offset and substring vectors and returns their number |
| RegexMatch.Matcher.AdvanceOffset | include/jpcre2.hpp:5035-5047 | one character further: both units of a CRLF newline, or all units of a character |
| RegexMatch.Matcher.Replace | include/jpcre2.hpp:4617-4672 | the result is the gaps interleaved with the callback outputs in order, and the subject if the callback is callback::fill; the counter is the number of matches, and the early return for offsets out of order is never taken |
| CollectFields.WritesAreReachable | scripts/generate_proxy_validation.go:307-339 | what is collected is a tagged field of a type reachable by a path of untagged embedded fields that avoids the visiting types |
| CollectFields.ReachableIsWritten | scripts/generate_proxy_validation.go:308-326 | although visiting only blocks the current path, no field of a reachable type is lost, on any graph |
| CollectFields.CollectsExactly | scripts/generate_proxy_validation.go:307-339 | the result's keys are exactly the tagged fields of the reachable types, and each entry is such a field's rule |
| CollectFields.Collector.Collect | scripts/generate_proxy_validation.go:307-339 | terminates on every graph, cycles included, makes the specified assignments and restores visiting |
| CollectFields.CollectAll | scripts/generate_proxy_validation.go:307-339 | from empty maps the collected map has exactly the reachable tagged fields |
| CollectLaws.KindExactly | scripts/generate_proxy_validation.go:404-431 | the kind of a type with any number of stars before it, name by name and constructor by constructor, and the type it embeds |
| CollectLaws.LastFieldWins | scripts/generate_proxy_validation.go:316-338 | of the fields of a type that can set an entry, itself or through what they embed, the last one does: its kind is the field's, it is required exactly if it is server or port and may not be omitted, and an embedded type sets what it collects outside the type that embeds it |
| LooseBase64.RoundTrip | bridge/preprocess.go:178-184 | each of the four decoders inverts its own encoder on every byte string |
| LooseBase64.DecodersAgree | bridge/preprocess.go:185-190 | any two decoders that accept a text agree on its bytes, so trying them in order is unambiguous |
| LooseBase64.DecodeLooseBase64 | bridge/preprocess.go:178-192 | succeeds exactly when some decoder accepts, with the bytes every accepting decoder gives |
| LooseBase64.DecodeEncoded | bridge/preprocess.go:178-192 | whatever bytes were encoded in any of the four encodings come back |
| Base64Text.AlphabetExactly | bridge/preprocess.go:178-184 | the characters are those of the two alphabets of RFC 4648, in order, and no other character has a value |
| Base64Text.GroupIsNumber | bridge/preprocess.go:178-184 | a group of bytes and the characters it is written as are one number, of base 256 and of base 64 |
| Base64Text.LengthExactly | bridge/preprocess.go:178-184 | how long a text is, padded and raw |
| GoStrings.SplitOfJoin | bridge/mieru.go:48-62 | the lines of joined lines are those lines, if none holds a line break |
| GoStrings.DashedInjective | bridge/mieru.go:254-254 | name-index fragments tell both parts apart, even if names hold dashes and digits |
| Mieru.RangeIsAccepted | bridge/mieru.go:272-280 | every ordered range of ports is accepted as it stands |
| Mieru.PortsAreNormal | bridge/mieru.go:259-280 | a projected binding denotes ports 1 to 65535 in order and is in normal form: projecting it again changes nothing |
| Mieru.AddPorts | bridge/mieru.go:226-242 | every binding adds its port and protocol in order, or all fails |
| Mieru.ProjectServer | bridge/mieru.go:211-257 | succeeds exactly for the valid servers, and then with the server's link |
| Mieru.ProjectProfile | bridge/mieru.go:133-209 | succeeds exactly for valid profiles under a fresh name, with one link per server and the number of bindings |
| Mieru.ProjectClientConfig | bridge/mieru.go:98-131 | succeeds exactly for the valid configurations (running bounds amount to a bound on the total), with one link per server; otherwise nothing |
| Mieru.OneLinkPerServer | bridge/mieru.go:195-209 | link k is the link of the k-th server |
| Mieru.OriginsAreOrdered | bridge/mieru.go:109-119 | servers are enumerated completely, in order, none twice |
| Mieru.BindingsBoundLinks | bridge/mieru.go:115-118 | there are at least as many links as profiles and at most as many as bindings, hence at most 16384 |
| Mieru.FragmentsAreDistinct | bridge/mieru.go:247-255 | no two links of a configuration have the same fragment |
| MieruLinks.BindingExactly | bridge/mieru.go:259-280 | a binding is projected if and only if it has a known protocol and either a port from 1 to 65535 or two such numbers in order with a dash between, and to what they are |
| MieruLinks.SettingsExactly | bridge/mieru.go:159-193 | when the settings of a profile are supported, and the values under each key they give |
| MieruLinks.LinkExactly | bridge/mieru.go:211-257 | read from a link: user, password, host with brackets exactly around addresses with colons, every port and protocol in order, the settings under their keys and no other key, and the fragment |
| Mieru.NoStandardLineRemains | bridge/mieru.go:35-63 | no line of an expanded subscription is a standard link, valid or not |
| Mieru.LinksAreIndependent | bridge/mieru.go:53-61 | a standard link is all or nothing and leaves the lines before and after it as they would be without it |
| MieruLines.PayloadExactly | bridge/mieru.go:74-96 | which configuration a standard link carries: the sizes of its payload and of what that decodes to, with the limits written out |
| MieruLines.LinkBecomesServers | bridge/mieru.go:44-61 | a link with a valid configuration becomes the links of its servers in order, whatever blanks and carriage returns follow it |
| MieruLines.OtherLineStays | bridge/mieru.go:46-51 | every other line stays as it is, with its trailing blanks |
| MieruLines.EncodedExpandsAlike | bridge/mieru.go:35-42 | a subscription in base64, in any of the four encodings, expands as the text it encodes, if that holds a standard link |
| Mieru.ExpandSubscription | bridge/mieru.go:35-63 | the loop over lines, after the base64 fallback, computes the specification, leaves no standard line, and returns a text without standard lines unchanged |
| ProxyFilter.NumbersAgree | bridge/parser.go:167-212 | a number is the same whether written as integer of either sign, float or text |
| ProxyKinds.KindsExactly | bridge/parser.go:120-165 | value by value, the kinds it is compatible with and no other |
| ProxyKinds.EmptyExactly | bridge/parser.go:110-118 | a required value is empty if and only if it is null or text of white space only |
| ProxyFilter.ValidateProxyMapping | bridge/parser.go:75-108 | accepts exactly the valid mappings, whatever order the rules come in, and every reason for a rejection is a true one |
| ProxyFilter.SelectedIsSound | bridge/parser.go:42-66 | the selection is an order-preserving subsequence of valid mappings with distinct non-empty names, and takes exactly the first valid one of each name |
| ProxyFilter.SelectedIsComplete | bridge/parser.go:50-66 | every valid mapping is represented by one of its name at or before it |
| ProxyFilter.SelectedIsStable | bridge/parser.go:42-66 | filtering a filtered list changes nothing |
| ProxyFilter.NamesAreTaken | bridge/parser.go:50-52 | the set of names kept so far answers whether an earlier valid mapping has a name |
| ProxyFilter.StrictLosesNoName | bridge/parser.go:42-66 | a document the strict filter takes loses no name |
| ProxyFilter.FilterProxies | bridge/parser.go:42-72 | lenient runs take the selection; strict ones take the same or blame the first offending mapping; both fail when nothing is selected |
| ProxyFilter.ShadowedProxyAccepted | bridge/parser.go:50-52 | a document with an invalid proxy behind a valid one of its name has no offending mapping |
| ProxyFilter.ParseSubscription | bridge/parser.go:22-72 | when a whole subscription succeeds, and with which proxies, for native documents and for links |

## Left out

- Parser, renderer and lexer error texts and source positions are not modelled; errors are told apart by kind.
- InjaParser.Parser.ParsePipe: a pipe without an operand reads the back of an empty argument list in the code; here it is an error of its own, `NoPipeOperand`, and `InjaExpressionLimits.StarvesExactly` says when.
- InjaTemplate.RoundTrip: `extends` and the files behind `include` are behind a parameter that loads them; sub-templates are not parsed recursively.
- InjaParser.Parser.ParseInto: `current_block` is not set to null at the end of the input, so that the theorems can say where it stood, and `current_expression_list` is folded into the creation of nodes.
- InjaOperands.UnclosedBracketVanishes: for JSON texts inside the bracket; with names, operators or calls inside the expression is what they make of it.
- InjaEval.Refines: `super` renders a block inside an expression and is not modelled; the value primitives and callbacks are parameters, and values are copied where the code shares pointers.
- InjaEval.VisitKeepsStacksInStep: is about meanings that do not stop at a dot over a resolved name; StaysInStepExactly has both directions.
- InjaEval.EvaluatesToMeaning: has one direction; InjaNames.EvaluatesToMeaningExactly has both.
- InjaRender.RenderIsScoped: object loops, which move the loop data into a field of itself, `include`, `extends` and super blocks are not modelled; a `set` or loop variable named `loop` is excluded, since it overwrites the loop object.
- InjaRenderer.Renderer.RenderBlock: `break_rendering` is only set by `extends`, which is not modelled.
- InjaRenderer.Renderer.RenderStatement: include, extends and overridden blocks need the other templates, which are not modelled.
- InjaRenderer.Renderer.Visit: as for InjaEval.Refines.
- InjaRender.LoopDataRestored: after an outermost loop the loop data stays stale, as in the code.
- InjaSource.TemplateRoundTrip: the text is written with default delimiters without plus and minus, and a blank after every token of a tag; comments and line statements are covered between tokens and tree (InjaStyles.RoundTripInAnyStyle) and tag by tag (InjaDelimiters), not in whole texts; a byte order mark is dropped before.
- InjaLexer.TextsFrom: characters are bytes and the character classes are those of the C locale.
- Islamic and IsoWeek: stream printing, the comparison operators and compound assignment are one line each over what is modelled; date.h is not part of this model, and Gregorian day numbers are defined by the leap rule.
- RegexMatch: patterns with `\K` or, in UTF mode, `\C`, named substrings, error text, ownership of the match data and an output vector that is too small.
- CollectFields: field tags are taken as parsed, and the generated rule table is a parameter.
- LooseBase64: the legacy link rewriting of preprocess.go rests on a URL query parser that is not part of this model, and the user-info normalisation on a case folding that may change the length of text outside ASCII.
- Mieru.ProjectClientConfig: password hashes, traffic patterns, enumeration names, IP parsing, strict base64 and protocol buffers are parameters; the query is kept as the list of added pairs instead of its sorted encoding.
- Mieru.NoStandardLineRemains: rests on what net/url promises, that a URL begins with its scheme and holds no line break.
- ProxyFilter.NumbersAgree: floats are real numbers; what converting the float 2^63 yields is a parameter, because Go leaves it to the machine, and only ASCII white space is trimmed.
- Command line, server, containers, code generation output, file access and encryption are input and output around what is modelled.

# MicroML front end in Dafny

A verified model of the MicroML front end. Source text goes through three stages:

- **Lexer.** A regex-driven lexer turns the text into tokens.
- **Parser.** A one-token-lookahead recursive-descent parser builds the immutable expression tree: constants, variables, binary primitives, `if`, `let`, `let`-functions and application.
- **Renderer.** `MermaidVisitor` writes the tree out as a Mermaid `graph TD` description. It numbers nodes `N0, N1, …` in pre-order and joins each node to its children with role-labelled edges.

Files:

- `wrappers.dfy`: `Option` and `Result`.
- `ast.dfy`: the expression tree, its children in left-to-right order, sizes, and parent-child link counts.
- `numerals.dfy`: the decimal spelling of numbers, used by `NewId` and by node texts. It also holds `int.Parse` restricted to the 32-bit range.
- `lexer.dfy`: the token regex, split into its five alternatives, tried in order at each position. The scan follows `Regex.Matches`. The token loop tracks the running position.
- `parser.dfy`: every production is a pure function of the token list and the current index. Each returns the tree and the next index, or the first error, which plays the role of the source's exceptions.
- `printer.dfy`: the parser's partner. `Print` writes a tree as fully parenthesised tokens. The parser is proved to read every printed tree back unchanged.
- `mermaid.dfy`: the renderer as a pure fold that threads the id counter. It is checked against an independent reference: the pre-order listing of the tree, and the parent-child links read off that listing.
- `scenarios.dfy`: worked examples. They fix behaviours that are easy to guess wrongly.

Behaviours taken from the code that are easy to guess wrongly:

- **Unmatched characters.** A character that no alternative of the token regex matches, such as `&`, is skipped silently, because `Regex.Matches` steps over it. It is not an error. It also does not advance the running position (`Scenarios.AmpersandIsSkipped`).
- **Only lexing failure.** The one lexing failure is the symbol `==`. The regex matches it, but the symbol switch has no arm for it (`Lexer.LexFailsExactlyOnDoubleEquals`).
- **Token positions.** A position is the total length of the matches before the token, whitespace included. It equals the character offset when no character was skipped (`Lexer.LexPositionsAreOffsets`). Otherwise it lags behind the offset by the characters skipped before the token (`Lexer.LexPositionsLag`).
- **`Prim` edges.** `Prim` edges carry no label. The `"L"`/`"R"` strings only reach `Visit`'s unused `lbl` parameter. The `LetFun` body edge is labelled `fBody`.

## Model

| member | source | states |
|---|---|---|
| Ast.Children | MicroMLAst.Core/Ast/Nodes.cs:7-24 | constants and variables have no children; `Prim`, `Let`, `LetFun` and `Call` have two; `If` has three; every child is a proper subterm |
| Ast.LinksIsSizeMinusOne | MicroMLAst.Core/Ast/Nodes.cs:4-24 | a tree of `n` nodes has exactly `n - 1` parent-child links |
| Numerals.NatToString | MicroMLAst.Core/Ast/Visitor.cs:24 | the counter's decimal spelling is all digits with no leading zero |
| Numerals.DigitsValueOfNatToString | MicroMLAst.Core/Ast/Visitor.cs:24 | reading the decimal spelling back gives the number |
| Numerals.NatToStringInjective | MicroMLAst.Core/Ast/Visitor.cs:24 | distinct counters give distinct node ids `N<k>` |
| Numerals.IntToString | MicroMLAst.Core/Ast/Visitor.cs:36-38 | an integer constant's text is non-empty and starts with `-` exactly when the constant is negative |
| Numerals.IntToStringSpellsMagnitude | MicroMLAst.Core/Ast/Visitor.cs:36-38 | after the sign, an integer constant's text is the decimal spelling of its magnitude, with no leading zero |
| Numerals.ParseInt32OfNatToString | MicroMLAst.Core/Parsing/Parser.cs:149 | `int.Parse` reads back the decimal spelling of any value up to 2^31-1 |
| Lexer.RunEnd | MicroMLAst.Core/Parsing/Lexer.cs:28-31 | the greedy run of `\s`, `\d` or `\w` from a position: every character inside is in the class, and the next one is not |
| Lexer.RunEndIsTheMaximalRun | MicroMLAst.Core/Parsing/Lexer.cs:28-31 | any end point with that property is the one `RunEnd` finds |
| Lexer.MatchAt | MicroMLAst.Core/Parsing/Lexer.cs:26-34 | a match found at a position starts there, is non-empty and lies inside the input |
| Lexer.MatchAtIsSound | MicroMLAst.Core/Parsing/Lexer.cs:26-34 | the match satisfies the pattern of its group, and its text is the input at that position |
| Lexer.AltMatchUnique | MicroMLAst.Core/Parsing/Lexer.cs:28-32 | each alternative matches at most one length at a position (greedy quantifiers, `\b` after `true`/`false`) |
| Lexer.MatchAtIsFirstAlternative | MicroMLAst.Core/Parsing/Lexer.cs:26-34 | no earlier alternative matches where a later one is chosen; no match exactly when no alternative matches |
| Lexer.MatchesSkipsUnmatched | MicroMLAst.Core/Parsing/Lexer.cs:42 | positions where nothing matches contribute nothing to the scan |
| Lexer.MatchesIsAScan | MicroMLAst.Core/Parsing/Lexer.cs:42 | `Matches`, the model of `Regex.Matches`: the matches form a left-to-right scan: each is the regex's match at its start, and unmatched stretches lie between them |
| Lexer.ScanIsUnique | MicroMLAst.Core/Parsing/Lexer.cs:42 | there is only one such scan of an input, so `Matches` is pinned down by it |
| Lexer.ScanMatchesAreOrdered | MicroMLAst.Core/Parsing/Lexer.cs:42 | scanned matches are in increasing, non-overlapping positions |
| Lexer.KeywordOrIdent | MicroMLAst.Core/Parsing/Lexer.cs:51-60 | an identifier match becomes `Ident` exactly when it is not one of the six keywords; a keyword gets the kind spelled by its text |
| Lexer.SymbolType | MicroMLAst.Core/Parsing/Lexer.cs:71-82 | a known symbol gets the kind spelled by its text; the unknown ones are neither `:=` nor a one-character symbol |
| Lexer.Classify | MicroMLAst.Core/Parsing/Lexer.cs:44-62 | a token keeps the match text and the current position and is never EOF; it fails exactly on an unknown symbol, with that text and position |
| Lexer.LexMatches | MicroMLAst.Core/Parsing/Lexer.cs:41-65 | a successful loop ends with exactly one EOF token, each token ends at or before the next one starts, and EOF sits at the start position plus the total matched length |
| Lexer.LexMatchesSkipsSpace | MicroMLAst.Core/Parsing/Lexer.cs:44 | whitespace yields no token and only advances the position |
| Lexer.Lex | MicroMLAst.Core/Parsing/Lexer.cs:39-65 | as `LexMatches`, from position 0 over the whole scan |
| Lexer.LexMatchesPositionsAreMatchedLengths | MicroMLAst.Core/Parsing/Lexer.cs:41-64 | the token made from the `k`th non-whitespace match sits at the start position plus the total length of the matches before it |
| Lexer.LexPositionsLag | MicroMLAst.Core/Parsing/Lexer.cs:39-65 | each token's position is the total length of the matches before it, and is at most its match's offset in the input: skipped characters make the position lag the offset |
| Lexer.LexTokensAreWellFormed | MicroMLAst.Core/Parsing/Lexer.cs:45-62 | every lexed token's text fits its kind: digits for `IntLit`, `true`/`false` for `BoolLit`, a non-keyword name for `Ident`, the fixed spelling otherwise |
| Lexer.LexFailsExactlyOnDoubleEquals | MicroMLAst.Core/Parsing/Lexer.cs:71-82 | lexing fails exactly when the scan contains `==`, and the failure names `==` |
| Lexer.MatchesTileRecognisedInput | MicroMLAst.Core/Parsing/Lexer.cs:28-42 | when every character is recognised, the matches tile the input and their texts concatenate back to it |
| Lexer.LexPositionsAreOffsets | MicroMLAst.Core/Parsing/Lexer.cs:41-65 | when every character is recognised, each token's position is its offset in the input, and EOF sits at the input's length |
| Lexer.LexemesArePiecesInOrder | MicroMLAst.Core/Parsing/Lexer.cs:39-65 | one token per non-whitespace match, plus EOF; each lexeme is the input text at its match, in input order without overlap |
| Parser.Next | MicroMLAst.Core/Parsing/Parser.cs:36 | the parser only advances past a non-EOF token, so a next token always exists and the "lex error" branch cannot be reached |
| Parser.ParseExpr | MicroMLAst.Core/Parsing/Parser.cs:53-58 | a success consumes at least one token, stops at or before EOF, and builds a grammar tree that names only identifiers of the input |
| Parser.LetExpr | MicroMLAst.Core/Parsing/Parser.cs:62-90 | as `ParseExpr`, for both `let` forms |
| Parser.IfExpr | MicroMLAst.Core/Parsing/Parser.cs:93-101 | as `ParseExpr`, for `if … then … else …` |
| Parser.ExprAfter | MicroMLAst.Core/Parsing/Parser.cs:73-76 | as `ParseExpr`, for a keyword followed by an expression |
| Parser.CallExpr | MicroMLAst.Core/Parsing/Parser.cs:105-110 | as `ParseExpr`, for application chains |
| Parser.CallTail | MicroMLAst.Core/Parsing/Parser.cs:108 | the application loop consumes zero or more tokens and keeps a grammar tree |
| Parser.AddExpr | MicroMLAst.Core/Parsing/Parser.cs:113-123 | as `ParseExpr`, for additive chains |
| Parser.AddTail | MicroMLAst.Core/Parsing/Parser.cs:116-121 | the additive loop consumes zero or more tokens, and its operators are from the fixed set |
| Parser.MulExpr | MicroMLAst.Core/Parsing/Parser.cs:126-135 | as `ParseExpr`, for products |
| Parser.MulTail | MicroMLAst.Core/Parsing/Parser.cs:129-133 | the multiplicative loop consumes zero or more tokens and keeps a grammar tree |
| Parser.Atom | MicroMLAst.Core/Parsing/Parser.cs:138-163 | as `ParseExpr`; integer constants are never negative |
| Parser.AtomOfIntLiteral | MicroMLAst.Core/Parsing/Parser.cs:149 | an integer token is a digit string; when its value fits in an `int`, the atom is that constant and consumes the one token; when it does not, the atom fails with `BadInt` on that token |
| Parser.CallTailEndsOnlyBeforeANonAtom | MicroMLAst.Core/Parsing/Parser.cs:165-167 | `PeekIsStartOfAtom` decides the application loop: it ends in place exactly when the token is not a name, an integer, a boolean or `(` |
| Parser.ParseTokens | MicroMLAst.Core/Parsing/Parser.cs:25-30 | a successful parse of a whole stream is a grammar tree over the stream's identifiers |
| Parser.Parse | MicroMLAst.Core/Parsing/Parser.cs:22-31 | lexing then parsing yields only trees of the grammar |
| Parser.ParseFailsInLexerExactlyOnDoubleEquals | MicroMLAst.Core/Parsing/Parser.cs:22-31 | the pipeline fails in the lexer exactly when the scan meets `==` |
| Printer.PrintIsLexable | MicroMLAst.Core/Parsing/Lexer.cs:45-62 | every printed token is one the lexer can deliver |
| Printer.AtomOfPrint | MicroMLAst.Core/Parsing/Parser.cs:138-163 | an atom reads a printed tree back whole and stops just past its tokens |
| Printer.ExprOfPrint | MicroMLAst.Core/Parsing/Parser.cs:53-135 | an expression reads a printed tree back whole when a stopping token follows it |
| Printer.PrintRoundTrip | MicroMLAst.Core/Parsing/Parser.cs:22-31 | parsing the printed tokens of any printable tree, followed by EOF, gives back the same tree: the parser inverts the printer |
| Mermaid.Visit | MicroMLAst.Core/Ast/Visitor.cs:31-73 | a visit returns the counter's value as the node's id, advances the counter by the size of the tree, and first declares the node with its kind's shape and text |
| Mermaid.VisitChildren | MicroMLAst.Core/Ast/Visitor.cs:45-70 | visiting the children from the `k`th on advances the counter by their total size |
| Mermaid.Roles | MicroMLAst.Core/Ast/Visitor.cs:45-70 | one edge role per child |
| Mermaid.EmitEdgeLayout | MicroMLAst.Core/Ast/Visitor.cs:27-28 | `EmitEdge` writes two spaces, the source name and ` -->`, then the target name directly when there is no role, or the role between bars and then the target |
| Mermaid.NewIdInjective | MicroMLAst.Core/Ast/Visitor.cs:24 | `NewId` gives two counters the same name exactly when they are equal |
| Mermaid.Render | MicroMLAst.Core/Ast/Visitor.cs:16-21 | the result is the whole buffer, which extends the earlier contents with the header; the counter advances by the tree's size |
| Mermaid.RenderDrawsTheTree | MicroMLAst.Core/Ast/Visitor.cs:16-21 | the whole buffer is the earlier contents, the header line, then the text of lines that draw the tree: its pre-order declarations numbered from the counter, one edge per parent-child link, each child targeted once, each edge under its child's role, each edge placed after the declarations of every node up to the end of its target's subtree and before all the others, and each edge placed after every edge into its target's subtree, which fixes the order of edges that fall between the same two declarations |
| Mermaid.VisitDraws | MicroMLAst.Core/Ast/Visitor.cs:31-73 | a visit's lines draw the tree, in the sense above, including the order of every edge against every declaration and against every other edge |
| Mermaid.VisitOrdersLines | MicroMLAst.Core/Ast/Visitor.cs:45-72 | an edge to a child is emitted after every line of the child's subtree (and of what came before it) and before the next sibling's subtree: a declaration precedes the edge exactly when its id is below the end of the target's subtree, and every edge whose target lies strictly inside that subtree precedes it |
| Mermaid.RenderFresh | MicroMLAst.Web/Program.cs:17-21 | a fresh visitor's output begins with `graph TD` |
| Mermaid.VisitDeclaresPreOrder | MicroMLAst.Core/Ast/Visitor.cs:31-73 | the node declarations are exactly the tree's nodes in pre-order, numbered consecutively from the counter |
| Mermaid.VisitTargetsEachChildOnce | MicroMLAst.Core/Ast/Visitor.cs:45-70 | every node but the root is the target of exactly one edge, and nothing else is a target |
| Mermaid.VisitDrawsEveryLink | MicroMLAst.Core/Ast/Visitor.cs:45-70 | there are as many edges as parent-child links in the tree |
| Mermaid.VisitEdgesAreLinks | MicroMLAst.Core/Ast/Visitor.cs:45-70 | each edge joins a node to one of its children, by pre-order number, and carries that child's role |
| Mermaid.NodeIdsInRange | MicroMLAst.Core/Ast/Visitor.cs:24-33 | the ids a visit declares are the counter's values from its start up to start plus size |
| Mermaid.RenderTwiceContinuesIds | MicroMLAst.Core/Ast/Visitor.cs:10-24 | a second tree rendered on the same visitor is numbered from where the first stopped, so no id names a node of both trees |
| Scenarios.AmpersandIsSkipped | MicroMLAst.Core/Parsing/Lexer.cs:41-65 | `1&2` lexes as two integer tokens at positions 0 and 1, then EOF at 2 |
| Scenarios.DigitsThenNameLexes | MicroMLAst.Core/Parsing/Lexer.cs:28-31 | `12ab` lexes as `IntLit 12` at 0 and `Ident ab` at 2, then EOF at 4: the digit run ends at the first letter |
| Scenarios.TrueishIsOneName | MicroMLAst.Core/Parsing/Lexer.cs:30-31 | `trueish` is one `Ident` token, because `true` must be followed by a word boundary |
| Scenarios.DoubleEqualsFails | MicroMLAst.Core/Parsing/Lexer.cs:71-82 | `a==b` fails on `==` at position 1 |
| Scenarios.SumsGroupLeft | MicroMLAst.Core/Parsing/Parser.cs:113-123 | three atoms joined by two additive operators, such as `1 - 2 - 3`, parse as `(1 - 2) - 3`: the operator met first builds the inner node |
| Scenarios.ProductBindsTighter | MicroMLAst.Core/Parsing/Parser.cs:113-135 | `a + b * c` parses as `a + (b * c)` |
| Scenarios.ProductBindsTighterOnTheLeft | MicroMLAst.Core/Parsing/Parser.cs:113-135 | `a * b + c` parses as `(a * b) + c` |
| Scenarios.ProductsGroupLeft | MicroMLAst.Core/Parsing/Parser.cs:126-135 | three atoms joined by two `*`, such as `a * b * c`, parse as `(a * b) * c` |
| Scenarios.ApplicationTakesASum | MicroMLAst.Core/Parsing/Parser.cs:105-123 | `f a + b` parses as `f (a + b)`: each argument of an application is a whole additive expression |
| Scenarios.ApplicationGroupsLeft | MicroMLAst.Core/Parsing/Parser.cs:105-110 | the application loop, given `f` and then operands `a` and `b`, builds `(f a) b` |
| Scenarios.UnclosedParenFails | MicroMLAst.Core/Parsing/Parser.cs:156-162 | the pipeline on `(1` fails expecting `)` where EOF was found, at position 2 |
| Scenarios.TrailingParenFails | MicroMLAst.Core/Parsing/Parser.cs:26-29 | the pipeline on `1 )` fails: the expression stops before `)`, and the parse then expects EOF and finds `)` at position 2 |
| Scenarios.JuxtaposedLiteralsApply | MicroMLAst.Core/Parsing/Parser.cs:105-110 | the pipeline accepts `1 1` as the application `Call(1, 1)` |
| Scenarios.TooLargeLiteralFails | MicroMLAst.Core/Parsing/Parser.cs:149 | `2147483648` lexes as one integer token, but the pipeline fails on it with `BadInt`, as `int.Parse` overflows |
| Scenarios.IfAfterOperatorFails | MicroMLAst.Core/Parsing/Parser.cs:116-146 | after an additive operator, an `if` token is rejected by the atom rule as a bad token, so `a + if …` fails |
| Scenarios.RenderSumLines | MicroMLAst.Core/Ast/Visitor.cs:45-49 | `1 + x` gives the operator node, then each operand's node followed by an unlabelled edge to it |
| Scenarios.RenderIfLines | MicroMLAst.Core/Ast/Visitor.cs:50-55 | the edges of an `if` are labelled `cond`, `then` and `else`, and a boolean constant reads `True` |
| Scenarios.RenderLetLines | MicroMLAst.Core/Ast/Visitor.cs:56-60 | a `let` node reads `let x`, and its edges are labelled `rhs` then `body` |
| Scenarios.RenderLetFunLines | MicroMLAst.Core/Ast/Visitor.cs:61-65 | a `LetFun` node shows its function name but not its parameter, and its edges are labelled `fBody` then `letBody` |
| Scenarios.RenderCallLines | MicroMLAst.Core/Ast/Visitor.cs:66-70 | a `call` node's edges are labelled `fun` then `arg` |
| Scenarios.RectLineText | MicroMLAst.Core/Ast/Visitor.cs:45-46 | an operator node is written `  N0["+"]` |
| Scenarios.StadiumLineText | MicroMLAst.Core/Ast/Visitor.cs:39-40 | a boolean constant node is written `  N1(["True"])` |
| Scenarios.RoundedLineText | MicroMLAst.Core/Ast/Visitor.cs:56-57 | a `let` node is written `  N12("let x")`, with ids past one digit |
| Scenarios.PlainArrowText | MicroMLAst.Core/Ast/Visitor.cs:27-28 | `EmitEdge` writes an edge without a label as `  N0 -->N1` |
| Scenarios.LabelledArrowText | MicroMLAst.Core/Ast/Visitor.cs:27-28 | `EmitEdge` writes a labelled edge as `  N3 -->\|cond\|N10` |

## Left out

- **The web layer and dependency injection.** The HTTP endpoint, static files, DI registration and the browser-side drawing are I/O and glue.
- **Concurrency.** The singleton `Parser` keeps its cursor in shared mutable fields. Concurrent requests are not modelled, and each parse is a pure function.
- **Laziness.** The lexer's lazy `yield` stream is materialised as a list before parsing.
- Parser.Parse: when an input has both a parse error and a later `==`, the source's lazy lexer lets the parse error surface first. The model reports the lexing failure. Which inputs succeed, and with which tree, is the same in both.
- **Error text.** Exception messages are replaced by error values. `Expected` carries the expected and found kinds, as the source's messages do, and adds the position, which those messages lack. `BadToken` carries the token, as the source's message does. `BadInt` adds the offending token, where the source only lets `int.Parse`'s overflow escape. The unknown-symbol error carries the symbol and adds its position, which the source's "Unknown char" message lacks.
- **The .NET regex engine.** It is replaced by the five alternatives written out in order. The character classes `\s`, `\d` and `\w` are restricted to ASCII, and Unicode letters and digits are not modelled.
- **Integer widths.** Token positions and the id counter are unbounded integers. The source's `int` counters would wrap after 2^31 characters or nodes. Integer constants are kept to the 32-bit range, as `int.Parse` does.
- **Line endings.** `AppendLine`'s line terminator is modelled as `"\n"`.
- **Quotes.** Node texts are written between quotes without escaping, as in the source. No escaping rule is modelled.
- **Unused parameter.** `Visit`'s `lbl` parameter is never read by the source, and is not modelled.
- Mermaid.Roles: its contract states only one role per child. `VisitEdgesAreLinks` ties each edge to its child's role, and the values themselves are pinned by the scenario lemmas `RenderSumLines`, `RenderIfLines`, `RenderLetLines`, `RenderLetFunLines` and `RenderCallLines`, one per kind with children.
- Mermaid.Render: its own contract states only the buffer, counter and header. `RenderDrawsTheTree` states the rest through the lines rather than as one string: the declarations in pre-order, the edges as links, and the place of each edge among the declarations. Edges that fall between the same two declarations have nested targets, and `Mermaid.Draws` orders them innermost first. `Scenarios.RectLineText` and the other `…LineText` and `…ArrowText` lemmas fix the text of individual lines.

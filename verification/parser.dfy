/**
 * The MicroML parser: one-token-lookahead recursive descent over the lexer's tokens.
 * The source keeps the current token in a mutable field; here every production is a
 * pure function of the token list and the index of the current token, returning the
 * tree it built and the index of the next unconsumed token.
 *
 *   expr     ::= 'let' letExpr | 'if' ifExpr | callExpr
 *   letExpr  ::= IDENT IDENT '=' expr 'in' expr 'end' | IDENT '=' expr 'in' expr 'end'
 *   ifExpr   ::= expr 'then' expr 'else' expr
 *   callExpr ::= addExpr { addExpr }          (while the lookahead starts an atom)
 *   addExpr  ::= mulExpr { ('+'|'-'|'<'|'=') mulExpr }
 *   mulExpr  ::= atom { '*' atom }
 *   atom     ::= INT | BOOL | IDENT | '(' expr ')'
 */
module Parser {
  import opened Wrappers
  import opened Ast
  import opened Lexer
  import opened Numerals

  /** Why a parse failed. */
  datatype ParseError =
    | Expected(expected: TokenType, found: TokenType, pos: int)  // `Expect` and the final EOF check
    | BadToken(tok: Token)                                        // a token that cannot start an atom
    | BadInt(tok: Token)                                          // `int.Parse` failed: the literal overflows an `int`

  /** Why the whole pipeline failed. */
  datatype Error = LexFailed(lex: LexError) | ParseFailed(parse: ParseError)

  /** A production's result: the tree and the index of the first token it did not consume. */
  datatype Parsed = Parsed(e: Expr, next: nat)

  /** What a production returns; the first failure ends the parse, like the source's exceptions. */
  datatype Outcome = Success(value: Parsed) | Failure(error: ParseError) {
    predicate IsFailure() { Failure? }
    function PropagateFailure(): Outcome requires Failure? { this }
    function Extract(): Parsed requires Success? { value }
  }

  /** What `Expect` returns: the index after the expected token, or the mismatch. */
  datatype Step = Advanced(next: nat) | Stuck(error: ParseError) {
    predicate IsFailure() { Stuck? }
    function PropagateFailure(): Outcome requires Stuck? { Failure(error) }
    function Extract(): nat requires Advanced? { next }
  }

  /** What `Eat` returns: whether the token was consumed, and the index of the current token after. */
  datatype Eaten = Eaten(ate: bool, next: nat)

  /** A token list as the lexer delivers it: it ends with an EOF token and every token is well formed. */
  predicate ValidStream(toks: seq<Token>) {
    && |toks| >= 1
    && toks[|toks| - 1].typ == EOF
    && AllWellFormed(toks)
  }

  /** The parser's state: a valid stream and the index of the current token. */
  predicate Valid(toks: seq<Token>, i: nat) {
    ValidStream(toks) && i < |toks|
  }

  /** The operators `addExpr` accepts, all on one precedence tier. */
  predicate IsAddOp(t: TokenType) {
    t == Plus || t == Minus || t == Less || t == Equal
  }

  /** The operator texts a parsed `Prim` can carry. */
  predicate IsOperator(op: string) {
    op == "+" || op == "-" || op == "<" || op == "=" || op == "*"
  }

  /**
   * The trees the grammar can produce: operators come from the fixed set, and integer
   * constants are never negative (there is no unary minus).
   */
  predicate InGrammar(e: Expr) {
    match e
    case CstI(v) => v >= 0
    case CstB(_) => true
    case Var(_) => true
    case Prim(op, l, r) => IsOperator(op) && InGrammar(l) && InGrammar(r)
    case If(c, t, f) => InGrammar(c) && InGrammar(t) && InGrammar(f)
    case Let(_, rhs, body) => InGrammar(rhs) && InGrammar(body)
    case LetFun(_, _, fb, lb) => InGrammar(fb) && InGrammar(lb)
    case Call(fn, arg) => InGrammar(fn) && InGrammar(arg)
  }

  /** The texts of the identifier tokens of a stream. */
  function IdentLexemes(toks: seq<Token>): set<string> {
    set k | 0 <= k < |toks| && toks[k].typ == Ident :: toks[k].lexeme
  }

  /** A successful production built a tree of the grammar, naming only identifiers of the stream. */
  predicate Built(toks: seq<Token>, e: Expr) {
    InGrammar(e) && Names(e) <= IdentLexemes(toks)
  }

  /** A successful production consumed at least one token and stopped at or before EOF. */
  predicate Consumed(toks: seq<Token>, i: nat, r: Outcome) {
    r.Success? ==> i < r.value.next < |toks| && Built(toks, r.value.e)
  }

  /** A successful loop consumed zero or more tokens and stopped at or before EOF. */
  predicate Continued(toks: seq<Token>, i: nat, r: Outcome) {
    r.Success? ==> i <= r.value.next < |toks| && Built(toks, r.value.e)
  }

  // ------------------------------------------------------------- helpers

  /**
   * `Next`: advance to the following token. It is only ever applied to a token other than
   * EOF, so the following token exists and the source's "lex error" branch is unreachable.
   */
  function Next(toks: seq<Token>, i: nat): (j: nat)
    requires Valid(toks, i) && toks[i].typ != EOF
    ensures j == i + 1 && j < |toks|
  {
    i + 1
  }

  /** `Eat`: consume the current token if it has kind `t`, and say whether it did. */
  function Eat(toks: seq<Token>, i: nat, t: TokenType): (r: Eaten)
    requires Valid(toks, i) && t != EOF
    ensures r.ate <==> toks[i].typ == t
    ensures r.next == (if r.ate then i + 1 else i) && r.next < |toks|
  {
    if toks[i].typ == t then Eaten(true, Next(toks, i)) else Eaten(false, i)
  }

  /** `Expect`: fail unless the current token has kind `t`; consume it unless it is EOF. */
  function Expect(toks: seq<Token>, i: nat, t: TokenType): (r: Step)
    requires Valid(toks, i)
    ensures r.Advanced? <==> toks[i].typ == t
    ensures r.Advanced? ==> r.next == (if t == EOF then i else i + 1) && r.next < |toks|
    ensures r.Stuck? ==> r.error == Expected(t, toks[i].typ, toks[i].pos)
  {
    if toks[i].typ != t then Stuck(Expected(t, toks[i].typ, toks[i].pos))
    else if t != EOF then Advanced(Next(toks, i))
    else Advanced(i)
  }

  /** `PeekIsStartOfAtom`: the kinds that can begin an atom, and so continue an application. */
  predicate PeekIsStartOfAtom(t: TokenType) {
    t == Ident || t == IntLit || t == BoolLit || t == LParen
  }

  // ------------------------------------------------------------- grammar

  /** expr ::= 'let' letExpr | 'if' ifExpr | callExpr */
  function ParseExpr(toks: seq<Token>, i: nat): (r: Outcome)
    requires Valid(toks, i)
    ensures Consumed(toks, i, r)
    decreases |toks| - i, 5
  {
    var Eaten(isLet, j) := Eat(toks, i, TokenType.Let);
    if isLet then LetExpr(toks, j)
    else
      var Eaten(isIf, k) := Eat(toks, i, TokenType.If);
      if isIf then IfExpr(toks, k)
      else CallExpr(toks, i)
  }

  /**
   * letExpr, after `let`: the bound name, then one token of lookahead decides between
   * a function definition (another identifier) and a plain binding (anything else).
   */
  function LetExpr(toks: seq<Token>, i: nat): (r: Outcome)
    requires Valid(toks, i)
    ensures Consumed(toks, i, r)
    decreases |toks| - i, 6
  {
    var id := toks[i].lexeme;
    var j :- Expect(toks, i, Ident);
    if toks[j].typ == Ident then
      var param := toks[j].lexeme;
      var k := Expect(toks, j, Ident).next;  // cannot fail: the lookahead is an identifier
      var fBody :- ExprAfter(toks, k, Equal);
      var letBody :- ExprAfter(toks, fBody.next, In);
      var k3 :- Expect(toks, letBody.next, End);
      Success(Parsed(LetFun(id, param, fBody.e, letBody.e), k3))
    else
      var rhs :- ExprAfter(toks, j, Equal);
      var body :- ExprAfter(toks, rhs.next, In);
      var k3 :- Expect(toks, body.next, End);
      Success(Parsed(Expr.Let(id, rhs.e, body.e), k3))
  }

  /** ifExpr, after `if`: condition, `then` branch, `else` branch, with no closing keyword. */
  function IfExpr(toks: seq<Token>, i: nat): (r: Outcome)
    requires Valid(toks, i)
    ensures Consumed(toks, i, r)
    decreases |toks| - i, 6
  {
    var cond :- ParseExpr(toks, i);
    var thn :- ExprAfter(toks, cond.next, Then);
    var els :- ExprAfter(toks, thn.next, Else);
    Success(Parsed(Expr.If(cond.e, thn.e, els.e), els.next))
  }

  /**
   * A keyword and the expr that follows it: `Expect(t)` then `Expr()`, the pair every
   * `let` and `if` form is built from.
   */
  function ExprAfter(toks: seq<Token>, i: nat, t: TokenType): (r: Outcome)
    requires Valid(toks, i)
    ensures Consumed(toks, i, r)
    decreases |toks| - i, 6
  {
    var j :- Expect(toks, i, t);
    ParseExpr(toks, j)
  }

  /** callExpr: an addExpr applied, left to right, to further addExprs. */
  function CallExpr(toks: seq<Token>, i: nat): (r: Outcome)
    requires Valid(toks, i)
    ensures Consumed(toks, i, r)
    decreases |toks| - i, 4
  {
    var f :- AddExpr(toks, i);
    CallTail(toks, f.next, f.e)
  }

  /** The application loop: while the lookahead starts an atom, apply `acc` to the next addExpr. */
  function CallTail(toks: seq<Token>, i: nat, acc: Expr): (r: Outcome)
    requires Valid(toks, i) && Built(toks, acc)
    ensures Continued(toks, i, r)
    decreases |toks| - i, 4
  {
    if PeekIsStartOfAtom(toks[i].typ) then
      var arg :- AddExpr(toks, i);
      CallTail(toks, arg.next, Call(acc, arg.e))
    else Success(Parsed(acc, i))
  }

  /** addExpr: mulExprs joined by `+ - < =`, grouped to the left. */
  function AddExpr(toks: seq<Token>, i: nat): (r: Outcome)
    requires Valid(toks, i)
    ensures Consumed(toks, i, r)
    decreases |toks| - i, 3
  {
    var l :- MulExpr(toks, i);
    AddTail(toks, l.next, l.e)
  }

  /** The additive loop: while the lookahead is an additive operator, combine `acc` with the next mulExpr. */
  function AddTail(toks: seq<Token>, i: nat, acc: Expr): (r: Outcome)
    requires Valid(toks, i) && Built(toks, acc)
    ensures Continued(toks, i, r)
    decreases |toks| - i, 3
  {
    if IsAddOp(toks[i].typ) then
      var op := toks[i].lexeme;
      var r :- MulExpr(toks, Next(toks, i));
      assert IsOperator(op) by { assert WellFormedToken(toks[i]); }
      AddTail(toks, r.next, Prim(op, acc, r.e))
    else Success(Parsed(acc, i))
  }

  /** mulExpr: atoms joined by `*`, grouped to the left. */
  function MulExpr(toks: seq<Token>, i: nat): (r: Outcome)
    requires Valid(toks, i)
    ensures Consumed(toks, i, r)
    decreases |toks| - i, 2
  {
    var a :- Atom(toks, i);
    MulTail(toks, a.next, a.e)
  }

  /** The multiplicative loop: while the lookahead is `*`, combine `acc` with the next atom. */
  function MulTail(toks: seq<Token>, i: nat, acc: Expr): (r: Outcome)
    requires Valid(toks, i) && Built(toks, acc)
    ensures Continued(toks, i, r)
    decreases |toks| - i, 2
  {
    if toks[i].typ == Star then
      var b :- Atom(toks, Next(toks, i));
      MulTail(toks, b.next, Prim("*", acc, b.e))
    else Success(Parsed(acc, i))
  }

  /** atom: an integer, a boolean, a variable, or a parenthesised expr (which adds no node). */
  function Atom(toks: seq<Token>, i: nat): (r: Outcome)
    requires Valid(toks, i)
    ensures Consumed(toks, i, r)
    decreases |toks| - i, 1
  {
    var tok := toks[i];
    if tok.typ == IntLit then
      match ParseInt32(tok.lexeme)
      case None => Failure(BadInt(tok))
      case Some(v) => Success(Parsed(CstI(v), Next(toks, i)))
    else if tok.typ == BoolLit then Success(Parsed(CstB(tok.lexeme == "true"), Next(toks, i)))
    else if tok.typ == Ident then Success(Parsed(Var(tok.lexeme), Next(toks, i)))
    else if tok.typ == LParen then
      var inner :- ParseExpr(toks, Next(toks, i));
      var j :- Expect(toks, inner.next, RParen);
      Success(Parsed(inner.e, j))
    else Failure(BadToken(tok))
  }

  /**
   * An integer literal is read by `int.Parse`: within `int`'s range it becomes that
   * constant and the parser moves on; beyond it (2^31 or more) the atom fails with
   * `BadInt` on that token, the overflow exception of the source.
   */
  lemma AtomOfIntLiteral(toks: seq<Token>, i: nat)
    requires Valid(toks, i) && toks[i].typ == IntLit
    ensures IsDigits(toks[i].lexeme)
    ensures DigitsValue(toks[i].lexeme) > MaxInt32 ==> Atom(toks, i) == Failure(BadInt(toks[i]))
    ensures DigitsValue(toks[i].lexeme) <= MaxInt32 ==>
              Atom(toks, i) == Success(Parsed(CstI(DigitsValue(toks[i].lexeme)), i + 1))
  {
    assert WellFormedToken(toks[i]);
  }

  /**
   * An application ends, leaving its token where it is, exactly when that token cannot
   * start an atom; a token that can start one is always taken as a further argument
   * (or makes the application fail).
   */
  lemma CallTailEndsOnlyBeforeANonAtom(toks: seq<Token>, i: nat, acc: Expr)
    requires Valid(toks, i) && Built(toks, acc)
    ensures CallTail(toks, i, acc) == Success(Parsed(acc, i)) <==> !PeekIsStartOfAtom(toks[i].typ)
  {
    if PeekIsStartOfAtom(toks[i].typ) {
      var a := AddExpr(toks, i);
      if a.Success? {
        assert i < a.value.next;
        assert CallTail(toks, i, acc) == CallTail(toks, a.value.next, Call(acc, a.value.e));
      }
    }
  }

  // ------------------------------------------------------------- entry points

  /** Parse a whole token stream: one expr, which must be followed by EOF. */
  function ParseTokens(toks: seq<Token>): (r: Result<Expr, ParseError>)
    requires ValidStream(toks)
    ensures r.Ok? ==> Built(toks, r.value)
  {
    match ParseExpr(toks, 0)
    case Failure(err) => Err(err)
    case Success(p) =>
      if toks[p.next].typ != EOF then Err(Expected(EOF, toks[p.next].typ, toks[p.next].pos))
      else Ok(p.e)
  }

  /** `Parser.Parse`: lex the code, then parse the tokens. */
  function Parse(code: string): (r: Result<Expr, Error>)
    ensures r.Ok? ==> InGrammar(r.value)
  {
    match Lex(code)
    case Err(e) => Err(LexFailed(e))
    case Ok(toks) =>
      LexTokensAreWellFormed(code);
      match ParseTokens(toks)
      case Err(e) => Err(ParseFailed(e))
      case Ok(e) => Ok(e)
  }

  /** The whole pipeline fails in the lexer exactly when the scan meets `==`. */
  lemma ParseFailsInLexerExactlyOnDoubleEquals(code: string)
    ensures (Parse(code).Err? && Parse(code).error.LexFailed?)
        <==> exists k :: 0 <= k < |Matches(code, 0)| && Matches(code, 0)[k].value == "=="
    ensures Parse(code).Err? && Parse(code).error.LexFailed? ==> Parse(code).error.lex.text == "=="
  {
    LexFailsExactlyOnDoubleEquals(code);
  }
}

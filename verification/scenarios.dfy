/**
 * Worked examples and grouping rules: small inputs run through the lexer, the parser
 * and the renderer, and the precedence and associativity the parser's loops give to
 * any operands, each fixing one behaviour a reader might otherwise guess wrongly.
 */
module Scenarios {
  import opened Wrappers
  import opened Ast
  import opened Numerals
  import opened Lexer
  import opened Parser
  import opened Mermaid
  import opened Printer

  // ------------------------------------------------------------- lexing

  /** `&` matches no alternative of the token regex, so the scan steps over it. */
  lemma AmpersandMatches()
    ensures Matches("1&2", 0) == [Match(Num, 0, "1"), Match(Num, 2, "2")]
  {
    var s := "1&2";
    var one, two := Match(Num, 0, "1"), Match(Num, 2, "2");
    assert MatchAt(s, 0) == Some(one) by {
      RunEndIsTheMaximalRun(s, 0, 1, Digit);
      assert s[0..1] == "1";
    }
    assert MatchAt(s, 1) == None;
    assert MatchAt(s, 2) == Some(two) by {
      RunEndIsTheMaximalRun(s, 2, 3, Digit);
      assert s[2..3] == "2";
    }
    assert Matches(s, 3) == [];
    assert Matches(s, 2) == [two] + Matches(s, 3);
    assert Matches(s, 1) == Matches(s, 2);
    assert Matches(s, 0) == [one] + Matches(s, 1);
  }

  /**
   * `1&2` lexes as two integers with nothing between them; the skipped `&` does not
   * advance the running position, so the second literal is stamped 1, not 2.
   */
  lemma AmpersandIsSkipped()
    ensures Lex("1&2") == Ok([Token(IntLit, "1", 0), Token(IntLit, "2", 1), Token(EOF, "<eof>", 2)])
  {
    var one, two := Match(Num, 0, "1"), Match(Num, 2, "2");
    AmpersandMatches();
    var eof, t1, t2 := Token(EOF, "<eof>", 2), Token(IntLit, "1", 0), Token(IntLit, "2", 1);
    assert LexMatches([], 2) == Ok([eof]);
    assert LexMatches([two], 1) == Ok([t2, eof]) by {
      assert [two][1..] == [];
      assert [t2] + [eof] == [t2, eof];
    }
    assert LexMatches([one, two], 0) == Ok([t1, t2, eof]) by {
      assert [one, two][1..] == [two];
      assert [t1] + [t2, eof] == [t1, t2, eof];
    }
  }

  /** The digit alternative is tried first and stops at the first non-digit. */
  lemma DigitsThenNameMatches()
    ensures Matches("12ab", 0) == [Match(Num, 0, "12"), Match(Id, 2, "ab")]
  {
    var s := "12ab";
    var num, id := Match(Num, 0, "12"), Match(Id, 2, "ab");
    assert MatchAt(s, 0) == Some(num) by {
      RunEndIsTheMaximalRun(s, 0, 2, Digit);
      assert s[0..2] == "12";
    }
    assert MatchAt(s, 2) == Some(id) by {
      assert !WordAt(s, 2, "true") && !WordAt(s, 2, "false");
      RunEndIsTheMaximalRun(s, 3, 4, Word);
      assert s[2..4] == "ab";
    }
    assert Matches(s, 4) == [];
    assert Matches(s, 2) == [id] + Matches(s, 4);
    assert Matches(s, 0) == [num] + Matches(s, 2);
  }

  /** `12ab` needs no space: it lexes as the integer `12` followed by the name `ab`. */
  lemma DigitsThenNameLexes()
    ensures Lex("12ab") == Ok([Token(IntLit, "12", 0), Token(Ident, "ab", 2), Token(EOF, "<eof>", 4)])
  {
    var num, id := Match(Num, 0, "12"), Match(Id, 2, "ab");
    DigitsThenNameMatches();
    var eof, t1, t2 := Token(EOF, "<eof>", 4), Token(IntLit, "12", 0), Token(Ident, "ab", 2);
    assert KeywordOrIdent("ab") == Ident;
    assert LexMatches([], 4) == Ok([eof]);
    assert LexMatches([id], 2) == Ok([t2, eof]) by {
      assert [id][1..] == [];
      assert [t2] + [eof] == [t2, eof];
    }
    assert LexMatches([num, id], 0) == Ok([t1, t2, eof]) by {
      assert [num, id][1..] == [id];
      assert [t1] + [t2, eof] == [t1, t2, eof];
    }
  }

  /** `true` needs a word boundary after it, so `trueish` is one identifier match. */
  lemma TrueishMatches()
    ensures Matches("trueish", 0) == [Match(Id, 0, "trueish")]
  {
    var s := "trueish";
    var id := Match(Id, 0, "trueish");
    assert MatchAt(s, 0) == Some(id) by {
      assert !WordAt(s, 0, "true") by { assert IsWordChar(s[4]); }
      assert !WordAt(s, 0, "false") by { assert s[0] != "false"[0]; }
      RunEndIsTheMaximalRun(s, 1, 7, Word);
      assert s[0..7] == s;
    }
    assert Matches(s, 7) == [];
    assert Matches(s, 0) == [id] + Matches(s, 7);
  }

  /** `trueish` lexes as a name, not as the boolean `true` followed by `ish`. */
  lemma TrueishIsOneName()
    ensures Lex("trueish") == Ok([Token(Ident, "trueish", 0), Token(EOF, "<eof>", 7)])
  {
    var id := Match(Id, 0, "trueish");
    TrueishMatches();
    var eof, t := Token(EOF, "<eof>", 7), Token(Ident, "trueish", 0);
    assert KeywordOrIdent("trueish") == Ident;
    assert LexMatches([id], 0) == Ok([t, eof]) by {
      assert [id][1..] == [];
      assert LexMatches([], 7) == Ok([eof]);
      assert [t] + [eof] == [t, eof];
    }
  }

  /** `==` is matched as one symbol, ahead of the single `=`. */
  lemma DoubleEqualsMatches()
    ensures var ms := Matches("a==b", 0);
            |ms| >= 2 && ms[0] == Match(Id, 0, "a") && ms[1] == Match(Sym, 1, "==")
  {
    var s := "a==b";
    assert MatchAt(s, 0) == Some(Match(Id, 0, "a")) by {
      RunEndIsTheMaximalRun(s, 1, 1, Word);
      assert s[0..1] == "a";
    }
    assert MatchAt(s, 1) == Some(Match(Sym, 1, "==")) by {
      assert TextAt(s, 1, "==");
    }
    assert Matches(s, 1) == [Match(Sym, 1, "==")] + Matches(s, 3);
    assert Matches(s, 0) == [Match(Id, 0, "a")] + Matches(s, 1);
  }

  /** ... and it has no token kind, so lexing stops with the source's "Unknown char" failure. */
  lemma DoubleEqualsFails()
    ensures Lex("a==b") == Err(UnknownChar("==", 1))
  {
    DoubleEqualsMatches();
    var ms := Matches("a==b", 0);
    assert LexMatches(ms[1..], 1) == Err(UnknownChar("==", 1)) by {
      assert ms[1..][0] == ms[1];
    }
  }

  // ------------------------------------------------------------- parsing

  /**
   * `a - b - c`, or any two additive operators between three atoms, groups to the left:
   * the operator met first is the inner node.
   */
  lemma SumsGroupLeft(toks: seq<Token>, i: nat, a: Expr, j: nat, b: Expr, k: nat, c: Expr, m: nat)
    requires Valid(toks, i) && NoKeyword(toks[i].typ)
    requires Atom(toks, i) == Success(Parsed(a, j)) && IsAddOp(toks[j].typ)
    requires j + 1 < |toks| && Atom(toks, j + 1) == Success(Parsed(b, k)) && IsAddOp(toks[k].typ)
    requires k + 1 < |toks| && Atom(toks, k + 1) == Success(Parsed(c, m)) && Stops(toks[m].typ)
    ensures ParseExpr(toks, i) == Success(Parsed(Prim(toks[k].lexeme, Prim(toks[j].lexeme, a, b), c), m))
  {
    var l := Prim(toks[j].lexeme, a, b);
    var e := Prim(toks[k].lexeme, l, c);
    MulExprOfAtom(toks, i, a, j);
    MulExprOfAtom(toks, j + 1, b, k);
    MulExprOfAtom(toks, k + 1, c, m);
    AddOfMul(toks, i, a, j);
    AddTailStep(toks, j, a, b, k);
    AddTailStep(toks, k, l, c, m);
    AddTailStops(toks, m, e);
    CallOfAdd(toks, i, e, m);
    CallTailStops(toks, m, e);
    ExprIsCall(toks, i);
  }

  /** `a * b * c` is `(a * b) * c`: the multiplicative loop also groups to the left. */
  lemma ProductsGroupLeft(toks: seq<Token>, i: nat, a: Expr, j: nat, b: Expr, k: nat, c: Expr, m: nat)
    requires Valid(toks, i) && Atom(toks, i) == Success(Parsed(a, j)) && toks[j].typ == Star
    requires j + 1 < |toks| && Atom(toks, j + 1) == Success(Parsed(b, k)) && toks[k].typ == Star
    requires k + 1 < |toks| && Atom(toks, k + 1) == Success(Parsed(c, m)) && toks[m].typ != Star
    ensures MulExpr(toks, i) == Success(Parsed(Prim("*", Prim("*", a, b), c), m))
  {
    var l := Prim("*", a, b);
    MulOfAtom(toks, i, a, j);
    MulTailStep(toks, j, a, b, k);
    MulTailStep(toks, k, l, c, m);
    MulTailStops(toks, m, Prim("*", l, c));
  }

  /** `a + b * c`: the product is formed first and is the sum's right operand. */
  lemma ProductBindsTighter(toks: seq<Token>, i: nat, a: Expr, j: nat, b: Expr, k: nat, c: Expr, m: nat)
    requires Valid(toks, i) && NoKeyword(toks[i].typ)
    requires Atom(toks, i) == Success(Parsed(a, j)) && IsAddOp(toks[j].typ)
    requires j + 1 < |toks| && Atom(toks, j + 1) == Success(Parsed(b, k)) && toks[k].typ == Star
    requires k + 1 < |toks| && Atom(toks, k + 1) == Success(Parsed(c, m)) && Stops(toks[m].typ)
    ensures ParseExpr(toks, i) == Success(Parsed(Prim(toks[j].lexeme, a, Prim("*", b, c)), m))
  {
    var r := Prim("*", b, c);
    var e := Prim(toks[j].lexeme, a, r);
    MulExprOfAtom(toks, i, a, j);
    MulOfAtom(toks, j + 1, b, k);
    MulTailStep(toks, k, b, c, m);
    MulTailStops(toks, m, r);
    AddOfMul(toks, i, a, j);
    AddTailStep(toks, j, a, r, m);
    AddTailStops(toks, m, e);
    CallOfAdd(toks, i, e, m);
    CallTailStops(toks, m, e);
    ExprIsCall(toks, i);
  }

  /** `a * b + c`: the product is formed first and is the sum's left operand. */
  lemma ProductBindsTighterOnTheLeft(toks: seq<Token>, i: nat, a: Expr, j: nat, b: Expr, k: nat, c: Expr, m: nat)
    requires Valid(toks, i) && NoKeyword(toks[i].typ)
    requires Atom(toks, i) == Success(Parsed(a, j)) && toks[j].typ == Star
    requires j + 1 < |toks| && Atom(toks, j + 1) == Success(Parsed(b, k)) && IsAddOp(toks[k].typ)
    requires k + 1 < |toks| && Atom(toks, k + 1) == Success(Parsed(c, m)) && Stops(toks[m].typ)
    ensures ParseExpr(toks, i) == Success(Parsed(Prim(toks[k].lexeme, Prim("*", a, b), c), m))
  {
    var l := Prim("*", a, b);
    var e := Prim(toks[k].lexeme, l, c);
    MulOfAtom(toks, i, a, j);
    MulTailStep(toks, j, a, b, k);
    MulTailStops(toks, k, l);
    MulExprOfAtom(toks, k + 1, c, m);
    AddOfMul(toks, i, l, k);
    AddTailStep(toks, k, l, c, m);
    AddTailStops(toks, m, e);
    CallOfAdd(toks, i, e, m);
    CallTailStops(toks, m, e);
    ExprIsCall(toks, i);
  }

  /**
   * `f a b` is `(f a) b`: the application loop applies what it has built so far to each
   * further operand in turn, so application groups to the left.
   */
  lemma ApplicationGroupsLeft(toks: seq<Token>, j: nat, f: Expr, a: Expr, k: nat, b: Expr, m: nat)
    requires Valid(toks, j) && Built(toks, f) && PeekIsStartOfAtom(toks[j].typ)
    requires AddExpr(toks, j) == Success(Parsed(a, k)) && PeekIsStartOfAtom(toks[k].typ)
    requires AddExpr(toks, k) == Success(Parsed(b, m)) && !PeekIsStartOfAtom(toks[m].typ)
    ensures CallTail(toks, j, f) == Success(Parsed(Call(Call(f, a), b), m))
  {
    CallTailStep(toks, j, f, a, k);
    CallTailStep(toks, k, Call(f, a), b, m);
    CallTailStops(toks, m, Call(Call(f, a), b));
  }

  /**
   * `f a + b` is `f (a + b)`: each argument of an application is a whole addExpr, so the
   * sum is formed first and the function is applied to it.
   */
  lemma ApplicationTakesASum(toks: seq<Token>, i: nat, f: Expr, j: nat, a: Expr, k: nat, b: Expr, m: nat)
    requires Valid(toks, i) && NoKeyword(toks[i].typ)
    requires Atom(toks, i) == Success(Parsed(f, j)) && PeekIsStartOfAtom(toks[j].typ)
    requires Atom(toks, j) == Success(Parsed(a, k)) && IsAddOp(toks[k].typ)
    requires k + 1 < |toks| && Atom(toks, k + 1) == Success(Parsed(b, m)) && Stops(toks[m].typ)
    ensures ParseExpr(toks, i) == Success(Parsed(Call(f, Prim(toks[k].lexeme, a, b)), m))
  {
    var sum := Prim(toks[k].lexeme, a, b);
    MulExprOfAtom(toks, i, f, j);
    AddOfMul(toks, i, f, j);
    AddTailStops(toks, j, f);
    CallOfAdd(toks, i, f, j);
    MulExprOfAtom(toks, j, a, k);
    AddOfMul(toks, j, a, k);
    MulExprOfAtom(toks, k + 1, b, m);
    AddTailStep(toks, k, a, b, m);
    AddTailStops(toks, m, sum);
    CallTailStep(toks, j, f, sum, m);
    CallTailStops(toks, m, Call(f, sum));
    ExprIsCall(toks, i);
  }

  /*
   * The concrete token lists below are parameters pinned by the precondition: the parser
   * steps are then taken one lemma call at a time instead of by unrolling a literal.
   */

  /** The tokens of `(1` fail where `)` was expected and EOF was found. */
  lemma UnclosedParenTokensFail(toks: seq<Token>)
    requires toks == [Token(LParen, "(", 0), Token(IntLit, "1", 1), Token(EOF, "<eof>", 2)]
    ensures ValidStream(toks) && ParseTokens(toks) == Err(Expected(RParen, EOF, 2))
  {
    assert ValidStream(toks);
    var one := CstI(1);
    var err := Expected(RParen, EOF, 2);
    assert ParseInt32("1") == Some(1);
    assert Atom(toks, 1) == Success(Parsed(one, 2));
    ExprOfAtom(toks, 1, one, 2);
    assert Atom(toks, 0) == Failure(err);
    assert MulExpr(toks, 0) == Failure(err);
    assert AddExpr(toks, 0) == Failure(err);
    assert CallExpr(toks, 0) == Failure(err);
    ExprIsCall(toks, 0);
  }

  /** The tokens of `1 )`: the top expression stops before `)`, and a whole parse insists on EOF there. */
  lemma TrailingParenTokensFail(toks: seq<Token>)
    requires toks == [Token(IntLit, "1", 0), Token(RParen, ")", 2), Token(EOF, "<eof>", 3)]
    ensures ValidStream(toks) && ParseTokens(toks) == Err(Expected(EOF, RParen, 2))
  {
    assert ValidStream(toks);
    var one := CstI(1);
    assert ParseInt32("1") == Some(1);
    assert Atom(toks, 0) == Success(Parsed(one, 1));
    ExprOfAtom(toks, 0, one, 1);
  }

  /** The tokens of `1 1`: two juxtaposed literals are an application of the first to the second. */
  lemma JuxtaposedLiteralTokensApply(toks: seq<Token>)
    requires toks == [Token(IntLit, "1", 0), Token(IntLit, "1", 2), Token(EOF, "<eof>", 3)]
    ensures ValidStream(toks) && ParseTokens(toks) == Ok(Call(CstI(1), CstI(1)))
  {
    assert ValidStream(toks);
    var one := CstI(1);
    assert ParseInt32("1") == Some(1);
    assert Atom(toks, 0) == Success(Parsed(one, 1));
    assert Atom(toks, 1) == Success(Parsed(one, 2));
    MulExprOfAtom(toks, 0, one, 1);
    AddOfMul(toks, 0, one, 1);
    AddTailStops(toks, 1, one);
    MulExprOfAtom(toks, 1, one, 2);
    AddOfMul(toks, 1, one, 2);
    AddTailStops(toks, 2, one);
    CallOfAdd(toks, 0, one, 1);
    CallTailStep(toks, 1, one, one, 2);
    CallTailStops(toks, 2, Call(one, one));
    ExprIsCall(toks, 0);
  }

  /**
   * `if` is only accepted where a whole expr is: after an additive operator the parser
   * wants an atom, so `a + if …` fails on the `if` token.
   */
  lemma IfAfterOperatorFails(toks: seq<Token>, i: nat, a: Expr, j: nat)
    requires Valid(toks, i) && NoKeyword(toks[i].typ)
    requires Atom(toks, i) == Success(Parsed(a, j)) && IsAddOp(toks[j].typ)
    requires j + 1 < |toks| && toks[j + 1].typ == TokenType.If
    ensures ParseExpr(toks, i) == Failure(BadToken(toks[j + 1]))
  {
    var err := BadToken(toks[j + 1]);
    MulExprOfAtom(toks, i, a, j);
    AddOfMul(toks, i, a, j);
    assert Atom(toks, j + 1) == Failure(err);
    assert MulExpr(toks, j + 1) == Failure(err);
    assert AddTail(toks, j, a) == Failure(err);
    assert CallExpr(toks, i) == Failure(err);
    ExprIsCall(toks, i);
  }

  /** The token of `2147483648`: one past `int`'s range, so the atom fails on it. */
  lemma TooLargeLiteralTokenFails(toks: seq<Token>)
    requires toks == [Token(IntLit, "2147483648", 0), Token(EOF, "<eof>", 10)]
    ensures ValidStream(toks) && ParseTokens(toks) == Err(BadInt(toks[0]))
  {
    assert ValidStream(toks) by {
      assert IsDigits(toks[0].lexeme);
    }
    var err := BadInt(toks[0]);
    TooLargeValue();
    AtomOfIntLiteral(toks, 0);
    assert MulExpr(toks, 0) == Failure(err);
    assert AddExpr(toks, 0) == Failure(err);
    assert CallExpr(toks, 0) == Failure(err);
    ExprIsCall(toks, 0);
  }

  lemma TooLargeValue()
    ensures DigitsValue("2147483648") == MaxInt32 + 1
  {
    var s := "2147483648";
    assert s[..0] == [];
    DigitsValueStep(s, 0);
    DigitsValueStep(s, 1);
    DigitsValueStep(s, 2);
    DigitsValueStep(s, 3);
    DigitsValueStep(s, 4);
    DigitsValueStep(s, 5);
    DigitsValueStep(s, 6);
    DigitsValueStep(s, 7);
    DigitsValueStep(s, 8);
    DigitsValueStep(s, 9);
    assert s[..10] == s;
  }


  // ------------------------------------------------------------- the whole pipeline

  /** The matches of `(1`. */
  lemma UnclosedParenMatches()
    ensures Matches("(1", 0) == [Match(Sym, 0, "("), Match(Num, 1, "1")]
  {
    var s := "(1";
    var open, one := Match(Sym, 0, "("), Match(Num, 1, "1");
    assert MatchAt(s, 0) == Some(open) by {
      assert !TextAt(s, 0, "==") && !TextAt(s, 0, ":=") && [s[0]] == "(";
    }
    assert MatchAt(s, 1) == Some(one) by {
      RunEndIsTheMaximalRun(s, 1, 2, Digit);
      assert s[1..2] == "1";
    }
    assert Matches(s, 2) == [];
    assert Matches(s, 1) == [one] + Matches(s, 2);
    assert Matches(s, 0) == [open] + Matches(s, 1);
  }

  /** `(` is a symbol and `1` a digit run: `(1` gives `(`, `1`, EOF. */
  lemma UnclosedParenLexes()
    ensures Lex("(1") == Ok([Token(LParen, "(", 0), Token(IntLit, "1", 1), Token(EOF, "<eof>", 2)])
  {
    UnclosedParenMatches();
    var open, one := Match(Sym, 0, "("), Match(Num, 1, "1");
    var eof, t1, t2 := Token(EOF, "<eof>", 2), Token(LParen, "(", 0), Token(IntLit, "1", 1);
    assert LexMatches([one], 1) == Ok([t2, eof]) by {
      assert [one][1..] == [];
      assert LexMatches([], 2) == Ok([eof]);
      assert [t2] + [eof] == [t2, eof];
    }
    assert LexMatches([open, one], 0) == Ok([t1, t2, eof]) by {
      assert [open, one][1..] == [one];
      assert SymbolType("(") == Some(LParen);
      assert [t1] + [t2, eof] == [t1, t2, eof];
    }
  }

  /** `(1` fails where `)` was expected and EOF was found, at position 2. */
  lemma UnclosedParenFails()
    ensures Parse("(1") == Err(ParseFailed(Expected(RParen, EOF, 2)))
  {
    UnclosedParenLexes();
    UnclosedParenTokensFail(Lex("(1").value);
  }

  /** The matches of `1 )`. */
  lemma TrailingParenMatches()
    ensures Matches("1 )", 0) == [Match(Num, 0, "1"), Match(Ws, 1, " "), Match(Sym, 2, ")")]
  {
    var s := "1 )";
    var one, sp, close := Match(Num, 0, "1"), Match(Ws, 1, " "), Match(Sym, 2, ")");
    assert MatchAt(s, 0) == Some(one) by {
      RunEndIsTheMaximalRun(s, 0, 1, Digit);
      assert s[0..1] == "1";
    }
    assert MatchAt(s, 1) == Some(sp) by {
      RunEndIsTheMaximalRun(s, 1, 2, Space);
      assert s[1..2] == " ";
    }
    assert MatchAt(s, 2) == Some(close) by {
      assert !TextAt(s, 2, "==") && !TextAt(s, 2, ":=") && [s[2]] == ")";
    }
    assert Matches(s, 3) == [];
    assert Matches(s, 2) == [close] + Matches(s, 3);
    assert Matches(s, 1) == [sp] + Matches(s, 2);
    assert Matches(s, 0) == [one] + Matches(s, 1);
  }

  /** `1 )` gives `1`, then (after the space, which counts) `)` at 2, then EOF at 3. */
  lemma TrailingParenLexes()
    ensures Lex("1 )") == Ok([Token(IntLit, "1", 0), Token(RParen, ")", 2), Token(EOF, "<eof>", 3)])
  {
    TrailingParenMatches();
    var one, sp, close := Match(Num, 0, "1"), Match(Ws, 1, " "), Match(Sym, 2, ")");
    var eof, t1, t2 := Token(EOF, "<eof>", 3), Token(IntLit, "1", 0), Token(RParen, ")", 2);
    assert LexMatches([close], 2) == Ok([t2, eof]) by {
      assert [close][1..] == [];
      assert LexMatches([], 3) == Ok([eof]);
      assert SymbolType(")") == Some(RParen);
      assert [t2] + [eof] == [t2, eof];
    }
    assert LexMatches([sp, close], 1) == Ok([t2, eof]) by {
      assert [sp, close][1..] == [close];
    }
    assert LexMatches([one, sp, close], 0) == Ok([t1, t2, eof]) by {
      assert [one, sp, close][1..] == [sp, close];
      assert [t1] + [t2, eof] == [t1, t2, eof];
    }
  }

  /** `1 )` fails: after `1` the parse expects EOF and finds `)` at position 2. */
  lemma TrailingParenFails()
    ensures Parse("1 )") == Err(ParseFailed(Expected(EOF, RParen, 2)))
  {
    TrailingParenLexes();
    TrailingParenTokensFail(Lex("1 )").value);
  }

  /** The matches of `1 1`. */
  lemma JuxtaposedLiteralsMatch()
    ensures Matches("1 1", 0) == [Match(Num, 0, "1"), Match(Ws, 1, " "), Match(Num, 2, "1")]
  {
    var s := "1 1";
    var one, sp, one' := Match(Num, 0, "1"), Match(Ws, 1, " "), Match(Num, 2, "1");
    assert MatchAt(s, 0) == Some(one) by {
      RunEndIsTheMaximalRun(s, 0, 1, Digit);
      assert s[0..1] == "1";
    }
    assert MatchAt(s, 1) == Some(sp) by {
      RunEndIsTheMaximalRun(s, 1, 2, Space);
      assert s[1..2] == " ";
    }
    assert MatchAt(s, 2) == Some(one') by {
      RunEndIsTheMaximalRun(s, 2, 3, Digit);
      assert s[2..3] == "1";
    }
    assert Matches(s, 3) == [];
    assert Matches(s, 2) == [one'] + Matches(s, 3);
    assert Matches(s, 1) == [sp] + Matches(s, 2);
    assert Matches(s, 0) == [one] + Matches(s, 1);
  }

  /** `1 1` gives two integer tokens at 0 and 2, then EOF at 3. */
  lemma JuxtaposedLiteralsLex()
    ensures Lex("1 1") == Ok([Token(IntLit, "1", 0), Token(IntLit, "1", 2), Token(EOF, "<eof>", 3)])
  {
    JuxtaposedLiteralsMatch();
    var one, sp, one' := Match(Num, 0, "1"), Match(Ws, 1, " "), Match(Num, 2, "1");
    var eof, t1, t2 := Token(EOF, "<eof>", 3), Token(IntLit, "1", 0), Token(IntLit, "1", 2);
    assert LexMatches([one'], 2) == Ok([t2, eof]) by {
      assert [one'][1..] == [];
      assert LexMatches([], 3) == Ok([eof]);
      assert [t2] + [eof] == [t2, eof];
    }
    assert LexMatches([sp, one'], 1) == Ok([t2, eof]) by {
      assert [sp, one'][1..] == [one'];
    }
    assert LexMatches([one, sp, one'], 0) == Ok([t1, t2, eof]) by {
      assert [one, sp, one'][1..] == [sp, one'];
      assert [t1] + [t2, eof] == [t1, t2, eof];
    }
  }

  /** `1 1` is not an error: it parses as the application of `1` to `1`. */
  lemma JuxtaposedLiteralsApply()
    ensures Parse("1 1") == Ok(Call(CstI(1), CstI(1)))
  {
    JuxtaposedLiteralsLex();
    JuxtaposedLiteralTokensApply(Lex("1 1").value);
  }

  /** The matches of `2147483648`. */
  lemma TooLargeLiteralMatches()
    ensures Matches("2147483648", 0) == [Match(Num, 0, "2147483648")]
  {
    var s := "2147483648";
    var num := Match(Num, 0, s);
    assert MatchAt(s, 0) == Some(num) by {
      RunEndIsTheMaximalRun(s, 0, 10, Digit);
      assert s[0..10] == s;
    }
    assert Matches(s, 10) == [];
    assert Matches(s, 0) == [num] + Matches(s, 10);
  }

  /** `2147483648` is one digit run: a single integer token, then EOF at 10. */
  lemma TooLargeLiteralLexes()
    ensures Lex("2147483648") == Ok([Token(IntLit, "2147483648", 0), Token(EOF, "<eof>", 10)])
  {
    TooLargeLiteralMatches();
    var s := "2147483648";
    var num := Match(Num, 0, s);
    var eof, t := Token(EOF, "<eof>", 10), Token(IntLit, s, 0);
    assert LexMatches([num], 0) == Ok([t, eof]) by {
      assert [num][1..] == [];
      assert LexMatches([], 10) == Ok([eof]);
      assert [t] + [eof] == [t, eof];
    }
  }

  /** `2147483648` lexes, but `int.Parse` overflows on it: the parse fails with `BadInt`. */
  lemma TooLargeLiteralFails()
    ensures Parse("2147483648") == Err(ParseFailed(BadInt(Token(IntLit, "2147483648", 0))))
  {
    TooLargeLiteralLexes();
    TooLargeLiteralTokenFails(Lex("2147483648").value);
  }

  // ------------------------------------------------------------- rendering

  /** `1 + x`: the operator node, then each operand's node followed by its unlabelled edge. */
  lemma RenderSumLines()
    ensures Visit(Prim("+", CstI(1), Var("x")), 0).lines
         == [Decl(Node(0, Rect, "+")), Decl(Node(1, Stadium, "1")), Arrow(Edge(0, 1, "")),
             Decl(Node(2, Rounded, "x")), Arrow(Edge(0, 2, ""))]
  {
    var e := Prim("+", CstI(1), Var("x"));
    assert IntToString(1) == "1";
    var l, r := Visit(CstI(1), 1), Visit(Var("x"), 2);
    assert VisitChildren(CstI(1), 1, 0, 2).lines == [];
    assert l.lines == [Decl(Node(1, Stadium, "1"))] && l.next == 2;
    assert VisitChildren(Var("x"), 2, 0, 3).lines == [];
    assert r.lines == [Decl(Node(2, Rounded, "x"))] && r.next == 3;
    assert VisitChildren(e, 0, 2, 3).lines == [];
    assert VisitChildren(e, 0, 1, 2).lines == r.lines + [Arrow(Edge(0, 2, ""))] + [];
    assert VisitChildren(e, 0, 0, 1).lines
        == l.lines + [Arrow(Edge(0, 1, ""))] + VisitChildren(e, 0, 1, 2).lines;
  }

  /** `if true then a else b`: the three edges carry the roles `cond`, `then` and `else`. */
  lemma RenderIfLines()
    ensures Visit(Expr.If(CstB(true), Var("a"), Var("b")), 0).lines
         == [Decl(Node(0, Rounded, "if")), Decl(Node(1, Stadium, "True")), Arrow(Edge(0, 1, "cond")),
             Decl(Node(2, Rounded, "a")), Arrow(Edge(0, 2, "then")),
             Decl(Node(3, Rounded, "b")), Arrow(Edge(0, 3, "else"))]
  {
    var e := Expr.If(CstB(true), Var("a"), Var("b"));
    var c, t, f := Visit(CstB(true), 1), Visit(Var("a"), 2), Visit(Var("b"), 3);
    assert VisitChildren(CstB(true), 1, 0, 2).lines == [];
    assert c.lines == [Decl(Node(1, Stadium, "True"))] && c.next == 2;
    assert VisitChildren(Var("a"), 2, 0, 3).lines == [];
    assert t.lines == [Decl(Node(2, Rounded, "a"))] && t.next == 3;
    assert VisitChildren(Var("b"), 3, 0, 4).lines == [];
    assert f.lines == [Decl(Node(3, Rounded, "b"))] && f.next == 4;
    assert VisitChildren(e, 0, 3, 4).lines == [];
    assert VisitChildren(e, 0, 2, 3).lines == f.lines + [Arrow(Edge(0, 3, "else"))] + [];
    assert VisitChildren(e, 0, 1, 2).lines
        == t.lines + [Arrow(Edge(0, 2, "then"))] + VisitChildren(e, 0, 2, 3).lines;
    assert VisitChildren(e, 0, 0, 1).lines
        == c.lines + [Arrow(Edge(0, 1, "cond"))] + VisitChildren(e, 0, 1, 2).lines;
  }

  /** `let x = y in x`: the binder shows its name, its edges carry `rhs` then `body`. */
  lemma RenderLetLines()
    ensures Visit(Expr.Let("x", Var("y"), Var("x")), 0).lines
         == [Decl(Node(0, Rounded, "let x")), Decl(Node(1, Rounded, "y")), Arrow(Edge(0, 1, "rhs")),
             Decl(Node(2, Rounded, "x")), Arrow(Edge(0, 2, "body"))]
  {
    var e := Expr.Let("x", Var("y"), Var("x"));
    assert TextOf(e) == "let x";
    var a, b := Visit(Var("y"), 1), Visit(Var("x"), 2);
    assert VisitChildren(Var("y"), 1, 0, 2).lines == [];
    assert a.lines == [Decl(Node(1, Rounded, "y"))] && a.next == 2;
    assert VisitChildren(Var("x"), 2, 0, 3).lines == [];
    assert b.lines == [Decl(Node(2, Rounded, "x"))] && b.next == 3;
    assert VisitChildren(e, 0, 2, 3).lines == [];
    assert VisitChildren(e, 0, 1, 2).lines == b.lines + [Arrow(Edge(0, 2, "body"))] + [];
    assert VisitChildren(e, 0, 0, 1).lines
        == a.lines + [Arrow(Edge(0, 1, "rhs"))] + VisitChildren(e, 0, 1, 2).lines;
  }

  /** `let f y = y in f`: the node shows the function's name but not its parameter, and its edges carry `fBody` then `letBody`. */
  lemma RenderLetFunLines()
    ensures Visit(LetFun("f", "y", Var("y"), Var("f")), 0).lines
         == [Decl(Node(0, Rounded, "letfun f")), Decl(Node(1, Rounded, "y")), Arrow(Edge(0, 1, "fBody")),
             Decl(Node(2, Rounded, "f")), Arrow(Edge(0, 2, "letBody"))]
  {
    var e := LetFun("f", "y", Var("y"), Var("f"));
    assert TextOf(e) == "letfun f";
    var a, b := Visit(Var("y"), 1), Visit(Var("f"), 2);
    assert VisitChildren(Var("y"), 1, 0, 2).lines == [];
    assert a.lines == [Decl(Node(1, Rounded, "y"))] && a.next == 2;
    assert VisitChildren(Var("f"), 2, 0, 3).lines == [];
    assert b.lines == [Decl(Node(2, Rounded, "f"))] && b.next == 3;
    assert VisitChildren(e, 0, 2, 3).lines == [];
    assert VisitChildren(e, 0, 1, 2).lines == b.lines + [Arrow(Edge(0, 2, "letBody"))] + [];
    assert VisitChildren(e, 0, 0, 1).lines
        == a.lines + [Arrow(Edge(0, 1, "fBody"))] + VisitChildren(e, 0, 1, 2).lines;
  }

  /** `f a`: a `call` node whose edges carry `fun` then `arg`. */
  lemma RenderCallLines()
    ensures Visit(Call(Var("f"), Var("a")), 0).lines
         == [Decl(Node(0, Rounded, "call")), Decl(Node(1, Rounded, "f")), Arrow(Edge(0, 1, "fun")),
             Decl(Node(2, Rounded, "a")), Arrow(Edge(0, 2, "arg"))]
  {
    var e := Call(Var("f"), Var("a"));
    var a, b := Visit(Var("f"), 1), Visit(Var("a"), 2);
    assert VisitChildren(Var("f"), 1, 0, 2).lines == [];
    assert a.lines == [Decl(Node(1, Rounded, "f"))] && a.next == 2;
    assert VisitChildren(Var("a"), 2, 0, 3).lines == [];
    assert b.lines == [Decl(Node(2, Rounded, "a"))] && b.next == 3;
    assert VisitChildren(e, 0, 2, 3).lines == [];
    assert VisitChildren(e, 0, 1, 2).lines == b.lines + [Arrow(Edge(0, 2, "arg"))] + [];
    assert VisitChildren(e, 0, 0, 1).lines
        == a.lines + [Arrow(Edge(0, 1, "fun"))] + VisitChildren(e, 0, 1, 2).lines;
  }

  /** A box node: `[ ]` around the quoted text. */
  lemma RectLineText()
    ensures ShowLine(Decl(Node(0, Rect, "+"))) == "  N0[\"+\"]"
  {
  }

  /** A stadium node, used for constants: `([ ])` around the quoted text. */
  lemma StadiumLineText()
    ensures ShowLine(Decl(Node(1, Stadium, "True"))) == "  N1([\"True\"])"
  {
  }

  /** A rounded node, used for names and binders: `( )` around the quoted text; ids run past one digit. */
  lemma RoundedLineText()
    ensures ShowLine(Decl(Node(12, Rounded, "let x"))) == "  N12(\"let x\")"
  {
  }

  /** An edge without a role is a bare arrow. */
  lemma PlainArrowText()
    ensures ShowLine(Arrow(Edge(0, 1, ""))) == "  N0 -->N1"
  {
  }

  /** An edge with a role carries it between bars. */
  lemma LabelledArrowText()
    ensures ShowLine(Arrow(Edge(3, 10, "cond"))) == "  N3 -->|cond|N10"
  {
  }
}

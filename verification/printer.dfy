/**
 * A printer for MicroML trees and the proof that the parser inverts it.
 *
 * `Print` writes every composite node inside its own parentheses and every leaf as one
 * token, so no reading of precedence or associativity is needed to recover the tree.
 * The round trip is stated on token kinds and lexemes only, since positions never
 * influence a successful parse.
 */
module Printer {
  import opened Wrappers
  import opened Ast
  import opened Lexer
  import opened Numerals
  import opened Parser

  /** A name the lexer would deliver as an identifier. */
  predicate IsName(x: string) {
    WellFormedToken(Token(Ident, x, 0))
  }

  /** The trees the printer can write and the parser can read back. */
  predicate Printable(e: Expr) {
    match e
    case CstI(v) => v >= 0
    case CstB(_) => true
    case Var(x) => IsName(x)
    case Prim(op, l, r) => IsOperator(op) && Printable(l) && Printable(r)
    case If(c, t, f) => Printable(c) && Printable(t) && Printable(f)
    case Let(x, rhs, body) => IsName(x) && Printable(rhs) && Printable(body)
    case LetFun(f, x, fb, lb) => IsName(f) && IsName(x) && Printable(fb) && Printable(lb)
    case Call(fn, arg) => Printable(fn) && Printable(arg)
  }

  /** The token of a fixed-spelling kind. */
  function Tok(t: TokenType): Token
    requires Spelling(t).Some?
  {
    Token(t, Spelling(t).value, 0)
  }

  /** The token kind of an operator text. */
  function OpType(op: string): (t: TokenType)
    requires IsOperator(op)
    ensures Spelling(t) == Some(op)
    ensures t == Star <==> op == "*"
    ensures t != Star ==> IsAddOp(t)
  {
    if op == "+" then Plus
    else if op == "-" then Minus
    else if op == "<" then Less
    else if op == "=" then Equal
    else Star
  }

  /** The tokens of a tree: leaves bare, every composite node parenthesised. */
  function Print(e: Expr): (p: seq<Token>)
    requires Printable(e)
    ensures |p| >= 1 && PeekIsStartOfAtom(p[0].typ)
  {
    match e
    case CstI(v) => [Token(IntLit, NatToString(v), 0)]
    case CstB(b) => [Token(BoolLit, if b then "true" else "false", 0)]
    case Var(x) => [Token(Ident, x, 0)]
    case Prim(op, l, r) =>
      [Tok(LParen)] + Print(l) + [Token(OpType(op), op, 0)] + Print(r) + [Tok(RParen)]
    case If(c, t, f) =>
      [Tok(LParen), Tok(TokenType.If)] + Print(c) + [Tok(Then)] + Print(t) + [Tok(Else)] + Print(f) + [Tok(RParen)]
    case Let(x, rhs, body) =>
      [Tok(LParen), Tok(TokenType.Let), Token(Ident, x, 0), Tok(Equal)] + Print(rhs) + [Tok(In)] + Print(body) + [Tok(End), Tok(RParen)]
    case LetFun(f, x, fb, lb) =>
      [Tok(LParen), Tok(TokenType.Let), Token(Ident, f, 0), Token(Ident, x, 0), Tok(Equal)] + Print(fb) + [Tok(In)] + Print(lb) + [Tok(End), Tok(RParen)]
    case Call(fn, arg) =>
      [Tok(LParen)] + Print(fn) + Print(arg) + [Tok(RParen)]
  }

  /** Every printed token is one the lexer could deliver, and none is EOF. */
  predicate Lexable(p: seq<Token>) {
    forall k {:trigger WellFormedToken(p[k])} :: 0 <= k < |p| ==> WellFormedToken(p[k]) && p[k].typ != EOF
  }

  lemma LexableAppend(a: seq<Token>, b: seq<Token>)
    requires Lexable(a) && Lexable(b)
    ensures Lexable(a + b)
  {
    forall k | 0 <= k < |a + b| ensures WellFormedToken((a + b)[k]) && (a + b)[k].typ != EOF {
      if k >= |a| { assert (a + b)[k] == b[k - |a|]; }
    }
  }

  lemma {:induction false} PrintIsLexable(e: Expr)
    requires Printable(e)
    ensures Lexable(Print(e))
  {
    match e
    case CstI(v) =>
    case CstB(_) =>
    case Var(_) =>
    case Prim(_, l, r) =>
      PrintIsLexable(l); PrintIsLexable(r);
      PrimIsLexable(e);
    case If(c, t, f) =>
      PrintIsLexable(c); PrintIsLexable(t); PrintIsLexable(f);
      IfIsLexable(e);
    case Let(_, rhs, body) =>
      PrintIsLexable(rhs); PrintIsLexable(body);
      LetIsLexable(e);
    case LetFun(_, _, fb, lb) =>
      PrintIsLexable(fb); PrintIsLexable(lb);
      LetFunIsLexable(e);
    case Call(fn, arg) =>
      PrintIsLexable(fn); PrintIsLexable(arg);
      CallIsLexable(e);
  }

  /** The fixed-spelling tokens the printer writes around subtrees. */
  lemma PunctuationIsLexable()
    ensures Lexable([Tok(LParen)]) && Lexable([Tok(RParen)]) && Lexable([Tok(Then)]) && Lexable([Tok(Else)])
    ensures Lexable([Tok(In)]) && Lexable([Tok(End), Tok(RParen)]) && Lexable([Tok(Equal)])
    ensures Lexable([Tok(LParen), Tok(TokenType.If)])
  {
  }

  lemma PrimIsLexable(e: Expr)
    requires Printable(e) && e.Prim? && Lexable(Print(e.l)) && Lexable(Print(e.r))
    ensures Lexable(Print(e))
  {
    var pl, pr := Print(e.l), Print(e.r);
    var opTok := [Token(OpType(e.op), e.op, 0)];
    PunctuationIsLexable();
    var x1 := [Tok(LParen)] + pl;
    LexableAppend([Tok(LParen)], pl);
    var x2 := x1 + opTok;
    LexableAppend(x1, opTok);
    var x3 := x2 + pr;
    LexableAppend(x2, pr);
    LexableAppend(x3, [Tok(RParen)]);
    assert Print(e) == x3 + [Tok(RParen)];
  }

  lemma IfIsLexable(e: Expr)
    requires Printable(e) && e.If?
    requires Lexable(Print(e.cond)) && Lexable(Print(e.thn)) && Lexable(Print(e.els))
    ensures Lexable(Print(e))
  {
    var pc, pt, pf := Print(e.cond), Print(e.thn), Print(e.els);
    PunctuationIsLexable();
    var x0 := [Tok(LParen), Tok(TokenType.If)];
    var x1 := x0 + pc;
    LexableAppend(x0, pc);
    var x2 := x1 + [Tok(Then)];
    LexableAppend(x1, [Tok(Then)]);
    var x3 := x2 + pt;
    LexableAppend(x2, pt);
    var x4 := x3 + [Tok(Else)];
    LexableAppend(x3, [Tok(Else)]);
    var x5 := x4 + pf;
    LexableAppend(x4, pf);
    LexableAppend(x5, [Tok(RParen)]);
    assert Print(e) == x5 + [Tok(RParen)];
  }

  /** An identifier token for a name the lexer accepts. */
  lemma NameIsLexable(x: string)
    requires IsName(x)
    ensures Lexable([Token(Ident, x, 0)])
  {
  }

  /** A printed `let` or `let`-function: head, bound expression, `in`, body, `end`, bracket. */
  lemma BindingIsLexable(head: seq<Token>, pb: seq<Token>, pl: seq<Token>)
    requires Lexable(head) && Lexable(pb) && Lexable(pl)
    ensures Lexable(head + pb + [Tok(In)] + pl + [Tok(End), Tok(RParen)])
  {
    PunctuationIsLexable();
    var x1 := head + pb;
    LexableAppend(head, pb);
    var x2 := x1 + [Tok(In)];
    LexableAppend(x1, [Tok(In)]);
    var x3 := x2 + pl;
    LexableAppend(x2, pl);
    LexableAppend(x3, [Tok(End), Tok(RParen)]);
  }

  lemma LetIsLexable(e: Expr)
    requires Printable(e) && e.Let? && Lexable(Print(e.rhs)) && Lexable(Print(e.body))
    ensures Lexable(Print(e))
  {
    var x0 := [Tok(LParen), Tok(TokenType.Let)];
    PunctuationIsLexable();
    NameIsLexable(e.id);
    var x1 := x0 + [Token(Ident, e.id, 0)];
    LexableAppend(x0, [Token(Ident, e.id, 0)]);
    LexableAppend(x1, [Tok(Equal)]);
    assert x1 + [Tok(Equal)] == [Tok(LParen), Tok(TokenType.Let), Token(Ident, e.id, 0), Tok(Equal)];
    BindingIsLexable(x1 + [Tok(Equal)], Print(e.rhs), Print(e.body));
  }

  lemma LetFunIsLexable(e: Expr)
    requires Printable(e) && e.LetFun? && Lexable(Print(e.fBody)) && Lexable(Print(e.letBody))
    ensures Lexable(Print(e))
  {
    var x0 := [Tok(LParen), Tok(TokenType.Let)];
    PunctuationIsLexable();
    NameIsLexable(e.f);
    NameIsLexable(e.x);
    var x1 := x0 + [Token(Ident, e.f, 0)];
    LexableAppend(x0, [Token(Ident, e.f, 0)]);
    var x2 := x1 + [Token(Ident, e.x, 0)];
    LexableAppend(x1, [Token(Ident, e.x, 0)]);
    LexableAppend(x2, [Tok(Equal)]);
    assert x2 + [Tok(Equal)] == [Tok(LParen), Tok(TokenType.Let), Token(Ident, e.f, 0), Token(Ident, e.x, 0), Tok(Equal)];
    BindingIsLexable(x2 + [Tok(Equal)], Print(e.fBody), Print(e.letBody));
  }

  lemma CallIsLexable(e: Expr)
    requires Printable(e) && e.Call? && Lexable(Print(e.fun)) && Lexable(Print(e.arg))
    ensures Lexable(Print(e))
  {
    var pf, pa := Print(e.fun), Print(e.arg);
    PunctuationIsLexable();
    var x1 := [Tok(LParen)] + pf;
    LexableAppend([Tok(LParen)], pf);
    var x2 := x1 + pa;
    LexableAppend(x1, pa);
    LexableAppend(x2, [Tok(RParen)]);
    assert Print(e) == x2 + [Tok(RParen)];
  }

  /** Two tokens alike up to position. */
  predicate Alike(a: Token, b: Token) {
    a.typ == b.typ && a.lexeme == b.lexeme
  }

  /** The stream holds tokens alike to `p`, starting at index `i`. */
  predicate SameAt(toks: seq<Token>, i: nat, p: seq<Token>)
    decreases |p|
  {
    i + |p| <= |toks| && (p == [] || (Alike(toks[i], p[0]) && SameAt(toks, i + 1, p[1..])))
  }

  /** A token that does not open a `let` or an `if`, so `expr` reads it as a `callExpr`. */
  predicate NoKeyword(t: TokenType) {
    t != TokenType.Let && t != TokenType.If
  }

  /** The tokens that end an expression: none continues an application, a product or a sum. */
  predicate Stops(t: TokenType) {
    !PeekIsStartOfAtom(t) && t != Star && !IsAddOp(t)
  }

  // ------------------------------------------------------------- stream slicing

  lemma {:induction false} SameAtIndex(toks: seq<Token>, i: nat, p: seq<Token>, k: nat)
    requires SameAt(toks, i, p) && k < |p|
    ensures Alike(toks[i + k], p[k])
    decreases k
  {
    if k > 0 {
      SameAtIndex(toks, i + 1, p[1..], k - 1);
    }
  }

  lemma {:induction false} SameAtSplit(toks: seq<Token>, i: nat, a: seq<Token>, b: seq<Token>)
    requires SameAt(toks, i, a + b)
    ensures SameAt(toks, i, a) && SameAt(toks, i + |a|, b)
    decreases |a|
  {
    if a == [] {
      assert a + b == b;
    } else {
      assert (a + b)[0] == a[0] && (a + b)[1..] == a[1..] + b;
      SameAtSplit(toks, i + 1, a[1..], b);
    }
  }

  /** A stream holds its own tokens, compared up to position. */
  lemma {:induction false} SameAtOfSlice(toks: seq<Token>, i: nat, p: seq<Token>)
    requires i + |p| <= |toks| && toks[i..i + |p|] == p
    ensures SameAt(toks, i, p)
    decreases |p|
  {
    if p != [] {
      assert toks[i] == p[0];
      assert toks[i + 1..i + 1 + |p[1..]|] == p[1..];
      SameAtOfSlice(toks, i + 1, p[1..]);
    }
  }

  lemma SameAtOne(toks: seq<Token>, i: nat, t: Token)
    requires SameAt(toks, i, [t])
    ensures i < |toks| && Alike(toks[i], t)
  {
    SameAtIndex(toks, i, [t], 0);
  }

  /** The stream at a printed tree starts with a token that can start an atom, so neither `let` nor `if`. */
  lemma PrintedStart(toks: seq<Token>, i: nat, e: Expr)
    requires Printable(e) && SameAt(toks, i, Print(e))
    ensures i < |toks| && PeekIsStartOfAtom(toks[i].typ)
  {
    SameAtIndex(toks, i, Print(e), 0);
  }

  /** The same fact, weakened to what choosing the `callExpr` alternative needs. */
  lemma PrintedStartIsNoKeyword(toks: seq<Token>, i: nat, e: Expr)
    requires Printable(e) && SameAt(toks, i, Print(e))
    ensures i < |toks| && NoKeyword(toks[i].typ)
  {
    PrintedStart(toks, i, e);
  }

  lemma SameAt4(toks: seq<Token>, i: nat, a: seq<Token>, b: seq<Token>, c: seq<Token>, d: seq<Token>)
    requires SameAt(toks, i, a + b + c + d)
    ensures SameAt(toks, i, a) && SameAt(toks, i + |a|, b)
    ensures SameAt(toks, i + |a| + |b|, c) && SameAt(toks, i + |a| + |b| + |c|, d)
  {
    SameAtSplit(toks, i, a + b + c, d);
    SameAtSplit(toks, i, a + b, c);
    SameAtSplit(toks, i, a, b);
  }

  lemma SameAt5(toks: seq<Token>, i: nat, a: seq<Token>, b: seq<Token>, c: seq<Token>, d: seq<Token>, f: seq<Token>)
    requires SameAt(toks, i, a + b + c + d + f)
    ensures SameAt(toks, i, a) && SameAt(toks, i + |a|, b) && SameAt(toks, i + |a| + |b|, c)
    ensures SameAt(toks, i + |a| + |b| + |c|, d) && SameAt(toks, i + |a| + |b| + |c| + |d|, f)
  {
    SameAtSplit(toks, i, a + b + c + d, f);
    SameAt4(toks, i, a, b, c, d);
  }

  lemma SameAt7(toks: seq<Token>, i: nat, a: seq<Token>, b: seq<Token>, c: seq<Token>, d: seq<Token>,
                f: seq<Token>, g: seq<Token>, h: seq<Token>)
    requires SameAt(toks, i, a + b + c + d + f + g + h)
    ensures SameAt(toks, i, a) && SameAt(toks, i + |a|, b) && SameAt(toks, i + |a| + |b|, c)
    ensures SameAt(toks, i + |a| + |b| + |c|, d) && SameAt(toks, i + |a| + |b| + |c| + |d|, f)
    ensures SameAt(toks, i + |a| + |b| + |c| + |d| + |f|, g)
    ensures SameAt(toks, i + |a| + |b| + |c| + |d| + |f| + |g|, h)
  {
    SameAtSplit(toks, i, a + b + c + d + f + g, h);
    SameAtSplit(toks, i, a + b + c + d + f, g);
    SameAt5(toks, i, a, b, c, d, f);
  }

  // ------------------------------------------------------------- single parsing steps

  // Each lemma below unfolds one production once, so that the proofs built from them
  // only chain equalities.

  lemma MulTailStops(toks: seq<Token>, i: nat, acc: Expr)
    requires Valid(toks, i) && Built(toks, acc) && toks[i].typ != Star
    ensures MulTail(toks, i, acc) == Success(Parsed(acc, i))
  {
  }

  lemma AddTailStops(toks: seq<Token>, i: nat, acc: Expr)
    requires Valid(toks, i) && Built(toks, acc) && !IsAddOp(toks[i].typ)
    ensures AddTail(toks, i, acc) == Success(Parsed(acc, i))
  {
  }

  lemma CallTailStops(toks: seq<Token>, i: nat, acc: Expr)
    requires Valid(toks, i) && Built(toks, acc) && !PeekIsStartOfAtom(toks[i].typ)
    ensures CallTail(toks, i, acc) == Success(Parsed(acc, i))
  {
  }

  /** Away from `let` and `if`, an expr is a callExpr. */
  lemma ExprIsCall(toks: seq<Token>, i: nat)
    requires Valid(toks, i) && NoKeyword(toks[i].typ)
    ensures ParseExpr(toks, i) == CallExpr(toks, i)
  {
  }

  lemma MulOfAtom(toks: seq<Token>, i: nat, l: Expr, j: nat)
    requires Valid(toks, i) && Atom(toks, i) == Success(Parsed(l, j))
    ensures j < |toks| && Built(toks, l) && MulExpr(toks, i) == MulTail(toks, j, l)
  {
  }

  lemma MulTailStep(toks: seq<Token>, j: nat, acc: Expr, r: Expr, m: nat)
    requires Valid(toks, j) && Built(toks, acc) && toks[j].typ == Star
    requires j + 1 < |toks| && Atom(toks, j + 1) == Success(Parsed(r, m))
    ensures m < |toks| && Built(toks, Prim("*", acc, r))
    ensures MulTail(toks, j, acc) == MulTail(toks, m, Prim("*", acc, r))
  {
  }

  lemma AddOfMul(toks: seq<Token>, i: nat, l: Expr, j: nat)
    requires Valid(toks, i) && MulExpr(toks, i) == Success(Parsed(l, j))
    ensures j < |toks| && Built(toks, l) && AddExpr(toks, i) == AddTail(toks, j, l)
  {
  }

  lemma AddTailStep(toks: seq<Token>, j: nat, acc: Expr, r: Expr, m: nat)
    requires Valid(toks, j) && Built(toks, acc) && IsAddOp(toks[j].typ)
    requires j + 1 < |toks| && MulExpr(toks, j + 1) == Success(Parsed(r, m))
    ensures m < |toks| && Built(toks, Prim(toks[j].lexeme, acc, r))
    ensures AddTail(toks, j, acc) == AddTail(toks, m, Prim(toks[j].lexeme, acc, r))
  {
    assert WellFormedToken(toks[j]);
  }

  lemma CallOfAdd(toks: seq<Token>, i: nat, f: Expr, j: nat)
    requires Valid(toks, i) && AddExpr(toks, i) == Success(Parsed(f, j))
    ensures j < |toks| && Built(toks, f) && CallExpr(toks, i) == CallTail(toks, j, f)
  {
  }

  lemma CallTailStep(toks: seq<Token>, j: nat, acc: Expr, a: Expr, m: nat)
    requires Valid(toks, j) && Built(toks, acc) && PeekIsStartOfAtom(toks[j].typ)
    requires AddExpr(toks, j) == Success(Parsed(a, m))
    ensures m < |toks| && Built(toks, Call(acc, a))
    ensures CallTail(toks, j, acc) == CallTail(toks, m, Call(acc, a))
  {
  }

  /** An atom followed by a token other than `*` is a whole product. */
  lemma MulExprOfAtom(toks: seq<Token>, i: nat, e: Expr, j: nat)
    requires Valid(toks, i) && Atom(toks, i) == Success(Parsed(e, j))
    requires j < |toks| && toks[j].typ != Star
    ensures MulExpr(toks, i) == Success(Parsed(e, j))
  {
    MulOfAtom(toks, i, e, j);
    MulTailStops(toks, j, e);
  }

  /** A product followed by a token that stops an expression is a whole expression. */
  lemma ExprOfProductStops(toks: seq<Token>, i: nat, e: Expr, j: nat)
    requires Valid(toks, i) && NoKeyword(toks[i].typ)
    requires MulExpr(toks, i) == Success(Parsed(e, j)) && j < |toks| && Stops(toks[j].typ)
    ensures ParseExpr(toks, i) == Success(Parsed(e, j))
  {
    AddOfMul(toks, i, e, j);
    AddTailStops(toks, j, e);
    CallOfAdd(toks, i, e, j);
    CallTailStops(toks, j, e);
    ExprIsCall(toks, i);
  }

  /**
   * An atom followed by a token that stops an expression is a whole expression: the
   * product, sum and application loops all end at once.
   */
  lemma ExprOfAtom(toks: seq<Token>, i: nat, e: Expr, j: nat)
    requires Valid(toks, i) && Valid(toks, j) && NoKeyword(toks[i].typ)
    requires Atom(toks, i) == Success(Parsed(e, j)) && Stops(toks[j].typ)
    ensures ParseExpr(toks, i) == Success(Parsed(e, j))
  {
    MulExprOfAtom(toks, i, e, j);
    ExprOfProductStops(toks, i, e, j);
  }

  /** `l * r` followed by a stopping token. */
  lemma ExprOfProduct(toks: seq<Token>, i: nat, l: Expr, j: nat, r: Expr, m: nat)
    requires Valid(toks, i) && NoKeyword(toks[i].typ)
    requires Atom(toks, i) == Success(Parsed(l, j)) && toks[j].typ == Star
    requires j + 1 < |toks| && Atom(toks, j + 1) == Success(Parsed(r, m)) && Stops(toks[m].typ)
    ensures ParseExpr(toks, i) == Success(Parsed(Prim("*", l, r), m))
  {
    var e := Prim("*", l, r);
    MulOfAtom(toks, i, l, j);
    MulTailStep(toks, j, l, r, m);
    MulTailStops(toks, m, e);
    ExprOfProductStops(toks, i, e, m);
  }

  /** `l op r` for an additive operator, followed by a stopping token. */
  lemma ExprOfSum(toks: seq<Token>, i: nat, l: Expr, j: nat, op: string, r: Expr, m: nat)
    requires Valid(toks, i) && NoKeyword(toks[i].typ)
    requires Atom(toks, i) == Success(Parsed(l, j)) && IsAddOp(toks[j].typ) && toks[j].lexeme == op
    requires j + 1 < |toks| && Atom(toks, j + 1) == Success(Parsed(r, m)) && Stops(toks[m].typ)
    ensures ParseExpr(toks, i) == Success(Parsed(Prim(op, l, r), m))
  {
    var e := Prim(op, l, r);
    MulExprOfAtom(toks, i, l, j);
    MulExprOfAtom(toks, j + 1, r, m);
    AddOfMul(toks, i, l, j);
    AddTailStep(toks, j, l, r, m);
    AddTailStops(toks, m, e);
    CallOfAdd(toks, i, e, m);
    CallTailStops(toks, m, e);
    ExprIsCall(toks, i);
  }

  /** `fn arg`, both atoms, followed by a stopping token. */
  lemma ExprOfApplication(toks: seq<Token>, i: nat, fn: Expr, j: nat, arg: Expr, m: nat)
    requires Valid(toks, i) && NoKeyword(toks[i].typ)
    requires Atom(toks, i) == Success(Parsed(fn, j)) && PeekIsStartOfAtom(toks[j].typ)
    requires Atom(toks, j) == Success(Parsed(arg, m)) && Stops(toks[m].typ)
    ensures ParseExpr(toks, i) == Success(Parsed(Call(fn, arg), m))
  {
    var e := Call(fn, arg);
    MulExprOfAtom(toks, i, fn, j);
    AddOfMul(toks, i, fn, j);
    AddTailStops(toks, j, fn);
    MulExprOfAtom(toks, j, arg, m);
    AddOfMul(toks, j, arg, m);
    AddTailStops(toks, m, arg);
    CallOfAdd(toks, i, fn, j);
    CallTailStep(toks, j, fn, arg, m);
    CallTailStops(toks, m, e);
    ExprIsCall(toks, i);
  }

  /** A keyword followed by an expression. */
  lemma ExprAfterKeyword(toks: seq<Token>, i: nat, t: TokenType, e: Expr, z: nat)
    requires Valid(toks, i) && toks[i].typ == t && t != EOF && i + 1 < |toks|
    requires ParseExpr(toks, i + 1) == Success(Parsed(e, z))
    ensures ExprAfter(toks, i, t) == Success(Parsed(e, z))
  {
  }

  /** `if c then t else f`. */
  lemma ExprOfIf(toks: seq<Token>, i: nat, c: Expr, x: nat, t: Expr, y: nat, f: Expr, z: nat)
    requires Valid(toks, i) && toks[i].typ == TokenType.If && i + 1 < |toks|
    requires ParseExpr(toks, i + 1) == Success(Parsed(c, x))
    requires ExprAfter(toks, x, Then) == Success(Parsed(t, y))
    requires ExprAfter(toks, y, Else) == Success(Parsed(f, z))
    ensures ParseExpr(toks, i) == Success(Parsed(Expr.If(c, t, f), z))
  {
    assert IfExpr(toks, i + 1) == Success(Parsed(Expr.If(c, t, f), z));
  }

  /** `let x = rhs in body end`. */
  lemma ExprOfLet(toks: seq<Token>, i: nat, x: string, rhs: Expr, a: nat, body: Expr, b: nat)
    requires Valid(toks, i) && i + 2 < |toks| && toks[i].typ == TokenType.Let
    requires toks[i + 1].typ == Ident && toks[i + 1].lexeme == x && toks[i + 2].typ == Equal
    requires ExprAfter(toks, i + 2, Equal) == Success(Parsed(rhs, a))
    requires ExprAfter(toks, a, In) == Success(Parsed(body, b)) && toks[b].typ == End
    ensures ParseExpr(toks, i) == Success(Parsed(Expr.Let(x, rhs, body), b + 1))
  {
    assert LetExpr(toks, i + 1) == Success(Parsed(Expr.Let(x, rhs, body), b + 1));
  }

  /** `let f x = fb in lb end`. */
  lemma ExprOfLetFun(toks: seq<Token>, i: nat, f: string, x: string, fb: Expr, a: nat, lb: Expr, b: nat)
    requires Valid(toks, i) && i + 3 < |toks| && toks[i].typ == TokenType.Let
    requires toks[i + 1].typ == Ident && toks[i + 1].lexeme == f
    requires toks[i + 2].typ == Ident && toks[i + 2].lexeme == x
    requires ExprAfter(toks, i + 3, Equal) == Success(Parsed(fb, a))
    requires ExprAfter(toks, a, In) == Success(Parsed(lb, b)) && toks[b].typ == End
    ensures ParseExpr(toks, i) == Success(Parsed(LetFun(f, x, fb, lb), b + 1))
  {
    assert LetExpr(toks, i + 1) == Success(Parsed(LetFun(f, x, fb, lb), b + 1));
  }

  /** `( e )`. */
  lemma AtomOfParens(toks: seq<Token>, i: nat, e: Expr, j: nat)
    requires Valid(toks, i) && toks[i].typ == LParen && i + 1 < |toks|
    requires ParseExpr(toks, i + 1) == Success(Parsed(e, j)) && toks[j].typ == RParen
    ensures Atom(toks, i) == Success(Parsed(e, j + 1))
  {
  }

  /** `( l op r )` */
  lemma AtomOfPrim(toks: seq<Token>, i: nat, op: string, l: Expr, j: nat, r: Expr, m: nat)
    requires Valid(toks, i) && toks[i].typ == LParen && i + 1 < |toks| && NoKeyword(toks[i + 1].typ)
    requires Atom(toks, i + 1) == Success(Parsed(l, j)) && IsOperator(op)
    requires toks[j].typ == OpType(op) && toks[j].lexeme == op
    requires j + 1 < |toks| && Atom(toks, j + 1) == Success(Parsed(r, m)) && toks[m].typ == RParen
    ensures Atom(toks, i) == Success(Parsed(Prim(op, l, r), m + 1))
  {
    if op == "*" {
      ExprOfProduct(toks, i + 1, l, j, r, m);
    } else {
      ExprOfSum(toks, i + 1, l, j, op, r, m);
    }
    AtomOfParens(toks, i, Prim(op, l, r), m);
  }

  /** `( if c then t else f )` */
  lemma AtomOfIf(toks: seq<Token>, i: nat, c: Expr, x: nat, t: Expr, y: nat, f: Expr, z: nat)
    requires Valid(toks, i) && i + 2 < |toks| && toks[i].typ == LParen && toks[i + 1].typ == TokenType.If
    requires ParseExpr(toks, i + 2) == Success(Parsed(c, x))
    requires ExprAfter(toks, x, Then) == Success(Parsed(t, y))
    requires ExprAfter(toks, y, Else) == Success(Parsed(f, z)) && toks[z].typ == RParen
    ensures Atom(toks, i) == Success(Parsed(Expr.If(c, t, f), z + 1))
  {
    ExprOfIf(toks, i + 1, c, x, t, y, f, z);
    AtomOfParens(toks, i, Expr.If(c, t, f), z);
  }

  /** `( let x = rhs in body end )` */
  lemma AtomOfLet(toks: seq<Token>, i: nat, x: string, rhs: Expr, a: nat, body: Expr, b: nat)
    requires Valid(toks, i) && i + 3 < |toks| && toks[i].typ == LParen && toks[i + 1].typ == TokenType.Let
    requires toks[i + 2].typ == Ident && toks[i + 2].lexeme == x && toks[i + 3].typ == Equal
    requires ExprAfter(toks, i + 3, Equal) == Success(Parsed(rhs, a))
    requires ExprAfter(toks, a, In) == Success(Parsed(body, b)) && toks[b].typ == End
    requires b + 1 < |toks| && toks[b + 1].typ == RParen
    ensures Atom(toks, i) == Success(Parsed(Expr.Let(x, rhs, body), b + 2))
  {
    ExprOfLet(toks, i + 1, x, rhs, a, body, b);
    AtomOfParens(toks, i, Expr.Let(x, rhs, body), b + 1);
  }

  /** `( let f x = fb in lb end )` */
  lemma AtomOfLetFun(toks: seq<Token>, i: nat, f: string, x: string, fb: Expr, a: nat, lb: Expr, b: nat)
    requires Valid(toks, i) && i + 4 < |toks| && toks[i].typ == LParen && toks[i + 1].typ == TokenType.Let
    requires toks[i + 2].typ == Ident && toks[i + 2].lexeme == f
    requires toks[i + 3].typ == Ident && toks[i + 3].lexeme == x
    requires ExprAfter(toks, i + 4, Equal) == Success(Parsed(fb, a))
    requires ExprAfter(toks, a, In) == Success(Parsed(lb, b)) && toks[b].typ == End
    requires b + 1 < |toks| && toks[b + 1].typ == RParen
    ensures Atom(toks, i) == Success(Parsed(LetFun(f, x, fb, lb), b + 2))
  {
    ExprOfLetFun(toks, i + 1, f, x, fb, a, lb, b);
    AtomOfParens(toks, i, LetFun(f, x, fb, lb), b + 1);
  }

  /** `( fn arg )` */
  lemma AtomOfCall(toks: seq<Token>, i: nat, fn: Expr, j: nat, arg: Expr, m: nat)
    requires Valid(toks, i) && toks[i].typ == LParen && i + 1 < |toks| && NoKeyword(toks[i + 1].typ)
    requires Atom(toks, i + 1) == Success(Parsed(fn, j)) && PeekIsStartOfAtom(toks[j].typ)
    requires Atom(toks, j) == Success(Parsed(arg, m)) && toks[m].typ == RParen
    ensures Atom(toks, i) == Success(Parsed(Call(fn, arg), m + 1))
  {
    ExprOfApplication(toks, i + 1, fn, j, arg, m);
    AtomOfParens(toks, i, Call(fn, arg), m);
  }

  // ------------------------------------------------------------- printed layouts

  /** Where the pieces of a printed `Prim` sit in the stream. */
  lemma PrimLayout(toks: seq<Token>, i: nat, pl: seq<Token>, op: string, pr: seq<Token>) returns (j: nat, m: nat)
    requires IsOperator(op) && SameAt(toks, i, [Tok(LParen)] + pl + [Token(OpType(op), op, 0)] + pr + [Tok(RParen)])
    ensures j == i + 1 + |pl| && m == j + 1 + |pr| && m + 1 == i + |[Tok(LParen)] + pl + [Token(OpType(op), op, 0)] + pr + [Tok(RParen)]|
    ensures toks[i].typ == LParen && SameAt(toks, i + 1, pl)
    ensures toks[j].typ == OpType(op) && toks[j].lexeme == op
    ensures SameAt(toks, j + 1, pr) && toks[m].typ == RParen
  {
    var opTok := Token(OpType(op), op, 0);
    j, m := i + 1 + |pl|, i + 2 + |pl| + |pr|;
    SameAt5(toks, i, [Tok(LParen)], pl, [opTok], pr, [Tok(RParen)]);
    SameAtOne(toks, i, Tok(LParen));
    SameAtOne(toks, j, opTok);
    SameAtOne(toks, m, Tok(RParen));
  }

  /** Where the pieces of a printed `If` sit in the stream. */
  lemma IfLayout(toks: seq<Token>, i: nat, pc: seq<Token>, pt: seq<Token>, pf: seq<Token>) returns (x: nat, y: nat, z: nat)
    requires SameAt(toks, i, [Tok(LParen), Tok(TokenType.If)] + pc + [Tok(Then)] + pt + [Tok(Else)] + pf + [Tok(RParen)])
    ensures x == i + 2 + |pc| && y == x + 1 + |pt| && z == y + 1 + |pf|
    ensures z + 1 == i + |[Tok(LParen), Tok(TokenType.If)] + pc + [Tok(Then)] + pt + [Tok(Else)] + pf + [Tok(RParen)]|
    ensures toks[i].typ == LParen && toks[i + 1].typ == TokenType.If
    ensures SameAt(toks, i + 2, pc) && toks[x].typ == Then
    ensures SameAt(toks, x + 1, pt) && toks[y].typ == Else
    ensures SameAt(toks, y + 1, pf) && toks[z].typ == RParen
  {
    var h := [Tok(LParen), Tok(TokenType.If)];
    x := i + 2 + |pc|;
    y := x + 1 + |pt|;
    z := y + 1 + |pf|;
    SameAt7(toks, i, h, pc, [Tok(Then)], pt, [Tok(Else)], pf, [Tok(RParen)]);
    SameAtIndex(toks, i, h, 0); SameAtIndex(toks, i, h, 1);
    SameAtOne(toks, x, Tok(Then));
    SameAtOne(toks, y, Tok(Else));
    SameAtOne(toks, z, Tok(RParen));
  }

  /** Where the pieces of a printed `Let` sit in the stream. */
  lemma LetLayout(toks: seq<Token>, i: nat, x: string, pr: seq<Token>, pb: seq<Token>) returns (a: nat, b: nat)
    requires SameAt(toks, i, [Tok(LParen), Tok(TokenType.Let), Token(Ident, x, 0), Tok(Equal)] + pr + [Tok(In)] + pb + [Tok(End), Tok(RParen)])
    ensures a == i + 4 + |pr| && b == a + 1 + |pb|
    ensures b + 2 == i + |[Tok(LParen), Tok(TokenType.Let), Token(Ident, x, 0), Tok(Equal)] + pr + [Tok(In)] + pb + [Tok(End), Tok(RParen)]|
    ensures toks[i].typ == LParen && toks[i + 1].typ == TokenType.Let
    ensures toks[i + 2].typ == Ident && toks[i + 2].lexeme == x && toks[i + 3].typ == Equal
    ensures SameAt(toks, i + 4, pr) && toks[a].typ == In
    ensures SameAt(toks, a + 1, pb) && toks[b].typ == End
    ensures toks[b + 1].typ == RParen
  {
    var h := [Tok(LParen), Tok(TokenType.Let), Token(Ident, x, 0), Tok(Equal)];
    var t := [Tok(End), Tok(RParen)];
    a := i + 4 + |pr|;
    b := a + 1 + |pb|;
    SameAt5(toks, i, h, pr, [Tok(In)], pb, t);
    SameAtIndex(toks, i, h, 0); SameAtIndex(toks, i, h, 1);
    SameAtIndex(toks, i, h, 2); SameAtIndex(toks, i, h, 3);
    SameAtOne(toks, a, Tok(In));
    SameAtIndex(toks, b, t, 0); SameAtIndex(toks, b, t, 1);
  }

  /** Where the pieces of a printed `LetFun` sit in the stream. */
  lemma LetFunLayout(toks: seq<Token>, i: nat, f: string, x: string, pf: seq<Token>, pl: seq<Token>) returns (a: nat, b: nat)
    requires SameAt(toks, i, [Tok(LParen), Tok(TokenType.Let), Token(Ident, f, 0), Token(Ident, x, 0), Tok(Equal)] + pf + [Tok(In)] + pl + [Tok(End), Tok(RParen)])
    ensures a == i + 5 + |pf| && b == a + 1 + |pl|
    ensures b + 2 == i + |[Tok(LParen), Tok(TokenType.Let), Token(Ident, f, 0), Token(Ident, x, 0), Tok(Equal)] + pf + [Tok(In)] + pl + [Tok(End), Tok(RParen)]|
    ensures toks[i].typ == LParen && toks[i + 1].typ == TokenType.Let
    ensures toks[i + 2].typ == Ident && toks[i + 2].lexeme == f
    ensures toks[i + 3].typ == Ident && toks[i + 3].lexeme == x && toks[i + 4].typ == Equal
    ensures SameAt(toks, i + 5, pf) && toks[a].typ == In
    ensures SameAt(toks, a + 1, pl) && toks[b].typ == End
    ensures toks[b + 1].typ == RParen
  {
    var h := [Tok(LParen), Tok(TokenType.Let), Token(Ident, f, 0), Token(Ident, x, 0), Tok(Equal)];
    var t := [Tok(End), Tok(RParen)];
    a := i + 5 + |pf|;
    b := a + 1 + |pl|;
    SameAt5(toks, i, h, pf, [Tok(In)], pl, t);
    SameAtIndex(toks, i, h, 0); SameAtIndex(toks, i, h, 1); SameAtIndex(toks, i, h, 2);
    SameAtIndex(toks, i, h, 3); SameAtIndex(toks, i, h, 4);
    SameAtOne(toks, a, Tok(In));
    SameAtIndex(toks, b, t, 0); SameAtIndex(toks, b, t, 1);
  }

  /** Where the pieces of a printed `Call` sit in the stream. */
  lemma CallLayout(toks: seq<Token>, i: nat, pf: seq<Token>, pa: seq<Token>) returns (j: nat, m: nat)
    requires SameAt(toks, i, [Tok(LParen)] + pf + pa + [Tok(RParen)])
    ensures j == i + 1 + |pf| && m == j + |pa| && m + 1 == i + |[Tok(LParen)] + pf + pa + [Tok(RParen)]|
    ensures toks[i].typ == LParen && SameAt(toks, i + 1, pf)
    ensures SameAt(toks, j, pa) && toks[m].typ == RParen
  {
    j, m := i + 1 + |pf|, i + 1 + |pf| + |pa|;
    SameAt4(toks, i, [Tok(LParen)], pf, pa, [Tok(RParen)]);
    SameAtOne(toks, i, Tok(LParen));
    SameAtOne(toks, m, Tok(RParen));
  }

  /** The layout of a printed `Prim`, in terms of its children's printed forms. */
  lemma PrintedPrimLayout(toks: seq<Token>, i: nat, e: Expr) returns (j: nat, m: nat)
    requires Printable(e) && e.Prim? && SameAt(toks, i, Print(e))
    ensures j == i + 1 + |Print(e.l)| && m == j + 1 + |Print(e.r)| && m + 1 == i + |Print(e)|
    ensures toks[i].typ == LParen && SameAt(toks, i + 1, Print(e.l))
    ensures toks[j].typ == OpType(e.op) && toks[j].lexeme == e.op
    ensures SameAt(toks, j + 1, Print(e.r)) && toks[m].typ == RParen
  {
    assert Print(e) == [Tok(LParen)] + Print(e.l) + [Token(OpType(e.op), e.op, 0)] + Print(e.r) + [Tok(RParen)];
    j, m := PrimLayout(toks, i, Print(e.l), e.op, Print(e.r));
  }

  /** The layout of a printed `If`. */
  lemma PrintedIfLayout(toks: seq<Token>, i: nat, e: Expr) returns (x: nat, y: nat, z: nat)
    requires Printable(e) && e.If? && SameAt(toks, i, Print(e))
    ensures x == i + 2 + |Print(e.cond)| && y == x + 1 + |Print(e.thn)| && z == y + 1 + |Print(e.els)|
    ensures z + 1 == i + |Print(e)|
    ensures toks[i].typ == LParen && toks[i + 1].typ == TokenType.If
    ensures SameAt(toks, i + 2, Print(e.cond)) && toks[x].typ == Then
    ensures SameAt(toks, x + 1, Print(e.thn)) && toks[y].typ == Else
    ensures SameAt(toks, y + 1, Print(e.els)) && toks[z].typ == RParen
  {
    var pc, pt, pf := Print(e.cond), Print(e.thn), Print(e.els);
    assert Print(e) == [Tok(LParen), Tok(TokenType.If)] + pc + [Tok(Then)] + pt + [Tok(Else)] + pf + [Tok(RParen)];
    x, y, z := IfLayout(toks, i, pc, pt, pf);
  }

  /** The layout of a printed `Let`. */
  lemma PrintedLetLayout(toks: seq<Token>, i: nat, e: Expr) returns (a: nat, b: nat)
    requires Printable(e) && e.Let? && SameAt(toks, i, Print(e))
    ensures a == i + 4 + |Print(e.rhs)| && b == a + 1 + |Print(e.body)| && b + 2 == i + |Print(e)|
    ensures toks[i].typ == LParen && toks[i + 1].typ == TokenType.Let
    ensures toks[i + 2].typ == Ident && toks[i + 2].lexeme == e.id && toks[i + 3].typ == Equal
    ensures SameAt(toks, i + 4, Print(e.rhs)) && toks[a].typ == In
    ensures SameAt(toks, a + 1, Print(e.body)) && toks[b].typ == End
    ensures toks[b + 1].typ == RParen
  {
    var pr, pb := Print(e.rhs), Print(e.body);
    assert Print(e) == [Tok(LParen), Tok(TokenType.Let), Token(Ident, e.id, 0), Tok(Equal)] + pr + [Tok(In)] + pb + [Tok(End), Tok(RParen)];
    a, b := LetLayout(toks, i, e.id, pr, pb);
  }

  /** The layout of a printed `LetFun`. */
  lemma PrintedLetFunLayout(toks: seq<Token>, i: nat, e: Expr) returns (a: nat, b: nat)
    requires Printable(e) && e.LetFun? && SameAt(toks, i, Print(e))
    ensures a == i + 5 + |Print(e.fBody)| && b == a + 1 + |Print(e.letBody)| && b + 2 == i + |Print(e)|
    ensures toks[i].typ == LParen && toks[i + 1].typ == TokenType.Let
    ensures toks[i + 2].typ == Ident && toks[i + 2].lexeme == e.f
    ensures toks[i + 3].typ == Ident && toks[i + 3].lexeme == e.x && toks[i + 4].typ == Equal
    ensures SameAt(toks, i + 5, Print(e.fBody)) && toks[a].typ == In
    ensures SameAt(toks, a + 1, Print(e.letBody)) && toks[b].typ == End
    ensures toks[b + 1].typ == RParen
  {
    var pf, pl := Print(e.fBody), Print(e.letBody);
    assert Print(e) == [Tok(LParen), Tok(TokenType.Let), Token(Ident, e.f, 0), Token(Ident, e.x, 0), Tok(Equal)] + pf + [Tok(In)] + pl + [Tok(End), Tok(RParen)];
    a, b := LetFunLayout(toks, i, e.f, e.x, pf, pl);
  }

  /** The layout of a printed `Call`. */
  lemma PrintedCallLayout(toks: seq<Token>, i: nat, e: Expr) returns (j: nat, m: nat)
    requires Printable(e) && e.Call? && SameAt(toks, i, Print(e))
    ensures j == i + 1 + |Print(e.fun)| && m == j + |Print(e.arg)| && m + 1 == i + |Print(e)|
    ensures toks[i].typ == LParen && SameAt(toks, i + 1, Print(e.fun))
    ensures SameAt(toks, j, Print(e.arg)) && toks[m].typ == RParen
  {
    var pf, pa := Print(e.fun), Print(e.arg);
    assert Print(e) == [Tok(LParen)] + pf + pa + [Tok(RParen)];
    j, m := CallLayout(toks, i, pf, pa);
  }

  // ------------------------------------------------------------- the parser on printed text

  /** A printed tree read as an atom comes back whole; `j` is the index just past its tokens. */
  lemma {:induction false} AtomOfPrint(toks: seq<Token>, i: nat, e: Expr, j: nat)
    requires ValidStream(toks) && Printable(e)
    requires SameAt(toks, i, Print(e)) && j == i + |Print(e)| && j < |toks|
    ensures Atom(toks, i) == Success(Parsed(e, j))
    decreases e, 1
  {
    SameAtIndex(toks, i, Print(e), 0);
    match e
    case CstI(v) =>
      ParseInt32OfNatToString(v);
    case CstB(_) =>
    case Var(_) =>
    case Prim(_, _, _) => AtomOfPrintedPrim(toks, i, e, j);
    case If(_, _, _) => AtomOfPrintedIf(toks, i, e, j);
    case Let(_, _, _) => AtomOfPrintedLet(toks, i, e, j);
    case LetFun(_, _, _, _) => AtomOfPrintedLetFun(toks, i, e, j);
    case Call(_, _) => AtomOfPrintedCall(toks, i, e, j);
  }

  lemma {:induction false} AtomOfPrintedPrim(toks: seq<Token>, i: nat, e: Expr, n: nat)
    requires ValidStream(toks) && Printable(e) && e.Prim?
    requires SameAt(toks, i, Print(e)) && n == i + |Print(e)| && n < |toks|
    ensures Atom(toks, i) == Success(Parsed(e, n))
    decreases e, 0
  {
    var j, m := PrintedPrimLayout(toks, i, e);
    AtomOfPrint(toks, i + 1, e.l, j);
    AtomOfPrint(toks, j + 1, e.r, m);
    PrintedStartIsNoKeyword(toks, i + 1, e.l);
    AtomOfPrim(toks, i, e.op, e.l, j, e.r, m);
  }

  lemma {:induction false} AtomOfPrintedIf(toks: seq<Token>, i: nat, e: Expr, n: nat)
    requires ValidStream(toks) && Printable(e) && e.If?
    requires SameAt(toks, i, Print(e)) && n == i + |Print(e)| && n < |toks|
    ensures Atom(toks, i) == Success(Parsed(e, n))
    decreases e, 0
  {
    var x, y, z := PrintedIfLayout(toks, i, e);
    ExprOfPrint(toks, i + 2, e.cond, x);
    ExprAfterPrint(toks, x, Then, e.thn, y);
    ExprAfterPrint(toks, y, Else, e.els, z);
    AtomOfIf(toks, i, e.cond, x, e.thn, y, e.els, z);
  }

  lemma {:induction false} AtomOfPrintedLet(toks: seq<Token>, i: nat, e: Expr, n: nat)
    requires ValidStream(toks) && Printable(e) && e.Let?
    requires SameAt(toks, i, Print(e)) && n == i + |Print(e)| && n < |toks|
    ensures Atom(toks, i) == Success(Parsed(e, n))
    decreases e, 0
  {
    var a, b := PrintedLetLayout(toks, i, e);
    ExprAfterPrint(toks, i + 3, Equal, e.rhs, a);
    ExprAfterPrint(toks, a, In, e.body, b);
    AtomOfLet(toks, i, e.id, e.rhs, a, e.body, b);
  }

  lemma {:induction false} AtomOfPrintedLetFun(toks: seq<Token>, i: nat, e: Expr, n: nat)
    requires ValidStream(toks) && Printable(e) && e.LetFun?
    requires SameAt(toks, i, Print(e)) && n == i + |Print(e)| && n < |toks|
    ensures Atom(toks, i) == Success(Parsed(e, n))
    decreases e, 0
  {
    var a, b := PrintedLetFunLayout(toks, i, e);
    ExprAfterPrint(toks, i + 4, Equal, e.fBody, a);
    ExprAfterPrint(toks, a, In, e.letBody, b);
    AtomOfLetFun(toks, i, e.f, e.x, e.fBody, a, e.letBody, b);
  }

  lemma {:induction false} AtomOfPrintedCall(toks: seq<Token>, i: nat, e: Expr, n: nat)
    requires ValidStream(toks) && Printable(e) && e.Call?
    requires SameAt(toks, i, Print(e)) && n == i + |Print(e)| && n < |toks|
    ensures Atom(toks, i) == Success(Parsed(e, n))
    decreases e, 0
  {
    var j, m := PrintedCallLayout(toks, i, e);
    AtomOfPrint(toks, i + 1, e.fun, j);
    AtomOfPrint(toks, j, e.arg, m);
    PrintedStartIsNoKeyword(toks, i + 1, e.fun);
    PrintedStart(toks, j, e.arg);
    AtomOfCall(toks, i, e.fun, j, e.arg, m);
  }

  /** A printed tree followed by a stopping token is read back whole as an expression. */
  lemma {:induction false} ExprOfPrint(toks: seq<Token>, i: nat, e: Expr, j: nat)
    requires ValidStream(toks) && Printable(e)
    requires SameAt(toks, i, Print(e)) && j == i + |Print(e)| && j < |toks| && Stops(toks[j].typ)
    ensures ParseExpr(toks, i) == Success(Parsed(e, j))
    decreases e, 2
  {
    PrintedStartIsNoKeyword(toks, i, e);
    AtomOfPrint(toks, i, e, j);
    ExprOfAtom(toks, i, e, j);
  }

  /** A keyword followed by a printed tree and a stopping token. */
  lemma {:induction false} ExprAfterPrint(toks: seq<Token>, i: nat, t: TokenType, e: Expr, j: nat)
    requires ValidStream(toks) && Printable(e) && i < |toks| && toks[i].typ == t && t != EOF
    requires SameAt(toks, i + 1, Print(e)) && j == i + 1 + |Print(e)| && j < |toks| && Stops(toks[j].typ)
    ensures ExprAfter(toks, i, t) == Success(Parsed(e, j))
    decreases e, 3
  {
    ExprOfPrint(toks, i + 1, e, j);
    ExprAfterKeyword(toks, i, t, e, j);
  }

  /** The parser inverts the printer: printing a tree and parsing the tokens gives the tree back. */
  lemma PrintRoundTrip(e: Expr)
    requires Printable(e)
    ensures ValidStream(Print(e) + [Tok(EOF)]) && ParseTokens(Print(e) + [Tok(EOF)]) == Ok(e)
  {
    var p := Print(e);
    PrintedExprParses(e);
    assert (p + [Tok(EOF)])[|p|].typ == EOF;
    ParseTokensOfExpr(p + [Tok(EOF)], e, |p|);
  }

  /** A parse of the whole stream is the expression the expression parser reads up to EOF. */
  lemma ParseTokensOfExpr(toks: seq<Token>, e: Expr, j: nat)
    requires ValidStream(toks) && ParseExpr(toks, 0) == Success(Parsed(e, j))
    requires j < |toks| && toks[j].typ == EOF
    ensures ParseTokens(toks) == Ok(e)
  {
  }

  /** The expression parser reads a printed tree followed by EOF back whole, stopping at the EOF. */
  lemma PrintedExprParses(e: Expr)
    requires Printable(e)
    ensures ValidStream(Print(e) + [Tok(EOF)])
    ensures ParseExpr(Print(e) + [Tok(EOF)], 0) == Success(Parsed(e, |Print(e)|))
  {
    var p := Print(e);
    var toks := p + [Tok(EOF)];
    PrintedStreamIsValid(e);
    assert SameAt(toks, 0, p) by {
      assert toks[0..|p|] == p;
      SameAtOfSlice(toks, 0, p);
    }
    assert toks[|p|].typ == EOF;
    ExprOfPrint(toks, 0, e, |p|);
  }

  /** A printed tree followed by EOF is a stream the lexer could deliver. */
  lemma PrintedStreamIsValid(e: Expr)
    requires Printable(e)
    ensures ValidStream(Print(e) + [Tok(EOF)])
  {
    var p := Print(e);
    var toks := p + [Tok(EOF)];
    PrintIsLexable(e);
    forall k | 0 <= k < |toks|
      ensures WellFormedToken(toks[k])
    {
      if k < |p| {
        assert toks[k] == p[k];
      }
    }
  }
}

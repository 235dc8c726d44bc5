/** The MicroML abstract syntax tree: a closed set of eight immutable variants. */
module Ast {

  /** The range of a .NET `int`, the payload of an integer constant. */
  type Int32 = x: int | -0x8000_0000 <= x < 0x8000_0000

  /** One AST node. Dafny datatype equality is structural, like record equality. */
  datatype Expr =
    | CstI(i: Int32)
    | CstB(b: bool)
    | Var(name: string)
    | Prim(op: string, l: Expr, r: Expr)
    | If(cond: Expr, thn: Expr, els: Expr)
    | Let(id: string, rhs: Expr, body: Expr)
    | LetFun(f: string, x: string, fBody: Expr, letBody: Expr)
    | Call(fun: Expr, arg: Expr)

  /** True of the three leaf variants. */
  predicate IsLeaf(e: Expr) {
    e.CstI? || e.CstB? || e.Var?
  }

  /** The direct sub-expressions of a node, in declaration order of its fields. */
  function Children(e: Expr): (cs: seq<Expr>)
    ensures IsLeaf(e) <==> |cs| == 0
    ensures e.Prim? || e.Let? || e.LetFun? || e.Call? <==> |cs| == 2
    ensures e.If? <==> |cs| == 3
    ensures forall c :: c in cs ==> c < e
  {
    match e
    case CstI(_) => []
    case CstB(_) => []
    case Var(_) => []
    case Prim(_, l, r) => [l, r]
    case If(c, t, f) => [c, t, f]
    case Let(_, rhs, body) => [rhs, body]
    case LetFun(_, _, fb, lb) => [fb, lb]
    case Call(fn, arg) => [fn, arg]
  }

  /** The number of nodes in a tree. */
  function Size(e: Expr): nat
  {
    match e
    case CstI(_) => 1
    case CstB(_) => 1
    case Var(_) => 1
    case Prim(_, l, r) => 1 + Size(l) + Size(r)
    case If(c, t, f) => 1 + Size(c) + Size(t) + Size(f)
    case Let(_, rhs, body) => 1 + Size(rhs) + Size(body)
    case LetFun(_, _, fb, lb) => 1 + Size(fb) + Size(lb)
    case Call(fn, arg) => 1 + Size(fn) + Size(arg)
  }

  /** The total size of a list of trees. */
  function SumSizes(cs: seq<Expr>): nat
  {
    if cs == [] then 0 else Size(cs[0]) + SumSizes(cs[1..])
  }

  lemma {:induction false} SumSizesAppend(a: seq<Expr>, b: seq<Expr>)
    ensures SumSizes(a + b) == SumSizes(a) + SumSizes(b)
  {
    if a != [] {
      assert (a + b)[1..] == a[1..] + b;
      SumSizesAppend(a[1..], b);
    } else {
      assert a + b == b;
    }
  }

  /** A tree's size is one for its own node plus the sizes of its children. */
  lemma SizeIsOnePlusChildren(e: Expr)
    ensures Size(e) == 1 + SumSizes(Children(e))
    ensures Size(e) >= 1
  {
    var cs := Children(e);
    if |cs| == 2 {
      assert cs[1..][1..] == [];
    } else if |cs| == 3 {
      assert cs[1..][1..][1..] == [];
      assert SumSizes(cs[1..][1..]) == Size(cs[2]);
      assert SumSizes(cs[1..]) == Size(cs[1]) + Size(cs[2]);
    }
  }

  /** Every identifier a tree mentions: variables, bound names, function names and parameters. */
  function Names(e: Expr): set<string> {
    match e
    case CstI(_) => {}
    case CstB(_) => {}
    case Var(x) => {x}
    case Prim(_, l, r) => Names(l) + Names(r)
    case If(c, t, f) => Names(c) + Names(t) + Names(f)
    case Let(x, rhs, body) => {x} + Names(rhs) + Names(body)
    case LetFun(f, x, fb, lb) => {f, x} + Names(fb) + Names(lb)
    case Call(fn, arg) => Names(fn) + Names(arg)
  }

  /** The number of parent-to-child links in a tree, counted edge by edge. */
  function Links(e: Expr): nat
  {
    match e
    case CstI(_) => 0
    case CstB(_) => 0
    case Var(_) => 0
    case Prim(_, l, r) => 2 + Links(l) + Links(r)
    case If(c, t, f) => 3 + Links(c) + Links(t) + Links(f)
    case Let(_, rhs, body) => 2 + Links(rhs) + Links(body)
    case LetFun(_, _, fb, lb) => 2 + Links(fb) + Links(lb)
    case Call(fn, arg) => 2 + Links(fn) + Links(arg)
  }

  /** Every node but the root hangs under exactly one link, so a tree has one link fewer than nodes. */
  lemma {:induction false} LinksIsSizeMinusOne(e: Expr)
    ensures Links(e) == Size(e) - 1
  {
    match e
    case CstI(_) =>
    case CstB(_) =>
    case Var(_) =>
    case Prim(_, l, r) =>
      LinksIsSizeMinusOne(l);
      LinksIsSizeMinusOne(r);
    case If(c, t, f) =>
      LinksIsSizeMinusOne(c);
      LinksIsSizeMinusOne(t);
      LinksIsSizeMinusOne(f);
    case Let(_, rhs, body) =>
      LinksIsSizeMinusOne(rhs);
      LinksIsSizeMinusOne(body);
    case LetFun(_, _, fb, lb) =>
      LinksIsSizeMinusOne(fb);
      LinksIsSizeMinusOne(lb);
    case Call(fn, arg) =>
      LinksIsSizeMinusOne(fn);
      LinksIsSizeMinusOne(arg);
  }
}

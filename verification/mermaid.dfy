/**
 * The Mermaid renderer. The source walks the tree once, pre-order, with a mutable id
 * counter and a string builder: each node takes the next id `N<k>`, appends its own
 * declaration line, then for each child in field order visits the child and appends one
 * edge from itself to the id the child returned. Here the walk is a pure fold that takes
 * the next free id and returns the node's id, the next free id after its subtree, and
 * the lines the subtree produced; `Render` threads the visitor's buffer and counter.
 */
module Mermaid {
  import opened Ast
  import opened Numerals

  /** The node shapes: `(["…"])` for constants, `["…"]` for operators, `("…")` for the rest. */
  datatype Shape = Stadium | Rect | Rounded

  /** A node declaration: its id, shape and quoted text. */
  datatype Node = Node(id: nat, shape: Shape, text: string)

  /** An edge between two ids, labelled with a role (`""` for none). */
  datatype Edge = Edge(from: nat, to: nat, role: string)

  /** One output line. */
  datatype Line = Decl(node: Node) | Arrow(edge: Edge)

  /** What visiting a subtree gives: the id of its root, the next free id, and its lines. */
  datatype Visited = Visited(id: nat, next: nat, lines: seq<Line>)

  /** The visitor's state: the text appended so far and the id counter. */
  datatype MermaidVisitor = MermaidVisitor(sb: string, nextId: nat)

  const Header := "graph TD"

  // ------------------------------------------------------------- per-variant tables

  /** The text of a .NET `bool` interpolated into a string. */
  function BoolText(b: bool): string {
    if b then "True" else "False"
  }

  function ShapeOf(e: Expr): Shape {
    match e
    case CstI(_) => Stadium
    case CstB(_) => Stadium
    case Prim(_, _, _) => Rect
    case _ => Rounded
  }

  /** The quoted text of a node; a `LetFun` shows its function name but not its parameter. */
  function TextOf(e: Expr): string {
    match e
    case CstI(v) => IntToString(v)
    case CstB(b) => BoolText(b)
    case Var(x) => x
    case Prim(op, _, _) => op
    case If(_, _, _) => "if"
    case Let(x, _, _) => "let " + x
    case LetFun(f, _, _, _) => "letfun " + f
    case Call(_, _) => "call"
  }

  /** The edge role of each child, in the order of `Children`; `Prim` edges carry none. */
  function Roles(e: Expr): (rs: seq<string>)
    ensures |rs| == |Children(e)|
  {
    match e
    case CstI(_) => []
    case CstB(_) => []
    case Var(_) => []
    case Prim(_, _, _) => ["", ""]
    case If(_, _, _) => ["cond", "then", "else"]
    case Let(_, _, _) => ["rhs", "body"]
    case LetFun(_, _, _, _) => ["fBody", "letBody"]
    case Call(_, _) => ["fun", "arg"]
  }

  /** The declaration line of node `e` under id `id`. */
  function NodeOf(id: nat, e: Expr): Node {
    Node(id, ShapeOf(e), TextOf(e))
  }

  // ------------------------------------------------------------- the traversal

  /**
   * `Visit`: `e` takes id `next`, its declaration comes first, and its subtree uses
   * exactly the ids `next .. next + Size(e) - 1`.
   */
  function Visit(e: Expr, next: nat): (r: Visited)
    ensures r.id == next
    ensures r.next == next + Size(e)
    ensures |r.lines| >= 1 && r.lines[0] == Decl(NodeOf(next, e))
    decreases e, 4
  {
    var kids := VisitChildren(e, next, 0, next + 1);
    SizeIsOnePlusChildren(e);
    Visited(next, kids.next, [Decl(NodeOf(next, e))] + kids.lines)
  }

  /**
   * The children of `parent` (whose id is `pid`) from the `k`th on, starting at id
   * `next`: each child's lines, then the edge from `pid` to the id the child returned.
   */
  function VisitChildren(parent: Expr, pid: nat, k: nat, next: nat): (r: Visited)
    requires k <= |Children(parent)|
    ensures r.id == pid
    ensures r.next == next + SumSizes(Children(parent)[k..])
    decreases parent, |Children(parent)| - k
  {
    var cs := Children(parent);
    if k == |cs| then Visited(pid, next, [])
    else
      var v := Visit(cs[k], next);
      var rest := VisitChildren(parent, pid, k + 1, v.next);
      assert cs[k..][1..] == cs[k + 1..];
      Visited(pid, rest.next, v.lines + [Arrow(Edge(pid, v.id, Roles(parent)[k]))] + rest.lines)
  }

  // ------------------------------------------------------------- text

  /** `NewId`: the name of node `id`. */
  function NewId(id: nat): string {
    "N" + NatToString(id)
  }

  /** Distinct ids have distinct names. */
  lemma NewIdInjective(a: nat, b: nat)
    ensures NewId(a) == NewId(b) <==> a == b
  {
    if NewId(a) == NewId(b) {
      assert NewId(a)[1..] == NatToString(a) && NewId(b)[1..] == NatToString(b);
      NatToStringInjective(a, b);
    }
  }

  /** `EmitEdge`: an arrow, with the role between bars when there is one. */
  function EmitEdge(from: string, to: string, role: string): string {
    "  " + from + " -->" + (if role == "" then "" else "|" + role + "|") + to
  }

  /**
   * The arrow text in general: two spaces, the source name, ` -->`, then the target name
   * directly when there is no role, or the role between bars first.
   */
  lemma EmitEdgeLayout(from: string, to: string, role: string)
    ensures var s := EmitEdge(from, to, role);
      && "  " + from + " -->" <= s
      && (role == "" ==> s == "  " + from + " -->" + to)
      && (role != "" ==> s == "  " + from + " -->|" + role + "|" + to)
  {
  }

  function ShowNode(id: nat, shape: Shape, text: string): string {
    var quoted := "\"" + text + "\"";
    "  " + NewId(id) +
    match shape
    case Stadium => "([" + quoted + "])"
    case Rect => "[" + quoted + "]"
    case Rounded => "(" + quoted + ")"
  }

  function ShowLine(l: Line): string {
    match l
    case Decl(Node(id, shape, text)) => ShowNode(id, shape, text)
    case Arrow(Edge(from, to, role)) => EmitEdge(NewId(from), NewId(to), role)
  }

  /** `AppendLine` for each line in turn (the line terminator is modelled as `"\n"`). */
  function Text(lines: seq<Line>): string {
    if lines == [] then "" else ShowLine(lines[0]) + "\n" + Text(lines[1..])
  }

  /**
   * `MermaidVisitor.Render`: append the header and the lines of the tree, numbered from
   * the visitor's counter, to the visitor's buffer; return the new state and the whole
   * buffer.
   */
  function Render(v: MermaidVisitor, e: Expr): (r: (MermaidVisitor, string))
    ensures r.1 == r.0.sb
    ensures r.0.nextId == v.nextId + Size(e)
    ensures v.sb + Header + "\n" <= r.1
  {
    var res := Visit(e, v.nextId);
    var sb := v.sb + Header + "\n" + Text(res.lines);
    (MermaidVisitor(sb, res.next), sb)
  }

  /** A new visitor: empty buffer, counter at zero. */
  const Fresh := MermaidVisitor("", 0)

  /** What the web layer sends back: a fresh visitor's rendering of the tree. */
  function RenderFresh(e: Expr): (s: string)
    ensures Header + "\n" <= s
  {
    Render(Fresh, e).1
  }

  // ------------------------------------------------------------- reference: pre-order numbering

  /** The nodes of a tree in pre-order, written out variant by variant. */
  function PreOrder(e: Expr): seq<Expr> {
    match e
    case CstI(_) => [e]
    case CstB(_) => [e]
    case Var(_) => [e]
    case Prim(_, l, r) => [e] + PreOrder(l) + PreOrder(r)
    case If(c, t, f) => [e] + PreOrder(c) + PreOrder(t) + PreOrder(f)
    case Let(_, rhs, body) => [e] + PreOrder(rhs) + PreOrder(body)
    case LetFun(_, _, fb, lb) => [e] + PreOrder(fb) + PreOrder(lb)
    case Call(fn, arg) => [e] + PreOrder(fn) + PreOrder(arg)
  }

  /** The pre-order listings of several trees, one after another. */
  function PreOrderAll(cs: seq<Expr>): seq<Expr> {
    if cs == [] then [] else PreOrder(cs[0]) + PreOrderAll(cs[1..])
  }

  /** Declarations for the nodes `po`, numbered consecutively from `n`. */
  function Numbered(po: seq<Expr>, n: nat): seq<Node> {
    if po == [] then [] else [NodeOf(n, po[0])] + Numbered(po[1..], n + 1)
  }

  /** The node declarations among `ls`, in order. */
  function Nodes(ls: seq<Line>): seq<Node> {
    if ls == [] then [] else DeclIn(ls[0]) + Nodes(ls[1..])
  }

  /** The declaration a line holds, if it is one. */
  function DeclIn(l: Line): seq<Node> {
    if l.Decl? then [l.node] else []
  }

  /** The edge a line holds, if it is one. */
  function ArrowIn(l: Line): seq<Edge> {
    if l.Arrow? then [l.edge] else []
  }

  /** The edges among `ls`, in order. */
  function Edges(ls: seq<Line>): seq<Edge> {
    if ls == [] then [] else ArrowIn(ls[0]) + Edges(ls[1..])
  }

  /** The ids the edges `es` point to, in order. */
  function Targets(es: seq<Edge>): (ts: seq<nat>)
    ensures |ts| == |es|
  {
    if es == [] then [] else [es[0].to] + Targets(es[1..])
  }

  /** The ids `a, a + 1, …, b - 1`. */
  function Range(a: nat, b: nat): seq<nat>
    decreases b - a
  {
    if b <= a then [] else [a] + Range(a + 1, b)
  }

  /**
   * In the pre-order listing `po`, entry `b` is the `ci`th child of entry `a`, numbered as
   * a pre-order walk numbers it (one past its parent plus the sizes of its elder
   * siblings), and `role` is that child's edge role.
   */
  predicate ChildLinkAt(po: seq<Expr>, a: int, b: int, role: string, ci: int) {
    && 0 <= a < b < |po|
    && 0 <= ci < |Children(po[a])|
    && b == a + 1 + SumSizes(Children(po[a])[..ci])
    && po[b] == Children(po[a])[ci]
    && role == Roles(po[a])[ci]
  }

  /** Entry `b` of `po` is some child of entry `a`, reached over an edge labelled `role`. */
  ghost predicate IsLink(po: seq<Expr>, a: int, b: int, role: string) {
    exists ci :: ChildLinkAt(po, a, b, role, ci)
  }

  /** The test "this edge, numbered from `pid`, is a link of `po`". */
  ghost function LinkTest(po: seq<Expr>, pid: int): Edge -> bool {
    (l: Edge) => IsLink(po, l.from - pid, l.to - pid, l.role)
  }

  /** The pre-order position just past the subtree rooted at entry `i` of `po`. */
  function SubtreeEnd(po: seq<Expr>, i: int): int {
    if 0 <= i < |po| then i + Size(po[i]) else i
  }

  /**
   * Each arrow among `ls` comes after exactly as many declarations as there are nodes up
   * to the end of its target's subtree, where `d` declarations precede `ls` and ids are
   * numbered from `n`: the target's whole subtree is declared before the arrow, and the
   * rest of the tree after it.
   */
  ghost predicate ArrowsCloseSubtrees(ls: seq<Line>, po: seq<Expr>, n: int, d: int)
    decreases |ls|
  {
    if ls == [] then true
    else if ls[0].Decl? then ArrowsCloseSubtrees(ls[1..], po, n, d + 1)
    else d == SubtreeEnd(po, ls[0].edge.to - n) && ArrowsCloseSubtrees(ls[1..], po, n, d)
  }

  /** Entry `j` of `po` lies strictly inside the subtree rooted at entry `b`. */
  predicate Inside(po: seq<Expr>, b: int, j: int) {
    b < j < SubtreeEnd(po, b)
  }

  /** No edge of `es` targets a node strictly inside the subtree rooted at entry `b` of `po`. */
  ghost predicate NoneInside(es: seq<Edge>, po: seq<Expr>, n: int, b: int) {
    forall l :: l in es ==> !Inside(po, b, l.to - n)
  }

  /**
   * No arrow among `ls` is followed by an arrow to a node strictly inside its target's
   * subtree: the arrows within a subtree all come before the arrow to its root.
   */
  ghost predicate ArrowsNest(ls: seq<Line>, po: seq<Expr>, n: int)
    decreases |ls|
  {
    if ls == [] then true
    else (ls[0].Arrow? ==> NoneInside(Edges(ls[1..]), po, n, ls[0].edge.to - n)) && ArrowsNest(ls[1..], po, n)
  }

  /** Every edge of `es` passes `ok`; spelled out edge by edge. */
  predicate AllOk(es: seq<Edge>, ok: Edge -> bool)
    decreases |es|
  {
    |es| == 0 || (ok(es[0]) && AllOk(es[1..], ok))
  }


  // ------------------------------------------------------------- helper lemmas

  lemma PreOrderAllPair(a: Expr, b: Expr)
    ensures PreOrderAll([a, b]) == PreOrder(a) + PreOrder(b)
  {
    assert [a, b][1..] == [b];
    assert [b][1..] == [];
    assert PreOrderAll([b]) == PreOrder(b) + PreOrderAll([]);
    assert PreOrderAll([a, b]) == PreOrder(a) + PreOrderAll([b]);
  }

  lemma PreOrderAllTriple(a: Expr, b: Expr, c: Expr)
    ensures PreOrderAll([a, b, c]) == PreOrder(a) + PreOrder(b) + PreOrder(c)
  {
    assert [a, b, c][1..] == [b, c];
    PreOrderAllPair(b, c);
  }

  /** The variant-by-variant listing is the node followed by its children's listings. */
  lemma PreOrderOfChildren(e: Expr)
    ensures PreOrder(e) == [e] + PreOrderAll(Children(e))
  {
    if e.Prim? || e.Let? || e.LetFun? || e.Call? {
      PreOrderOfBinary(e);
    } else if e.If? {
      PreOrderAllTriple(e.cond, e.thn, e.els);
    } else {
      assert Children(e) == [];
    }
  }

  lemma PreOrderOfBinary(e: Expr)
    requires e.Prim? || e.Let? || e.LetFun? || e.Call?
    ensures PreOrder(e) == [e] + PreOrderAll(Children(e))
  {
    match e
    case Prim(_, l, r) => PreOrderOfPair(e, l, r);
    case Let(_, rhs, body) => PreOrderOfPair(e, rhs, body);
    case LetFun(_, _, fb, lb) => PreOrderOfPair(e, fb, lb);
    case Call(fn, arg) => PreOrderOfPair(e, fn, arg);
  }

  lemma PreOrderOfPair(e: Expr, a: Expr, b: Expr)
    requires Children(e) == [a, b]
    requires PreOrder(e) == [e] + PreOrder(a) + PreOrder(b)
    ensures PreOrder(e) == [e] + PreOrderAll(Children(e))
  {
    PreOrderAllPair(a, b);
  }

  /** A tree's pre-order listing has one entry per node and starts at the root. */
  lemma {:induction false} PreOrderSize(e: Expr)
    ensures |PreOrder(e)| == Size(e)
    ensures PreOrder(e)[0] == e
    decreases e, 4
  {
    PreOrderOfChildren(e);
    PreOrderAllSize(e, Children(e));
    SizeIsOnePlusChildren(e);
  }

  lemma {:induction false} PreOrderAllSize(parent: Expr, cs: seq<Expr>)
    requires forall c :: c in cs ==> c < parent
    requires |cs| <= 3
    ensures |PreOrderAll(cs)| == SumSizes(cs)
    decreases parent, |cs|
  {
    if cs != [] {
      assert cs[0] in cs;
      PreOrderSize(cs[0]);
      assert forall c :: c in cs[1..] ==> c in cs;
      PreOrderAllSize(parent, cs[1..]);
    }
  }

  /** The `i`th tree's listing sits in the joint listing after the sizes of the trees before it. */
  lemma {:induction false} PreOrderAllIndex(cs: seq<Expr>, i: nat, x: nat)
    requires i < |cs|
    requires x < Size(cs[i])
    ensures SumSizes(cs[..i]) + Size(cs[i]) <= |PreOrderAll(cs)|
    ensures |PreOrder(cs[i])| == Size(cs[i])
    ensures PreOrderAll(cs)[SumSizes(cs[..i]) + x] == PreOrder(cs[i])[x]
  {
    PreOrderSize(cs[0]);
    if i == 0 {
      assert cs[..0] == [];
    } else {
      assert cs[..i][1..] == cs[1..][..i - 1];
      PreOrderAllIndex(cs[1..], i - 1, x);
    }
  }

  /** Inside its parent's listing, the `k`th child's listing starts at `off`, one past the sizes of its elder siblings. */
  lemma ChildListingInParent(parent: Expr, k: nat, off: nat)
    requires k < |Children(parent)|
    requires off == 1 + SumSizes(Children(parent)[..k])
    ensures var c := Children(parent)[k];
      && |PreOrder(c)| == Size(c)
      && off + |PreOrder(c)| <= |PreOrder(parent)|
      && forall x :: 0 <= x < |PreOrder(c)| ==> PreOrder(parent)[off + x] == PreOrder(c)[x]
  {
    var cs := Children(parent);
    PreOrderOfChildren(parent);
    PreOrderSize(cs[k]);
    PreOrderAllIndex(cs, k, 0);
    forall x | 0 <= x < |PreOrder(cs[k])|
      ensures PreOrder(parent)[off + x] == PreOrder(cs[k])[x]
    {
      PreOrderAllIndex(cs, k, x);
    }
  }

  lemma {:induction false} NumberedAppend(a: seq<Expr>, b: seq<Expr>, n: nat)
    ensures Numbered(a + b, n) == Numbered(a, n) + Numbered(b, n + |a|)
  {
    if a == [] {
      assert a + b == b;
    } else {
      var x := [NodeOf(n, a[0])];
      assert (a + b)[0] == a[0] && (a + b)[1..] == a[1..] + b;
      NumberedAppend(a[1..], b, n + 1);
      assert Numbered(a + b, n) == x + (Numbered(a[1..], n + 1) + Numbered(b, n + |a|));
      assert Numbered(a, n) == x + Numbered(a[1..], n + 1);
    }
  }

  lemma {:induction false} NumberedIndex(po: seq<Expr>, n: nat, k: nat)
    requires k < |po|
    ensures |Numbered(po, n)| == |po|
    ensures Numbered(po, n)[k] == NodeOf(n + k, po[k])
  {
    if k > 0 {
      NumberedIndex(po[1..], n + 1, k - 1);
    } else {
      NumberedLength(po, n);
    }
  }

  lemma {:induction false} NumberedLength(po: seq<Expr>, n: nat)
    ensures |Numbered(po, n)| == |po|
  {
    if po != [] {
      NumberedLength(po[1..], n + 1);
    }
  }

  /** Picking out the declarations or the edges commutes with concatenation. */
  lemma FiltersAppend(a: seq<Line>, b: seq<Line>)
    ensures Nodes(a + b) == Nodes(a) + Nodes(b)
    ensures Edges(a + b) == Edges(a) + Edges(b)
  {
    NodesAppend(a, b);
    EdgesAppend(a, b);
  }

  lemma {:induction false} NodesAppend(a: seq<Line>, b: seq<Line>)
    ensures Nodes(a + b) == Nodes(a) + Nodes(b)
  {
    if a == [] {
      assert a + b == b;
    } else {
      calc {
        Nodes(a + b);
        { assert (a + b)[0] == a[0] && (a + b)[1..] == a[1..] + b; }
        DeclIn(a[0]) + Nodes(a[1..] + b);
        { NodesAppend(a[1..], b); }
        DeclIn(a[0]) + Nodes(a[1..]) + Nodes(b);
      }
    }
  }

  lemma {:induction false} EdgesAppend(a: seq<Line>, b: seq<Line>)
    ensures Edges(a + b) == Edges(a) + Edges(b)
  {
    if a == [] {
      assert a + b == b;
    } else {
      calc {
        Edges(a + b);
        { assert (a + b)[0] == a[0] && (a + b)[1..] == a[1..] + b; }
        ArrowIn(a[0]) + Edges(a[1..] + b);
        { EdgesAppend(a[1..], b); }
        ArrowIn(a[0]) + Edges(a[1..]) + Edges(b);
      }
    }
  }

  lemma {:induction false} TargetsAppend(a: seq<Edge>, b: seq<Edge>)
    ensures Targets(a + b) == Targets(a) + Targets(b)
  {
    if a == [] {
      assert a + b == b;
    } else {
      assert (a + b)[1..] == a[1..] + b;
      TargetsAppend(a[1..], b);
    }
  }

  lemma {:induction false} RangeAppend(a: nat, b: nat, c: nat)
    requires a <= b <= c
    ensures Range(a, b) + Range(b, c) == Range(a, c)
    decreases b - a
  {
    if a < b {
      RangeAppend(a + 1, b, c);
    }
  }

  lemma {:induction false} RangeLength(a: nat, b: nat)
    requires a <= b
    ensures |Range(a, b)| == b - a
    decreases b - a
  {
    if a < b {
      RangeLength(a + 1, b);
    }
  }

  /** A link read in a sub-listing is a link in any listing that contains it at offset `off`. */
  lemma IsLinkShift(q: seq<Expr>, po: seq<Expr>, off: nat, a: int, b: int, role: string)
    requires IsLink(q, a, b, role)
    requires off + |q| <= |po|
    requires forall x :: 0 <= x < |q| ==> po[off + x] == q[x]
    ensures IsLink(po, a + off, b + off, role)
  {
    var ci :| ChildLinkAt(q, a, b, role, ci);
    assert po[a + off] == q[a] && po[b + off] == q[b];
    assert ChildLinkAt(po, a + off, b + off, role, ci);
  }

  /** `AllOk` says what its name says: every edge of the list passes the test. */
  lemma {:induction false} AllOkMeans(es: seq<Edge>, ok: Edge -> bool)
    requires AllOk(es, ok)
    ensures forall l :: l in es ==> ok(l)
    decreases |es|
  {
    if |es| > 0 {
      AllOkMeans(es[1..], ok);
      assert forall l :: l in es ==> l == es[0] || l in es[1..];
    }
  }

  lemma {:induction false} AllOkAppend(a: seq<Edge>, b: seq<Edge>, ok: Edge -> bool)
    requires AllOk(a, ok) && AllOk(b, ok)
    ensures AllOk(a + b, ok)
    decreases |a|
  {
    if |a| == 0 {
      assert a + b == b;
    } else {
      assert (a + b)[0] == a[0] && (a + b)[1..] == a[1..] + b;
      AllOkAppend(a[1..], b, ok);
    }
  }

  /** Links read in a sub-listing placed at offset `base - pid` stay links of the whole listing. */
  lemma {:induction false} LinksShift(es: seq<Edge>, q: seq<Expr>, po: seq<Expr>, base: nat, pid: nat, off: nat)
    requires base == pid + off && off + |q| <= |po|
    requires forall x :: 0 <= x < |q| ==> po[off + x] == q[x]
    requires AllOk(es, LinkTest(q, base))
    ensures AllOk(es, LinkTest(po, pid))
    decreases |es|
  {
    if |es| > 0 {
      var l := es[0];
      assert IsLink(q, l.from - base, l.to - base, l.role);
      IsLinkShift(q, po, off, l.from - base, l.to - base, l.role);
      assert l.from - base + off == l.from - pid && l.to - base + off == l.to - pid;
      assert LinkTest(po, pid)(l);
      LinksShift(es[1..], q, po, base, pid, off);
    }
  }

  lemma TargetsAround(ev: seq<Edge>, edge: Edge, er: seq<Edge>)
    ensures Targets(ev + [edge] + er) == Targets(ev) + [edge.to] + Targets(er)
  {
    TargetsAppend(ev + [edge], er);
    TargetsAppend(ev, [edge]);
    assert [edge][1..] == [];
  }

  /** How many times `x` occurs in `ts`. */
  function Count(ts: seq<nat>, x: nat): nat {
    if ts == [] then 0 else (if ts[0] == x then 1 else 0) + Count(ts[1..], x)
  }

  /** Every id in `a .. b - 1` occurs in `ts` exactly once, and no other id occurs. */
  ghost predicate CoversOnce(ts: seq<nat>, a: nat, b: nat) {
    forall x: nat :: Count(ts, x) == (if a <= x < b then 1 else 0)
  }

  lemma {:induction false} CountAppend(s: seq<nat>, t: seq<nat>, x: nat)
    ensures Count(s + t, x) == Count(s, x) + Count(t, x)
  {
    if s == [] {
      assert s + t == t;
    } else {
      assert (s + t)[1..] == s[1..] + t;
      CountAppend(s[1..], t, x);
    }
  }

  /** A subtree's targets, the edge to its root, and its siblings' targets cover a range once each. */
  lemma CoversOnceStep(ta: seq<nat>, tr: seq<nat>, next: nat, mid: nat, end: nat)
    requires next < mid <= end
    requires CoversOnce(ta, next + 1, mid)
    requires CoversOnce(tr, mid, end)
    ensures CoversOnce(ta + [next] + tr, next, end)
  {
    forall x: nat
      ensures Count(ta + [next] + tr, x) == (if next <= x < end then 1 else 0)
    {
      CountAppend(ta + [next], tr, x);
      CountAppend(ta, [next], x);
      assert [next][1..] == [];
    }
  }

  // ------------------------------------------------------------- unfolding the walk

  /** A visit declares its root, then whatever its children's visits emit. */
  lemma VisitStep(e: Expr, n: nat)
    ensures Nodes(Visit(e, n).lines) == [NodeOf(n, e)] + Nodes(VisitChildren(e, n, 0, n + 1).lines)
    ensures Edges(Visit(e, n).lines) == Edges(VisitChildren(e, n, 0, n + 1).lines)
    ensures Size(e) == 1 + SumSizes(Children(e)[0..])
    ensures Children(e)[..0] == []
  {
    VisitNodesStep(e, n);
    VisitEdgesStep(e, n);
    SizeOfChildrenFrom(e);
  }

  lemma VisitNodesStep(e: Expr, n: nat)
    ensures Nodes(Visit(e, n).lines) == [NodeOf(n, e)] + Nodes(VisitChildren(e, n, 0, n + 1).lines)
  {
    var head := [Decl(NodeOf(n, e))];
    assert Visit(e, n).lines == head + VisitChildren(e, n, 0, n + 1).lines;
    assert Nodes(head) == [NodeOf(n, e)] by {
      assert head[1..] == [];
    }
    NodesAppend(head, VisitChildren(e, n, 0, n + 1).lines);
  }

  lemma VisitEdgesStep(e: Expr, n: nat)
    ensures Edges(Visit(e, n).lines) == Edges(VisitChildren(e, n, 0, n + 1).lines)
  {
    var head := [Decl(NodeOf(n, e))];
    assert Visit(e, n).lines == head + VisitChildren(e, n, 0, n + 1).lines;
    assert Edges(head) == [] by {
      assert head[1..] == [];
    }
    EdgesAppend(head, VisitChildren(e, n, 0, n + 1).lines);
  }

  lemma SizeOfChildrenFrom(e: Expr)
    ensures Size(e) == 1 + SumSizes(Children(e)[0..])
    ensures Children(e)[..0] == []
  {
    SizeIsOnePlusChildren(e);
    assert Children(e)[0..] == Children(e);
  }

  /** Child `k`'s lines, then the edge to it, then the later children's lines. */
  lemma ChildStep(parent: Expr, pid: nat, k: nat, next: nat)
    requires k < |Children(parent)|
    ensures var cs := Children(parent);
      var v := Visit(cs[k], next);
      var rest := VisitChildren(parent, pid, k + 1, v.next);
      var lines := VisitChildren(parent, pid, k, next).lines;
      && Nodes(lines) == Nodes(v.lines) + Nodes(rest.lines)
      && Edges(lines) == Edges(v.lines) + [Edge(pid, next, Roles(parent)[k])] + Edges(rest.lines)
      && SumSizes(cs[k..]) == Size(cs[k]) + SumSizes(cs[k + 1..])
      && SumSizes(cs[..k + 1]) == SumSizes(cs[..k]) + Size(cs[k])
  {
    ChildNodesStep(parent, pid, k, next);
    ChildEdgesStep(parent, pid, k, next);
    SumSizesStep(Children(parent), k);
  }

  lemma ChildNodesStep(parent: Expr, pid: nat, k: nat, next: nat)
    requires k < |Children(parent)|
    ensures var v := Visit(Children(parent)[k], next);
      Nodes(VisitChildren(parent, pid, k, next).lines)
      == Nodes(v.lines) + Nodes(VisitChildren(parent, pid, k + 1, v.next).lines)
  {
    var v := Visit(Children(parent)[k], next);
    var rest := VisitChildren(parent, pid, k + 1, v.next).lines;
    var arrow := [Arrow(Edge(pid, next, Roles(parent)[k]))];
    assert VisitChildren(parent, pid, k, next).lines == v.lines + arrow + rest;
    assert Nodes(arrow) == [] by {
      assert arrow[1..] == [];
    }
    NodesAppend(v.lines + arrow, rest);
    NodesAppend(v.lines, arrow);
  }

  lemma ChildEdgesStep(parent: Expr, pid: nat, k: nat, next: nat)
    requires k < |Children(parent)|
    ensures var v := Visit(Children(parent)[k], next);
      Edges(VisitChildren(parent, pid, k, next).lines)
      == Edges(v.lines) + [Edge(pid, next, Roles(parent)[k])]
       + Edges(VisitChildren(parent, pid, k + 1, v.next).lines)
  {
    var v := Visit(Children(parent)[k], next);
    var rest := VisitChildren(parent, pid, k + 1, v.next).lines;
    var arrow := [Arrow(Edge(pid, next, Roles(parent)[k]))];
    assert VisitChildren(parent, pid, k, next).lines == v.lines + arrow + rest;
    assert Edges(arrow) == [Edge(pid, next, Roles(parent)[k])] by {
      assert arrow[1..] == [];
    }
    EdgesAppend(v.lines + arrow, rest);
    EdgesAppend(v.lines, arrow);
  }

  lemma SumSizesStep(cs: seq<Expr>, k: nat)
    requires k < |cs|
    ensures SumSizes(cs[k..]) == Size(cs[k]) + SumSizes(cs[k + 1..])
    ensures SumSizes(cs[..k + 1]) == SumSizes(cs[..k]) + Size(cs[k])
  {
    assert cs[k..][1..] == cs[k + 1..];
    assert cs[..k + 1] == cs[..k] + [cs[k]];
    SumSizesAppend(cs[..k], [cs[k]]);
    assert [cs[k]][1..] == [];
  }

  /** Where child `k + 1` starts, given where child `k` starts. */
  lemma NextChildStart(cs: seq<Expr>, k: nat, pid: nat, next: nat)
    requires k < |cs| && next == pid + 1 + SumSizes(cs[..k])
    ensures next + Size(cs[k]) == pid + 1 + SumSizes(cs[..k + 1])
  {
    SumSizesStep(cs, k);
  }

  // ------------------------------------------------------------- the walk against the reference

  /**
   * The node declarations a visit emits are the subtree's pre-order listing, numbered
   * consecutively from the first id: the root takes the first id, each node gets exactly
   * one declaration, and a node's first child is numbered one past it and each later
   * child one past its elder sibling's subtree.
   */
  lemma {:induction false} VisitDeclaresPreOrder(e: Expr, n: nat)
    ensures Nodes(Visit(e, n).lines) == Numbered(PreOrder(e), n)
    decreases e, 4
  {
    var cs := Children(e);
    VisitStep(e, n);
    ChildrenDeclarePreOrder(e, n, 0, n + 1);
    PreOrderOfChildren(e);
    assert ([e] + PreOrderAll(cs))[1..] == PreOrderAll(cs);
  }

  lemma {:induction false} ChildrenDeclarePreOrder(parent: Expr, pid: nat, k: nat, next: nat)
    requires k <= |Children(parent)|
    ensures Nodes(VisitChildren(parent, pid, k, next).lines)
         == Numbered(PreOrderAll(Children(parent)[k..]), next)
    decreases parent, |Children(parent)| - k
  {
    var cs := Children(parent);
    if k < |cs| {
      VisitDeclaresPreOrder(cs[k], next);
      ChildrenDeclarePreOrder(parent, pid, k + 1, next + Size(cs[k]));
      ChildDeclStep(parent, pid, k, next);
    } else {
      assert cs[k..] == [];
      assert VisitChildren(parent, pid, k, next).lines == [];
    }
  }

  /** The step of `ChildrenDeclarePreOrder`: child `k`'s declarations, then its later siblings'. */
  lemma ChildDeclStep(parent: Expr, pid: nat, k: nat, next: nat)
    requires k < |Children(parent)|
    requires Nodes(Visit(Children(parent)[k], next).lines) == Numbered(PreOrder(Children(parent)[k]), next)
    requires Nodes(VisitChildren(parent, pid, k + 1, next + Size(Children(parent)[k])).lines)
          == Numbered(PreOrderAll(Children(parent)[k + 1..]), next + Size(Children(parent)[k]))
    ensures Nodes(VisitChildren(parent, pid, k, next).lines)
         == Numbered(PreOrderAll(Children(parent)[k..]), next)
  {
    var cs := Children(parent);
    ChildNodesStep(parent, pid, k, next);
    assert PreOrderAll(cs[k..]) == PreOrder(cs[k]) + PreOrderAll(cs[k + 1..]) by {
      assert cs[k..][1..] == cs[k + 1..];
    }
    PreOrderSize(cs[k]);
    NumberedAppend(PreOrder(cs[k]), PreOrderAll(cs[k + 1..]), next);
  }

  /**
   * Every node but the root is the target of exactly one edge, and the root (and any id
   * outside the subtree's range) of none.
   */
  lemma {:induction false} VisitTargetsEachChildOnce(e: Expr, n: nat)
    ensures CoversOnce(Targets(Edges(Visit(e, n).lines)), n + 1, n + Size(e))
    decreases e, 4
  {
    VisitStep(e, n);
    ChildrenTargets(e, n, 0, n + 1);
  }

  lemma {:induction false} ChildrenTargets(parent: Expr, pid: nat, k: nat, next: nat)
    requires k <= |Children(parent)|
    ensures CoversOnce(Targets(Edges(VisitChildren(parent, pid, k, next).lines)),
                       next, next + SumSizes(Children(parent)[k..]))
    decreases parent, |Children(parent)| - k
  {
    var cs := Children(parent);
    if k < |cs| {
      VisitTargetsEachChildOnce(cs[k], next);
      ChildrenTargets(parent, pid, k + 1, next + Size(cs[k]));
      ChildTargetsStep(parent, pid, k, next);
    } else {
      assert cs[k..] == [];
      assert VisitChildren(parent, pid, k, next).lines == [];
    }
  }

  /** The step of `ChildrenTargets`: child `k`'s targets, the edge to it, and its later siblings' targets. */
  lemma ChildTargetsStep(parent: Expr, pid: nat, k: nat, next: nat)
    requires k < |Children(parent)|
    requires var c := Children(parent)[k];
      CoversOnce(Targets(Edges(Visit(c, next).lines)), next + 1, next + Size(c))
    requires var c := Children(parent)[k];
      CoversOnce(Targets(Edges(VisitChildren(parent, pid, k + 1, next + Size(c)).lines)),
                 next + Size(c), next + Size(c) + SumSizes(Children(parent)[k + 1..]))
    ensures CoversOnce(Targets(Edges(VisitChildren(parent, pid, k, next).lines)),
                       next, next + SumSizes(Children(parent)[k..]))
  {
    var cs := Children(parent);
    var v := Visit(cs[k], next);
    var ev, er := Edges(v.lines), Edges(VisitChildren(parent, pid, k + 1, v.next).lines);
    ChildEdgesStep(parent, pid, k, next);
    TargetsAround(ev, Edge(pid, next, Roles(parent)[k]), er);
    SizeIsOnePlusChildren(cs[k]);
    SumSizesStep(cs, k);
    CoversOnceStep(Targets(ev), Targets(er), next, v.next, next + SumSizes(cs[k..]));
  }

  /** A visit draws exactly one edge per parent-to-child link of the tree. */
  lemma VisitDrawsEveryLink(e: Expr, n: nat)
    ensures |Edges(Visit(e, n).lines)| == Links(e)
  {
    VisitEdgeCount(e, n);
    LinksIsSizeMinusOne(e);
  }

  lemma {:induction false} VisitEdgeCount(e: Expr, n: nat)
    ensures |Edges(Visit(e, n).lines)| == Size(e) - 1
    decreases e, 4
  {
    VisitStep(e, n);
    ChildrenEdgeCount(e, n, 0, n + 1);
  }

  lemma {:induction false} ChildrenEdgeCount(parent: Expr, pid: nat, k: nat, next: nat)
    requires k <= |Children(parent)|
    ensures |Edges(VisitChildren(parent, pid, k, next).lines)| == SumSizes(Children(parent)[k..])
    decreases parent, |Children(parent)| - k
  {
    var cs := Children(parent);
    if k < |cs| {
      VisitEdgeCount(cs[k], next);
      ChildrenEdgeCount(parent, pid, k + 1, next + Size(cs[k]));
      ChildEdgesStep(parent, pid, k, next);
      SumSizesStep(cs, k);
      SizeIsOnePlusChildren(cs[k]);
    } else {
      assert cs[k..] == [];
      assert VisitChildren(parent, pid, k, next).lines == [];
    }
  }

  /**
   * Every edge a visit draws joins, by their pre-order numbers, a node to one of its
   * children, and carries that child's role.
   */
  lemma VisitEdgesAreLinks(e: Expr, n: nat)
    ensures forall l :: l in Edges(Visit(e, n).lines) ==> IsLink(PreOrder(e), l.from - n, l.to - n, l.role)
  {
    VisitLinks(e, n);
    AllOkMeans(Edges(Visit(e, n).lines), LinkTest(PreOrder(e), n));
  }

  lemma {:induction false} VisitLinks(e: Expr, n: nat)
    ensures AllOk(Edges(Visit(e, n).lines), LinkTest(PreOrder(e), n))
    decreases e, 4
  {
    VisitStep(e, n);
    ChildrenEdgesAreLinks(e, n, 0, n + 1);
  }

  lemma {:induction false} ChildrenEdgesAreLinks(parent: Expr, pid: nat, k: nat, next: nat)
    requires k <= |Children(parent)|
    requires next == pid + 1 + SumSizes(Children(parent)[..k])
    ensures AllOk(Edges(VisitChildren(parent, pid, k, next).lines), LinkTest(PreOrder(parent), pid))
    decreases parent, |Children(parent)| - k
  {
    var cs := Children(parent);
    if k < |cs| {
      var next' := next + Size(cs[k]);
      ChildEdgesAreLinks(parent, pid, k, next);
      NextChildStart(cs, k, pid, next);
      ChildrenEdgesAreLinks(parent, pid, k + 1, next');
      ChildLinksStep(parent, pid, k, next);
    } else {
      assert VisitChildren(parent, pid, k, next).lines == [];
      assert Edges([]) == [];
    }
  }

  /** The step of `ChildrenEdgesAreLinks`: child `k`'s edges, the edge to it, and its later siblings' edges. */
  lemma ChildLinksStep(parent: Expr, pid: nat, k: nat, next: nat)
    requires k < |Children(parent)|
    requires next == pid + 1 + SumSizes(Children(parent)[..k])
    requires AllOk(Edges(Visit(Children(parent)[k], next).lines), LinkTest(PreOrder(parent), pid))
    requires AllOk(Edges(VisitChildren(parent, pid, k + 1, next + Size(Children(parent)[k])).lines),
                   LinkTest(PreOrder(parent), pid))
    ensures AllOk(Edges(VisitChildren(parent, pid, k, next).lines), LinkTest(PreOrder(parent), pid))
  {
    var cs := Children(parent);
    var v := Visit(cs[k], next);
    var ev, er := Edges(v.lines), Edges(VisitChildren(parent, pid, k + 1, v.next).lines);
    ChildLink(parent, k, next - pid);
    ChildEdgesStep(parent, pid, k, next);
    LinksAround(ev, er, PreOrder(parent), pid, next, Roles(parent)[k]);
  }

  lemma LinksAround(ev: seq<Edge>, er: seq<Edge>, po: seq<Expr>, pid: nat, next: nat, role: string)
    requires AllOk(ev, LinkTest(po, pid)) && AllOk(er, LinkTest(po, pid))
    requires IsLink(po, 0, next - pid, role)
    ensures AllOk(ev + [Edge(pid, next, role)] + er, LinkTest(po, pid))
  {
    var one := [Edge(pid, next, role)];
    assert AllOk(one, LinkTest(po, pid)) by {
      assert LinkTest(po, pid)(one[0]);
      assert one[1..] == [];
    }
    AllOkAppend(ev, one, LinkTest(po, pid));
    AllOkAppend(ev + one, er, LinkTest(po, pid));
  }

  /** The edges inside child `k`'s subtree are links of the parent's listing. */
  lemma ChildEdgesAreLinks(parent: Expr, pid: nat, k: nat, next: nat)
    requires k < |Children(parent)|
    requires next == pid + 1 + SumSizes(Children(parent)[..k])
    ensures AllOk(Edges(Visit(Children(parent)[k], next).lines), LinkTest(PreOrder(parent), pid))
    decreases parent, |Children(parent)| - k - 1
  {
    var c := Children(parent)[k];
    var off := next - pid;
    ChildListingInParent(parent, k, off);
    VisitLinks(c, next);
    LinksShift(Edges(Visit(c, next).lines), PreOrder(c), PreOrder(parent), next, pid, off);
  }

  /** The edge from a node to its `k`th child is a link of the node's listing. */
  lemma ChildLink(parent: Expr, k: nat, off: nat)
    requires k < |Children(parent)| && off == 1 + SumSizes(Children(parent)[..k])
    ensures IsLink(PreOrder(parent), 0, off, Roles(parent)[k])
  {
    var cs := Children(parent);
    var po := PreOrder(parent);
    ChildListingInParent(parent, k, off);
    PreOrderSize(cs[k]);
    PreOrderOfChildren(parent);
    assert po[0] == parent;
    assert po[off] == cs[k];
    assert ChildLinkAt(po, 0, off, Roles(parent)[k], k);
  }

  // ------------------------------------------------------------- the line order

  /** A visit closes every subtree before the arrow to its root. */
  lemma {:induction false} VisitArrowsCloseSubtrees(e: Expr, n: nat)
    ensures ArrowsCloseSubtrees(Visit(e, n).lines, PreOrder(e), n, 0)
    decreases e, 4
  {
    var kids := VisitChildren(e, n, 0, n + 1).lines;
    assert Children(e)[..0] == [];
    ChildrenArrowsCloseSubtrees(e, n, 0, n + 1);
    assert Visit(e, n).lines[0].Decl? && Visit(e, n).lines[1..] == kids;
  }

  lemma {:induction false} ChildrenArrowsCloseSubtrees(parent: Expr, pid: nat, k: nat, next: nat)
    requires k <= |Children(parent)|
    requires next == pid + 1 + SumSizes(Children(parent)[..k])
    ensures ArrowsCloseSubtrees(VisitChildren(parent, pid, k, next).lines, PreOrder(parent), pid, next - pid)
    decreases parent, |Children(parent)| - k
  {
    var cs := Children(parent);
    if k < |cs| {
      ChildArrowsCloseSubtrees(parent, pid, k, next);
      NextChildStart(cs, k, pid, next);
      ChildrenArrowsCloseSubtrees(parent, pid, k + 1, next + Size(cs[k]));
      ChildOrderStep(parent, pid, k, next);
    } else {
      assert VisitChildren(parent, pid, k, next).lines == [];
    }
  }

  /** Child `k`'s lines close their subtrees, counted in the parent's listing. */
  lemma ChildArrowsCloseSubtrees(parent: Expr, pid: nat, k: nat, next: nat)
    requires k < |Children(parent)|
    requires next == pid + 1 + SumSizes(Children(parent)[..k])
    ensures ArrowsCloseSubtrees(Visit(Children(parent)[k], next).lines, PreOrder(parent), pid, next - pid)
    decreases parent, |Children(parent)| - k - 1
  {
    var c := Children(parent)[k];
    var es := Edges(Visit(c, next).lines);
    ChildListingInParent(parent, k, next - pid);
    VisitArrowsCloseSubtrees(c, next);
    VisitEdgesAreLinks(c, next);
    forall l | l in es
      ensures 0 <= l.to - next < |PreOrder(c)|
    {
      var ci :| ChildLinkAt(PreOrder(c), l.from - next, l.to - next, l.role, ci);
    }
    ArrowsShift(Visit(c, next).lines, PreOrder(c), PreOrder(parent), next, pid, 0);
  }

  /** The step of `ChildrenArrowsCloseSubtrees`: child `k`'s lines, the arrow to it, then its later siblings. */
  lemma ChildOrderStep(parent: Expr, pid: nat, k: nat, next: nat)
    requires k < |Children(parent)|
    requires next == pid + 1 + SumSizes(Children(parent)[..k])
    requires ArrowsCloseSubtrees(Visit(Children(parent)[k], next).lines, PreOrder(parent), pid, next - pid)
    requires ArrowsCloseSubtrees(VisitChildren(parent, pid, k + 1, next + Size(Children(parent)[k])).lines,
                                 PreOrder(parent), pid, next + Size(Children(parent)[k]) - pid)
    ensures ArrowsCloseSubtrees(VisitChildren(parent, pid, k, next).lines, PreOrder(parent), pid, next - pid)
  {
    var c := Children(parent)[k];
    var v := Visit(c, next);
    var rest := VisitChildren(parent, pid, k + 1, v.next).lines;
    var a := Arrow(Edge(pid, next, Roles(parent)[k]));
    assert VisitChildren(parent, pid, k, next).lines == v.lines + [a] + rest;
    ChildSubtreeEnd(parent, k, next - pid);
    DeclCount(c, next);
    ArrowsAround(v.lines, a, rest, PreOrder(parent), pid, next - pid, Size(c));
  }

  /** In the parent's listing, child `k`'s subtree ends where its size says. */
  lemma ChildSubtreeEnd(parent: Expr, k: nat, off: nat)
    requires k < |Children(parent)| && off == 1 + SumSizes(Children(parent)[..k])
    ensures SubtreeEnd(PreOrder(parent), off) == off + Size(Children(parent)[k])
  {
    var c := Children(parent)[k];
    ChildListingInParent(parent, k, off);
    PreOrderSize(c);
    assert PreOrder(parent)[off] == PreOrder(c)[0];
  }

  /** A subtree's lines, the arrow to its root, then lines that continue the count. */
  lemma ArrowsAround(vl: seq<Line>, a: Line, rest: seq<Line>, po: seq<Expr>, n: int, d: int, size: int)
    requires ArrowsCloseSubtrees(vl, po, n, d) && |Nodes(vl)| == size
    requires a.Arrow? && d + size == SubtreeEnd(po, a.edge.to - n)
    requires ArrowsCloseSubtrees(rest, po, n, d + size)
    ensures ArrowsCloseSubtrees(vl + [a] + rest, po, n, d)
  {
    assert [a][1..] == [];
    assert ArrowsCloseSubtrees([a], po, n, d + size);
    assert Nodes([a]) == [];
    ArrowsAppend(vl, [a], po, n, d);
    NodesAppend(vl, [a]);
    ArrowsAppend(vl + [a], rest, po, n, d);
  }

  /** A visit declares one node per node of the subtree. */
  lemma DeclCount(e: Expr, n: nat)
    ensures |Nodes(Visit(e, n).lines)| == Size(e)
  {
    VisitDeclaresPreOrder(e, n);
    NumberedLength(PreOrder(e), n);
    PreOrderSize(e);
  }

  lemma {:induction false} ArrowsAppend(a: seq<Line>, b: seq<Line>, po: seq<Expr>, n: int, d: int)
    requires ArrowsCloseSubtrees(a, po, n, d)
    requires ArrowsCloseSubtrees(b, po, n, d + |Nodes(a)|)
    ensures ArrowsCloseSubtrees(a + b, po, n, d)
    decreases |a|
  {
    if a == [] {
      assert a + b == b;
    } else {
      assert (a + b)[0] == a[0] && (a + b)[1..] == a[1..] + b;
      ArrowsAppend(a[1..], b, po, n, if a[0].Decl? then d + 1 else d);
    }
  }

  /** Lines that close their subtrees in a child's listing close them in the parent's. */
  lemma {:induction false} ArrowsShift(ls: seq<Line>, q: seq<Expr>, po: seq<Expr>, base: int, pid: int, d: int)
    requires 0 <= base - pid && base - pid + |q| <= |po|
    requires forall x :: 0 <= x < |q| ==> po[base - pid + x] == q[x]
    requires ArrowsCloseSubtrees(ls, q, base, d)
    requires forall l :: l in Edges(ls) ==> 0 <= l.to - base < |q|
    ensures ArrowsCloseSubtrees(ls, po, pid, d + base - pid)
    decreases |ls|
  {
    if ls != [] {
      if ls[0].Arrow? {
        var b := ls[0].edge.to - base;
        assert ls[0].edge in Edges(ls) by {
          assert Edges(ls) == [ls[0].edge] + Edges(ls[1..]);
        }
        assert po[base - pid + b] == q[b];
      }
      assert forall l :: l in Edges(ls[1..]) ==> l in Edges(ls) by {
        assert Edges(ls) == ArrowIn(ls[0]) + Edges(ls[1..]);
      }
      ArrowsShift(ls[1..], q, po, base, pid, if ls[0].Decl? then d + 1 else d);
    }
  }

  /**
   * In lines that declare `po` in order from `n` and close every subtree before its
   * arrow, a declaration precedes an arrow exactly when its id lies before the end of the
   * arrow's target subtree.
   */
  lemma LineOrder(ls: seq<Line>, po: seq<Expr>, n: nat)
    requires Nodes(ls) == Numbered(po, n) && ArrowsCloseSubtrees(ls, po, n, 0)
    ensures forall p, q :: 0 <= p < |ls| && 0 <= q < |ls| && ls[p].Arrow? && ls[q].Decl? ==>
              (q < p <==> ls[q].node.id - n < SubtreeEnd(po, ls[p].edge.to - n))
  {
    forall p, q | 0 <= p < |ls| && 0 <= q < |ls| && ls[p].Arrow? && ls[q].Decl?
      ensures q < p <==> ls[q].node.id - n < SubtreeEnd(po, ls[p].edge.to - n)
    {
      ArrowsCloseSubtreesAt(ls, po, n, 0, p);
      DeclIdAt(ls, po, n, q);
      ArrowAgainstDecl(ls, p, q);
    }
  }

  /** Read at one arrow: the count of declarations before it reaches its target's subtree end. */
  lemma {:induction false} ArrowsCloseSubtreesAt(ls: seq<Line>, po: seq<Expr>, n: int, d: int, p: nat)
    requires ArrowsCloseSubtrees(ls, po, n, d)
    requires p < |ls| && ls[p].Arrow?
    ensures d + |Nodes(ls[..p])| == SubtreeEnd(po, ls[p].edge.to - n)
    decreases p
  {
    if p == 0 {
      assert ls[..0] == [];
    } else {
      NodesPrefixStep(ls, p);
      ArrowsCloseSubtreesAt(ls[1..], po, n, if ls[0].Decl? then d + 1 else d, p - 1);
    }
  }

  lemma NodesPrefixStep(ls: seq<Line>, p: nat)
    requires 0 < p <= |ls|
    ensures Nodes(ls[..p]) == DeclIn(ls[0]) + Nodes(ls[1..][..p - 1])
  {
    assert ls[..p][0] == ls[0] && ls[..p][1..] == ls[1..][..p - 1];
  }

  /** The declarations before index `q` followed by the line at `q`. */
  lemma NodesPrefixSnoc(ls: seq<Line>, q: nat)
    requires q < |ls|
    ensures Nodes(ls[..q + 1]) == Nodes(ls[..q]) + DeclIn(ls[q])
  {
    assert ls[..q + 1] == ls[..q] + [ls[q]];
    NodesAppend(ls[..q], [ls[q]]);
    assert [ls[q]][1..] == [];
  }

  /** Counting declarations over a longer prefix never gives fewer. */
  lemma NodesPrefixGrows(ls: seq<Line>, i: nat, j: nat)
    requires i <= j <= |ls|
    ensures |Nodes(ls[..i])| <= |Nodes(ls[..j])|
  {
    assert ls[..j] == ls[..i] + ls[i..j];
    NodesAppend(ls[..i], ls[i..j]);
  }

  /** In lines that declare `po` in order from `n`, a declaration's id is `n` plus the declarations before it. */
  lemma DeclIdAt(ls: seq<Line>, po: seq<Expr>, n: nat, q: nat)
    requires Nodes(ls) == Numbered(po, n)
    requires q < |ls| && ls[q].Decl?
    ensures ls[q].node.id == n + |Nodes(ls[..q])|
  {
    var k := |Nodes(ls[..q])|;
    NodesPrefixSnoc(ls, q);
    assert ls == ls[..q + 1] + ls[q + 1..];
    NodesAppend(ls[..q + 1], ls[q + 1..]);
    assert Nodes(ls)[k] == ls[q].node;
    NumberedLength(po, n);
    NumberedIndex(po, n, k);
  }

  /** Comparing an arrow's and a declaration's places through the declarations before each. */
  lemma ArrowAgainstDecl(ls: seq<Line>, p: nat, q: nat)
    requires p < |ls| && q < |ls| && ls[p].Arrow? && ls[q].Decl?
    ensures q < p <==> |Nodes(ls[..q])| < |Nodes(ls[..p])|
  {
    NodesPrefixSnoc(ls, q);
    NodesPrefixSnoc(ls, p);
    if q < p {
      NodesPrefixGrows(ls, q + 1, p);
    } else {
      NodesPrefixGrows(ls, p + 1, q);
    }
  }

  /** A visit puts the arrows inside each subtree before the arrow to its root. */
  lemma {:induction false} VisitArrowsNest(e: Expr, n: nat)
    ensures ArrowsNest(Visit(e, n).lines, PreOrder(e), n)
    decreases e, 4
  {
    assert Children(e)[..0] == [];
    ChildrenArrowsNest(e, n, 0, n + 1);
    assert Visit(e, n).lines[0].Decl? && Visit(e, n).lines[1..] == VisitChildren(e, n, 0, n + 1).lines;
  }

  lemma {:induction false} ChildrenArrowsNest(parent: Expr, pid: nat, k: nat, next: nat)
    requires k <= |Children(parent)|
    requires next == pid + 1 + SumSizes(Children(parent)[..k])
    ensures ArrowsNest(VisitChildren(parent, pid, k, next).lines, PreOrder(parent), pid)
    decreases parent, |Children(parent)| - k
  {
    var cs := Children(parent);
    if k < |cs| {
      ChildArrowsNest(parent, pid, k, next);
      NextChildStart(cs, k, pid, next);
      ChildrenArrowsNest(parent, pid, k + 1, next + Size(cs[k]));
      ChildNestStep(parent, pid, k, next);
    } else {
      assert VisitChildren(parent, pid, k, next).lines == [];
    }
  }

  /** Child `k`'s arrows nest, judged in the parent's listing. */
  lemma ChildArrowsNest(parent: Expr, pid: nat, k: nat, next: nat)
    requires k < |Children(parent)|
    requires next == pid + 1 + SumSizes(Children(parent)[..k])
    ensures ArrowsNest(Visit(Children(parent)[k], next).lines, PreOrder(parent), pid)
    decreases parent, |Children(parent)| - k - 1
  {
    var c := Children(parent)[k];
    ChildListingInParent(parent, k, next - pid);
    VisitArrowsNest(c, next);
    ChildTargetsInside(c, next);
    ArrowsNestShift(Visit(c, next).lines, PreOrder(c), PreOrder(parent), next, pid);
  }

  /** The arrows of a visit point strictly inside the visited subtree. */
  lemma ChildTargetsInside(c: Expr, next: nat)
    ensures |PreOrder(c)| == Size(c)
    ensures forall l :: l in Edges(Visit(c, next).lines) ==> next < l.to < next + Size(c)
  {
    PreOrderSize(c);
    VisitTargetsEachChildOnce(c, next);
    CoveredTargetsInRange(Edges(Visit(c, next).lines), next + 1, next + Size(c));
  }

  /** The step of `ChildrenArrowsNest`: child `k`'s lines, the arrow to it, then its later siblings. */
  lemma ChildNestStep(parent: Expr, pid: nat, k: nat, next: nat)
    requires k < |Children(parent)|
    requires next == pid + 1 + SumSizes(Children(parent)[..k])
    requires ArrowsNest(Visit(Children(parent)[k], next).lines, PreOrder(parent), pid)
    requires ArrowsNest(VisitChildren(parent, pid, k + 1, next + Size(Children(parent)[k])).lines,
                        PreOrder(parent), pid)
    ensures ArrowsNest(VisitChildren(parent, pid, k, next).lines, PreOrder(parent), pid)
  {
    var c := Children(parent)[k];
    var po := PreOrder(parent);
    var v := Visit(c, next);
    var rest := VisitChildren(parent, pid, k + 1, v.next).lines;
    var a := Arrow(Edge(pid, next, Roles(parent)[k]));
    assert VisitChildren(parent, pid, k, next).lines == v.lines + [a] + rest;
    ChildTargetsInside(c, next);
    ChildSubtreeEnd(parent, k, next - pid);
    ChildrenTargets(parent, pid, k + 1, v.next);
    CoveredTargetsInRange(Edges(rest), v.next, v.next + SumSizes(Children(parent)[k + 1..]));
    ChildArrowsCloseSubtrees(parent, pid, k, next);
    ArrowsCloseSubtreesBound(v.lines, po, pid, next - pid);
    DeclCount(c, next);
    NestAround(v.lines, a, rest, po, pid, next - pid + Size(c));
  }

  /**
   * A subtree's lines, the arrow to its root, then lines whose arrows all point at or past
   * the subtree's end `end`.
   */
  lemma NestAround(vl: seq<Line>, a: Line, rest: seq<Line>, po: seq<Expr>, n: int, end: int)
    requires ArrowsNest(vl, po, n) && ArrowsNest(rest, po, n)
    requires a.Arrow? && SubtreeEnd(po, a.edge.to - n) == end
    requires forall l :: l in Edges(vl) ==> a.edge.to < l.to && SubtreeEnd(po, l.to - n) <= end
    requires forall l :: l in Edges(rest) ==> end <= l.to - n
    ensures ArrowsNest(vl + [a] + rest, po, n)
  {
    var one := [a];
    assert one[1..] == [] && Edges(one) == [a.edge];
    assert ArrowsNest(one, po, n);
    forall x | x in Edges(vl)
      ensures NoneInside(Edges(one), po, n, x.to - n)
    {
      assert !Inside(po, x.to - n, a.edge.to - n);
    }
    ArrowsNestAppend(vl, one, po, n);
    EdgesAppend(vl, one);
    forall x | x in Edges(vl + one)
      ensures NoneInside(Edges(rest), po, n, x.to - n)
    {
      assert SubtreeEnd(po, x.to - n) <= end;
    }
    ArrowsNestAppend(vl + one, rest, po, n);
  }

  /** Every arrow of lines that close their subtrees ends its subtree within the declarations counted. */
  lemma {:induction false} ArrowsCloseSubtreesBound(ls: seq<Line>, po: seq<Expr>, n: int, d: int)
    requires ArrowsCloseSubtrees(ls, po, n, d)
    ensures forall l :: l in Edges(ls) ==> SubtreeEnd(po, l.to - n) <= d + |Nodes(ls)|
    decreases |ls|
  {
    if ls != [] {
      assert Edges(ls) == ArrowIn(ls[0]) + Edges(ls[1..]);
      assert Nodes(ls) == DeclIn(ls[0]) + Nodes(ls[1..]);
      ArrowsCloseSubtreesBound(ls[1..], po, n, if ls[0].Decl? then d + 1 else d);
    }
  }

  lemma {:induction false} ArrowsNestAppend(a: seq<Line>, b: seq<Line>, po: seq<Expr>, n: int)
    requires ArrowsNest(a, po, n) && ArrowsNest(b, po, n)
    requires forall x :: x in Edges(a) ==> NoneInside(Edges(b), po, n, x.to - n)
    ensures ArrowsNest(a + b, po, n)
    decreases |a|
  {
    if a == [] {
      assert a + b == b;
    } else {
      assert (a + b)[0] == a[0] && (a + b)[1..] == a[1..] + b;
      assert Edges(a) == ArrowIn(a[0]) + Edges(a[1..]);
      EdgesAppend(a[1..], b);
      ArrowsNestAppend(a[1..], b, po, n);
    }
  }

  /** Arrows that nest in a child's listing nest in the parent's. */
  lemma {:induction false} ArrowsNestShift(ls: seq<Line>, q: seq<Expr>, po: seq<Expr>, base: int, pid: int)
    requires 0 <= base - pid && base - pid + |q| <= |po|
    requires forall x :: 0 <= x < |q| ==> po[base - pid + x] == q[x]
    requires forall l :: l in Edges(ls) ==> 0 <= l.to - base < |q|
    requires ArrowsNest(ls, q, base)
    ensures ArrowsNest(ls, po, pid)
    decreases |ls|
  {
    if ls != [] {
      assert Edges(ls) == ArrowIn(ls[0]) + Edges(ls[1..]);
      if ls[0].Arrow? {
        var b := ls[0].edge.to - base;
        assert po[base - pid + b] == q[b];
        assert SubtreeEnd(po, b + base - pid) == SubtreeEnd(q, b) + base - pid;
      }
      ArrowsNestShift(ls[1..], q, po, base, pid);
    }
  }

  /** The edges whose targets cover `a .. b - 1` once each all point into that range. */
  lemma CoveredTargetsInRange(es: seq<Edge>, a: nat, b: nat)
    requires CoversOnce(Targets(es), a, b)
    ensures forall l :: l in es ==> a <= l.to < b
  {
    forall l | l in es
      ensures a <= l.to < b
    {
      var i :| 0 <= i < |es| && es[i] == l;
      TargetsIndex(es, i);
      CountOfPresent(Targets(es), i);
    }
  }

  lemma {:induction false} TargetsIndex(es: seq<Edge>, i: nat)
    requires i < |es|
    ensures Targets(es)[i] == es[i].to
    decreases i
  {
    if i > 0 {
      TargetsIndex(es[1..], i - 1);
    }
  }

  lemma {:induction false} CountOfPresent(ts: seq<nat>, i: nat)
    requires i < |ts|
    ensures Count(ts, ts[i]) >= 1
    decreases i
  {
    if i > 0 {
      CountOfPresent(ts[1..], i - 1);
    }
  }

  /**
   * In lines whose arrows nest, an arrow into the subtree of another arrow's target comes
   * before that arrow.
   */
  lemma NestOrder(ls: seq<Line>, po: seq<Expr>, n: int)
    requires ArrowsNest(ls, po, n)
    ensures forall p, p' :: (0 <= p < |ls| && 0 <= p' < |ls| && ls[p].Arrow? && ls[p'].Arrow? &&
               Inside(po, ls[p].edge.to - n, ls[p'].edge.to - n)) ==> p' < p
  {
    forall p, p' | 0 <= p < |ls| && 0 <= p' < |ls| && ls[p].Arrow? && ls[p'].Arrow? &&
                   Inside(po, ls[p].edge.to - n, ls[p'].edge.to - n)
      ensures p' < p
    {
      if p < p' {
        ArrowsNestAt(ls, po, n, p, p');
      }
    }
  }

  lemma {:induction false} ArrowsNestAt(ls: seq<Line>, po: seq<Expr>, n: int, p: nat, p': nat)
    requires ArrowsNest(ls, po, n)
    requires p < p' < |ls| && ls[p].Arrow? && ls[p'].Arrow?
    ensures !Inside(po, ls[p].edge.to - n, ls[p'].edge.to - n)
    decreases p
  {
    assert ls[1..][p' - 1] == ls[p'];
    if p == 0 {
      EdgeAtIsIn(ls[1..], p' - 1);
    } else {
      assert ls[1..][p - 1] == ls[p];
      ArrowsNestAt(ls[1..], po, n, p - 1, p' - 1);
    }
  }

  lemma {:induction false} EdgeAtIsIn(ls: seq<Line>, i: nat)
    requires i < |ls| && ls[i].Arrow?
    ensures ls[i].edge in Edges(ls)
    decreases i
  {
    assert Edges(ls) == ArrowIn(ls[0]) + Edges(ls[1..]);
    if i > 0 {
      assert ls[1..][i - 1] == ls[i];
      EdgeAtIsIn(ls[1..], i - 1);
    }
  }

  // ------------------------------------------------------------- the visitor's state

  /**
   * The lines that draw `e` with ids from `n`: its declarations are its pre-order listing
   * numbered from `n`, it has one arrow per parent-to-child link, every node but the root
   * is the target of exactly one arrow, and every arrow joins a parent to one of its
   * children under that child's role. An arrow follows the declarations of every node up
   * to the end of its target's subtree and precedes all the others, and it follows every
   * arrow into its target's subtree.
   */
  ghost predicate Draws(ls: seq<Line>, e: Expr, n: nat) {
    && Nodes(ls) == Numbered(PreOrder(e), n)
    && |Edges(ls)| == Links(e)
    && CoversOnce(Targets(Edges(ls)), n + 1, n + Size(e))
    && (forall l :: l in Edges(ls) ==> IsLink(PreOrder(e), l.from - n, l.to - n, l.role))
    && (forall p, q :: 0 <= p < |ls| && 0 <= q < |ls| && ls[p].Arrow? && ls[q].Decl? ==>
          (q < p <==> ls[q].node.id - n < SubtreeEnd(PreOrder(e), ls[p].edge.to - n)))
    && forall p, p' :: (0 <= p < |ls| && 0 <= p' < |ls| && ls[p].Arrow? && ls[p'].Arrow? &&
          Inside(PreOrder(e), ls[p].edge.to - n, ls[p'].edge.to - n)) ==> p' < p
  }

  /** The lines of a visit draw the subtree. */
  lemma VisitDraws(e: Expr, n: nat)
    ensures Draws(Visit(e, n).lines, e, n)
  {
    VisitDeclaresPreOrder(e, n);
    VisitDrawsEveryLink(e, n);
    VisitTargetsEachChildOnce(e, n);
    VisitEdgesAreLinks(e, n);
    VisitOrdersLines(e, n);
  }

  /**
   * In a visit's lines, an arrow follows every line of its target's subtree (the
   * declarations and the arrows inside it) and precedes the later declarations.
   */
  lemma VisitOrdersLines(e: Expr, n: nat)
    ensures var ls := Visit(e, n).lines;
      forall p, q :: 0 <= p < |ls| && 0 <= q < |ls| && ls[p].Arrow? && ls[q].Decl? ==>
        (q < p <==> ls[q].node.id - n < SubtreeEnd(PreOrder(e), ls[p].edge.to - n))
    ensures var ls := Visit(e, n).lines;
      forall p, p' :: (0 <= p < |ls| && 0 <= p' < |ls| && ls[p].Arrow? && ls[p'].Arrow? &&
         Inside(PreOrder(e), ls[p].edge.to - n, ls[p'].edge.to - n)) ==> p' < p
  {
    VisitPlacesArrows(e, n);
    VisitNestsArrows(e, n);
  }

  lemma VisitPlacesArrows(e: Expr, n: nat)
    ensures var ls := Visit(e, n).lines;
      forall p, q :: 0 <= p < |ls| && 0 <= q < |ls| && ls[p].Arrow? && ls[q].Decl? ==>
        (q < p <==> ls[q].node.id - n < SubtreeEnd(PreOrder(e), ls[p].edge.to - n))
  {
    VisitDeclaresPreOrder(e, n);
    VisitArrowsCloseSubtrees(e, n);
    LineOrder(Visit(e, n).lines, PreOrder(e), n);
  }

  lemma VisitNestsArrows(e: Expr, n: nat)
    ensures var ls := Visit(e, n).lines;
      forall p, p' :: (0 <= p < |ls| && 0 <= p' < |ls| && ls[p].Arrow? && ls[p'].Arrow? &&
         Inside(PreOrder(e), ls[p].edge.to - n, ls[p'].edge.to - n)) ==> p' < p
  {
    VisitArrowsNest(e, n);
    NestOrder(Visit(e, n).lines, PreOrder(e), n);
  }

  /**
   * What `Render` appends to the buffer is the header line followed by the text of lines
   * that draw the tree, numbered from the visitor's counter.
   */
  lemma RenderDrawsTheTree(v: MermaidVisitor, e: Expr)
    ensures exists ls :: Draws(ls, e, v.nextId) && Render(v, e).1 == v.sb + Header + "\n" + Text(ls)
  {
    VisitDraws(e, v.nextId);
  }


  /** The ids a visit declares all lie in its range `n .. n + Size(e) - 1`. */
  lemma NodeIdsInRange(e: Expr, n: nat)
    ensures forall d :: d in Nodes(Visit(e, n).lines) ==> n <= d.id < n + Size(e)
  {
    var po := PreOrder(e);
    VisitDeclaresPreOrder(e, n);
    PreOrderSize(e);
    NumberedLength(po, n);
    forall d | d in Nodes(Visit(e, n).lines)
      ensures n <= d.id < n + Size(e)
    {
      var k :| 0 <= k < |Numbered(po, n)| && Numbered(po, n)[k] == d;
      NumberedIndex(po, n, k);
    }
  }

  /**
   * Rendering a second tree on the same visitor numbers its nodes from where the first
   * stopped, so no id names nodes of both.
   */
  lemma RenderTwiceContinuesIds(e1: Expr, e2: Expr)
    ensures var v1 := Render(Fresh, e1).0;
      forall d1, d2 :: d1 in Nodes(Visit(e1, 0).lines) && d2 in Nodes(Visit(e2, v1.nextId).lines) ==>
        d1.id < d2.id
  {
    var v1 := Render(Fresh, e1).0;
    NodeIdsInRange(e1, 0);
    NodeIdsInRange(e2, v1.nextId);
  }
}

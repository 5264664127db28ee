/**
 * The parser's abstract syntax tree, as the cops see it.
 *
 * Every node has a kind, an optional receiver-like first child, a name, a list of
 * children, an optional body and a source range. Each kind uses these slots as
 * follows; the slots are listed in the order of the parser's own children, so a
 * pre-order walk visits nodes in the order `each_node` does.
 *
 *   send / csend    recv: receiver (absent for `foo(...)`), name: method, kids: arguments
 *   block           recv: the call (a send), kids: [the block's `args`], body: block body
 *   def             name: method, kids: [the `args`], body: method body
 *   defs            recv: singleton receiver, name, kids: [the `args`], body
 *   class           recv: the name (a const), kids: [superclass] or [], body
 *   module          recv: the name (a const), body
 *   const           recv: scope (absent for a bare `Foo`, `cbase` for `::Foo`), name
 *   casgn           recv: scope, name, kids: [assigned value]
 *   pair            kids: [key, value]
 *   args, array, hash, begin, return, if, ...  kids: the present children in order
 *   sym, str, int, float, rational, lvar, ivar, cvar, gvar, arg, kwarg, ...  name: the value or identifier
 *
 * Children that the parser leaves out (a missing `else`, a class without a
 * superclass) are simply absent from `kids`.
 */
module Syntax {
  import opened Wrappers

  /** A source range in byte offsets: `begin` inclusive, `end` exclusive. */
  datatype Range = Range(begin: nat, end: nat)

  /** The range of nodes the cops build themselves with `s(...)`: they have no location. */
  const Unlocated := Range(0, 0)

  datatype Kind =
    | Send | Csend | Block | Begin | Def | Defs | Class | Module
    | Args | Arg | Optarg | Restarg | Kwarg | Kwoptarg | Kwrestarg | Blockarg
    | Const | Cbase | Casgn | Self
    | Sym | Str | Dstr | Int | Float | Rational | True | False | Nil
    | Array | Hash | Pair | Kwsplat | Splat | Return
    | Lvar | Ivar | Cvar | Gvar | Lvasgn | If | Other

  datatype Node = Node(kind: Kind, recv: Option<Node>, name: string, kids: seq<Node>, body: Option<Node>, range: Range)

  /** `node.each_node`: the node itself, then its descendants, depth first, in child order. */
  function Preorder(n: Node): (r: seq<Node>)
    ensures |r| >= 1 && r[0] == n
    decreases n, 2
  {
    [n] + PreorderOpt(n.recv) + PreorderAll(n.kids) + PreorderOpt(n.body)
  }

  function PreorderOpt(o: Option<Node>): seq<Node>
    decreases o, 1
  {
    match o
    case None => []
    case Some(c) => Preorder(c)
  }

  function PreorderAll(s: seq<Node>): seq<Node>
    decreases s, 1
  {
    if s == [] then [] else Preorder(s[0]) + PreorderAll(s[1..])
  }

  /** A node without children is its own walk. */
  lemma PreorderLeaf(n: Node)
    requires n.recv.None? && n.kids == [] && n.body.None?
    ensures Preorder(n) == [n]
  {
    assert PreorderAll([]) == [];
  }

  lemma PreorderAllCons(n: Node, s: seq<Node>)
    ensures PreorderAll([n] + s) == Preorder(n) + PreorderAll(s)
  {
    assert ([n] + s)[0] == n && ([n] + s)[1..] == s;
  }

  lemma PreorderAllSingle(n: Node)
    ensures PreorderAll([n]) == Preorder(n)
  {
    assert [n][1..] == [];
  }

  /** A call, walked: itself, its receiver, then its arguments. */
  lemma PreorderCall(n: Node)
    requires n.body.None?
    ensures n.recv.Some? ==> Preorder(n) == [n] + Preorder(n.recv.value) + PreorderAll(n.kids)
    ensures n.recv.None? ==> Preorder(n) == [n] + PreorderAll(n.kids)
  {
  }

  /** `node.each_descendant`: the pre-order walk without the node itself. */
  function Descendants(n: Node): seq<Node> {
    Preorder(n)[1..]
  }

  /** The NodePattern `` `p ``: `n` or one of its descendants satisfies `p`. */
  predicate Somewhere(n: Node, p: Node -> bool) {
    var ns := Preorder(n);
    exists i :: 0 <= i < |ns| && p(ns[i])
  }

  /** The number of nodes in a tree; it bounds the nesting of arguments. */
  function Size(n: Node): (r: nat)
    ensures r >= 1 + SizeAll(n.kids)
    decreases n, 2
  {
    1 + SizeOpt(n.recv) + SizeAll(n.kids) + SizeOpt(n.body)
  }

  function SizeOpt(o: Option<Node>): nat
    decreases o, 1
  {
    match o
    case None => 0
    case Some(c) => Size(c)
  }

  function SizeAll(s: seq<Node>): nat
    decreases s, 1
  {
    if s == [] then 0 else Size(s[0]) + SizeAll(s[1..])
  }

  lemma {:induction false} SizeAllAppend(a: seq<Node>, b: seq<Node>)
    ensures SizeAll(a + b) == SizeAll(a) + SizeAll(b)
  {
    if a == [] {
      assert a + b == b;
    } else {
      assert (a + b)[1..] == a[1..] + b;
      SizeAllAppend(a[1..], b);
    }
  }

  lemma {:induction false} SizeAllElement(s: seq<Node>, i: nat)
    requires i < |s|
    ensures Size(s[i]) <= SizeAll(s)
  {
    if i > 0 {
      SizeAllElement(s[1..], i - 1);
    }
  }

  /** The values of the `pair` children among `kids`, in order; other children (`kwsplat`) are skipped. */
  function PairValues(kids: seq<Node>): (r: seq<Node>)
    ensures SizeAll(r) <= SizeAll(kids)
    ensures forall v :: v in r ==> exists p :: p in kids && p.kind == Pair && |p.kids| == 2 && p.kids[1] == v
  {
    if kids == [] then []
    else
      var p := kids[0];
      var here := if p.kind == Pair && |p.kids| == 2 then [p.kids[1]] else [];
      assert SizeAll(here) <= Size(p) by {
        if here != [] {
          SizeAllElement(p.kids, 1);
        }
      }
      SizeAllAppend(here, PairValues(kids[1..]));
      here + PairValues(kids[1..])
  }

  /** `ArrayNode#values` (the elements) and `HashNode#values` (the pair values). */
  function Values(n: Node): (r: seq<Node>)
    ensures SizeAll(r) < Size(n)
  {
    if n.kind == Hash then PairValues(n.kids) else n.kids
  }

  /**
   * The node with every location dropped. Node equality and hashing in the
   * parser are structural and ignore locations; two nodes are equal in Ruby
   * exactly when their erasures are equal here.
   */
  function Erase(n: Node): (r: Node)
    ensures r.kind == n.kind && r.name == n.name && |r.kids| == |n.kids| && r.range == Unlocated
    decreases n
  {
    Node(n.kind,
         match n.recv { case None => None case Some(c) => Some(Erase(c)) },
         n.name,
         seq(|n.kids|, i requires 0 <= i < |n.kids| => Erase(n.kids[i])),
         match n.body { case None => None case Some(c) => Some(Erase(c)) },
         Unlocated)
  }

  /** `const` with the given name, whatever its scope: the NodePattern `(const _ :name)`. */
  predicate IsConstNamed(n: Node, name: string) {
    n.kind == Const && n.name == name
  }

  /** An unscoped `const`: the NodePattern `(const nil? :name)`. */
  predicate IsBareConst(n: Node, name: string) {
    IsConstNamed(n, name) && n.recv.None?
  }

  /** A node whose scope or receiver is the `const` `name`: the `(const (const _ :name) _)` shape. */
  predicate HasScopeNamed(n: Node, name: string) {
    n.recv.Some? && IsConstNamed(n.recv.value, name)
  }

  /** `send` leaves: `foo.bar`, `Foo.bar(1)`. */
  function SendNode(recv: Option<Node>, name: string, args: seq<Node>, range: Range): Node {
    Node(Send, recv, name, args, None, range)
  }

  /** Leaves carrying only a value or identifier: `:sym`, `'str'`, `1`, `x`, `Foo`. */
  function Leaf(kind: Kind, name: string, range: Range): Node {
    Node(kind, None, name, [], None, range)
  }
}

/**
 * Finding the methods of a file that may return an unserializable value.
 *
 * Every method definition (`def`, `defs`, or a `define_method` block) is
 * mapped, under the `send` node that would call it, to the values it can
 * return that the cop considers potentially unserializable. The cop that
 * owns the detector supplies that test as `potentiallyUnserializable`.
 */
module DetectMethods {
  import opened Wrappers
  import opened Syntax
  import opened Sequences

  /** `(send _ :define_method ...)`. */
  predicate DefineMethodCall(c: Node) {
    c.kind == Send && c.name == "define_method"
  }

  /** The `method_definitions` pattern: `(def _ _+)`, `(defs _ _ ...)`, `(block (send _ :define_method ...) ...)`. */
  predicate MethodDefinition(n: Node) {
    n.kind == Def || n.kind == Defs || (n.kind == Block && n.recv.Some? && DefineMethodCall(n.recv.value))
  }

  /** `method_definitions(ast)`: every definition in the tree, in pre-order, the root included. */
  function MethodDefinitions(ast: Node): (r: seq<Node>)
    ensures forall d :: d in r <==> d in Preorder(ast) && MethodDefinition(d)
  {
    FilterMembers(Preorder(ast), MethodDefinition);
    Filter(Preorder(ast), MethodDefinition)
  }

  predicate IsReturn(n: Node) {
    n.kind == Return
  }

  /** A value with its call arguments removed: a `send` is rebuilt, without location, from its receiver and name. */
  predicate Sanitized(v: Node) {
    v.kind == Send ==> v.kids == [] && v.body.None? && v.range == Unlocated
  }

  /** `v` is `n` as `sanitize_nodes` leaves it: same kind, receiver and name; a call loses its arguments. */
  predicate SanitizedOf(v: Node, n: Node) {
    v.kind == n.kind && v.recv == n.recv && v.name == n.name && Sanitized(v) && (n.kind != Send ==> v == n)
  }

  /** `sanitize_nodes`: drops the arguments of every `send`, keeps other nodes as they are. */
  function Sanitize(ns: seq<Node>): (r: seq<Node>)
    ensures |r| == |ns|
    ensures forall i :: 0 <= i < |r| ==> SanitizedOf(r[i], ns[i])
  {
    seq(|ns|, i requires 0 <= i < |ns| =>
      if ns[i].kind == Send then Node(Send, ns[i].recv, ns[i].name, [], None, Unlocated) else ns[i])
  }

  /** The arguments of a `return`, looking through one pair of parentheses (`return(a, b)`). */
  function ReturnArgs(n: Node): seq<Node> {
    if |n.kids| > 0 && n.kids[0].kind == Begin then n.kids[0].kids else n.kids
  }

  /**
   * `node_values`: the values of a returned expression. A `return` gives the
   * suspected values of its arguments, an array or hash gives its elements or
   * values, anything else gives itself; calls lose their arguments.
   */
  function NodeValues(n: Node, pu: Node -> bool): (r: seq<Node>)
    ensures forall i :: 0 <= i < |r| ==> Sanitized(r[i])
    ensures n.kind == Array || n.kind == Hash ==>
              |r| == |Values(n)| && forall i :: 0 <= i < |r| ==> SanitizedOf(r[i], Values(n)[i])
    ensures n.kind !in {Return, Array, Hash} ==> |r| == 1 && SanitizedOf(r[0], n)
    decreases n, 3
  {
    if n.kind == Return then ReturnValuesFor(ReturnArgs(n), pu)
    else if n.kind == Array || n.kind == Hash then Sanitize(Values(n))
    else Sanitize([n])
  }

  /** A node that is neither a call nor a container is its own single value. */
  lemma NodeValuesKept(n: Node, pu: Node -> bool)
    requires n.kind !in {Return, Array, Hash, Send}
    ensures NodeValues(n, pu) == [n]
  {
    var r := NodeValues(n, pu);
    assert r[0] == n;
  }

  /** A call's single value is the call without its arguments and location. */
  lemma NodeValuesCall(n: Node, pu: Node -> bool)
    requires n.kind == Send
    ensures NodeValues(n, pu) == [Node(Send, n.recv, n.name, [], None, Unlocated)]
  {
    var r := NodeValues(n, pu);
    assert r[0] == Node(Send, n.recv, n.name, [], None, Unlocated);
  }

  /** `flat_map { |node| node_values(node) }`: the values of each node in turn. */
  function NodeValuesAll(s: seq<Node>, pu: Node -> bool): (r: seq<Node>)
    ensures forall i :: 0 <= i < |r| ==> Sanitized(r[i])
    decreases s, 1
  {
    if s == [] then [] else NodeValues(s[0], pu) + NodeValuesAll(s[1..], pu)
  }

  lemma NodeValuesAllCons(n: Node, s: seq<Node>, pu: Node -> bool)
    ensures NodeValuesAll([n] + s, pu) == NodeValues(n, pu) + NodeValuesAll(s, pu)
  {
    assert ([n] + s)[0] == n && ([n] + s)[1..] == s;
  }

  lemma NodeValuesSingle(n: Node, pu: Node -> bool)
    ensures NodeValuesAll([n], pu) == NodeValues(n, pu)
  {
    assert [n][1..] == [];
  }

  /** The `flat_map` keeps the nodes' order: the values of `a` come before those of `b`. */
  lemma {:induction false} NodeValuesAllAppend(a: seq<Node>, b: seq<Node>, pu: Node -> bool)
    ensures NodeValuesAll(a + b, pu) == NodeValuesAll(a, pu) + NodeValuesAll(b, pu)
    decreases |a|
  {
    if a != [] {
      assert (a + b)[0] == a[0] && (a + b)[1..] == a[1..] + b;
      NodeValuesAllAppend(a[1..], b, pu);
      ConcatAssoc(NodeValues(a[0], pu), NodeValuesAll(a[1..], pu), NodeValuesAll(b, pu));
    } else {
      assert a + b == b;
    }
  }

  /** A value of the `flat_map` is exactly a value of one of the nodes. */
  lemma {:induction false} NodeValuesAllMembers(s: seq<Node>, pu: Node -> bool, v: Node)
    ensures v in NodeValuesAll(s, pu) <==> exists i :: 0 <= i < |s| && v in NodeValues(s[i], pu)
    decreases |s|
  {
    if s != [] {
      NodeValuesAllMembers(s[1..], pu, v);
      if v in NodeValuesAll(s[1..], pu) {
        var i :| 0 <= i < |s[1..]| && v in NodeValues(s[1..][i], pu);
        assert s[i + 1] == s[1..][i];
      }
      if exists i :: 0 <= i < |s| && v in NodeValues(s[i], pu) {
        var i :| 0 <= i < |s| && v in NodeValues(s[i], pu);
        if i > 0 {
          assert s[1..][i - 1] == s[i];
        }
      }
    }
  }

  /** `return_values_for`: the values of the given nodes that are potentially unserializable, in order. */
  function ReturnValuesFor(s: seq<Node>, pu: Node -> bool): (r: seq<Node>)
    ensures forall i :: 0 <= i < |r| ==> Sanitized(r[i]) && pu(r[i])
    decreases s, 2
  {
    var vs := NodeValuesAll(s, pu);
    FilterKeeps(vs, pu, Sanitized);
    Filter(vs, pu)
  }

  /** A `return` yields exactly the suspected values of its arguments. */
  lemma NodeValuesOfReturn(n: Node, pu: Node -> bool, v: Node)
    requires n.kind == Return
    ensures v in NodeValues(n, pu) <==> pu(v) && exists i :: 0 <= i < |ReturnArgs(n)| && v in NodeValues(ReturnArgs(n)[i], pu)
  {
    ReturnValuesForMembers(ReturnArgs(n), pu, v);
  }

  /** A value is returned for the nodes iff it is suspected and is a value of one of them. */
  lemma ReturnValuesForMembers(s: seq<Node>, pu: Node -> bool, v: Node)
    ensures v in ReturnValuesFor(s, pu) <==> pu(v) && v in NodeValuesAll(s, pu)
    ensures v in ReturnValuesFor(s, pu) <==> pu(v) && exists i :: 0 <= i < |s| && v in NodeValues(s[i], pu)
  {
    FilterMembers(NodeValuesAll(s, pu), pu);
    NodeValuesAllMembers(s, pu, v);
  }

  /** A value that is not a `return`, array, hash or call stands for itself. */
  lemma ReturnValuesForLeaf(n: Node, pu: Node -> bool)
    requires n.kind !in {Return, Array, Hash, Send}
    ensures ReturnValuesFor([n], pu) == if pu(n) then [n] else []
  {
    NodeValuesSingle(n, pu);
    assert NodeValues(n, pu) == [n];
    FilterSingle(n, pu);
  }

  /** A `return` without parentheses gives the values of its arguments. */
  lemma ReturnValuesForReturn(n: Node, pu: Node -> bool)
    requires n.kind == Return && (|n.kids| > 0 ==> n.kids[0].kind != Begin)
    ensures ReturnValuesFor([n], pu) == ReturnValuesFor(n.kids, pu)
  {
    NodeValuesSingle(n, pu);
    assert NodeValues(n, pu) == ReturnValuesFor(n.kids, pu);
    FilterAll(ReturnValuesFor(n.kids, pu), pu);
  }

  /** A method body is evaluable unless it is an empty `begin`, whose missing last statement raises. */
  predicate Evaluable(body: Option<Node>) {
    body.Some? && body.value.kind == Begin ==> body.value.kids != []
  }

  /** The last statement of a `begin` body, or the body itself. */
  function LastExpression(n: Node): Node
    requires n.kind == Begin ==> n.kids != []
  {
    if n.kind == Begin then n.kids[|n.kids| - 1] else n
  }

  /** The values found in a body before repetitions are removed. */
  function BodyValues(n: Node, pu: Node -> bool): (r: seq<Node>)
    requires n.kind == Begin ==> n.kids != []
    ensures forall i :: 0 <= i < |r| ==> pu(r[i]) && Sanitized(r[i])
  {
    if n.kind == Return then ReturnValuesFor([n], pu)
    else ReturnValuesFor(Filter(Descendants(n), IsReturn), pu) + ReturnValuesFor([LastExpression(n)], pu)
  }

  /**
   * A value of a body is a suspected value either of a `return` inside it or
   * of its last expression; a body that is itself a `return` has that
   * `return`'s values.
   */
  lemma BodyValuesMembers(n: Node, pu: Node -> bool, v: Node)
    requires n.kind == Begin ==> n.kids != []
    ensures n.kind == Return ==> (v in BodyValues(n, pu) <==> pu(v) && v in NodeValues(n, pu))
    ensures n.kind != Return ==>
              (v in BodyValues(n, pu) <==>
                 pu(v) && (ReturnedAmong(Descendants(n), pu, v) || v in NodeValues(LastExpression(n), pu)))
  {
    if n.kind == Return {
      ReturnValuesForMembers([n], pu, v);
    } else {
      ReturnsValuesMembers(Descendants(n), pu, v);
      ReturnValuesForMembers([LastExpression(n)], pu, v);
    }
  }

  /** Some `return` among `ns` has `v` among its values. */
  predicate ReturnedAmong(ns: seq<Node>, pu: Node -> bool, v: Node) {
    exists t :: t in ns && IsReturn(t) && v in NodeValues(t, pu)
  }

  /** The values of the `return` nodes among `ns` are the suspected values of some `return` there. */
  lemma ReturnsValuesMembers(ns: seq<Node>, pu: Node -> bool, v: Node)
    ensures v in ReturnValuesFor(Filter(ns, IsReturn), pu) <==> pu(v) && ReturnedAmong(ns, pu, v)
  {
    var rets := Filter(ns, IsReturn);
    FilterMembers(ns, IsReturn);
    ReturnValuesForMembers(rets, pu, v);
    if ReturnedAmong(ns, pu, v) {
      var t :| t in ns && IsReturn(t) && v in NodeValues(t, pu);
      var i :| 0 <= i < |rets| && rets[i] == t;
    }
  }

  /**
   * `return_values`: `None` for a method without a body; otherwise the
   * values of every `return` inside the body followed by those of the last
   * expression, without repetitions (nodes compare without their locations).
   * Each value kept is the first of the body's values equal to it, and every
   * value of the body is kept in this sense.
   */
  function ReturnValues(body: Option<Node>, pu: Node -> bool): (r: Option<seq<Node>>)
    requires Evaluable(body)
    ensures r.None? <==> body.None?
    ensures r.Some? ==> DistinctBy(r.value, Erase)
    ensures r.Some? ==> forall i :: 0 <= i < |r.value| ==> pu(r.value[i]) && Sanitized(r.value[i])
  {
    match body
    case None => None
    case Some(n) =>
      var vs := BodyValues(n, pu);
      UniqByKeeps(vs, Erase, v => pu(v) && Sanitized(v));
      Some(UniqBy(vs, Erase))
  }

  /**
   * The values returned are the body's values up to location: each is the
   * first body value equal to it, and every body value has an equal one.
   */
  lemma ReturnValuesFirst(n: Node, pu: Node -> bool)
    requires Evaluable(Some(n))
    ensures var r := ReturnValues(Some(n), pu).value;
            (forall j :: 0 <= j < |r| ==> FirstWithKey(BodyValues(n, pu), r[j], Erase)) &&
            forall v :: v in BodyValues(n, pu) ==> HasKey(r, Erase(v), Erase)
  {
    var vs := BodyValues(n, pu);
    assert forall v :: v in vs ==> HasKey(UniqBy(vs, Erase), Erase(v), Erase);
  }

  /** A literal or variable standing alone, the kind of body whose value is itself. */
  predicate PlainLeaf(n: Node) {
    n.recv.None? && n.kids == [] && n.body.None? && n.kind !in {Return, Array, Hash, Send, Begin}
  }

  lemma LeafBodyValues(n: Node, pu: Node -> bool)
    requires PlainLeaf(n)
    ensures BodyValues(n, pu) == if pu(n) then [n] else []
  {
    ReturnValuesForLeaf(n, pu);
    PreorderLeaf(n);
    assert Filter(Descendants(n), IsReturn) == [];
    assert NodeValuesAll([], pu) == [];
    assert ReturnValuesFor([], pu) == [];
    assert LastExpression(n) == n;
  }

  /** A body made of one literal or variable returns exactly that node when it is suspected, and nothing otherwise. */
  lemma LeafReturnValues(n: Node, pu: Node -> bool)
    requires PlainLeaf(n)
    ensures ReturnValues(Some(n), pu) == Some(if pu(n) then [n] else [])
  {
    LeafBodyValues(n, pu);
    UniqByDistinct(if pu(n) then [n] else [], Erase);
  }

  /** Two values of different kinds are never merged as repetitions. */
  lemma UniqDifferentKinds(a: Node, b: Node)
    requires a.kind != b.kind
    ensures UniqBy([a, b], Erase) == [a, b]
  {
    assert Erase(a).kind != Erase(b).kind;
    UniqByDistinct([a, b], Erase);
  }

  /** `define_method` blocks are named by a literal first argument (`arguments.first.value`). */
  predicate Named(d: Node) {
    d.kind == Block ==>
      d.recv.Some? && |d.recv.value.kids| > 0 && d.recv.value.kids[0].kind in {Sym, Str, Int, Float, Rational}
  }

  /** `method_receiver`: the receiver of the definition (`self` for `def self.x`), if any. */
  function Receiver(d: Node): Option<Node>
    requires MethodDefinition(d)
  {
    if d.kind == Block then d.recv.value.recv else d.recv
  }

  function MethodName(d: Node): string
    requires MethodDefinition(d) && Named(d)
  {
    if d.kind == Block then d.recv.value.kids[0].name else d.name
  }

  /**
   * The kind of Ruby value naming the method: a `def` is named by a symbol,
   * a `define_method` block by whatever literal it is given (`:foo`, `'foo'`, `1`).
   */
  function NameKind(d: Node): Kind
    requires MethodDefinition(d) && Named(d)
  {
    if d.kind == Block then d.recv.value.kids[0].kind else Sym
  }

  /**
   * `rewrite_node`: the node `s(:send, receiver, name)`. Nodes compare
   * structurally and without locations, and the name is a Ruby value whose
   * class takes part in the comparison: `:foo` and `'foo'` give different keys.
   */
  datatype CallKey = CallKey(receiver: Option<Node>, nameKind: Kind, name: string)

  /** The hash key under which a definition is stored. */
  function Key(d: Node): (k: CallKey)
    requires MethodDefinition(d) && Named(d)
    ensures k.name == MethodName(d) && k.nameKind == NameKind(d)
    ensures k.receiver.Some? <==> Receiver(d).Some?
    ensures k.receiver.Some? ==> k.receiver.value == Erase(Receiver(d).value)
  {
    CallKey(match Receiver(d) { case None => None case Some(c) => Some(Erase(c)) }, NameKind(d), MethodName(d))
  }

  /** `define_method(:foo)` and `def foo` on the same receiver share their key. */
  lemma SymbolNamedSharesKey(d: Node, e: Node)
    requires MethodDefinition(d) && Named(d) && d.kind == Block && d.recv.value.kids[0].kind == Sym
    requires e.kind == Def && e.recv.None? && Receiver(d).None? && MethodName(d) == e.name
    ensures Key(d) == Key(e)
  {
  }

  /** `define_method('foo')` and `def foo` are stored under different keys. */
  lemma StringNamedKeptApart(d: Node, e: Node)
    requires MethodDefinition(d) && Named(d) && d.kind == Block && d.recv.value.kids[0].kind != Sym
    requires MethodDefinition(e) && Named(e) && e.kind != Block
    ensures Key(d) != Key(e)
  {
    assert Key(d).nameKind != Sym && Key(e).nameKind == Sym;
  }

  /**
   * What `call` demands of each definition to get through without raising:
   * an evaluable body, and a literal name for a `define_method` block whose
   * values are stored.
   */
  predicate Processable(d: Node, pu: Node -> bool) {
    MethodDefinition(d) && Evaluable(d.body) &&
    (var rv := ReturnValues(d.body, pu); rv.Some? && rv.value != [] ==> Named(d))
  }

  /** The definition has values to store. */
  predicate Yields(d: Node, pu: Node -> bool)
    requires Processable(d, pu)
  {
    var rv := ReturnValues(d.body, pu);
    rv.Some? && rv.value != []
  }

  /** What `call` stores for one definition: its call and its values, when it has any. */
  function Entry(d: Node, pu: Node -> bool): Option<(CallKey, seq<Node>)>
    requires Processable(d, pu)
  {
    if Yields(d, pu) then Some((Key(d), ReturnValues(d.body, pu).value)) else None
  }

  /** The map built by `call` over the given definitions, in order; a later definition of the same call replaces an earlier one. */
  function Definitions(defs: seq<Node>, pu: Node -> bool): map<CallKey, seq<Node>>
    requires forall i :: 0 <= i < |defs| ==> Processable(defs[i], pu)
  {
    Store(Entries(defs, pu))
  }

  function Entries(defs: seq<Node>, pu: Node -> bool): (es: seq<Option<(CallKey, seq<Node>)>>)
    requires forall i :: 0 <= i < |defs| ==> Processable(defs[i], pu)
    ensures |es| == |defs| && forall i :: 0 <= i < |defs| ==> es[i] == Entry(defs[i], pu)
  {
    seq(|defs|, i requires 0 <= i < |defs| => Entry(defs[i], pu))
  }

  lemma DefinitionsSingle(d: Node, pu: Node -> bool)
    requires Processable(d, pu) && Yields(d, pu)
    ensures Definitions([d], pu) == map[Key(d) := ReturnValues(d.body, pu).value]
  {
    var es := Entries([d], pu);
    assert es[0] == Entry(d, pu);
    StoreSingle(es);
  }

  /** What `call` demands of a whole file. */
  predicate CallDefined(ast: Option<Node>, pu: Node -> bool) {
    ast.Some? ==> forall d :: d in MethodDefinitions(ast.value) ==> Processable(d, pu)
  }

  /** The result of `call(ast)`: empty for a file without an AST. */
  function DefinitionsOf(ast: Option<Node>, pu: Node -> bool): map<CallKey, seq<Node>>
    requires CallDefined(ast, pu)
  {
    match ast
    case None => map[]
    case Some(n) => Definitions(MethodDefinitions(n), pu)
  }

  /**
   * Every stored key is the call of a definition with values, and holds that
   * definition's values: non-empty, potentially unserializable, argument-free.
   */
  lemma DefinitionsSound(defs: seq<Node>, pu: Node -> bool)
    requires forall i :: 0 <= i < |defs| ==> Processable(defs[i], pu)
    ensures var m := Definitions(defs, pu);
            forall k :: k in m ==>
              (exists i :: 0 <= i < |defs| && Yields(defs[i], pu) && Key(defs[i]) == k &&
                           m[k] == ReturnValues(defs[i].body, pu).value) &&
              m[k] != [] && forall j :: 0 <= j < |m[k]| ==> pu(m[k][j]) && Sanitized(m[k][j])
  {
    var es := Entries(defs, pu);
    var m := Definitions(defs, pu);
    forall k | k in m
      ensures (exists i :: 0 <= i < |defs| && Yields(defs[i], pu) && Key(defs[i]) == k &&
                           m[k] == ReturnValues(defs[i].body, pu).value) &&
              m[k] != [] && forall j :: 0 <= j < |m[k]| ==> pu(m[k][j]) && Sanitized(m[k][j])
    {
      StoreOrigin(es, k);
      var i :| 0 <= i < |es| && es[i] == Some((k, m[k]));
      EntrySound(defs[i], pu, k, m[k]);
    }
  }

  lemma EntrySound(d: Node, pu: Node -> bool, k: CallKey, vs: seq<Node>)
    requires Processable(d, pu) && Entry(d, pu) == Some((k, vs))
    ensures Yields(d, pu) && Key(d) == k && vs == ReturnValues(d.body, pu).value
    ensures vs != [] && forall j :: 0 <= j < |vs| ==> pu(vs[j]) && Sanitized(vs[j])
  {
  }

  /**
   * Every definition with values is stored, and the entry of its call holds
   * its values unless a later definition of the same call replaced them.
   */
  lemma DefinitionsComplete(defs: seq<Node>, pu: Node -> bool, i: nat)
    requires forall j :: 0 <= j < |defs| ==> Processable(defs[j], pu)
    requires i < |defs| && Yields(defs[i], pu)
    ensures Key(defs[i]) in Definitions(defs, pu)
    ensures (forall j :: i < j < |defs| && Yields(defs[j], pu) ==> Key(defs[j]) != Key(defs[i])) ==>
              Definitions(defs, pu)[Key(defs[i])] == ReturnValues(defs[i].body, pu).value
  {
    var es := Entries(defs, pu);
    StoreLatest(es, i);
  }

  /**
   * `DetectMethods`: built for a cop, it maps the calls of the methods
   * defined in a file to their potentially unserializable return values.
   */
  class Detector {
    const potentiallyUnserializable: Node -> bool

    constructor(pu: Node -> bool)
      ensures potentiallyUnserializable == pu
    {
      potentiallyUnserializable := pu;
    }

    /** `call(ast)`. */
    method Call(ast: Option<Node>) returns (m: map<CallKey, seq<Node>>)
      requires CallDefined(ast, potentiallyUnserializable)
      ensures m == DefinitionsOf(ast, potentiallyUnserializable)
    {
      if ast.None? {
        return map[];
      }
      var pu := potentiallyUnserializable;
      var defs := MethodDefinitions(ast.value);
      assert forall j :: 0 <= j < |defs| ==> Processable(defs[j], pu) by {
        forall j | 0 <= j < |defs| ensures Processable(defs[j], pu) {
          assert defs[j] in MethodDefinitions(ast.value);
        }
      }
      ghost var es := Entries(defs, pu);
      m := map[];
      for i := 0 to |defs|
        invariant m == Store(es[..i])
      {
        var d := defs[i];
        var rv := ReturnValues(d.body, pu);
        StoreStep(es, i);
        if rv.Some? && rv.value != [] {
          m := m[Key(d) := rv.value];
        }
      }
      assert es[..|defs|] == es;
    }
  }
}

/**
 * The mixin shared by cops that look for unserializable job arguments: the
 * `potentially_unserializable?` test and the per-file map of methods that may
 * return such values.
 */
module UnserializableArgument {
  import opened Wrappers
  import opened Syntax
  import opened Sequences
  import opened DetectMethods

  /** The node kinds whose value is unknown without evaluating: calls, variables and constants. */
  const OpaqueKinds: set<Kind> := {Send, Lvar, Ivar, Cvar, Gvar, Const}

  /**
   * `potentially_unserializable?`: the including cop's own `unserializable?`
   * test, or a node whose value cannot be known statically.
   */
  predicate PotentiallyUnserializable(n: Node, unserializable: Node -> bool) {
    unserializable(n) || n.kind in OpaqueKinds
  }

  /** The test handed to the method detector by a cop with the given `unserializable?`. */
  function DetectorTest(unserializable: Node -> bool): Node -> bool {
    n => PotentiallyUnserializable(n, unserializable)
  }

  /** A cop including the mixin: `identifier_map` is `nil` until `investigate` runs. */
  class Cop {
    const unserializable: Node -> bool
    var identifierMap: Option<map<CallKey, seq<Node>>>

    constructor(unserializable: Node -> bool)
      ensures this.unserializable == unserializable && identifierMap.None?
    {
      this.unserializable := unserializable;
      identifierMap := None;
    }

    /** `investigate`: rebuilds the map from scratch for the file's AST; nothing from an earlier file survives. */
    method Investigate(ast: Option<Node>)
      requires CallDefined(ast, DetectorTest(unserializable))
      modifies this
      ensures identifierMap == Some(DefinitionsOf(ast, DetectorTest(unserializable)))
    {
      var detector := new Detector(DetectorTest(unserializable));
      var m := detector.Call(ast);
      identifierMap := Some(m);
    }
  }

  /** The `unserializable?` of the detector's tests: every symbol. */
  predicate IsSymbol(n: Node) {
    n.kind == Sym
  }

  /** Literals other than symbols are never suspected; calls and variables always are. */
  lemma SuspectedKinds(n: Node)
    ensures n.kind in {Int, Str, False, True, Nil, Float} ==> !PotentiallyUnserializable(n, IsSymbol)
    ensures n.kind in {Sym, Send, Lvar, Const} ==> PotentiallyUnserializable(n, IsSymbol)
  {
  }

  lemma MultipleReturnNodeValues(sym: Node, other: Node, f: Node, r: Range, pu: Node -> bool)
    requires sym == Leaf(Sym, "symbol", r) && other == SendNode(None, "other_method", [], r) && f == Leaf(False, "", r)
    ensures NodeValuesAll([sym, other, f], pu) == [sym, SendNode(None, "other_method", [], Unlocated), f]
  {
    NodeValuesThree(sym, other, f, pu);
    NodeValuesKept(sym, pu);
    NodeValuesCall(other, pu);
    NodeValuesKept(f, pu);
    var bare := SendNode(None, "other_method", [], Unlocated);
    ConcatThree(sym, bare, f);
  }

  lemma NodeValuesThree(a: Node, b: Node, c: Node, pu: Node -> bool)
    ensures NodeValuesAll([a, b, c], pu) == NodeValues(a, pu) + NodeValues(b, pu) + NodeValues(c, pu)
  {
    assert [b] + [c] == [b, c] && [a] + [b, c] == [a, b, c];
    NodeValuesSingle(c, pu);
    NodeValuesAllCons(b, [c], pu);
    NodeValuesAllCons(a, [b, c], pu);
    ConcatAssoc(NodeValues(a, pu), NodeValues(b, pu), NodeValues(c, pu));
  }

  /** `return :symbol, other_method, false` gives the symbol and the bare call, not `false`. */
  lemma MultipleReturnValues(sym: Node, other: Node, f: Node, r: Range)
    requires sym == Leaf(Sym, "symbol", r) && other == SendNode(None, "other_method", [], r) && f == Leaf(False, "", r)
    ensures ReturnValuesFor([sym, other, f], DetectorTest(IsSymbol)) == [sym, SendNode(None, "other_method", [], Unlocated)]
  {
    var pu := DetectorTest(IsSymbol);
    var bare := SendNode(None, "other_method", [], Unlocated);
    MultipleReturnNodeValues(sym, other, f, r, pu);
    assert pu(sym) && pu(bare) && !pu(f);
    FilterSingle(f, pu);
    FilterCons(bare, [f], pu);
    FilterCons(sym, [bare, f], pu);
  }

  lemma MultipleReturnBody(sym: Node, other: Node, f: Node, ret: Node, r: Range)
    requires sym == Leaf(Sym, "symbol", r) && other == SendNode(None, "other_method", [], r) && f == Leaf(False, "", r)
    requires ret == Node(Return, None, "", [sym, other, f], None, r)
    ensures BodyValues(ret, DetectorTest(IsSymbol)) == [sym, SendNode(None, "other_method", [], Unlocated)]
  {
    MultipleReturnValues(sym, other, f, r);
    ReturnValuesForReturn(ret, DetectorTest(IsSymbol));
  }

  /** `def my_method; return :symbol, other_method, false; end` stores the symbol and the bare call, not `false`. */
  lemma MultipleReturnExample(r: Range)
    ensures var sym := Leaf(Sym, "symbol", r);
            var other := SendNode(None, "other_method", [], r);
            var ret := Node(Return, None, "", [sym, other, Leaf(False, "", r)], None, r);
            ReturnValues(Some(ret), DetectorTest(IsSymbol)) == Some([sym, SendNode(None, "other_method", [], Unlocated)])
  {
    var sym := Leaf(Sym, "symbol", r);
    var other := SendNode(None, "other_method", [], r);
    var f := Leaf(False, "", r);
    var ret := Node(Return, None, "", [sym, other, f], None, r);
    var bare := SendNode(None, "other_method", [], Unlocated);
    MultipleReturnBody(sym, other, f, ret, r);
    UniqDifferentKinds(sym, bare);
  }

  /** The walk of `return :symbol if condition; false`. */
  lemma ConditionalReturnPreorder(sym: Node, c: Node, ret: Node, cond: Node, f: Node, body: Node, r: Range)
    requires sym == Leaf(Sym, "symbol", r) && c == Leaf(Lvar, "condition", r) && f == Leaf(False, "", r)
    requires ret == Node(Return, None, "", [sym], None, r) && cond == Node(If, None, "", [c, ret], None, r)
    requires body == Node(Begin, None, "", [cond, f], None, r)
    ensures Descendants(body) == [cond, c, ret, sym, f]
  {
    PreorderLeaf(sym);
    PreorderLeaf(c);
    PreorderLeaf(f);
    PreorderAllCons(sym, []);
    assert Preorder(ret) == [ret, sym];
    PreorderAllCons(ret, []);
    PreorderAllCons(c, [ret]);
    assert Preorder(cond) == [cond, c, ret, sym];
    PreorderAllCons(f, []);
    PreorderAllCons(cond, [f]);
    assert Preorder(body) == [body, cond, c, ret, sym, f];
  }

  lemma OnlyThirdIsReturn(a: Node, b: Node, ret: Node, d: Node, e: Node)
    requires a.kind != Return && b.kind != Return && ret.kind == Return && d.kind != Return && e.kind != Return
    ensures Filter([a, b, ret, d, e], IsReturn) == [ret]
  {
    FilterCons(e, [], IsReturn);
    FilterCons(d, [e], IsReturn);
    FilterCons(ret, [d, e], IsReturn);
    FilterCons(b, [ret, d, e], IsReturn);
    FilterCons(a, [b, ret, d, e], IsReturn);
  }

  /** The `return` statements of `return :symbol if condition; false`. */
  lemma ConditionalReturnWalk(sym: Node, c: Node, ret: Node, cond: Node, f: Node, body: Node, r: Range)
    requires sym == Leaf(Sym, "symbol", r) && c == Leaf(Lvar, "condition", r) && f == Leaf(False, "", r)
    requires ret == Node(Return, None, "", [sym], None, r) && cond == Node(If, None, "", [c, ret], None, r)
    requires body == Node(Begin, None, "", [cond, f], None, r)
    ensures Filter(Descendants(body), IsReturn) == [ret]
  {
    ConditionalReturnPreorder(sym, c, ret, cond, f, body, r);
    OnlyThirdIsReturn(cond, c, ret, sym, f);
  }

  lemma ConditionalReturnParts(sym: Node, ret: Node, f: Node, r: Range)
    requires sym == Leaf(Sym, "symbol", r) && f == Leaf(False, "", r) && ret == Node(Return, None, "", [sym], None, r)
    ensures ReturnValuesFor([ret], DetectorTest(IsSymbol)) == [sym]
    ensures ReturnValuesFor([f], DetectorTest(IsSymbol)) == []
  {
    var pu := DetectorTest(IsSymbol);
    assert pu(sym) && !pu(f);
    ReturnValuesForLeaf(sym, pu);
    ReturnValuesForReturn(ret, pu);
    ReturnValuesForLeaf(f, pu);
  }

  lemma ConditionalReturnBody(sym: Node, c: Node, ret: Node, cond: Node, f: Node, body: Node, r: Range)
    requires sym == Leaf(Sym, "symbol", r) && c == Leaf(Lvar, "condition", r) && f == Leaf(False, "", r)
    requires ret == Node(Return, None, "", [sym], None, r) && cond == Node(If, None, "", [c, ret], None, r)
    requires body == Node(Begin, None, "", [cond, f], None, r)
    ensures BodyValues(body, DetectorTest(IsSymbol)) == [sym]
  {
    ConditionalReturnWalk(sym, c, ret, cond, f, body, r);
    ConditionalReturnParts(sym, ret, f, r);
    assert LastExpression(body) == f;
  }

  /** `return :symbol if condition; false`: the explicit return is found inside the condition; the final `false` adds nothing. */
  lemma ConditionalReturnExample(r: Range)
    ensures var sym := Leaf(Sym, "symbol", r);
            var cond := Node(If, None, "", [Leaf(Lvar, "condition", r), Node(Return, None, "", [sym], None, r)], None, r);
            var body := Node(Begin, None, "", [cond, Leaf(False, "", r)], None, r);
            ReturnValues(Some(body), DetectorTest(IsSymbol)) == Some([sym])
  {
    var sym := Leaf(Sym, "symbol", r);
    var c := Leaf(Lvar, "condition", r);
    var ret := Node(Return, None, "", [sym], None, r);
    var cond := Node(If, None, "", [c, ret], None, r);
    var f := Leaf(False, "", r);
    var body := Node(Begin, None, "", [cond, f], None, r);
    ConditionalReturnBody(sym, c, ret, cond, f, body, r);
    UniqByDistinct([sym], Erase);
  }

  /** The walk of `define_method(:my_method) do :symbol end`. */
  lemma DefineMethodPreorder(sym: Node, name: Node, call: Node, args: Node, block: Node, r: Range)
    requires sym == Leaf(Sym, "symbol", r) && name == Leaf(Sym, "my_method", r) && args == Node(Args, None, "", [], None, r)
    requires call == SendNode(None, "define_method", [name], r)
    requires block == Node(Block, Some(call), "", [args], Some(sym), r)
    ensures Preorder(block) == [block] + [call, name, args, sym]
  {
    PreorderLeaf(sym);
    PreorderLeaf(name);
    PreorderLeaf(args);
    PreorderAllCons(name, []);
    PreorderAllCons(args, []);
    assert Preorder(call) == [call, name];
  }

  /** The only definition in `define_method(:my_method) do :symbol end` is the block itself. */
  lemma DefineMethodWalk(sym: Node, name: Node, call: Node, args: Node, block: Node, r: Range)
    requires sym == Leaf(Sym, "symbol", r) && name == Leaf(Sym, "my_method", r) && args == Node(Args, None, "", [], None, r)
    requires call == SendNode(None, "define_method", [name], r)
    requires block == Node(Block, Some(call), "", [args], Some(sym), r)
    ensures MethodDefinitions(block) == [block]
  {
    DefineMethodPreorder(sym, name, call, args, block, r);
    assert !MethodDefinition(call) && !MethodDefinition(name) && !MethodDefinition(args) && !MethodDefinition(sym);
    FilterOne(block, [call, name, args, sym], MethodDefinition);
  }

  /** A file holding just a `define_method` block whose body returns `sym`. */
  lemma DefineMethodStored(sym: Node, name: Node, call: Node, block: Node, pu: Node -> bool)
    requires call == SendNode(None, "define_method", [name], call.range) && name.kind == Sym
    requires block.kind == Block && block.recv == Some(call) && block.body == Some(sym) && sym.kind != Begin
    requires MethodDefinitions(block) == [block] && ReturnValues(Some(sym), pu) == Some([sym])
    ensures CallDefined(Some(block), pu)
    ensures DefinitionsOf(Some(block), pu) == map[CallKey(None, Sym, name.name) := [sym]]
  {
    assert MethodDefinition(block) && Named(block);
    assert Processable(block, pu) && Yields(block, pu);
    DefinitionsSingle(block, pu);
    assert Key(block) == CallKey(None, Sym, name.name);
  }

  /** `define_method(:my_method) do :symbol end` is stored under the call `my_method`. */
  lemma DefineMethodExample(r: Range)
    ensures var sym := Leaf(Sym, "symbol", r);
            var call := SendNode(None, "define_method", [Leaf(Sym, "my_method", r)], r);
            var block := Node(Block, Some(call), "", [Node(Args, None, "", [], None, r)], Some(sym), r);
            CallDefined(Some(block), DetectorTest(IsSymbol)) &&
            DefinitionsOf(Some(block), DetectorTest(IsSymbol)) == map[CallKey(None, Sym, "my_method") := [sym]]
  {
    var pu := DetectorTest(IsSymbol);
    var sym := Leaf(Sym, "symbol", r);
    var name := Leaf(Sym, "my_method", r);
    var call := SendNode(None, "define_method", [name], r);
    var args := Node(Args, None, "", [], None, r);
    var block := Node(Block, Some(call), "", [args], Some(sym), r);
    DefineMethodWalk(sym, name, call, args, block, r);
    assert pu(sym);
    LeafReturnValues(sym, pu);
    DefineMethodStored(sym, name, call, block, pu);
  }

  lemma SerializableReturnBody(five: Node, ret: Node, r: Range)
    requires five == Leaf(Int, "5", r) && ret == Node(Return, None, "", [five], None, r)
    ensures BodyValues(ret, DetectorTest(IsSymbol)) == []
  {
    var pu := DetectorTest(IsSymbol);
    assert !pu(five);
    ReturnValuesForLeaf(five, pu);
    ReturnValuesForReturn(ret, pu);
  }

  /** `def my_method; return 5; end`: an integer is never suspected, so the method has no values to store. */
  lemma SerializableReturnExample(r: Range)
    ensures var five := Leaf(Int, "5", r);
            ReturnValues(Some(Node(Return, None, "", [five], None, r)), DetectorTest(IsSymbol)) == Some([])
  {
    var five := Leaf(Int, "5", r);
    SerializableReturnBody(five, Node(Return, None, "", [five], None, r), r);
  }
}

/**
 * `Sidekiq/ConstArgument`: classes, modules, freshly built objects and `self`
 * passed to a job cannot be serialized. Constants whose name is all capitals,
 * digits and underscores (`MY_CONSTANT`) are values, not classes, and pass.
 */
module ConstArgument {
  import opened Wrappers
  import opened Syntax
  import opened Reports
  import opened Helpers

  const Msg := "Objects are not Sidekiq-serializable."
  const MsgSelf := "`self` is not Sidekiq-serializable."

  /** `initializer?`, the NodePattern `(send const :new)`: `Foo.new` without arguments. */
  predicate Initializer(n: Node) {
    n.kind == Send && n.recv.Some? && n.recv.value.kind == Const && n.name == "new" && n.kids == []
  }

  /** `const_argument?`: `{#initializer? #constant? self}`. */
  predicate ConstArgument(n: Node) {
    Initializer(n) || n.kind == Const || n.kind == Self
  }

  /** `CONSTANT_NAME`, the regular expression `\A[A-Z0-9_]+\z`. */
  predicate ConstantName(s: string) {
    |s| > 0 && forall i :: 0 <= i < |s| ==> ('A' <= s[i] <= 'Z' || '0' <= s[i] <= '9' || s[i] == '_')
  }

  /** `non_class_constant?`: a constant whose own name (not its scope) is a `CONSTANT_NAME`. */
  predicate NonClassConstant(n: Node) {
    n.kind == Const && ConstantName(n.name)
  }

  /** The arguments `on_send` reports. */
  predicate Flagged(n: Node) {
    ConstArgument(n) && !NonClassConstant(n)
  }

  /** The message for a reported argument: its own for `self`. */
  function Message(n: Node): (r: string)
    ensures r == MsgSelf <==> n.kind == Self
    ensures r == Msg <==> n.kind != Self
  {
    if n.kind == Self then MsgSelf else Msg
  }

  /**
   * `on_send`: one offense per inspected argument of a `perform_*` call that is
   * a class-like constant, an initializer or `self`, and none for anything else.
   */
  function OnSend(node: Node): (r: seq<Offense>)
    requires PerformArity(node)
    ensures SidekiqPerform(node).None? ==> r == []
    ensures OffensesFrom(r, SidekiqArguments(node), Flagged, Message)
    ensures OffensesFor(r, SidekiqArguments(node), Flagged, Message)
  {
    ReportWhere(SidekiqArguments(node), Flagged, Message)
  }

  /** `self` is always reported, with its own message, wherever the arguments reach it. */
  lemma SelfReported(node: Node, x: Node)
    requires node.kind == Send && node.recv.Some? && node.recv.value.kind == Const && node.name == "perform_async"
    requires x.kind == Self && Reaches(node.kids, x)
    ensures Offense(x.range, MsgSelf) in OnSend(node)
  {
    InspectedArguments(node, x);
    var args := SidekiqArguments(node);
    var j :| 0 <= j < |args| && args[j] == x;
    assert Flagged(args[j]) && Message(args[j]) == MsgSelf;
    assert OffensesFor(OnSend(node), args, Flagged, Message);
  }

  /**
   * Nothing but initializers, constants and `self` is reported, and a
   * constant named like `MY_CONSTANT` never is.
   */
  lemma OnlyClassLikeReported(node: Node, o: Offense)
    requires PerformArity(node) && o in OnSend(node)
    ensures exists x :: x in SidekiqArguments(node) && x.range == o.range && ConstArgument(x) && !NonClassConstant(x)
  {
    var r := OnSend(node);
    var i :| 0 <= i < |r| && r[i] == o;
    var args := SidekiqArguments(node);
    var j :| 0 <= j < |args| && Flagged(args[j]) && r[i] == Offense(args[j].range, Message(args[j]));
    assert args[j] in args;
  }

  /** `CONSTANT_NAME` examples: value constants match, class names and the empty name do not. */
  lemma ConstantNameExamples()
    ensures ConstantName("MY_CONSTANT") && ConstantName("V2")
    ensures !ConstantName("MyClass") && !ConstantName("")
  {
    assert "MyClass"[1] == 'y';
  }

  /** `MyJob.perform_async(arg)` with the argument at offsets 20.. */
  function PerformWith(arg: Node): Node {
    SendNode(Some(Leaf(Const, "MyJob", Range(0, 5))), "perform_async", [arg], Range(0, arg.range.end + 1))
  }

  /** `MyJob.perform_async(arg)` inspects exactly `arg` when it is not an array or hash. */
  lemma PerformWithArguments(arg: Node)
    requires !IsContainer(arg)
    ensures SidekiqArguments(PerformWith(arg)) == [arg]
  {
    ExpandFlat([arg]);
  }

  /** A single plain argument is reported exactly when it is flagged. */
  lemma PerformWithReport(arg: Node)
    requires !IsContainer(arg)
    ensures OnSend(PerformWith(arg)) == if Flagged(arg) then [Offense(arg.range, Message(arg))] else []
  {
    PerformWithArguments(arg);
    ReportWhereSingle(arg, Flagged, Message);
  }

  /** `MyJob.perform_async(MyClass)` is reported. */
  lemma ClassReported()
    ensures OnSend(PerformWith(Leaf(Const, "MyClass", Range(20, 27)))) == [Offense(Range(20, 27), Msg)]
  {
    assert "MyClass"[1] == 'y';
    PerformWithReport(Leaf(Const, "MyClass", Range(20, 27)));
  }

  /** `MyJob.perform_async(Namespace::Class)` is reported. */
  lemma ScopedClassReported()
    ensures OnSend(PerformWith(Node(Const, Some(Leaf(Const, "Namespace", Range(20, 29))), "Class", [], None, Range(20, 36)))) ==
            [Offense(Range(20, 36), Msg)]
  {
    assert "Class"[1] == 'l';
    PerformWithReport(Node(Const, Some(Leaf(Const, "Namespace", Range(20, 29))), "Class", [], None, Range(20, 36)));
  }

  /** `MyJob.perform_async(MyClass::MY_CONSTANT)` is not reported. */
  lemma ValueConstantAllowed()
    ensures OnSend(PerformWith(Node(Const, Some(Leaf(Const, "MyClass", Range(20, 27))), "MY_CONSTANT", [], None, Range(20, 40)))) == []
  {
    var c := Node(Const, Some(Leaf(Const, "MyClass", Range(20, 27))), "MY_CONSTANT", [], None, Range(20, 40));
    assert ConstantName(c.name);
    PerformWithReport(c);
  }

  /** `MyJob.perform_async(self)` is reported with the `self` message. */
  lemma SelfArgumentReported()
    ensures OnSend(PerformWith(Leaf(Self, "", Range(20, 24)))) == [Offense(Range(20, 24), MsgSelf)]
  {
    PerformWithReport(Leaf(Self, "", Range(20, 24)));
  }

  /** `MyJob.perform_async(Foo.new)` is reported, at the range of `Foo.new`. */
  lemma InitializerReported(foo: Range, r: Range)
    ensures OnSend(PerformWith(SendNode(Some(Leaf(Const, "Foo", foo)), "new", [], r))) == [Offense(r, Msg)]
  {
    var arg := SendNode(Some(Leaf(Const, "Foo", foo)), "new", [], r);
    assert Flagged(arg) && Message(arg) == Msg;
    PerformWithReport(arg);
  }

  /** `MyJob.perform_async(Foo.new(1))` does not match `(send const :new)` and is not reported. */
  lemma InitializerWithArgumentsIgnored(foo: Range, one: Range, r: Range)
    ensures OnSend(PerformWith(SendNode(Some(Leaf(Const, "Foo", foo)), "new", [Leaf(Int, "1", one)], r))) == []
  {
    var arg := SendNode(Some(Leaf(Const, "Foo", foo)), "new", [Leaf(Int, "1", one)], r);
    assert !Flagged(arg);
    PerformWithReport(arg);
  }
}

/**
 * `Sidekiq/SymbolArgument`: symbols passed to a job come back as strings, so
 * every symbol among the inspected arguments is reported, and the correction
 * replaces it by the string literal of its name.
 */
module SymbolArgument {
  import opened Wrappers
  import opened Syntax
  import opened Reports
  import opened Helpers

  const Msg := "Symbols are not Sidekiq-serializable; use strings instead."

  predicate IsSymbol(n: Node) {
    n.kind == Sym
  }

  /** Every offense of this cop carries the one message. */
  function Message(n: Node): string
  {
    Msg
  }

  /** `on_send`: one offense per symbol among the inspected arguments of a `perform_*` call. */
  function OnSend(node: Node): (r: seq<Offense>)
    requires PerformArity(node)
    ensures SidekiqPerform(node).None? ==> r == []
    ensures OffensesFrom(r, SidekiqArguments(node), IsSymbol, Message)
    ensures OffensesFor(r, SidekiqArguments(node), IsSymbol, Message)
  {
    ReportWhere(SidekiqArguments(node), IsSymbol, Message)
  }

  /**
   * A symbol is reported exactly when it is reached through the arguments of
   * a `perform_async` call, as an argument, an array element or a hash value.
   */
  lemma SymbolReported(node: Node, x: Node)
    requires node.kind == Send && node.recv.Some? && node.recv.value.kind == Const && node.name == "perform_async"
    requires x.kind == Sym
    ensures Reaches(node.kids, x) ==> Offense(x.range, Msg) in OnSend(node)
    ensures Offense(x.range, Msg) in OnSend(node) ==>
              exists y :: y in SidekiqArguments(node) && y.kind == Sym && y.range == x.range && Reaches(node.kids, y)
  {
    InspectedArguments(node, x);
    var args := SidekiqArguments(node);
    if Reaches(node.kids, x) {
      var j :| 0 <= j < |args| && args[j] == x;
    }
    var r := OnSend(node);
    if Offense(x.range, Msg) in r {
      var i :| 0 <= i < |r| && r[i] == Offense(x.range, Msg);
      var j :| 0 <= j < |args| && IsSymbol(args[j]) && r[i] == Offense(args[j].range, Message(args[j]));
      InspectedArguments(node, args[j]);
      assert args[j] in args;
    }
  }

  /**
   * `autocorrect`: the symbol's source is replaced by `to_string_literal` of
   * its name; `toStringLiteral` stands for that helper.
   */
  function Autocorrect(n: Node, toStringLiteral: string -> string): (e: Edit)
    ensures e.range == n.range && e.text == toStringLiteral(n.name)
  {
    Edit(n.range, toStringLiteral(n.name))
  }

  /** The correction changes the symbol's text and nothing before or after it. */
  lemma AutocorrectReplacesOnlySymbol(src: string, n: Node, toStringLiteral: string -> string)
    requires n.range.begin <= n.range.end <= |src|
    ensures Applicable(src, [Autocorrect(n, toStringLiteral)])
    ensures Apply(src, [Autocorrect(n, toStringLiteral)]) ==
            src[..n.range.begin] + toStringLiteral(n.name) + src[n.range.end..]
  {
    var e := Autocorrect(n, toStringLiteral);
    assert [e][1..] == [];
    assert ApplyFrom(src, [e], 0) == src[0..e.range.begin] + e.text + ApplyFrom(src, [], e.range.end);
  }

  /** `MyJob.perform_async(:foo)` becomes `MyJob.perform_async('foo')`. */
  lemma AutocorrectExample(toStringLiteral: string -> string)
    requires toStringLiteral("foo") == "'foo'"
    ensures Apply("MyJob.perform_async(:foo)", [Autocorrect(Leaf(Sym, "foo", Range(20, 24)), toStringLiteral)]) ==
            "MyJob.perform_async('foo')"
  {
    var src := "MyJob.perform_async(:foo)";
    AutocorrectReplacesOnlySymbol(src, Leaf(Sym, "foo", Range(20, 24)), toStringLiteral);
    assert src[..20] == "MyJob.perform_async(";
    assert src[24..] == ")";
  }

  /** `MyJob.perform_async(key => value)`. */
  function PerformWithPair(key: Node, value: Node): Node {
    var pair := Node(Pair, None, "", [key, value], None, Range(key.range.begin, value.range.end));
    var h := Node(Hash, None, "", [pair], None, pair.range);
    SendNode(Some(Leaf(Const, "MyJob", Range(0, 5))), "perform_async", [h], Range(0, value.range.end + 1))
  }

  /** A hash argument's key is never reported; its value is reported when it is a symbol. */
  lemma PairReported(key: Node, value: Node)
    requires !IsContainer(value)
    ensures OnSend(PerformWithPair(key, value)) == if IsSymbol(value) then [Offense(value.range, Msg)] else []
  {
    ExpandSinglePair(key, value, Range(key.range.begin, value.range.end), Range(key.range.begin, value.range.end));
    ReportWhereSingle(value, IsSymbol, Message);
  }

  /** `MyJob.perform_async(foo: :bar)`: the value `:bar` is reported, the key `:foo` is not. */
  lemma HashValueReported()
    ensures OnSend(PerformWithPair(Leaf(Sym, "foo", Range(20, 23)), Leaf(Sym, "bar", Range(25, 29)))) ==
            [Offense(Range(25, 29), Msg)]
  {
    PairReported(Leaf(Sym, "foo", Range(20, 23)), Leaf(Sym, "bar", Range(25, 29)));
  }
}

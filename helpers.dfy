/**
 * The node matchers and helpers shared by the Sidekiq cops: recognising job
 * classes and `perform_*` calls, flattening job arguments, and the list of
 * approved (or denied) source ranges that some cops keep while they walk a file.
 */
module Helpers {
  import opened Wrappers
  import opened Syntax
  import opened Sequences

  /** The three ways of enqueueing a job. */
  const PerformMethods: set<string> := {"perform_async", "perform_in", "perform_at"}

  /** `include Sidekiq::Job`, written with a bare `Sidekiq`. */
  predicate SidekiqInclude(n: Node) {
    n.kind == Send && n.recv.None? && n.name == "include" && |n.kids| == 1 &&
    IsConstNamed(n.kids[0], "Job") && n.kids[0].recv.Some? && IsBareConst(n.kids[0].recv.value, "Sidekiq")
  }

  /** A body that is that `include`, or a `begin` holding it as one of its statements. */
  predicate IncludesSidekiq(n: Node) {
    (n.kind == Begin && exists i :: 0 <= i < |n.kids| && SidekiqInclude(n.kids[i])) || SidekiqInclude(n)
  }

  /** `class Foo ... include Sidekiq::Job ... end`. */
  predicate JobClassDef(n: Node) {
    n.kind == Class && n.body.Some? && IncludesSidekiq(n.body.value)
  }

  /** `Class.new(...) do ... include Sidekiq::Job ... end`. */
  predicate JobAnonClassDef(n: Node) {
    n.kind == Block && n.recv.Some? && n.recv.value.kind == Send && n.recv.value.name == "new" &&
    n.recv.value.recv.Some? && IsBareConst(n.recv.value.recv.value, "Class") &&
    n.body.Some? && IncludesSidekiq(n.body.value)
  }

  predicate SidekiqJob(n: Node) {
    JobClassDef(n) || JobAnonClassDef(n)
  }

  /** A `class` or `block` ancestor that defines a job: what `each_ancestor(:class, :block)` inspects. */
  predicate JobAncestor(a: Node) {
    (a.kind == Class || a.kind == Block) && SidekiqJob(a)
  }

  /**
   * `in_sidekiq_job?`: the innermost enclosing job definition. `ancestors`
   * lists the enclosing nodes from the parent outwards.
   */
  function InSidekiqJob(ancestors: seq<Node>): (r: Option<Node>)
    ensures r.Some? <==> exists i :: 0 <= i < |ancestors| && SidekiqJob(ancestors[i])
    ensures r.Some? ==> exists i :: 0 <= i < |ancestors| && ancestors[i] == r.value && SidekiqJob(r.value) &&
                                    forall j :: 0 <= j < i ==> !SidekiqJob(ancestors[j])
  {
    assert forall a :: SidekiqJob(a) ==> JobAncestor(a);
    First(ancestors, JobAncestor)
  }

  /** `sidekiq_perform?`: the enqueueing method of a `Const.perform_*(...)` call, if it is one. */
  function SidekiqPerform(n: Node): (r: Option<string>)
    ensures r.Some? ==> r.value in PerformMethods && r.value == n.name && n.kind == Send
    ensures r.Some? <==> n.kind == Send && n.recv.Some? && n.recv.value.kind == Const && n.name in PerformMethods
  {
    if n.kind == Send && n.recv.Some? && n.recv.value.kind == Const && n.name in PerformMethods then Some(n.name) else None
  }

  predicate IsContainer(n: Node) {
    n.kind == Array || n.kind == Hash
  }

  /**
   * `expand_arguments`: arrays and hashes are replaced, recursively, by their
   * elements and their values; every other argument stands for itself.
   */
  function Expand(args: seq<Node>): (r: seq<Node>)
    ensures forall x :: x in r ==> !IsContainer(x)
    decreases SizeAll(args)
  {
    if args == [] then []
    else
      var a := args[0];
      (if IsContainer(a) then Expand(Values(a)) else [a]) + Expand(args[1..])
  }

  /**
   * `x` is one of `args`, or is reached from one of them through array
   * elements and hash-pair values (never through hash keys), at any depth.
   */
  ghost predicate Reaches(args: seq<Node>, x: Node)
    decreases SizeAll(args)
  {
    exists i :: 0 <= i < |args| &&
      (args[i] == x || (IsContainer(args[i]) && (SizeAllElement(args, i); Reaches(Values(args[i]), x))))
  }

  /** Expansion yields exactly the non-container nodes reachable through elements and values. */
  lemma {:induction false} ExpandReaches(args: seq<Node>, x: Node)
    ensures x in Expand(args) <==> Reaches(args, x) && !IsContainer(x)
    decreases SizeAll(args)
  {
    if args == [] {
      return;
    }
    var a := args[0];
    var head := if IsContainer(a) then Expand(Values(a)) else [a];
    assert Expand(args) == head + Expand(args[1..]);
    SizeAllElement(args, 0);
    if IsContainer(a) {
      ExpandReaches(Values(a), x);
    }
    ExpandReaches(args[1..], x);
    if x in Expand(args) {
      if x in head {
        assert Reaches(args, x) by {
          assert 0 < |args| && (args[0] == x || (IsContainer(args[0]) && Reaches(Values(args[0]), x)));
        }
      } else {
        var j :| 0 <= j < |args[1..]| && (args[1..][j] == x || (IsContainer(args[1..][j]) && Reaches(Values(args[1..][j]), x)));
        assert args[j + 1] == args[1..][j];
        SizeAllElement(args, j + 1);
      }
    }
    if Reaches(args, x) && !IsContainer(x) {
      var i :| 0 <= i < |args| && (args[i] == x || (IsContainer(args[i]) && (SizeAllElement(args, i); Reaches(Values(args[i]), x))));
      if i > 0 {
        assert args[1..][i - 1] == args[i];
        SizeAllElement(args[1..], i - 1);
        assert Reaches(args[1..], x);
      }
    }
  }

  /** Arguments with no array or hash among them are passed through unchanged. */
  lemma {:induction false} ExpandFlat(args: seq<Node>)
    requires forall i :: 0 <= i < |args| ==> !IsContainer(args[i])
    ensures Expand(args) == args
    decreases |args|
  {
    if args != [] {
      ExpandFlat(args[1..]);
    }
  }

  /** Expansion works argument by argument. */
  lemma {:induction false} ExpandAppend(a: seq<Node>, b: seq<Node>)
    ensures Expand(a + b) == Expand(a) + Expand(b)
    decreases |a|
  {
    if a == [] {
      assert a + b == b;
    } else {
      assert (a + b)[0] == a[0] && (a + b)[1..] == a[1..] + b;
      ExpandAppend(a[1..], b);
    }
  }

  /** Calling `perform_in`/`perform_at` without arguments raises in `sidekiq_arguments`. */
  predicate PerformArity(n: Node) {
    SidekiqPerform(n).Some? && SidekiqPerform(n).value != "perform_async" ==> |n.kids| >= 1
  }

  /**
   * `sidekiq_arguments`: the expanded arguments of a `perform_*` call; the
   * first argument (the time) of `perform_in` and `perform_at` is dropped.
   */
  function SidekiqArguments(n: Node): (r: seq<Node>)
    requires PerformArity(n)
    ensures SidekiqPerform(n).None? ==> r == []
    ensures forall x :: x in r ==> !IsContainer(x)
  {
    match SidekiqPerform(n)
    case None => []
    case Some(m) => if m == "perform_async" then Expand(n.kids) else Expand(n.kids[1..])
  }

  /** The scheduled forms inspect what `perform_async` would, after the time argument. */
  lemma ScheduledArguments(n: Node, scheduled: string, time: Node)
    requires n.kind == Send && n.recv.Some? && n.recv.value.kind == Const && n.name == "perform_async"
    requires scheduled == "perform_in" || scheduled == "perform_at"
    ensures SidekiqArguments(n.(name := scheduled, kids := [time] + n.kids)) == SidekiqArguments(n)
  {
    assert ([time] + n.kids)[1..] == n.kids;
  }

  /** A node reached through the arguments of a `perform_*` call is inspected iff it is not a container. */
  lemma InspectedArguments(n: Node, x: Node)
    requires n.kind == Send && n.recv.Some? && n.recv.value.kind == Const && n.name == "perform_async"
    ensures x in SidekiqArguments(n) <==> Reaches(n.kids, x) && !IsContainer(x)
  {
    ExpandReaches(n.kids, x);
  }

  /** `within?(inner, outer)`. */
  predicate Within(inner: Range, outer: Range) {
    inner.begin >= outer.begin && inner.end <= outer.end
  }

  /** `node_approved?` / `node_denied?` against a list of ranges. */
  predicate Covered(ranges: seq<Range>, r: Range) {
    exists i :: 0 <= i < |ranges| && Within(r, ranges[i])
  }

  /** Containment of ranges is reflexive and transitive. */
  lemma WithinOrder(a: Range, b: Range, c: Range)
    ensures Within(a, a)
    ensures Within(a, b) && Within(b, c) ==> Within(a, c)
  {
  }

  /** Nothing is covered by an empty list. */
  lemma CoveredEmpty(r: Range)
    ensures !Covered([], r)
  {
  }

  /**
   * After `approve_node` appends `r`, a range is covered exactly when it was
   * covered before or lies within `r`.
   */
  lemma CoveredAfterApprove(ranges: seq<Range>, r: Range, x: Range)
    ensures Covered(ranges + [r], x) <==> Covered(ranges, x) || Within(x, r)
  {
    var grown := ranges + [r];
    if Covered(grown, x) {
      var i :| 0 <= i < |grown| && Within(x, grown[i]);
      if i < |ranges| {
        assert grown[i] == ranges[i];
      }
    }
    if Covered(ranges, x) {
      CoveredGrows(ranges, [r], x);
    }
    if Within(x, r) {
      assert grown[|ranges|] == r;
    }
  }

  /** Adding ranges never uncovers anything. */
  lemma CoveredGrows(ranges: seq<Range>, more: seq<Range>, r: Range)
    requires Covered(ranges, r)
    ensures Covered(ranges + more, r)
  {
    var i :| 0 <= i < |ranges| && Within(r, ranges[i]);
    assert (ranges + more)[i] == ranges[i];
  }

  /** Ranges kept from an earlier list still cover what they covered. */
  lemma CoveredPrefix(small: seq<Range>, big: seq<Range>, r: Range)
    requires |small| <= |big| && big[..|small|] == small
    ensures Covered(small, r) ==> Covered(big, r)
  {
    if Covered(small, r) {
      var i :| 0 <= i < |small| && Within(r, small[i]);
      assert big[i] == small[i];
    }
  }

  /**
   * The approved (or denied) ranges a cop instance keeps for a file:
   * `approve_node`/`deny_node` add a node's range, `node_approved?`/
   * `node_denied?` ask whether a node lies within one of them.
   */
  class ApprovedRanges {
    var ranges: seq<Range>

    constructor()
      ensures ranges == []
    {
      ranges := [];
    }

    method Approve(n: Node)
      modifies this
      ensures ranges == old(ranges) + [n.range]
    {
      ranges := ranges + [n.range];
    }

    method IsApproved(n: Node) returns (approved: bool)
      ensures approved <==> Covered(ranges, n.range)
    {
      approved := false;
      var i := 0;
      while i < |ranges|
        invariant 0 <= i <= |ranges|
        invariant approved <==> exists k :: 0 <= k < i && Within(n.range, ranges[k])
      {
        if Within(n.range, ranges[i]) {
          approved := true;
        }
        i := i + 1;
      }
    }
  }

  /** `include Sidekiq::Job` at a given range. */
  function IncludeJob(r: Range): Node {
    SendNode(None, "include", [Node(Const, Some(Leaf(Const, "Sidekiq", r)), "Job", [], None, r)], r)
  }

  /** A job class is recognised wherever the include sits among its statements; an inner job does not make the outer class one. */
  lemma JobClassExamples(r: Range)
    ensures var k := Leaf(Const, "MyJob", r);
            var d := Node(Def, None, "call", [Node(Args, None, "", [], None, r)], None, r);
            var cls := Node(Class, Some(k), "", [], Some(Node(Begin, None, "", [Node(Casgn, None, "FOO", [Leaf(Sym, "foo", r)], None, r), d, IncludeJob(r)], None, r)), r);
            SidekiqJob(cls) &&
            !SidekiqJob(Node(Class, Some(Leaf(Const, "Outer", r)), "", [], Some(cls), r)) &&
            !SidekiqJob(Node(Class, Some(k), "", [], None, r))
  {
    var k := Leaf(Const, "MyJob", r);
    var d := Node(Def, None, "call", [Node(Args, None, "", [], None, r)], None, r);
    var body := Node(Begin, None, "", [Node(Casgn, None, "FOO", [Leaf(Sym, "foo", r)], None, r), d, IncludeJob(r)], None, r);
    assert SidekiqInclude(body.kids[2]);
  }

  /** `in_sidekiq_job?` finds the enclosing anonymous job, and nothing inside a module. */
  lemma InSidekiqJobExamples(r: Range)
    ensures InSidekiqJob([Node(Begin, None, "", [], None, r), AnonymousJob(r)]) == Some(AnonymousJob(r))
    ensures InSidekiqJob([Node(Module, Some(Leaf(Const, "Foo", r)), "", [], None, r)]).None?
  {
    AnonymousJobFound(r);
    ModuleIsNoJob(r);
  }

  /** `Class.new do include Sidekiq::Job end`. */
  function AnonymousJob(r: Range): Node {
    Node(Block, Some(SendNode(Some(Leaf(Const, "Class", r)), "new", [], r)), "",
         [Node(Args, None, "", [], None, r)], Some(IncludeJob(r)), r)
  }

  lemma AnonymousJobFound(r: Range)
    ensures InSidekiqJob([Node(Begin, None, "", [], None, r), AnonymousJob(r)]) == Some(AnonymousJob(r))
  {
    var anon := AnonymousJob(r);
    var body := Node(Begin, None, "", [], None, r);
    assert !JobAncestor(body) && JobAncestor(anon);
    assert [body, anon][1..] == [anon];
    assert First([body, anon], JobAncestor) == First([anon], JobAncestor);
  }

  lemma ModuleIsNoJob(r: Range)
    ensures InSidekiqJob([Node(Module, Some(Leaf(Const, "Foo", r)), "", [], None, r)]).None?
  {
    var m := Node(Module, Some(Leaf(Const, "Foo", r)), "", [], None, r);
    assert !JobAncestor(m);
    assert First([m], JobAncestor) == First([m][1..], JobAncestor);
  }

  /** `class MyJob; include Sidekiq::Job; <stmt>; end`: the statements' `begin` and the class. */
  function JobBody(stmt: Node, r: Range): Node {
    Node(Begin, None, "", [IncludeJob(r), stmt], None, r)
  }

  function JobClass(stmt: Node, r: Range): Node {
    Node(Class, Some(Leaf(Const, "MyJob", r)), "", [], Some(JobBody(stmt, r)), r)
  }

  /** A statement of a job class is in that job. */
  lemma InJobClass(stmt: Node, r: Range)
    ensures InSidekiqJob([JobBody(stmt, r), JobClass(stmt, r)]) == Some(JobClass(stmt, r))
  {
    var body := JobBody(stmt, r);
    var cls := JobClass(stmt, r);
    assert SidekiqInclude(body.kids[0]);
    assert !SidekiqJob(body) && SidekiqJob(cls);
    var a := [body, cls];
    assert a[0] == body && a[1] == cls;
  }

  /** `{key => value}` as an argument expands to its value alone. */
  lemma ExpandSinglePair(key: Node, value: Node, pairRange: Range, hashRange: Range)
    requires !IsContainer(value)
    ensures Expand([Node(Hash, None, "", [Node(Pair, None, "", [key, value], None, pairRange)], None, hashRange)]) == [value]
  {
    var h := Node(Hash, None, "", [Node(Pair, None, "", [key, value], None, pairRange)], None, hashRange);
    assert PairValues(h.kids[1..]) == [];
    assert Values(h) == [value];
    assert Expand([value]) == [value] by {
      assert [value][1..] == [];
    }
    assert [h][1..] == [];
  }

  /** `[:a, {b: :c}]` expands to `:a, :c`: the hash key `:b` is not an argument. */
  lemma ExpandNestedExample(r: Range)
    ensures var a := Leaf(Sym, "a", r);
            var b := Leaf(Sym, "b", r);
            var c := Leaf(Sym, "c", r);
            var h := Node(Hash, None, "", [Node(Pair, None, "", [b, c], None, r)], None, r);
            Expand([Node(Array, None, "", [a, h], None, r)]) == [a, c]
  {
    var a := Leaf(Sym, "a", r);
    var b := Leaf(Sym, "b", r);
    var c := Leaf(Sym, "c", r);
    var h := Node(Hash, None, "", [Node(Pair, None, "", [b, c], None, r)], None, r);
    var arr := Node(Array, None, "", [a, h], None, r);
    assert PairValues(h.kids[1..]) == [];
    assert Values(h) == [c];
    assert Expand([c]) == [c] by {
      assert [c][1..] == [];
    }
    assert Expand([h]) == [c] by {
      assert [h][1..] == [];
    }
    assert Expand([a, h]) == [a] + Expand([h]) by {
      assert [a, h][1..] == [h];
    }
    assert Values(arr) == [a, h];
    assert Expand([arr]) == Expand([a, h]) + Expand([]) by {
      assert [arr][1..] == [];
    }
  }
}
